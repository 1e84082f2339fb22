/**
 What the IDs and roots of the protocol commit to: where two of them are equal, so are the things they stand for,
 or else two strings that were hashed for them collide.
 */
module Bindings {
  import opened Prelude
  import opened Items
  import opened Ledger
  import opened Encoding
  import opened Machine
  import opened Instructions
  import opened Interpreter
  import opened Compilation
  import opened Transfers
  import opened Blocks
  import opened Generation
  import Effects
  import Merkle
  import Runs
  import Patricia
  import PatriciaHash
  import Commits

  /** Two different strings with one hash under the given function name. */
  ghost predicate Collides(c: Crypto, name: string, x: bytes, y: bytes) {
    x != y && c.vmHash(name, x) == c.vmHash(name, y)
  }

  /** The item on top. */
  function Top(s: State): Item
    requires s.contract.stack != []
  {
    s.contract.stack[|s.contract.stack| - 1]
  }

  // --- assets, contracts and nonces

  lemma IssuedAsset(c: Crypto, s: State, tag: bytes)
    requires s.contract.stack != [] && Top(s) == Plain(Bytes(tag)) && OpIssue(c, s).Ok?
    ensures
      var t := OpIssue(c, s).value;
      t.contract.stack != [] && Top(t).Val? && Top(t).v.assetID == c.vmHash("AssetID", s.contract.seed + tag)
  {
    hide Kept, Recorded, StackAmount, NaturalStack;
  }

  /** Values of one asset were issued by contracts with one seed, under one tag. */
  lemma AssetBindsIssuer(c: Crypto, s: State, x: bytes, t: State, y: bytes)
    requires s.contract.stack != [] && Top(s) == Plain(Bytes(x)) && OpIssue(c, s).Ok? && |s.contract.seed| == 32
    requires t.contract.stack != [] && Top(t) == Plain(Bytes(y)) && OpIssue(c, t).Ok? && |t.contract.seed| == 32
    ensures
      var s', t' := OpIssue(c, s).value, OpIssue(c, t).value;
      && s'.contract.stack != [] && Top(s').Val? && t'.contract.stack != [] && Top(t').Val?
      && (Top(s').v.assetID == Top(t').v.assetID ==>
            || (s.contract.seed == t.contract.seed && x == y)
            || Collides(c, "AssetID", s.contract.seed + x, t.contract.seed + y))
  {
    hide OpIssue;
    IssuedAsset(c, s, x);
    IssuedAsset(c, t, y);
    var a, b := s.contract.seed + x, t.contract.seed + y;
    assert a[..32] == s.contract.seed && a[32..] == x && b[..32] == t.contract.seed && b[32..] == y;
  }

  /** Contracts with one seed were made of one program. */
  lemma SeedBindsProgram(c: Crypto, s: State, rest: seq<Item>, x: bytes, t: State, rest': seq<Item>, y: bytes)
    requires s.contract.stack == rest + [Plain(Bytes(x))] && s.runlimit >= 128
    requires t.contract.stack == rest' + [Plain(Bytes(y))] && t.runlimit >= 128
    ensures
      var s', t' := OpContract(c, s), OpContract(c, t);
      && s'.Ok? && s'.value.contract.stack != [] && Top(s'.value).Con?
      && t'.Ok? && t'.value.contract.stack != [] && Top(t'.value).Con?
      && (Top(s'.value).c.seed == Top(t'.value).c.seed ==> x == y || Collides(c, "ContractSeed", x, y))
  {
    hide Kept, OpContract;
    Effects.MakesContract(c, s, rest, x);
    Effects.MakesContract(c, t, rest', y);
  }

  /** Values with the anchors of nonces: the nonces were made for one caller, by one contract, for one block and expiry. */
  lemma AnchorBindsNonce(c: Crypto, s: State, rest: seq<Item>, block: bytes, exp: int64,
                         t: State, rest': seq<Item>, block': bytes, exp': int64)
    requires s.contract.stack == rest + [Plain(Bytes(block)), Plain(Int(exp))] && !s.tx.finalized && s.runlimit >= 139
    requires t.contract.stack == rest' + [Plain(Bytes(block')), Plain(Int(exp'))] && !t.tx.finalized && t.runlimit >= 139
    requires |s.caller| <= MAX_INT64 && |s.contract.seed| <= MAX_INT64 && |block| <= MAX_INT64
    requires |t.caller| <= MAX_INT64 && |t.contract.seed| <= MAX_INT64 && |block'| <= MAX_INT64
    ensures
      var x := [Bytes([0x4e]), Bytes(s.caller), Bytes(s.contract.seed), Bytes(block), Int(exp)];
      var y := [Bytes([0x4e]), Bytes(t.caller), Bytes(t.contract.seed), Bytes(block'), Int(exp')];
      var s', t' := OpNonce(c, s), OpNonce(c, t);
      && s'.Ok? && s'.value.contract.stack != [] && Top(s'.value).Val?
      && t'.Ok? && t'.value.contract.stack != [] && Top(t'.value).Val?
      && (Top(s'.value).v.anchor == Top(t'.value).v.anchor ==> x == y || Collides(c, "Nonce", Encode(Tuple(x)), Encode(Tuple(y))))
  {
    hide Kept, OpNonce, Encode;
    Effects.MakesNonce(c, s, rest, block, exp);
    Effects.MakesNonce(c, t, rest', block', exp');
    var x := [Bytes([0x4e]), Bytes(s.caller), Bytes(s.contract.seed), Bytes(block), Int(exp)];
    var y := [Bytes([0x4e]), Bytes(t.caller), Bytes(t.contract.seed), Bytes(block'), Int(exp')];
    if Encode(Tuple(x)) == Encode(Tuple(y)) {
      EncodeIsInjective(Tuple(x), Tuple(y));
    }
  }

  // --- transactions

  lemma {:induction false} EncodingsBindLog(log: seq<Entry>, log': seq<Entry>)
    requires (forall t <- log :: Sized(Tuple(t))) && (forall t <- log' :: Sized(Tuple(t)))
    requires EncodeEach(log) == EncodeEach(log')
    ensures log == log'
  {
    hide Encode, Sized;
    assert |log| == |EncodeEach(log)| == |log'|;
    forall i | 0 <= i < |log| ensures log[i] == log'[i] {
      assert EncodeEach(log)[i] == Encode(Tuple(log[i])) && EncodeEach(log')[i] == Encode(Tuple(log'[i]));
      EncodeIsInjective(Tuple(log[i]), Tuple(log'[i]));
    }
  }

  /** A finalized state that some program leads to, at any point of its run. */
  ghost predicate Sealed(c: Crypto, s: State) {
    exists prog: bytes, version: int64, runlimit: int64, extension: bool, n: nat ::
      SealedBy(c, s, prog, version, runlimit, extension, n)
  }

  ghost predicate SealedBy(c: Crypto, s: State, prog: bytes, version: int64, runlimit: int64, extension: bool, n: nat) {
    s.tx.finalized && Steps(c, Initial(prog, version, runlimit, extension), n).Ok?
    && Steps(c, Initial(prog, version, runlimit, extension), n).value.s == s
  }

  /** The transaction ID binds the whole log: two runs with one ID have one log, or two strings hashed for it collide. */
  lemma TxIDBindsLog(c: Crypto, s: State, t: State)
    requires Sealed(c, s) && Sealed(c, t) && s.tx.txid == t.tx.txid
    requires (forall e <- s.tx.log :: Sized(Tuple(e))) && (forall e <- t.tx.log :: Sized(Tuple(e)))
    ensures
      || s.tx.log == t.tx.log
      || exists x, y :: x in Merkle.Hashed(c.sha3, EncodeEach(s.tx.log)) && y in Merkle.Hashed(c.sha3, EncodeEach(t.tx.log))
           && x != y && c.sha3(x) == c.sha3(y)
  {
    hide Steps, Encode, Sized, EncodeEach, Merkle.Hashed;
    var p, v, l, e, n :| SealedBy(c, s, p, v, l, e, n);
    Runs.FinalizedLogIsSealed(c, p, v, l, e, n);
    var p', v', l', e', n' :| SealedBy(c, t, p', v', l', e', n');
    Runs.FinalizedLogIsSealed(c, p', v', l', e', n');
    Merkle.RootIsTreeHash(c.sha3, EncodeEach(s.tx.log));
    Merkle.RootIsTreeHash(c.sha3, EncodeEach(t.tx.log));
    Merkle.RootBindsList(c.sha3, EncodeEach(s.tx.log), EncodeEach(t.tx.log));
    if EncodeEach(s.tx.log) == EncodeEach(t.tx.log) {
      EncodingsBindLog(s.tx.log, t.tx.log);
    }
  }

  /** The commitment to a transaction: its ID, and the hash of its version, runlimit and program. */
  function WitnessCommitment(c: Crypto, txid: Hash, version: int64, runlimit: int64, prog: bytes): bytes {
    txid + c.vmHash("WitnessHash", Encode(Tuple([Int(version), Int(runlimit), Bytes(prog)])))
  }

  /** A commitment binds the ID and the whole witness of its transaction. */
  lemma CommitmentBindsWitness(c: Crypto, txid: Hash, version: int64, runlimit: int64, prog: bytes,
                               txid': Hash, version': int64, runlimit': int64, prog': bytes)
    requires |prog| <= MAX_INT64 && |prog'| <= MAX_INT64
    requires WitnessCommitment(c, txid, version, runlimit, prog) == WitnessCommitment(c, txid', version', runlimit', prog')
    ensures
      var x, y := [Int(version), Int(runlimit), Bytes(prog)], [Int(version'), Int(runlimit'), Bytes(prog')];
      && txid == txid'
      && ((version == version' && runlimit == runlimit' && prog == prog')
          || Collides(c, "WitnessHash", Encode(Tuple(x)), Encode(Tuple(y))))
  {
    hide Encode;
    var x, y := [Int(version), Int(runlimit), Bytes(prog)], [Int(version'), Int(runlimit'), Bytes(prog')];
    var s, t := WitnessCommitment(c, txid, version, runlimit, prog), WitnessCommitment(c, txid', version', runlimit', prog');
    assert s[..32] == txid && t[..32] == txid';
    assert s[32..] == c.vmHash("WitnessHash", Encode(Tuple(x))) && t[32..] == c.vmHash("WitnessHash", Encode(Tuple(y)));
    if Encode(Tuple(x)) == Encode(Tuple(y)) {
      EncodeIsInjective(Tuple(x), Tuple(y));
      assert x[0] == y[0] && x[1] == y[1] && x[2] == y[2];
    }
  }

  // --- blocks

  /** Lengths are Go ints. */
  ghost predicate SizedHeader(h: Header) {
    Sized(Tuple(HeaderTuple(h)))
  }

  lemma HeaderParts(h: Header)
    ensures
      var t := HeaderTuple(h);
      && |t| == 10 + |h.extraFields| && t[10..] == h.extraFields
      && t[0] == Int(ToInt64(h.version)) && t[1] == Int(ToInt64(h.height)) && t[2] == Bytes(h.previousBlockID)
      && t[3] == Int(ToInt64(h.timestampMs)) && t[4] == Int(h.refsCount) && t[5] == Int(h.runlimit)
      && t[6] == Bytes(h.transactionsRoot) && t[7] == Bytes(h.contractsRoot) && t[8] == Bytes(h.noncesRoot)
      && t[9] == Tuple(h.nextPredicate)
  {
  }

  lemma TupleBindsHeader(g: Header, h: Header)
    requires HeaderTuple(g) == HeaderTuple(h)
    ensures g == h
  {
    hide HeaderTuple;
    HeaderParts(g);
    HeaderParts(h);
  }

  /** The block ID binds every field of the header. */
  lemma BlockIDBindsHeader(c: Crypto, g: Header, h: Header)
    requires SizedHeader(g) && SizedHeader(h) && BlockID(c, g) == BlockID(c, h)
    ensures g == h || Collides(c, "BlockID", Encode(Tuple(HeaderTuple(g))), Encode(Tuple(HeaderTuple(h))))
  {
    hide Encode, HeaderTuple, Sized;
    if Encode(Tuple(HeaderTuple(g))) == Encode(Tuple(HeaderTuple(h))) {
      EncodeIsInjective(Tuple(HeaderTuple(g)), Tuple(HeaderTuple(h)));
      TupleBindsHeader(g, h);
    }
  }

  /** Headers each of which follows the one before. */
  ghost predicate Linked(c: Crypto, hs: seq<Header>) {
    (forall h <- hs :: SizedHeader(h)) && forall i :: 0 < i < |hs| ==> BlockPrev(c, hs[i], hs[i - 1])
  }

  /** Along linked headers heights count up, time goes forward, versions do not go back and reference counts grow by one at most. */
  lemma {:induction false} LinkedAdvance(c: Crypto, hs: seq<Header>, i: nat, j: nat)
    requires Linked(c, hs) && i <= j < |hs| && hs[i].height + (j - i) < TWO_TO_THE_64
    ensures hs[j].height == hs[i].height + (j - i) && hs[i].version <= hs[j].version
    ensures i < j ==> hs[i].timestampMs < hs[j].timestampMs
    ensures hs[i].refsCount + (j - i) <= MAX_INT64 ==> hs[j].refsCount <= hs[i].refsCount + (j - i)
    decreases j - i
  {
    hide BlockID, SizedHeader;
    if i < j {
      assert BlockPrev(c, hs[j], hs[j - 1]);
      LinkedAdvance(c, hs, i, j - 1);
    }
  }

  /** Two headers of two chains whose encodings collide. */
  ghost predicate HeadersCollide(c: Crypto, hs: seq<Header>, ks: seq<Header>) {
    exists g, h :: g in hs && h in ks && Collides(c, "BlockID", Encode(Tuple(HeaderTuple(g))), Encode(Tuple(HeaderTuple(h))))
  }

  /** One header binds the whole chain before it: chains from height one whose last headers have one ID are one chain. */
  lemma {:induction false} BlockIDBindsChain(c: Crypto, hs: seq<Header>, ks: seq<Header>)
    requires Linked(c, hs) && Linked(c, ks) && 0 < |hs| == |ks|
    requires BlockID(c, hs[|hs| - 1]) == BlockID(c, ks[|ks| - 1])
    ensures hs == ks || HeadersCollide(c, hs, ks)
  {
    hide BlockID, SizedHeader, Encode, HeaderTuple, Collides;
    var n := |hs| - 1;
    var g, h := hs[n], ks[n];
    BlockIDBindsHeader(c, g, h);
    if g == h && n > 0 {
      assert BlockPrev(c, g, hs[n - 1]) && BlockPrev(c, h, ks[n - 1]);
      BlockIDBindsChain(c, hs[..n], ks[..n]);
      assert hs == hs[..n] + [g] && ks == ks[..n] + [h];
      if HeadersCollide(c, hs[..n], ks[..n]) {
        var x, y :| x in hs[..n] && y in ks[..n] && Collides(c, "BlockID", Encode(Tuple(HeaderTuple(x))), Encode(Tuple(HeaderTuple(y))));
        assert x in hs && y in ks;
      }
    } else if g != h {
      assert g in hs && h in ks;
    }
  }

  /** The same with lengths that may differ: the heights tell them. */
  lemma BlockIDBindsHistory(c: Crypto, hs: seq<Header>, ks: seq<Header>)
    requires Linked(c, hs) && Linked(c, ks) && 0 < |hs| < TWO_TO_THE_64 && 0 < |ks| < TWO_TO_THE_64
    requires hs[0].height == ks[0].height == 1 && BlockID(c, hs[|hs| - 1]) == BlockID(c, ks[|ks| - 1])
    ensures hs == ks || HeadersCollide(c, hs, ks)
  {
    hide BlockID, Linked, SizedHeader, Encode, HeaderTuple, Collides;
    LinkedAdvance(c, hs, 0, |hs| - 1);
    LinkedAdvance(c, ks, 0, |ks| - 1);
    var g, h := hs[|hs| - 1], ks[|ks| - 1];
    if g == h {
      BlockIDBindsChain(c, hs, ks);
    } else {
      assert SizedHeader(g) && SizedHeader(h) by {
        LastIsSized(c, hs);
        LastIsSized(c, ks);
      }
      BlockIDBindsHeader(c, g, h);
    }
  }

  lemma LastIsSized(c: Crypto, hs: seq<Header>)
    requires Linked(c, hs) && hs != []
    ensures SizedHeader(hs[|hs| - 1])
  {
    hide SizedHeader;
    assert hs[|hs| - 1] in hs;
  }

  /** Two accepted blocks with one transactions root hold transactions with the same commitments, in the same order. */
  lemma TransactionsRootBindsBlock(c: Crypto, a: Block, b: Block)
    requires BlockOnly(c, a) && BlockOnly(c, b) && a.header.transactionsRoot == b.header.transactionsRoot
    ensures
      || (|a.transactions| == |b.transactions|
          && forall i :: 0 <= i < |a.transactions| ==> a.transactions[i].commitment == b.transactions[i].commitment)
      || exists x, y :: x in Merkle.Hashed(c.sha3, Commitments(a.transactions)) && y in Merkle.Hashed(c.sha3, Commitments(b.transactions))
           && x != y && c.sha3(x) == c.sha3(y)
  {
    hide BlockOnly, Merkle.Hashed;
    var s, t := Commitments(a.transactions), Commitments(b.transactions);
    BlockOnlyBindsTransactions(c, a);
    BlockOnlyBindsTransactions(c, b);
    Merkle.RootIsTreeHash(c.sha3, s);
    Merkle.RootIsTreeHash(c.sha3, t);
    Merkle.RootBindsList(c.sha3, s, t);
    if s == t {
      forall i | 0 <= i < |a.transactions| ensures a.transactions[i].commitment == b.transactions[i].commitment {
        assert s[i] == t[i];
      }
    }
  }

  // --- states

  /** A tree that holds exactly these elements. */
  ghost predicate Holds(t: Patricia.Trie, s: set<bytes>) {
    Patricia.Valid(t) && Patricia.Elements(t) == s
  }

  lemma {:induction false} Enumerates(s: set<bytes>) returns (keys: seq<bytes>)
    ensures (set x <- keys) == s
    decreases |s|
  {
    if s == {} {
      keys := [];
    } else {
      var x :| x in s;
      var rest := Enumerates(s - {x});
      keys := rest + [x];
      assert (set y <- keys) == (set y <- rest) + {x};
    }
  }

  lemma SetHasTree(s: set<bytes>) returns (t: Patricia.Trie)
    requires s != {} && Patricia.PrefixFree(s)
    ensures Holds(t, s)
  {
    var keys := Enumerates(s);
    Patricia.FromKeysHasKeys(keys);
    t := Patricia.FromKeys(keys).value.value;
  }

  /** What is known when two sets have one root: they are one set, or two of the strings hashed collide, or one is empty and the other hashes to zero. */
  ghost predicate SameOrCollision(c: Crypto, s: set<bytes>, t: set<bytes>) {
    || s == t
    || (exists a, b, x, y :: Holds(a, s) && Holds(b, t) && CollideIn(c, a, b, x, y))
    || (s == {} && exists b :: Holds(b, t) && c.sha3(PatriciaHash.Preimage(c.sha3, b)) == ZeroHash())
    || (t == {} && exists a :: Holds(a, s) && c.sha3(PatriciaHash.Preimage(c.sha3, a)) == ZeroHash())
  }

  ghost predicate CollideIn(c: Crypto, a: Patricia.Trie, b: Patricia.Trie, x: bytes, y: bytes) {
    x in PatriciaHash.Hashed(c.sha3, a) && y in PatriciaHash.Hashed(c.sha3, b) && x != y && c.sha3(x) == c.sha3(y)
  }

  lemma TreeRootBindsSet(c: Crypto, s: set<bytes>, t: set<bytes>)
    requires Patricia.PrefixFree(s) && Patricia.PrefixFree(t) && TreeRoot(c, s) == TreeRoot(c, t)
    ensures SameOrCollision(c, s, t)
  {
    hide Patricia.PrefixFree, PatriciaHash.Mpth, Patricia.Valid, Patricia.Elements, PatriciaHash.Hashed;
    var a, b;
    if s != {} {
      a := SetHasTree(s);
      PatriciaHash.HashIsMpth(c.sha3, a);
    }
    if t != {} {
      b := SetHasTree(t);
      PatriciaHash.HashIsMpth(c.sha3, b);
    }
    if s != {} && t != {} && s != t {
      PatriciaHash.RootBindsSet(c.sha3, a, b);
      var x, y :| x in PatriciaHash.Hashed(c.sha3, a) && y in PatriciaHash.Hashed(c.sha3, b) && x != y && c.sha3(x) == c.sha3(y);
      assert CollideIn(c, a, b, x, y);
    } else if s != t {
      NoElements(c);
    }
  }

  lemma NoElements(c: Crypto)
    requires Patricia.PrefixFree({})
    ensures PatriciaHash.Mpth(c.sha3, {}) == ZeroHash()
  {
  }

  /** Blocks that declare the same roots lead, wherever they are committed, to the same contracts and nonces. */
  lemma RootsBindState(rules: Rules, cur: Snap, a: Block, cur': Snap, b: Block)
    requires Commits.Apply(rules, cur, a).Some? && Commits.Apply(rules, cur', b).Some?
    requires a.header.contractsRoot == b.header.contractsRoot && a.header.noncesRoot == b.header.noncesRoot
    ensures
      var s, t := Commits.Apply(rules, cur, a).value, Commits.Apply(rules, cur', b).value;
      && (Patricia.PrefixFree(s.contracts) && Patricia.PrefixFree(t.contracts) ==> SameOrCollision(rules.crypto, s.contracts, t.contracts))
      && (Patricia.PrefixFree(s.nonces) && Patricia.PrefixFree(t.nonces) ==> SameOrCollision(rules.crypto, s.nonces, t.nonces))
  {
    hide ApplyBlock, TreeRoot, SameOrCollision, Patricia.PrefixFree;
    var c, s, t := rules.crypto, Commits.Apply(rules, cur, a).value, Commits.Apply(rules, cur', b).value;
    if Patricia.PrefixFree(s.contracts) && Patricia.PrefixFree(t.contracts) {
      TreeRootBindsSet(c, s.contracts, t.contracts);
    }
    if Patricia.PrefixFree(s.nonces) && Patricia.PrefixFree(t.nonces) {
      TreeRootBindsSet(c, s.nonces, t.nonces);
    }
  }
}
