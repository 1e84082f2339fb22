/** What whole chains guarantee: no contract is spent twice and no nonce is accepted twice. */
module History {
  import opened Prelude
  import opened Blocks
  import opened Generation

  // --- spending (state/snapshot.go)

  /** How often refs contains r. */
  function Count(refs: seq<ContractRef>, r: ContractRef): nat {
    if refs == [] then 0 else (if refs[0] == r then 1 else 0) + Count(refs[1..], r)
  }

  function CountTxs(txs: seq<BcTx>, r: ContractRef): nat {
    if txs == [] then 0 else Count(txs[0].contracts, r) + CountTxs(txs[1..], r)
  }

  function CountBlocks(blocks: seq<Block>, r: ContractRef): nat {
    if blocks == [] then 0
    else CountBlocks(blocks[..|blocks| - 1], r) + CountTxs(blocks[|blocks| - 1].transactions, r)
  }

  function Present(s: Snap, id: Hash): nat {
    if id in s.contracts then 1 else 0
  }

  lemma {:induction false} MovingBalances(s: Snap, refs: seq<ContractRef>, id: Hash)
    requires MoveContracts(s, refs).Ok?
    ensures Count(refs, Input(id)) + Present(MoveContracts(s, refs).value, id)
         <= Count(refs, Output(id)) + Present(s, id)
    decreases |refs|
  {
    if refs != [] {
      var moved := if refs[0].Input? then s.contracts - {refs[0].id} else s.contracts + {refs[0].id};
      MovingBalances(s.(contracts := moved), refs[1..], id);
    }
  }

  lemma {:induction false} AddNoncesKeepsContracts(s: Snap, nonces: seq<Nonce>)
    requires AddNonces(s, nonces).Ok?
    ensures AddNonces(s, nonces).value == s.(nonces := AddNonces(s, nonces).value.nonces)
    decreases |nonces|
  {
    AddNoncesCommutes(s, s, nonces);
  }

  lemma {:induction false} SpendingBalances(s: Snap, txs: seq<BcTx>, id: Hash)
    requires ApplyTxs(s, txs).Ok?
    ensures CountTxs(txs, Input(id)) + Present(ApplyTxs(s, txs).value, id)
         <= CountTxs(txs, Output(id)) + Present(s, id)
    decreases |txs|
  {
    if txs != [] {
      AddNoncesKeepsContracts(s, txs[0].nonces);
      MovingBalances(AddNonces(s, txs[0].nonces).value, txs[0].contracts, id);
      SpendingBalances(ApplyTx(s, txs[0]).value, txs[1..], id);
    }
  }

  /** The state after a sequence of blocks, from the empty state. */
  function Fold(c: Crypto, blocks: seq<Block>): Applied {
    if blocks == [] then Ok(Empty())
    else
      var s :- Fold(c, blocks[..|blocks| - 1]);
      ApplyBlock(c, s, blocks[|blocks| - 1])
  }

  /**
   Over a whole chain, a contract has been taken in at most as often as it has been put out, and
   strictly less often while it is present.
   */
  lemma {:induction false} NoDoubleSpend(c: Crypto, blocks: seq<Block>, id: Hash)
    requires Fold(c, blocks).Ok?
    ensures CountBlocks(blocks, Input(id)) + Present(Fold(c, blocks).value, id) <= CountBlocks(blocks, Output(id))
    decreases |blocks|
  {
    hide ApplyTxs, BlockID;
    if blocks != [] {
      var front, last := blocks[..|blocks| - 1], blocks[|blocks| - 1];
      NoDoubleSpend(c, front, id);
      var s := PruneNonces(Fold(c, front).value, last.header.timestampMs);
      SpendingBalances(ApplyBlockHeader(c, s, last.header).value, last.transactions, id);
    }
  }

  // --- nonces (block.go, tx.go)

  /** How often a nonce commitment occurs. */
  function Uses(nonces: seq<Nonce>, nc: bytes): nat {
    if nonces == [] then 0 else (if Commitment(nonces[0]) == nc then 1 else 0) + Uses(nonces[1..], nc)
  }

  function UsesTxs(txs: seq<BcTx>, nc: bytes): nat {
    if txs == [] then 0 else UsesTxs(txs[..|txs| - 1], nc) + Uses(txs[|txs| - 1].nonces, nc)
  }

  function UsesBlocks(blocks: seq<Block>, nc: bytes): nat {
    if blocks == [] then 0
    else UsesBlocks(blocks[..|blocks| - 1], nc) + UsesTxs(blocks[|blocks| - 1].transactions, nc)
  }

  function Known(s: Snap, nc: bytes): nat {
    if nc in s.nonces then 1 else 0
  }

  lemma {:induction false} AddingIsOnce(s: Snap, nonces: seq<Nonce>, nc: bytes)
    requires AddNonces(s, nonces).Ok?
    ensures Uses(nonces, nc) == Known(AddNonces(s, nonces).value, nc) - Known(s, nc)
    decreases |nonces|
  {
    if nonces != [] {
      AddingIsOnce(s.(nonces := s.nonces + {Commitment(nonces[0])}), nonces[1..], nc);
    }
  }

  lemma {:induction false} MovingKeepsNonces(s: Snap, refs: seq<ContractRef>)
    requires MoveContracts(s, refs).Ok?
    ensures MoveContracts(s, refs).value.nonces == s.nonces
    decreases |refs|
  {
    MoveContractsCommutes(s, s, refs);
  }

  /** opNonce logs with every nonce a time range that ends at the nonce's expiry. */
  ghost predicate Dated(tx: BcTx) {
    forall n <- tx.nonces :: Timerange(0, ToInt64(n.expMS)) in tx.timeranges
  }

  /** The time checks let a dated transaction with a nonce of this expiry into a block at time t. */
  predicate Accepts(rules: Rules, exp: uint64, t: uint64) {
    && (ToInt64(exp) > 0 ==> t <= exp)
    && (rules.maxNonceWindow > 0 ==> exp <= WindowEnd(rules, t))
  }

  /** A transaction that is let in at time t carries no nonce whose own time range or window rules t out. */
  lemma {:induction false} UsedNonceIsAccepted(rules: Rules, tx: BcTx, t: uint64, nonces: seq<Nonce>, nc: bytes, exp: uint64)
    requires Dated(tx) && TimeOk(rules, tx, t) && (forall n <- nonces :: n in tx.nonces)
    requires |nc| == 40 && NonceTime(nc) == exp && Uses(nonces, nc) > 0
    ensures Accepts(rules, exp, t)
    decreases |nonces|
  {
    var n := nonces[0];
    if Commitment(n) == nc {
      NonceTimeOfCommitment(n.id, n.expMS);
      assert n in tx.nonces;
      assert InTime(Timerange(0, ToInt64(n.expMS)), t);
    } else {
      UsedNonceIsAccepted(rules, tx, t, nonces[1..], nc, exp);
    }
  }

  /** Considering one more transaction: a chosen one adds its uses of the nonce to the state and the list alike. */
  lemma ConsideringUsesOnce(rules: Rules, s: Snap, d: Draft, tx: BcTx, t: uint64, nc: bytes, exp: uint64)
    requires |nc| == 40 && NonceTime(nc) == exp && Dated(tx)
    requires UsesTxs(d.chosen, nc) == Known(d.snap, nc) - Known(s, nc)
    requires UsesTxs(d.chosen, nc) > 0 ==> Accepts(rules, exp, t)
    ensures
      var e := Consider(rules, d, tx, t);
      && UsesTxs(e.chosen, nc) == Known(e.snap, nc) - Known(s, nc)
      && (UsesTxs(e.chosen, nc) > 0 ==> Accepts(rules, exp, t))
  {
    hide TimeOk, AddNonces, MoveContracts, Accepts;
    var e := Consider(rules, d, tx, t);
    if e != d {
      AddingIsOnce(d.snap, tx.nonces, nc);
      MovingKeepsNonces(AddNonces(d.snap, tx.nonces).value, tx.contracts);
      assert e.chosen[..|e.chosen| - 1] == d.chosen;
      if Uses(tx.nonces, nc) > 0 {
        UsedNonceIsAccepted(rules, tx, t, tx.nonces, nc, exp);
      }
    }
  }

  /** What choosing transactions at time t does to the record of one nonce. */
  lemma {:induction false} ChoosingUsesOnce(rules: Rules, s: Snap, d: Draft, txs: seq<BcTx>, t: uint64, nc: bytes, exp: uint64)
    requires |nc| == 40 && NonceTime(nc) == exp && forall tx <- txs :: Dated(tx)
    requires UsesTxs(d.chosen, nc) == Known(d.snap, nc) - Known(s, nc)
    requires UsesTxs(d.chosen, nc) > 0 ==> Accepts(rules, exp, t)
    ensures
      var e := Choose(rules, d, txs, t);
      && UsesTxs(e.chosen, nc) == Known(e.snap, nc) - Known(s, nc)
      && (UsesTxs(e.chosen, nc) > 0 ==> Accepts(rules, exp, t))
    decreases |txs|
  {
    hide Consider, UsesTxs, Known, Accepts;
    if txs != [] && |d.chosen| < MAX_BLOCK_TXS {
      ConsideringUsesOnce(rules, s, d, txs[0], t, nc, exp);
      ChoosingUsesOnce(rules, s, Consider(rules, d, txs[0], t), txs[1..], t, nc, exp);
    }
  }

  /** A chain of generated blocks, each on the state the one before left. */
  datatype Request = Request(timestampMs: uint64, txs: seq<BcTx>)

  ghost function GenerateAll(rules: Rules, s: Snap, requests: seq<Request>): (r: Result<(seq<Block>, Snap), GenerateError>)
    requires s.header.Some?
    ensures r.Ok? ==> r.value.1.header.Some?
  {
    hide BlockID, TxMerkleRoot, Choose;
    if requests == [] then Ok(([], s))
    else
      var last := requests[|requests| - 1];
      var (blocks, s1) :- GenerateAll(rules, s, requests[..|requests| - 1]);
      var (b, s2) :- Generate(rules, s1, last.timestampMs, last.txs);
      Ok((blocks + [b], s2))
  }

  /** A block at time t can use the nonce for the first time: it is let in, and not remembered from before. */
  ghost predicate FirstUse(rules: Rules, s: Snap, nc: bytes, exp: uint64, t: uint64) {
    Accepts(rules, exp, t) && (nc in s.nonces ==> exp < t)
  }

  /** A nonce can be used in block i and again in block j: by then it is forgotten, and still let in. */
  ghost predicate Reusable(rules: Rules, s: Snap, nc: bytes, exp: uint64, times: seq<uint64>, i: nat, j: nat) {
    i < j < |times| && FirstUse(rules, s, nc, exp, times[i]) && Accepts(rules, exp, times[j]) && exp < times[j]
  }

  function Times(requests: seq<Request>): (t: seq<uint64>)
    ensures |t| == |requests| && forall i :: 0 <= i < |t| ==> t[i] == requests[i].timestampMs
  {
    seq(|requests|, i requires 0 <= i < |requests| => requests[i].timestampMs)
  }

  ghost predicate AllDated(requests: seq<Request>) {
    forall r <- requests, tx <- r.txs :: Dated(tx)
  }

  /** One more block: it uses the nonce at most once, and only if it is let in and not remembered. */
  lemma GeneratingUsesOnce(rules: Rules, s: Snap, t: uint64, txs: seq<BcTx>, nc: bytes, exp: uint64)
    requires |nc| == 40 && NonceTime(nc) == exp && (forall tx <- txs :: Dated(tx))
    requires s.header.Some? && Generate(rules, s, t, txs).Ok?
    ensures
      var (b, s') := Generate(rules, s, t, txs).value;
      var uses := UsesTxs(b.transactions, nc);
      && uses <= 1 && s'.header == Some(b.header) && b.header.timestampMs == t > s.header.value.timestampMs
      && (uses == 1 ==> Accepts(rules, exp, t) && nc in s'.nonces && (nc in s.nonces ==> exp < t))
      && (nc in s.nonces ==> nc in s'.nonces || exp < t)
      && (uses == 0 && nc !in s.nonces ==> nc !in s'.nonces)
  {
    hide Choose, BlockID, TxMerkleRoot, NonceTime, TreeRoot, Accepts;
    ChoosingUsesOnce(rules, PruneNonces(s, t), Draft(PruneNonces(s, t), 0, []), txs, t, nc, exp);
  }

  /** After some blocks: once known or used, a nonce is remembered or its expiry is past; uses show in the times. */
  ghost predicate Tracked(rules: Rules, s: Snap, s': Snap, uses: nat, nc: bytes, exp: uint64, times: seq<uint64>)
    requires s'.header.Some?
  {
    && (nc in s.nonces || uses > 0 ==> nc in s'.nonces || exp < s'.header.value.timestampMs || (times == [] && s' == s))
    && (uses > 0 ==> exists i :: 0 <= i < |times| && FirstUse(rules, s, nc, exp, times[i]))
    && (uses > 1 ==> exists i: nat, j: nat :: Reusable(rules, s, nc, exp, times, i, j))
  }

  lemma TrackNext(rules: Rules, s: Snap, s1: Snap, s2: Snap, uses: nat, more: nat, nc: bytes, exp: uint64, times: seq<uint64>, t: uint64)
    requires s1.header.Some? && s2.header.Some? && Tracked(rules, s, s1, uses, nc, exp, times) && more <= 1
    requires s2.header.value.timestampMs == t > s1.header.value.timestampMs
    requires more == 1 ==> Accepts(rules, exp, t) && nc in s2.nonces && (nc in s1.nonces ==> exp < t)
    requires nc in s1.nonces ==> nc in s2.nonces || exp < t
    ensures Tracked(rules, s, s2, uses + more, nc, exp, times + [t])
  {
    hide Accepts;
    var all, n := times + [t], |times|;
    if uses > 0 {
      var i :| 0 <= i < n && FirstUse(rules, s, nc, exp, times[i]);
      assert FirstUse(rules, s, nc, exp, all[i]);
      if more == 1 {
        assert Reusable(rules, s, nc, exp, all, i, n);
      }
    } else if more == 1 {
      assert FirstUse(rules, s, nc, exp, all[n]);
    }
    if uses > 1 {
      var i: nat, j: nat :| Reusable(rules, s, nc, exp, times, i, j);
      assert Reusable(rules, s, nc, exp, all, i, j);
    }
  }

  /** A second use needs two block times that let the nonce in, the later one past its expiry. */
  lemma {:induction false} ReplayNeedsTwoTimes(rules: Rules, s: Snap, requests: seq<Request>, nc: bytes, exp: uint64)
    requires s.header.Some? && GenerateAll(rules, s, requests).Ok? && AllDated(requests)
    requires |nc| == 40 && NonceTime(nc) == exp
    ensures
      var (blocks, s') := GenerateAll(rules, s, requests).value;
      Tracked(rules, s, s', UsesBlocks(blocks, nc), nc, exp, Times(requests))
    decreases |requests|
  {
    hide Generate, NonceTime, Tracked, Accepts, UsesTxs, UsesBlocks, GenerateAll, AllDated;
    if requests == [] {
      TrackNone(rules, s, nc, exp);
      assert Times(requests) == [];
      GeneratesNothing(rules, s, requests, nc);
    } else {
      var front, last := requests[..|requests| - 1], requests[|requests| - 1];
      FrontIsDated(requests);
      var s1, b, s2 := GeneratesLast(rules, s, requests, nc);
      ReplayNeedsTwoTimes(rules, s, front, nc, exp);
      GeneratingUsesOnce(rules, s1, last.timestampMs, last.txs, nc, exp);
      assert Times(requests) == Times(front) + [last.timestampMs];
      TrackNext(rules, s, s1, s2, UsesBlocks(GenerateAll(rules, s, front).value.0, nc), UsesTxs(b.transactions, nc),
                nc, exp, Times(front), last.timestampMs);
    }
  }

  lemma GeneratesNothing(rules: Rules, s: Snap, requests: seq<Request>, nc: bytes)
    requires s.header.Some? && requests == []
    ensures GenerateAll(rules, s, requests) == Ok(([], s)) && UsesBlocks([], nc) == 0
  {
  }

  lemma GeneratesLast(rules: Rules, s: Snap, requests: seq<Request>, nc: bytes) returns (s1: Snap, b: Block, s2: Snap)
    requires s.header.Some? && requests != [] && GenerateAll(rules, s, requests).Ok?
    ensures
      var front, last := requests[..|requests| - 1], requests[|requests| - 1];
      var (blocks, s') := GenerateAll(rules, s, requests).value;
      && GenerateAll(rules, s, front).Ok? && GenerateAll(rules, s, front).value.1 == s1 && s1.header.Some?
      && Generate(rules, s1, last.timestampMs, last.txs) == Ok((b, s2)) && s2 == s'
      && UsesBlocks(blocks, nc) == UsesBlocks(GenerateAll(rules, s, front).value.0, nc) + UsesTxs(b.transactions, nc)
  {
    hide Generate, UsesTxs;
    var front, last := requests[..|requests| - 1], requests[|requests| - 1];
    var blocks := GenerateAll(rules, s, front).value.0;
    s1 := GenerateAll(rules, s, front).value.1;
    var last2 := Generate(rules, s1, last.timestampMs, last.txs).value;
    b, s2 := last2.0, last2.1;
    assert (blocks + [b])[..|blocks|] == blocks;
  }

  lemma TrackNone(rules: Rules, s: Snap, nc: bytes, exp: uint64)
    requires s.header.Some?
    ensures Tracked(rules, s, s, 0, nc, exp, [])
  {
  }

  lemma FrontIsDated(requests: seq<Request>)
    requires AllDated(requests) && requests != []
    ensures AllDated(requests[..|requests| - 1]) && forall tx <- requests[|requests| - 1].txs :: Dated(tx)
  {
    hide Dated;
    assert requests[|requests| - 1] in requests;
    forall r <- requests[..|requests| - 1] ensures r in requests {}
  }

  /** Along any chain of blocks generated from dated transactions, a nonce of positive expiry is accepted at most once. */
  lemma DatedNonceIsUsedOnce(rules: Rules, s: Snap, requests: seq<Request>, nc: bytes, exp: uint64)
    requires s.header.Some? && GenerateAll(rules, s, requests).Ok? && AllDated(requests)
    requires |nc| == 40 && NonceTime(nc) == exp && ToInt64(exp) > 0
    ensures UsesBlocks(GenerateAll(rules, s, requests).value.0, nc) <= 1
  {
    hide GenerateAll, NonceTime;
    ReplayNeedsTwoTimes(rules, s, requests, nc, exp);
  }

  // --- how it is accepted twice

  /** A transaction that does nothing but use one nonce, with the time range that goes with it. */
  ghost predicate UsesOnly(tx: BcTx, n: Nonce) {
    && tx.contracts == [] && tx.nonces == [n] && tx.timeranges == [Timerange(0, ToInt64(n.expMS))]
    && n.blockID == ZeroHash()
  }

  lemma UsesOne(tx: BcTx, n: Nonce)
    requires tx.nonces == [n]
    ensures UsesTxs([tx], Commitment(n)) == 1 && UsesTxs([], Commitment(n)) == 0
  {
    hide NonceCommitment;
    assert [tx][..0] == [] && tx.nonces[1..] == [];
    assert Uses(tx.nonces, Commitment(n)) == 1 + Uses([], Commitment(n));
    assert UsesTxs([tx], Commitment(n)) == UsesTxs([], Commitment(n)) + Uses(tx.nonces, Commitment(n));
  }

  lemma ChoosesOne(rules: Rules, s: Snap, t: uint64, tx: BcTx, n: Nonce)
    requires UsesOnly(tx, n) && s.initialBlockID != ZeroHash() && Accepts(rules, n.expMS, t) && Commitment(n) !in s.nonces
    ensures
      var d := Choose(rules, Draft(s, 0, []), [tx], t);
      d.chosen == [tx] && d.snap.nonces == s.nonces + {Commitment(n)}
  {
    hide NonceCommitment;
    var added := s.(nonces := s.nonces + {Commitment(n)});
    assert AddNonces(s, tx.nonces) == Ok(added) by { assert tx.nonces[1..] == []; }
    assert ApplyTx(s, tx) == Ok(added);
    var d := Draft(s, 0, []);
    assert Consider(rules, d, tx, t) == Draft(added, tx.runlimit, [] + [tx]);
    assert [tx][1..] == [];
    assert [] + [tx] == [tx];
  }

  lemma ChoosesNone(rules: Rules, d: Draft, t: uint64)
    ensures Choose(rules, d, [], t) == d
  {
  }

  /** The transaction in blocks i and j, and nothing in the others. */
  function Plan(times: seq<uint64>, i: nat, j: nat, tx: BcTx): (requests: seq<Request>)
    ensures Times(requests) == times && forall r <- requests, x <- r.txs :: x == tx
  {
    var requests := seq(|times|, k requires 0 <= k < |times| => Request(times[k], if k == i || k == j then [tx] else []));
    assert Times(requests) == times;
    requests
  }

  /** Times of blocks that can follow s. */
  ghost predicate Follows(s: Snap, times: seq<uint64>) {
    && s.header.Some? && s.initialBlockID != ZeroHash()
    && 0 < s.header.value.height && s.header.value.height + |times| < TWO_TO_THE_64
    && (forall k :: 0 <= k < |times| ==> s.header.value.timestampMs < times[k])
    && (forall k, l :: 0 <= k < l < |times| ==> times[k] < times[l])
  }

  /** Where the plan has come after m blocks. */
  ghost predicate Planned(rules: Rules, s: Snap, times: seq<uint64>, i: nat, j: nat, tx: BcTx, nc: bytes, m: nat)
    requires s.header.Some? && m <= |times|
  {
    var r := GenerateAll(rules, s, Plan(times, i, j, tx)[..m]);
    && r.Ok?
    && var (blocks, s') := r.value;
    && s'.initialBlockID == s.initialBlockID && s'.header.value.height == s.header.value.height + m
    && s'.header.value.timestampMs == (if m == 0 then s.header.value.timestampMs else times[m - 1])
    && (nc in s'.nonces ==> nc in s.nonces || i < m)
    && UsesBlocks(blocks, nc) == (if i < m then 1 else 0) + (if j < m then 1 else 0)
  }

  /** The next block of the plan: it uses the nonce exactly where it should. */
  lemma PlanBlock(rules: Rules, s1: Snap, t: uint64, tx: BcTx, n: Nonce, use: bool)
    requires s1.header.Some? && s1.initialBlockID != ZeroHash() && 0 < s1.header.value.height < TWO_TO_THE_64 - 1
    requires s1.header.value.timestampMs < t && UsesOnly(tx, n)
    requires use ==> Accepts(rules, n.expMS, t) && (Commitment(n) in s1.nonces ==> n.expMS < t)
    ensures
      var r := Generate(rules, s1, t, if use then [tx] else []);
      && r.Ok?
      && var (b, s2) := r.value;
      && UsesTxs(b.transactions, Commitment(n)) == (if use then 1 else 0)
      && s2.header == Some(b.header) && s2.initialBlockID == s1.initialBlockID
      && b.header.height == s1.header.value.height + 1 && b.header.timestampMs == t
      && (Commitment(n) in s2.nonces ==> use || Commitment(n) in s1.nonces)
  {
    hide NonceCommitment, BlockID, TxMerkleRoot, Choose, Accepts, Generate, UsesTxs;
    GenerateSucceeds(rules, s1, t, if use then [tx] else []);
    UsesOne(tx, n);
    NonceTimeOfCommitment(n.id, n.expMS);
    if use {
      assert Commitment(n) !in PruneNonces(s1, t).nonces;
      ChoosesOne(rules, PruneNonces(s1, t), t, tx, n);
    } else {
      ChoosesNone(rules, Draft(PruneNonces(s1, t), 0, []), t);
    }
  }

  lemma PlanStep(rules: Rules, s: Snap, times: seq<uint64>, i: nat, j: nat, tx: BcTx, n: Nonce, m: nat)
    requires Follows(s, times) && UsesOnly(tx, n) && Reusable(rules, s, Commitment(n), n.expMS, times, i, j)
    requires m < |times| && Planned(rules, s, times, i, j, tx, Commitment(n), m)
    ensures Planned(rules, s, times, i, j, tx, Commitment(n), m + 1)
  {
    hide Commitment, Accepts, Generate, UsesTxs, UsesBlocks, UsesOnly, GenerateAll, Plan;
    var requests := Plan(times, i, j, tx);
    PlanAt(times, i, j, tx, m);
    var (blocks, s1) := GenerateAll(rules, s, requests[..m]).value;
    PlanBlock(rules, s1, times[m], tx, n, m == i || m == j);
    GeneratesNext(rules, s, requests, m, Commitment(n));
  }

  lemma PlanAt(times: seq<uint64>, i: nat, j: nat, tx: BcTx, k: nat)
    requires k < |times|
    ensures |Plan(times, i, j, tx)| == |times|
    ensures Plan(times, i, j, tx)[k] == Request(times[k], if k == i || k == j then [tx] else [])
  {
  }

  lemma GeneratesNext(rules: Rules, s: Snap, requests: seq<Request>, m: nat, nc: bytes)
    requires s.header.Some? && m < |requests| && GenerateAll(rules, s, requests[..m]).Ok?
    requires Generate(rules, GenerateAll(rules, s, requests[..m]).value.1, requests[m].timestampMs, requests[m].txs).Ok?
    ensures
      var (blocks, s1) := GenerateAll(rules, s, requests[..m]).value;
      var (b, s2) := Generate(rules, s1, requests[m].timestampMs, requests[m].txs).value;
      && GenerateAll(rules, s, requests[..m + 1]) == Ok((blocks + [b], s2))
      && UsesBlocks(blocks + [b], nc) == UsesBlocks(blocks, nc) + UsesTxs(b.transactions, nc)
  {
    hide Generate, UsesTxs;
    assert requests[..m + 1][..m] == requests[..m];
    var (blocks, s1) := GenerateAll(rules, s, requests[..m]).value;
    var b := Generate(rules, s1, requests[m].timestampMs, requests[m].txs).value.0;
    assert (blocks + [b])[..|blocks|] == blocks;
  }

  lemma {:induction false} PlanSucceeds(rules: Rules, s: Snap, times: seq<uint64>, i: nat, j: nat, tx: BcTx, n: Nonce, m: nat)
    requires Follows(s, times) && UsesOnly(tx, n) && Reusable(rules, s, Commitment(n), n.expMS, times, i, j) && m <= |times|
    ensures Planned(rules, s, times, i, j, tx, Commitment(n), m)
    decreases m
  {
    hide Commitment, Accepts, Generate, UsesOnly, Planned;
    if m > 0 {
      PlanSucceeds(rules, s, times, i, j, tx, n, m - 1);
      PlanStep(rules, s, times, i, j, tx, n, m - 1);
    } else {
      PlanStarts(rules, s, times, i, j, tx, Commitment(n));
    }
  }

  lemma PlanStarts(rules: Rules, s: Snap, times: seq<uint64>, i: nat, j: nat, tx: BcTx, nc: bytes)
    requires s.header.Some?
    ensures Planned(rules, s, times, i, j, tx, nc, 0)
  {
    hide Generate;
    assert Plan(times, i, j, tx)[..0] == [];
  }

  ghost predicate AcceptsTwice(rules: Rules, s: Snap, requests: seq<Request>, nc: bytes)
    requires s.header.Some?
  {
    GenerateAll(rules, s, requests).Ok? && UsesBlocks(GenerateAll(rules, s, requests).value.0, nc) >= 2
  }

  /** Offered in two blocks at such times, the transaction is accepted twice. */
  lemma PlanReplays(rules: Rules, s: Snap, times: seq<uint64>, i: nat, j: nat, tx: BcTx, n: Nonce)
    requires Follows(s, times) && UsesOnly(tx, n) && Reusable(rules, s, Commitment(n), n.expMS, times, i, j)
    ensures AcceptsTwice(rules, s, Plan(times, i, j, tx), Commitment(n))
  {
    hide GenerateAll, Commitment, UsesOnly;
    var requests := Plan(times, i, j, tx);
    PlanSucceeds(rules, s, times, i, j, tx, n, |times|);
    assert requests[..|times|] == requests;
  }
}
