/** Making, validating and applying blocks (block.go, tx.go, validation/validation.go). */
module Generation {
  import opened Prelude
  import opened Blocks
  import Merkle

  /** What a chain is run with. The nonce window is in nanoseconds; only a positive one is a limit. */
  datatype Rules = Rules(
    crypto: Crypto,
    maxNonceWindow: int64,
    maxBlockWindow: uint64)

  const MAX_BLOCK_TXS: nat := 10000

  // --- validation

  predicate BlockPrev(c: Crypto, h: Header, prev: Header) {
    && h.version >= prev.version
    && h.height == (prev.height + 1) % TWO_TO_THE_64
    && BlockID(c, prev) == h.previousBlockID
    && h.timestampMs > prev.timestampMs
    && h.refsCount <= Wrap64(prev.refsCount + 1)
  }

  /** An int64 result that overflows wraps around. */
  function Wrap64(x: int): int64 {
    ToInt64(x % TWO_TO_THE_64)
  }

  predicate RunlimitSuffices(runlimit: int64, version: uint64, txs: seq<BcTx>)
    decreases |txs|
  {
    txs == [] ||
    ((version == 3 ==> txs[0].version == 3) &&
     var rest := Wrap64(runlimit - txs[0].runlimit);
     rest >= 0 && RunlimitSuffices(rest, version, txs[1..]))
  }

  predicate BlockOnly(c: Crypto, b: Block) {
    && RunlimitSuffices(b.header.runlimit, b.header.version, b.transactions)
    && TxMerkleRoot(c, b.transactions) == b.header.transactionsRoot
    && (b.header.version == 3 ==> b.header.extraFields == [])
  }

  /** BlockOnly as it runs: the runlimit is counted down transaction by transaction. */
  method ValidateBlockOnly(c: Crypto, b: Block) returns (ok: bool)
    ensures ok == BlockOnly(c, b)
  {
    var runlimit: int64 := b.header.runlimit;
    for i := 0 to |b.transactions|
      invariant RunlimitSuffices(b.header.runlimit, b.header.version, b.transactions)
        == RunlimitSuffices(runlimit, b.header.version, b.transactions[i..])
    {
      var tx := b.transactions[i];
      if b.header.version == 3 && tx.version != 3 {
        return false;
      }
      runlimit := Wrap64(runlimit - tx.runlimit);
      if runlimit < 0 {
        return false;
      }
    }
    if TxMerkleRoot(c, b.transactions) != b.header.transactionsRoot {
      return false;
    }
    return !(b.header.version == 3 && |b.header.extraFields| > 0);
  }

  // --- generation

  predicate InTime(r: Timerange, t: uint64) {
    && !(r.maxMS > 0 && t > r.maxMS)
    && !(r.minMS > 0 && t > 0 && t < r.minMS)
  }

  /** The last expiry that the nonce window allows, in milliseconds; it may wrap around. */
  function WindowEnd(rules: Rules, t: uint64): uint64
    requires rules.maxNonceWindow > 0
  {
    (rules.maxNonceWindow / 1000000 + t) % TWO_TO_THE_64
  }

  predicate TimeOk(rules: Rules, tx: BcTx, t: uint64) {
    && (forall r <- tx.timeranges :: InTime(r, t))
    && (rules.maxNonceWindow > 0 ==> forall n <- tx.nonces :: n.expMS <= WindowEnd(rules, t))
  }

  /** A block under construction. */
  datatype Draft = Draft(snap: Snap, runlimit: int64, chosen: seq<BcTx>)

  function Consider(rules: Rules, d: Draft, tx: BcTx, t: uint64): Draft {
    if !TimeOk(rules, tx, t) || !FitsInt64(d.runlimit + tx.runlimit) then d
    else
      match ApplyTx(d.snap, tx)
      case Err(_) => d
      case Ok(s) => Draft(s, d.runlimit + tx.runlimit, d.chosen + [tx])
  }

  function Choose(rules: Rules, d: Draft, txs: seq<BcTx>, t: uint64): Draft
    decreases |txs|
  {
    if txs == [] || |d.chosen| >= MAX_BLOCK_TXS then d
    else Choose(rules, Consider(rules, d, txs[0], t), txs[1..], t)
  }

  function RefsCount(rules: Rules, prev: Header): int64 {
    var window := ToInt64(rules.maxBlockWindow);
    if prev.refsCount < window then prev.refsCount + 1 else window
  }

  ghost function NewBlock(rules: Rules, prev: Header, t: uint64, d: Draft): Block {
    Block(
      Header(3, (prev.height + 1) % TWO_TO_THE_64, BlockID(rules.crypto, prev), t, RefsCount(rules, prev), d.runlimit,
             TxMerkleRoot(rules.crypto, d.chosen), TreeRoot(rules.crypto, d.snap.contracts), TreeRoot(rules.crypto, d.snap.nonces),
             prev.nextPredicate, []),
      d.chosen)
  }

  datatype GenerateError = ErrTimestamp | ErrApply(e: StateError)

  /** GenerateBlock: the block follows prev, and its transactions are tried on the state cur. */
  ghost function GenerateOn(rules: Rules, prev: Header, cur: Snap, t: uint64, txs: seq<BcTx>)
    : Result<(Block, Snap), GenerateError>
  {
    if t <= prev.timestampMs then Err(ErrTimestamp)
    else
      var d := Choose(rules, Draft(PruneNonces(cur, t), 0, []), txs, t);
      var b := NewBlock(rules, prev, t, d);
      match ApplyBlockHeader(rules.crypto, d.snap, b.header)
      case Err(e) => Err(ErrApply(e))
      case Ok(s) => Ok((b, s))
  }

  /** GenerateBlock called with the chain's own current state. */
  ghost function Generate(rules: Rules, s: Snap, t: uint64, txs: seq<BcTx>): Result<(Block, Snap), GenerateError>
    requires s.header.Some?
  {
    GenerateOn(rules, s.header.value, s, t, txs)
  }

  // --- the generator and the validator agree

  /** The two states differ only in what a header sets: header and reference IDs, of which t has more. */
  ghost predicate SameButForHeader(s: Snap, t: Snap) {
    && t.contracts == s.contracts && t.nonces == s.nonces && t.initialBlockID == s.initialBlockID
    && forall id <- s.refIDs :: id in t.refIDs
  }

  lemma {:induction false} AddNoncesCommutes(s: Snap, t: Snap, nonces: seq<Nonce>)
    requires SameButForHeader(s, t) && AddNonces(s, nonces).Ok?
    ensures AddNonces(t, nonces).Ok? && SameButForHeader(AddNonces(s, nonces).value, AddNonces(t, nonces).value)
    ensures AddNonces(s, nonces).value == s.(nonces := AddNonces(s, nonces).value.nonces)
    ensures AddNonces(t, nonces).value == t.(nonces := AddNonces(t, nonces).value.nonces)
    decreases |nonces|
  {
    if nonces != [] {
      var added := s.nonces + {Commitment(nonces[0])};
      AddNoncesCommutes(s.(nonces := added), t.(nonces := added), nonces[1..]);
    }
  }

  lemma {:induction false} MoveContractsCommutes(s: Snap, t: Snap, refs: seq<ContractRef>)
    requires SameButForHeader(s, t) && MoveContracts(s, refs).Ok?
    ensures MoveContracts(t, refs).Ok? && SameButForHeader(MoveContracts(s, refs).value, MoveContracts(t, refs).value)
    ensures MoveContracts(s, refs).value == s.(contracts := MoveContracts(s, refs).value.contracts)
    ensures MoveContracts(t, refs).value == t.(contracts := MoveContracts(t, refs).value.contracts)
    decreases |refs|
  {
    if refs != [] {
      var moved := if refs[0].Input? then s.contracts - {refs[0].id} else s.contracts + {refs[0].id};
      MoveContractsCommutes(s.(contracts := moved), t.(contracts := moved), refs[1..]);
    }
  }

  lemma ApplyTxCommutes(s: Snap, t: Snap, tx: BcTx)
    requires SameButForHeader(s, t) && ApplyTx(s, tx).Ok?
    ensures ApplyTx(t, tx).Ok? && SameButForHeader(ApplyTx(s, tx).value, ApplyTx(t, tx).value)
    ensures ApplyTx(s, tx).value == s.(contracts := ApplyTx(s, tx).value.contracts, nonces := ApplyTx(s, tx).value.nonces)
    ensures ApplyTx(t, tx).value == t.(contracts := ApplyTx(t, tx).value.contracts, nonces := ApplyTx(t, tx).value.nonces)
  {
    AddNoncesCommutes(s, t, tx.nonces);
    MoveContractsCommutes(AddNonces(s, tx.nonces).value, AddNonces(t, tx.nonces).value, tx.contracts);
  }

  lemma {:induction false} ApplyTxsAppend(s: Snap, txs: seq<BcTx>, tx: BcTx)
    requires ApplyTxs(s, txs).Ok?
    ensures ApplyTxs(s, txs + [tx]) == ApplyTx(ApplyTxs(s, txs).value, tx)
    decreases |txs|
  {
    if txs == [] {
      assert ApplyTxs(s, [tx]) == match ApplyTx(s, tx) case Ok(r) => ApplyTxs(r, [tx][1..]) case Err(e) => Err(e);
    } else {
      assert (txs + [tx])[1..] == txs[1..] + [tx];
      ApplyTxsAppend(ApplyTx(s, txs[0]).value, txs[1..], tx);
    }
  }

  /** Replaying the chosen transactions on v, which already has a new header, gives the draft's trees. */
  ghost predicate Replays(d: Draft, s: Snap, v: Snap) {
    && d.snap == s.(contracts := d.snap.contracts, nonces := d.snap.nonces)
    && ApplyTxs(v, d.chosen) == Ok(v.(contracts := d.snap.contracts, nonces := d.snap.nonces))
  }

  lemma {:induction false} ChooseReplays(rules: Rules, d: Draft, txs: seq<BcTx>, t: uint64, s: Snap, v: Snap)
    requires SameButForHeader(s, v) && Replays(d, s, v)
    ensures Replays(Choose(rules, d, txs, t), s, v)
    decreases |txs|
  {
    hide ApplyTx, ApplyTxs, TimeOk;
    if txs != [] && |d.chosen| < MAX_BLOCK_TXS {
      var tx := txs[0];
      if Consider(rules, d, tx, t) != d {
        ApplyTxsAppend(v, d.chosen, tx);
        ApplyTxCommutes(d.snap, ApplyTxs(v, d.chosen).value, tx);
      }
      ChooseReplays(rules, Consider(rules, d, tx, t), txs[1..], t, s, v);
    }
  }

  lemma {:induction false} ChooseKeepsHeader(rules: Rules, d: Draft, txs: seq<BcTx>, t: uint64)
    ensures
      var e := Choose(rules, d, txs, t);
      e.snap == d.snap.(contracts := e.snap.contracts, nonces := e.snap.nonces)
    decreases |txs|
  {
    hide ApplyTx, TimeOk;
    if txs != [] && |d.chosen| < MAX_BLOCK_TXS {
      var e := Consider(rules, d, txs[0], t);
      if e != d {
        ApplyTxCommutes(d.snap, d.snap, txs[0]);
      }
      ChooseKeepsHeader(rules, e, txs[1..], t);
    }
  }

  /** On an initialised state, a later timestamp is all it takes. */
  lemma GenerateSucceeds(rules: Rules, s: Snap, t: uint64, txs: seq<BcTx>)
    requires s.header.Some? && s.initialBlockID != ZeroHash() && 0 < s.header.value.height < TWO_TO_THE_64 - 1
    ensures Generate(rules, s, t, txs).Ok? <==> s.header.value.timestampMs < t
    ensures Generate(rules, s, t, txs).Ok? ==>
      var (b, s') := Generate(rules, s, t, txs).value;
      var d := Choose(rules, Draft(PruneNonces(s, t), 0, []), txs, t);
      && b.transactions == d.chosen && b.header.runlimit == d.runlimit
      && b.header.timestampMs == t && b.header.height == s.header.value.height + 1
      && s'.nonces == d.snap.nonces && s'.initialBlockID == s.initialBlockID && s'.header == Some(b.header)
  {
    hide Choose, BlockID, TxMerkleRoot, TreeRoot;
    ChooseKeepsHeader(rules, Draft(PruneNonces(s, t), 0, []), txs, t);
  }

  function TotalRunlimit(txs: seq<BcTx>): int {
    if txs == [] then 0 else txs[0].runlimit + TotalRunlimit(txs[1..])
  }

  lemma {:induction false} TotalRunlimitAppend(txs: seq<BcTx>, tx: BcTx)
    ensures TotalRunlimit(txs + [tx]) == TotalRunlimit(txs) + tx.runlimit
  {
    if txs != [] {
      assert (txs + [tx])[1..] == txs[1..] + [tx];
      TotalRunlimitAppend(txs[1..], tx);
    }
  }

  ghost predicate Standard(tx: BcTx) {
    tx.version == 3 && tx.runlimit >= 0
  }

  lemma {:induction false} ChooseAccounts(rules: Rules, d: Draft, txs: seq<BcTx>, t: uint64)
    requires d.runlimit == TotalRunlimit(d.chosen) && (forall tx <- d.chosen :: Standard(tx))
    requires forall tx <- txs :: Standard(tx)
    ensures
      var e := Choose(rules, d, txs, t);
      e.runlimit == TotalRunlimit(e.chosen) && forall tx <- e.chosen :: Standard(tx)
    decreases |txs|
  {
    hide ApplyTx, TimeOk;
    if txs != [] && |d.chosen| < MAX_BLOCK_TXS {
      TotalRunlimitAppend(d.chosen, txs[0]);
      ChooseAccounts(rules, Consider(rules, d, txs[0], t), txs[1..], t);
    }
  }

  lemma {:induction false} TotalSuffices(txs: seq<BcTx>)
    requires (forall tx <- txs :: Standard(tx)) && FitsInt64(TotalRunlimit(txs))
    ensures TotalRunlimit(txs) >= 0 && RunlimitSuffices(TotalRunlimit(txs), 3, txs)
    decreases |txs|
  {
    if txs != [] {
      assert Standard(txs[0]);
      forall tx <- txs[1..] ensures Standard(tx) {
        assert tx in txs;
      }
      TotalIsNatural(txs[1..]);
      TotalSuffices(txs[1..]);
    }
  }

  lemma {:induction false} TotalIsNatural(txs: seq<BcTx>)
    requires forall tx <- txs :: tx.runlimit >= 0
    ensures TotalRunlimit(txs) >= 0
  {
    if txs != [] {
      assert txs[0] in txs;
      TotalIsNatural(txs[1..]);
    }
  }

  /**
   Applying a generated block to the old state, header first, gives exactly the generator's new state,
   and the two roots it declares are those of that state.
   */
  lemma GeneratedBlockApplies(rules: Rules, s: Snap, t: uint64, txs: seq<BcTx>)
    requires s.header.Some? && s.initialBlockID != ZeroHash() && Generate(rules, s, t, txs).Ok?
    ensures
      var (b, s') := Generate(rules, s, t, txs).value;
      && ApplyBlock(rules.crypto, s, b) == Ok(s')
      && b.header.contractsRoot == TreeRoot(rules.crypto, s'.contracts)
      && b.header.noncesRoot == TreeRoot(rules.crypto, s'.nonces)
  {
    hide Choose, ApplyTxs, BlockID, TxMerkleRoot, TreeRoot, RefsCount;
    var c, pruned := rules.crypto, PruneNonces(s, t);
    var start := Draft(pruned, 0, []);
    var (b, s') := Generate(rules, s, t, txs).value;
    var v := pruned.(header := Some(b.header), refIDs := pruned.refIDs + [BlockID(c, b.header)]);
    ApplyNoTxs(v);
    ChooseReplays(rules, start, txs, t, pruned, v);
  }

  /** A generated block is valid: the validator accepts it and arrives at the generator's state. */
  lemma GeneratorAndValidatorAgree(rules: Rules, s: Snap, t: uint64, txs: seq<BcTx>)
    requires s.header.Some? && s.initialBlockID != ZeroHash() && Generate(rules, s, t, txs).Ok?
    requires s.header.value.version <= 3 && s.header.value.refsCount < MAX_INT64
    requires forall tx <- txs :: Standard(tx)
    ensures
      var (b, s') := Generate(rules, s, t, txs).value;
      && BlockPrev(rules.crypto, b.header, s.header.value)
      && BlockOnly(rules.crypto, b)
      && ApplyBlock(rules.crypto, s, b) == Ok(s')
      && b.header.contractsRoot == TreeRoot(rules.crypto, s'.contracts)
      && b.header.noncesRoot == TreeRoot(rules.crypto, s'.nonces)
  {
    hide Choose, ApplyBlock, ApplyBlockHeader, BlockID, TxMerkleRoot, RunlimitSuffices, TreeRoot, RefsCount, Wrap64;
    GeneratedBlockApplies(rules, s, t, txs);
    GeneratedBlockFollows(rules, s, t, txs);
    var start := Draft(PruneNonces(s, t), 0, []);
    ChooseAccounts(rules, start, txs, t);
    TotalSuffices(Choose(rules, start, txs, t).chosen);
  }

  lemma RefsCountGrowsByOne(rules: Rules, prev: Header)
    ensures RefsCount(rules, prev) <= Wrap64(prev.refsCount + 1)
      <==> prev.refsCount < MAX_INT64 || ToInt64(rules.maxBlockWindow) == MIN_INT64
  {
  }

  lemma ApplyNoTxs(v: Snap)
    ensures ApplyTxs(v, []) == Ok(v)
  {
  }

  /** Only a previous version above 3, or a reference count that cannot be incremented, spoils BlockPrev. */
  lemma GeneratedBlockFollows(rules: Rules, s: Snap, t: uint64, txs: seq<BcTx>)
    requires s.header.Some? && Generate(rules, s, t, txs).Ok?
    ensures
      var prev, b := s.header.value, Generate(rules, s, t, txs).value.0;
      BlockPrev(rules.crypto, b.header, prev)
      <==> prev.version <= 3 && (prev.refsCount < MAX_INT64 || ToInt64(rules.maxBlockWindow) == MIN_INT64)
  {
    hide Choose, ApplyBlockHeader, BlockID, TxMerkleRoot, Wrap64, RefsCount, TreeRoot;
    RefsCountGrowsByOne(rules, s.header.value);
  }

  /** The other half in one state: a reference count at its maximum wraps around, and the block does not follow. */
  lemma FullRefsCountIsRejected(rules: Rules, s: Snap, t: uint64)
    requires s.header.Some? && s.initialBlockID != ZeroHash() && s.header.value.timestampMs < t
    requires s.header.value.version == 3 && s.header.value.refsCount == MAX_INT64
    requires 1 <= s.header.value.height < 1000 && rules.maxBlockWindow == 100
    ensures
      var r := Generate(rules, s, t, []);
      r.Ok? && r.value.0.header.refsCount == 100 && !BlockPrev(rules.crypto, r.value.0.header, s.header.value)
  {
    hide BlockID, TxMerkleRoot, TreeRoot, BlockPrev;
    GeneratedBlockFollows(rules, s, t, []);
  }

  /** Transaction k has version 3, and what is left after it, wrapped around as the subtraction is, is not negative. */
  ghost predicate LeftoverNatural(txs: seq<BcTx>, k: nat)
    requires k < |txs|
  {
    txs[k].version == 3 && Wrap64(TotalRunlimit(txs[k..]) - txs[k].runlimit) >= 0
  }

  ghost predicate LeftoversNatural(txs: seq<BcTx>) {
    forall k :: 0 <= k < |txs| ==> LeftoverNatural(txs, k)
  }

  lemma {:induction false} SufficesExactly(txs: seq<BcTx>)
    ensures RunlimitSuffices(Wrap64(TotalRunlimit(txs)), 3, txs) <==> LeftoversNatural(txs)
    decreases |txs|
  {
    if txs != [] {
      hide Wrap64, LeftoversNatural;
      SufficesExactly(txs[1..]);
      WrapsOnce(TotalRunlimit(txs), txs[0].runlimit);
      LeftoversShift(txs);
    }
  }

  lemma WrapsOnce(x: int, y: int64)
    ensures Wrap64(Wrap64(x) - y) == Wrap64(x - y)
  {
  }

  lemma FirstLeftover(txs: seq<BcTx>)
    requires txs != []
    ensures LeftoverNatural(txs, 0) <==> txs[0].version == 3 && Wrap64(TotalRunlimit(txs[1..])) >= 0
  {
    hide Wrap64;
    assert txs[0..] == txs;
  }

  lemma LaterLeftover(txs: seq<BcTx>, k: nat)
    requires 0 < k < |txs|
    ensures LeftoverNatural(txs, k) <==> LeftoverNatural(txs[1..], k - 1)
  {
    hide Wrap64, TotalRunlimit;
    assert txs[1..][k - 1..] == txs[k..];
  }

  lemma LeftoversShift(txs: seq<BcTx>)
    requires txs != []
    ensures LeftoversNatural(txs) <==>
      txs[0].version == 3 && Wrap64(TotalRunlimit(txs[1..])) >= 0 && LeftoversNatural(txs[1..])
  {
    hide Wrap64, TotalRunlimit, LeftoverNatural;
    FirstLeftover(txs);
    var rest := txs[1..];
    forall k | 0 < k < |txs| ensures LeftoverNatural(txs, k) <==> LeftoverNatural(rest, k - 1) {
      LaterLeftover(txs, k);
    }
    if LeftoversNatural(txs) {
      forall k | 0 <= k < |rest| ensures LeftoverNatural(rest, k) {
        assert LeftoverNatural(txs, k + 1);
      }
    }
  }

  lemma {:induction false} ChooseTotals(rules: Rules, d: Draft, txs: seq<BcTx>, t: uint64)
    requires d.runlimit == TotalRunlimit(d.chosen)
    ensures Choose(rules, d, txs, t).runlimit == TotalRunlimit(Choose(rules, d, txs, t).chosen)
    decreases |txs|
  {
    hide ApplyTx, TimeOk;
    if txs != [] && |d.chosen| < MAX_BLOCK_TXS {
      TotalRunlimitAppend(d.chosen, txs[0]);
      ChooseTotals(rules, Consider(rules, d, txs[0], t), txs[1..], t);
    }
  }

  lemma GeneratedRunlimit(rules: Rules, s: Snap, t: uint64, txs: seq<BcTx>)
    requires s.header.Some? && Generate(rules, s, t, txs).Ok?
    ensures
      var b := Generate(rules, s, t, txs).value.0;
      BlockOnly(rules.crypto, b) <==> LeftoversNatural(b.transactions)
  {
    hide Choose, ApplyBlockHeader, BlockID, TxMerkleRoot, RunlimitSuffices, RefsCount, LeftoversNatural, TreeRoot;
    var d := Choose(rules, Draft(PruneNonces(s, t), 0, []), txs, t);
    ChooseTotals(rules, Draft(PruneNonces(s, t), 0, []), txs, t);
    SufficesExactly(d.chosen);
  }

  /** From draft d on, every transaction is in time, keeps the total an int64 and applies. */
  ghost predicate AllFit(rules: Rules, d: Draft, txs: seq<BcTx>, t: uint64)
    decreases |txs|
  {
    txs == [] ||
    (|d.chosen| < MAX_BLOCK_TXS && TimeOk(rules, txs[0], t) && FitsInt64(d.runlimit + txs[0].runlimit)
     && ApplyTx(d.snap, txs[0]).Ok?
     && AllFit(rules, Draft(ApplyTx(d.snap, txs[0]).value, d.runlimit + txs[0].runlimit, d.chosen + [txs[0]]), txs[1..], t))
  }

  lemma {:induction false} AllAreChosen(rules: Rules, d: Draft, txs: seq<BcTx>, t: uint64)
    requires AllFit(rules, d, txs, t)
    ensures Choose(rules, d, txs, t).chosen == d.chosen + txs
    decreases |txs|
  {
    hide ApplyTx, TimeOk;
    if txs != [] {
      var e := Consider(rules, d, txs[0], t);
      AllAreChosen(rules, e, txs[1..], t);
      assert d.chosen + [txs[0]] + txs[1..] == d.chosen + txs;
    }
  }

  /**
   Exactly when the validator accepts the block that a list of transactions leads to, all of which fit:
   all have version 3, and no total of runlimits from some transaction on, as it wraps, is negative.
   */
  lemma GeneratedBlockIsAccepted(rules: Rules, s: Snap, t: uint64, txs: seq<BcTx>)
    requires s.header.Some? && Generate(rules, s, t, txs).Ok?
    requires AllFit(rules, Draft(PruneNonces(s, t), 0, []), txs, t)
    ensures
      var b := Generate(rules, s, t, txs).value.0;
      b.transactions == txs && (BlockOnly(rules.crypto, b) <==> LeftoversNatural(txs))
  {
    hide BlockOnly, LeftoversNatural, BlockID, TxMerkleRoot, RefsCount, Choose, AllFit, TreeRoot;
    GeneratedRunlimit(rules, s, t, txs);
    AllAreChosen(rules, Draft(PruneNonces(s, t), 0, []), txs, t);
    assert [] + txs == txs;
  }

  /** A negative runlimit behind a smaller positive one: the generator makes the block, and BlockOnly rejects it. */
  lemma NegativeRunlimitIsRejected(rules: Rules, s: Snap, t: uint64, tx: BcTx)
    requires s.header.Some? && s.initialBlockID != ZeroHash() && s.header.value.timestampMs < t
    requires 1 <= s.header.value.height < 1000
    requires tx.version == 3 && tx.runlimit == 5 && tx.contracts == [] && tx.timeranges == [] && tx.nonces == []
    ensures
      var txs := [tx, tx.(runlimit := -3)];
      var r := Generate(rules, s, t, txs);
      r.Ok? && r.value.0.transactions == txs && r.value.0.header.runlimit == 2 && !BlockOnly(rules.crypto, r.value.0)
  {
    hide BlockID, TxMerkleRoot, TreeRoot, BlockOnly, LeftoversNatural, Choose;
    var bad := tx.(runlimit := -3);
    var txs := [tx, bad];
    var d := Draft(PruneNonces(s, t), 0, []);
    var d1 := Draft(d.snap, 5, [] + [tx]);
    var d2 := Draft(d.snap, 2, [] + [tx] + [bad]);
    assert ApplyTx(d.snap, tx) == Ok(d.snap) && ApplyTx(d.snap, bad) == Ok(d.snap);
    assert txs[1..] == [bad] && [bad][1..] == [];
    assert AllFit(rules, d2, [], t);
    assert AllFit(rules, d1, [bad], t);
    assert AllFit(rules, d, txs, t);
    AllAreChosen(rules, d, txs, t);
    ChooseTotals(rules, d, txs, t);
    assert [] + txs == txs;
    Totals(tx, bad);
    GenerateSucceeds(rules, s, t, txs);
    GeneratedBlockIsAccepted(rules, s, t, txs);
  }

  lemma Totals(tx: BcTx, bad: BcTx)
    requires tx.runlimit == 5 && bad.runlimit == -3
    ensures TotalRunlimit([tx, bad]) == 2 && !LeftoversNatural([tx, bad])
  {
    var txs := [tx, bad];
    assert txs[1..] == [bad] && [bad][1..] == [] && txs[0..] == txs;
    assert TotalRunlimit([bad]) == -3;
    assert !LeftoverNatural(txs, 0);
  }

  // --- what a validated block is

  /** The block's runlimit covers those of its transactions. */
  ghost predicate Covers(runlimit: int, version: uint64, txs: seq<BcTx>) {
    (version == 3 ==> forall tx <- txs :: tx.version == 3) && (txs == [] || TotalRunlimit(txs) <= runlimit)
  }

  lemma CoversRest(runlimit: int, version: uint64, txs: seq<BcTx>)
    requires txs != [] && forall tx <- txs :: tx.runlimit >= 0
    ensures Covers(runlimit, version, txs) <==>
      && (version == 3 ==> txs[0].version == 3)
      && runlimit - txs[0].runlimit >= 0 && Covers(runlimit - txs[0].runlimit, version, txs[1..])
  {
    var rest := txs[1..];
    assert txs == [txs[0]] + rest;
    TotalIsNatural(rest);
  }

  /**
   Where no transaction has a negative runlimit, the runlimit of a block suffices exactly if it covers them.
   A negative one counts as that much below 2^64, once the first subtraction has made it wrap around.
   */
  lemma {:induction false} SufficesIfCovering(runlimit: int64, version: uint64, txs: seq<BcTx>)
    requires forall tx <- txs :: tx.runlimit >= 0
    ensures RunlimitSuffices(runlimit, version, txs) <==>
      if runlimit >= 0 || txs == [] then Covers(runlimit, version, txs)
      else runlimit - txs[0].runlimit < MIN_INT64 && Covers(runlimit + TWO_TO_THE_64, version, txs)
    decreases |txs|
  {
    if txs != [] {
      hide Covers;
      var rest, left := txs[1..], runlimit - txs[0].runlimit;
      assert txs[0] in txs;
      WrapsWhenSmall(left);
      CoversRest(runlimit, version, txs);
      CoversRest(runlimit + TWO_TO_THE_64, version, txs);
      SufficesIfCovering(Wrap64(left), version, rest);
    } else {
      assert Covers(runlimit, version, txs);
    }
  }

  lemma WrapsWhenSmall(x: int)
    requires MIN_INT64 - MAX_INT64 <= x <= MAX_INT64
    ensures Wrap64(x) == if x < MIN_INT64 then x + TWO_TO_THE_64 else x
  {
  }

  /** A block that declares the least int64 as its runlimit is accepted with a transaction that takes one unit. */
  lemma NegativeBlockRunlimitIsAccepted(c: Crypto, b: Block)
    requires b.header.version == 3 && b.header.extraFields == [] && b.header.runlimit == MIN_INT64
    requires |b.transactions| == 1 && b.transactions[0].version == 3 && b.transactions[0].runlimit == 1
    requires b.header.transactionsRoot == TxMerkleRoot(c, b.transactions)
    ensures BlockOnly(c, b)
  {
    hide TxMerkleRoot;
    assert b.transactions == [b.transactions[0]];
    assert TotalRunlimit(b.transactions) == 1 + TotalRunlimit([]);
    SufficesIfCovering(b.header.runlimit, 3, b.transactions);
  }

  /**
   What BlockOnly accepts, if no transaction has a negative runlimit and the block has none: the declared root
   is the tree hash of exactly the listed transactions, and the runlimit covers theirs.
   */
  lemma BlockOnlyExactly(c: Crypto, b: Block)
    requires b.header.runlimit >= 0 && forall tx <- b.transactions :: tx.runlimit >= 0
    ensures BlockOnly(c, b) <==>
      && (b.header.version == 3 ==> b.header.extraFields == [] && forall tx <- b.transactions :: tx.version == 3)
      && (b.transactions == [] || TotalRunlimit(b.transactions) <= b.header.runlimit)
      && b.header.transactionsRoot == Merkle.TreeHash(c.sha3, Commitments(b.transactions))
  {
    SufficesIfCovering(b.header.runlimit, b.header.version, b.transactions);
    Merkle.RootIsTreeHash(c.sha3, Commitments(b.transactions));
  }

  /** Whatever the runlimits, an accepted block declares the tree hash of exactly its own transactions. */
  lemma BlockOnlyBindsTransactions(c: Crypto, b: Block)
    requires BlockOnly(c, b)
    ensures b.header.transactionsRoot == Merkle.TreeHash(c.sha3, Commitments(b.transactions))
  {
    hide RunlimitSuffices;
    Merkle.RootIsTreeHash(c.sha3, Commitments(b.transactions));
  }

  // --- which transactions a generated block holds

  /** The block time lies in all time ranges, and no nonce lasts longer than the window. Zero stands for no bound. */
  ghost predicate Timely(rules: Rules, tx: BcTx, t: uint64) {
    && (forall r <- tx.timeranges :: (r.maxMS > 0 ==> t <= r.maxMS) && (r.minMS > 0 && t > 0 ==> r.minMS <= t))
    && (rules.maxNonceWindow > 0 ==>
          forall n <- tx.nonces :: n.expMS <= (rules.maxNonceWindow / 1000000 + t) % TWO_TO_THE_64)
  }

  /** Every transaction of a generated block is in time for it, and the block is not too large. */
  lemma {:induction false} ChosenAreTimely(rules: Rules, d: Draft, txs: seq<BcTx>, t: uint64)
    requires (forall tx <- d.chosen :: Timely(rules, tx, t)) && |d.chosen| <= 10000
    ensures
      var e := Choose(rules, d, txs, t);
      (forall tx <- e.chosen :: Timely(rules, tx, t)) && |e.chosen| <= 10000
    decreases |txs|
  {
    hide ApplyTx;
    if txs != [] && |d.chosen| < MAX_BLOCK_TXS {
      ChosenAreTimely(rules, Consider(rules, d, txs[0], t), txs[1..], t);
    }
  }

  /** Whatever is chosen, one more transaction is chosen exactly if there is room, it is in time, fits, and applies. */
  lemma {:induction false} ChoosesExactly(rules: Rules, d: Draft, txs: seq<BcTx>, tx: BcTx, t: uint64)
    ensures
      var e := Choose(rules, d, txs, t);
      Choose(rules, d, txs + [tx], t) ==
        if |e.chosen| < 10000 && Timely(rules, tx, t) && FitsInt64(e.runlimit + tx.runlimit) && ApplyTx(e.snap, tx).Ok?
        then Draft(ApplyTx(e.snap, tx).value, e.runlimit + tx.runlimit, e.chosen + [tx])
        else e
    decreases |txs|
  {
    hide ApplyTx;
    if |d.chosen| >= MAX_BLOCK_TXS {
    } else if txs == [] {
      TimelyExactly(rules, tx, t);
      hide Timely, TimeOk;
      assert [tx][1..] == [];
    } else {
      hide Timely, TimeOk, Consider;
      assert (txs + [tx])[1..] == txs[1..] + [tx];
      ChoosesExactly(rules, Consider(rules, d, txs[0], t), txs[1..], tx, t);
    }
  }

  lemma TimelyExactly(rules: Rules, tx: BcTx, t: uint64)
    ensures TimeOk(rules, tx, t) <==> Timely(rules, tx, t)
  {
  }

  /** A generated block: every transaction is in time, and the header says what follows from the one before. */
  lemma GeneratedBlockIsTimely(rules: Rules, prev: Header, cur: Snap, t: uint64, txs: seq<BcTx>)
    requires GenerateOn(rules, prev, cur, t, txs).Ok?
    ensures
      var b := GenerateOn(rules, prev, cur, t, txs).value.0;
      && |b.transactions| <= 10000
      && forall tx <- b.transactions ::
        && (forall r <- tx.timeranges :: (r.maxMS > 0 ==> t <= r.maxMS) && (r.minMS > 0 && t > 0 ==> r.minMS <= t))
        && (rules.maxNonceWindow > 0 ==>
              forall n <- tx.nonces :: n.expMS <= (rules.maxNonceWindow / 1000000 + t) % TWO_TO_THE_64)
    ensures
      var h := GenerateOn(rules, prev, cur, t, txs).value.0.header;
      && h.version == 3 && h.timestampMs == t > prev.timestampMs && h.extraFields == []
      && h.nextPredicate == prev.nextPredicate && h.previousBlockID == BlockID(rules.crypto, prev)
      && (prev.height < TWO_TO_THE_64 - 1 ==> h.height == prev.height + 1)
      && (rules.maxBlockWindow <= MAX_INT64 ==>
            h.refsCount == if prev.refsCount < rules.maxBlockWindow then prev.refsCount + 1 else rules.maxBlockWindow)
  {
    hide Choose, ApplyBlockHeader, BlockID, TxMerkleRoot, TreeRoot;
    ChosenAreTimely(rules, Draft(PruneNonces(cur, t), 0, []), txs, t);
  }
}
