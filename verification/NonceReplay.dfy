/** When a chain accepts the nonce of a valid transaction twice (anchors.go, tx.go, state/snapshot.go). */
module NonceReplay {
  import opened Prelude
  import opened Varint
  import opened Items
  import opened Ledger
  import opened Encoding
  import opened Machine
  import opened Instructions
  import opened Interpreter
  import opened Opcodes
  import opened Compilation
  import opened Blocks
  import opened Generation
  import opened History
  import opened TxLog
  import Effects
  import Laws
  import Merkle
  import Runs

  // --- the shortest program with a nonce

  /** Makes a nonce for no particular block, with the given expiry, and finalizes with its anchor. */
  function NonceProgram(exp: int64): bytes {
    Encode(Bytes(ZeroHash())) + (EncodeInt(exp) + ([NONCE] + [FINALIZE]))
  }

  const RUNLIMIT: int64 := 10000

  function NonceEntry(exp: int64): Entry {
    NonceTuple(ZeroHash(), ZeroHash(), ZeroHash(), exp)
  }

  function Anchor(c: Crypto, exp: int64): Hash {
    c.vmHash("Nonce", Encode(Tuple(NonceEntry(exp))))
  }

  function FinalizeEntry(c: Crypto, exp: int64): Entry {
    [Bytes([FINALIZE_CODE]), Bytes(ZeroHash()), Int(3), Bytes(Anchor(c, exp))]
  }

  function FinalLog(c: Crypto, exp: int64): seq<Entry> {
    [NonceEntry(exp), TimeRangeTuple(ZeroHash(), 0, exp), FinalizeEntry(c, exp)]
  }

  lemma MakesNonce(c: Crypto, s: State, exp: int64)
    requires s.contract.stack == [Plain(Bytes(ZeroHash())), Plain(Int(exp))] && s.contract.seed == s.caller == ZeroHash()
    requires s.tx.log == [] && !s.tx.finalized && s.runlimit >= ENTRY_COST + 11
    ensures OpNonce(c, s) ==
      Ok(WithStack(s, [Val(Value(0, ZeroHash(), Anchor(c, exp)))])
         .(runlimit := s.runlimit - ENTRY_COST - 11,
           tx := s.tx.(log := [NonceEntry(exp), TimeRangeTuple(ZeroHash(), 0, exp)])))
  {
    hide OpNonce, Encode;
    var x, y := Plain(Bytes(ZeroHash())), Plain(Int(exp));
    assert s.contract.stack == [] + [x, y];
    Effects.MakesNonce(c, s, [], ZeroHash(), exp);
    assert [] + [NonceEntry(exp)] + [TimeRangeTuple(ZeroHash(), 0, exp)] == [NonceEntry(exp), TimeRangeTuple(ZeroHash(), 0, exp)];
    assert [] + [Val(Value(0, ZeroHash(), Anchor(c, exp)))] == [Val(Value(0, ZeroHash(), Anchor(c, exp)))];
  }

  lemma Finalizes(c: Crypto, s: State, exp: int64)
    requires s.contract.stack == [Val(Value(0, ZeroHash(), Anchor(c, exp)))] && s.contract.seed == ZeroHash() && s.version == 3
    requires s.tx.log == [NonceEntry(exp), TimeRangeTuple(ZeroHash(), 0, exp)] && !s.tx.finalized && s.runlimit >= 5
    ensures
      var r := OpFinalize(c, s);
      && r.Ok? && r.value.contract.stack == [] && r.value.argstack == s.argstack && r.value.run == s.run
      && r.value.unwinding == s.unwinding && r.value.version == 3
      && r.value.tx.log == FinalLog(c, exp) && r.value.tx.finalized && 0 <= r.value.runlimit
  {
    hide Kept, Pop, Log, Recorded, WellLogged, FormedLog, NoncesDated, Encode, Merkle.Root, EncodeEach;
    var v := Value(0, ZeroHash(), Anchor(c, exp));
    assert s.contract.stack == [] + [Val(v)];
    PopsOne(s, [], Val(v));
    var t := WithStack(s, []);
    Laws.Logs(c, t, FinalizeEntry(c, exp));
    assert s.tx.log + [FinalizeEntry(c, exp)] == FinalLog(c, exp);
  }

  lemma ProgramIsShort(exp: int64)
    ensures |Encode(Bytes(ZeroHash()))| == 33 && Cost(Bytes(ZeroHash())) == 34 && Compilation.Count(Bytes(ZeroHash())) == 1
    ensures |EncodeInt(exp)| <= 12 && IntCost(exp) <= 13 && IntCount(exp) <= 2
    ensures |NonceProgram(exp)| == 33 + |EncodeInt(exp)| + 2
  {
    RoomAtStart();
    VarintIsShort(ToUint64(exp), 0);
  }

  /** The machine just before the nonce instruction. */
  lemma PushesOperands(c: Crypto, exp: int64) returns (g: Config, n: nat)
    ensures
      var start := Initial(NonceProgram(exp), 3, RUNLIMIT, false);
      && n <= 3 && Steps(c, start, n) == Ok(g) && About(g, [NONCE] + [FINALIZE])
      && g == After(start, 33 + |EncodeInt(exp)|, [Plain(Bytes(ZeroHash())), Plain(Int(exp))], 34 + IntCost(exp))
      && g.s.run.pc + 2 == |g.s.run.prog|
  {
    hide Next, Kept, KeptWhole, Steps, EncodeInt, IntCost, IntCount, Encode, Cost, Compilation.Count;
    var start := Initial(NonceProgram(exp), 3, RUNLIMIT, false);
    var z, a, b := Bytes(ZeroHash()), Encode(Bytes(ZeroHash())), EncodeInt(exp);
    ProgramIsShort(exp);
    assert start.s.run.prog[0..|start.s.run.prog|] == NonceProgram(exp);
    AboutParts(start, a, b + ([NONCE] + [FINALIZE]), [Plain(z)], 34);
    RunsEncode(c, start, z);
    var g1 := After(start, |a|, [Plain(z)], 34);
    AboutParts(g1, b, [NONCE] + [FINALIZE], [Plain(Int(exp))], IntCost(exp));
    RunsEncodeInt(c, g1, exp);
    g, n := After(g1, |b|, [Plain(Int(exp))], IntCost(exp)), 1 + IntCount(exp);
    StepsCompose(c, start, 1, IntCount(exp));
    assert [Plain(z)] + [Plain(Int(exp))] == [Plain(z), Plain(Int(exp))];
    assert start.s.contract.stack + [Plain(z)] + [Plain(Int(exp))] == start.s.contract.stack + [Plain(z), Plain(Int(exp))];
  }

  lemma NonceStep(c: Crypto, g: Config, exp: int64) returns (h: Config)
    requires About(g, [NONCE] + [FINALIZE]) && g.s.run.pc + 2 == |g.s.run.prog| && g.frames == []
    requires g.s.contract.stack == [Plain(Bytes(ZeroHash())), Plain(Int(exp))] && g.s.contract.seed == g.s.caller == ZeroHash()
    requires g.s.tx.log == [] && !g.s.tx.finalized && g.s.runlimit >= ENTRY_COST + 20
    requires g.s.version == 3 && g.s.argstack == []
    ensures Steps(c, g, 1) == Ok(h) && About(h, [FINALIZE]) && h.s.run.pc + 1 == |h.s.run.prog| && h.frames == []
    ensures h.s.contract.stack == [Val(Value(0, ZeroHash(), Anchor(c, exp)))] && h.s.contract.seed == ZeroHash()
    ensures h.s.tx.log == [NonceEntry(exp), TimeRangeTuple(ZeroHash(), 0, exp)] && !h.s.tx.finalized
    ensures h.s.version == 3 && h.s.argstack == [] && h.s.runlimit >= 8
  {
    hide Next, Kept, KeptWhole, Steps, OpNonce, Encode;
    AboutParts(g, [NONCE], [FINALIZE], [], 0);
    RunsOne(c, g, NONCE);
    var s := g.s.(runlimit := g.s.runlimit - 1, run := g.s.run.(pc := g.s.run.pc + 1));
    MakesNonce(c, s, exp);
    h := g.(s := OpNonce(c, s).value);
  }

  lemma FinalizeStep(c: Crypto, g: Config, exp: int64) returns (h: Config)
    requires About(g, [FINALIZE]) && g.s.run.pc + 1 == |g.s.run.prog| && g.frames == []
    requires g.s.contract.stack == [Val(Value(0, ZeroHash(), Anchor(c, exp)))] && g.s.contract.seed == ZeroHash()
    requires g.s.tx.log == [NonceEntry(exp), TimeRangeTuple(ZeroHash(), 0, exp)] && !g.s.tx.finalized
    requires g.s.version == 3 && g.s.argstack == [] && g.s.runlimit >= 8
    ensures Steps(c, g, 1) == Ok(h) && Halted(h) && h.s.contract.stack == [] && h.s.argstack == []
    ensures h.s.tx.log == FinalLog(c, exp) && h.s.tx.finalized && h.s.version == 3
  {
    hide Next, Kept, KeptWhole, Steps, OpFinalize, Encode;
    RunsOne(c, g, FINALIZE);
    var s := g.s.(runlimit := g.s.runlimit - 1, run := g.s.run.(pc := g.s.run.pc + 1));
    Finalizes(c, s, exp);
    h := g.(s := OpFinalize(c, s).value);
  }

  lemma NonceProgramRuns(c: Crypto, exp: int64) returns (h: Config)
    ensures RunTo(c, Initial(NonceProgram(exp), 3, RUNLIMIT, false), 0) == Ok(h)
    ensures h.s.contract.stack == [] && h.s.argstack == []
    ensures h.s.tx.log == FinalLog(c, exp) && h.s.tx.finalized && h.s.version == 3
  {
    hide Next, Kept, KeptWhole, Steps, RunTo, Encode, EncodeInt, IntCost, NonceProgram;
    var start := Initial(NonceProgram(exp), 3, RUNLIMIT, false);
    ProgramIsShort(exp);
    var g1, n := PushesOperands(c, exp);
    assert g1.s.contract.stack == [Plain(Bytes(ZeroHash())), Plain(Int(exp))];
    var g2 := NonceStep(c, g1, exp);
    h := FinalizeStep(c, g2, exp);
    var all := Runs.Bound(start);
    StepsCompose(c, start, n, 1);
    StepsCompose(c, start, n + 1, 1);
    Runs.HaltedStays(c, h, all - n - 2);
    StepsCompose(c, start, n + 2, all - n - 2);
    Runs.EveryRunStops(c, start, all);
  }

  // --- its transaction

  function NonceOf(c: Crypto, exp: int64): Nonce {
    Nonce(Anchor(c, exp), ZeroHash(), ToUint64(exp))
  }

  function NonceTx(c: Crypto, exp: int64): BcTx {
    BcTx(3, RUNLIMIT, [], [], [Timerange(0, exp)], [NonceOf(c, exp)])
  }

  lemma NonceEntriesList(c: Crypto, exp: int64)
    ensures
      var log := FinalLog(c, exp);
      && ContractRefs(log[0]) == ContractRefs(log[1]) == ContractRefs(log[2]) == []
      && Timeranges(log[0]) == Timeranges(log[2]) == [] && Timeranges(log[1]) == [Timerange(0, exp)]
      && Nonces(c, log[0]) == [NonceOf(c, exp)] && Nonces(c, log[1]) == Nonces(c, log[2]) == []
  {
    hide Encode;
    assert ZeroHash()[..32] == ZeroHash();
  }

  lemma DescribesNonce(c: Crypto, s: State, exp: int64)
    requires s.version == 3 && s.tx.log == FinalLog(c, exp)
    ensures Describe(c, s, RUNLIMIT, []) == NonceTx(c, exp)
  {
    hide Encode, ContractRefs, Timeranges, Nonces;
    NonceEntriesList(c, exp);
    var log := FinalLog(c, exp);
    var a, b, f := log[0], log[1], log[2];
    assert log == [] + [a] + [b] + [f];
    AppendEntry(c, [], a);
    AppendEntry(c, [] + [a], b);
    AppendEntry(c, [] + [a] + [b], f);
  }

  /** For every expiry there is a valid transaction that does nothing but use a nonce of that expiry. */
  lemma NonceTxIsValid(c: Crypto, exp: int64)
    ensures IsValidTx(c, NonceTx(c, exp)) && UsesOnly(NonceTx(c, exp), NonceOf(c, exp))
  {
    hide RunTo, KeptWhole, NonceProgram, Describe, Anchor;
    var h := NonceProgramRuns(c, exp);
    ProgramIsShort(exp);
    DescribesNonce(c, h.s, exp);
    assert ComesFrom(c, NonceTx(c, exp), NonceProgram(exp), 3, RUNLIMIT, false, []);
  }

  // --- chains of valid transactions

  ghost predicate AllValid(c: Crypto, requests: seq<Request>) {
    forall r <- requests, tx <- r.txs :: IsValidTx(c, tx)
  }

  lemma ValidIsDated(c: Crypto, tx: BcTx)
    requires IsValidTx(c, tx)
    ensures Dated(tx)
  {
    hide Validate, Describe, Dated;
    var prog, version, runlimit, extension, commitment :| ComesFrom(c, tx, prog, version, runlimit, extension, commitment);
    ValidTransactionsAreDated(c, prog, version, runlimit, extension, commitment);
  }

  lemma AllValidAreDated(c: Crypto, requests: seq<Request>)
    requires AllValid(c, requests)
    ensures AllDated(requests)
  {
    hide IsValidTx, Dated;
    forall r <- requests, tx <- r.txs ensures Dated(tx) {
      ValidIsDated(c, tx);
    }
  }

  /** Along any chain of blocks generated from valid transactions, a nonce of positive expiry is accepted at most once. */
  lemma NoNonceReplay(rules: Rules, s: Snap, requests: seq<Request>, nc: bytes, exp: uint64)
    requires s.header.Some? && GenerateAll(rules, s, requests).Ok? && AllValid(rules.crypto, requests)
    requires |nc| == 40 && NonceTime(nc) == exp && ToInt64(exp) > 0
    ensures UsesBlocks(GenerateAll(rules, s, requests).value.0, nc) <= 1
  {
    hide GenerateAll, NonceTime, AllValid, AllDated;
    AllValidAreDated(rules.crypto, requests);
    DatedNonceIsUsedOnce(rules, s, requests, nc, exp);
  }

  /** Some valid transactions, offered for blocks at these times, make the chain accept the nonce twice. */
  ghost predicate CanReplay(rules: Rules, s: Snap, times: seq<uint64>, nc: bytes)
    requires s.header.Some?
  {
    exists requests :: Times(requests) == times && AllValid(rules.crypto, requests) && AcceptsTwice(rules, s, requests, nc)
  }

  /** A second acceptance needs two block times that let the nonce in, the later one past its expiry. */
  lemma ReplayNeeds(rules: Rules, s: Snap, times: seq<uint64>, n: Nonce)
    requires s.header.Some? && CanReplay(rules, s, times, Commitment(n))
    ensures exists i: nat, j: nat :: Reusable(rules, s, Commitment(n), n.expMS, times, i, j)
  {
    hide GenerateAll, NonceCommitment, NonceTime, Reusable, AllValid, AllDated;
    NonceTimeOfCommitment(n.id, n.expMS);
    var requests :| Times(requests) == times && AllValid(rules.crypto, requests) && AcceptsTwice(rules, s, requests, Commitment(n));
    AllValidAreDated(rules.crypto, requests);
    ReplayNeedsTwoTimes(rules, s, requests, Commitment(n), n.expMS);
  }

  /**
   The nonce of a valid transaction that does nothing else can be accepted twice on a chain exactly if two
   of its block times let it in, the later one past its expiry: that is, if the expiry is zero or negative
   as an int64, so that its time range never ends, and the nonce window does not stop it.
   */
  lemma ReplayExactly(rules: Rules, s: Snap, times: seq<uint64>, tx: BcTx, n: Nonce)
    requires Follows(s, times) && IsValidTx(rules.crypto, tx) && UsesOnly(tx, n)
    ensures CanReplay(rules, s, times, Commitment(n)) <==>
      exists i: nat, j: nat :: Reusable(rules, s, Commitment(n), n.expMS, times, i, j)
  {
    hide Commitment, Reusable, AcceptsTwice, IsValidTx, UsesOnly;
    if CanReplay(rules, s, times, Commitment(n)) {
      ReplayNeeds(rules, s, times, n);
    }
    if i: nat, j: nat :| Reusable(rules, s, Commitment(n), n.expMS, times, i, j) {
      PlanReplays(rules, s, times, i, j, tx, n);
      assert AllValid(rules.crypto, Plan(times, i, j, tx));
    }
  }

  /** The failing expiries: zero is replayed by any two blocks, and a negative one by two blocks of which the second is past it. */
  lemma UnendingExpiryIsReplayed(rules: Rules, s: Snap, t1: uint64, t2: uint64, exp: int64)
    requires Follows(s, [t1, t2]) && Commitment(NonceOf(rules.crypto, exp)) !in s.nonces
    requires exp == 0 || (exp < 0 && ToUint64(exp) < t2 && rules.maxNonceWindow <= 0)
    ensures CanReplay(rules, s, [t1, t2], Commitment(NonceOf(rules.crypto, exp)))
  {
    hide Commitment, CanReplay, IsValidTx, UsesOnly, NonceTx;
    var n := NonceOf(rules.crypto, exp);
    NonceTxIsValid(rules.crypto, exp);
    assert Reusable(rules, s, Commitment(n), n.expMS, [t1, t2], 0, 1);
    ReplayExactly(rules, s, [t1, t2], NonceTx(rules.crypto, exp), n);
  }
}
