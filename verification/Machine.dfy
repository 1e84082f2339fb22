/**
 The TxVM instruction set as transformations of the machine state.

 Every instruction that neither runs nor resumes a program is a function from state to state whose
 contract is Kept: what each single instruction preserves. The hooks of bc.NewTx that collect the
 contracts seen by input and output are part of the state (moves).
 */
module Machine {
  import opened Prelude
  import opened Varint
  import opened Items
  import opened Ledger
  import opened Encoding
  import Op = Opcodes
  import Merkle

  datatype Error =
    | ErrResidue | ErrRunlimit | ErrVersion | ErrStackRange | ErrRange | ErrType | ErrFields
    | ErrUnderflow | ErrIntOverflow | ErrExt | ErrNonEmpty | ErrUnportable | ErrPrv | ErrNegAmount
    | ErrSplit | ErrMergeAsset | ErrAnchorVal | ErrInt | ErrVerifyFail | ErrJump | ErrFinalized
    | ErrUnfinalized | ErrBitLen | ErrSliceRange | ErrSigSize | ErrPubSize | ErrSignature
    | ErrDecode | ErrRuntime

  datatype Run = Run(pc: nat, prog: bytes)

  /** The results of a run: the log, the transaction ID, and the contracts that input and output moved, inspected. */
  datatype Tx = Tx(
    log: seq<Entry>,
    finalized: bool,
    txid: Hash,
    moves: seq<Move>)

  datatype State = State(
    version: int64,
    extension: bool,
    runlimit: int,
    argstack: seq<Item>,
    run: Run,
    unwinding: bool,
    contract: Contract,
    caller: bytes,
    tx: Tx)

  type Step = Result<State, Error>

  // --- what every instruction keeps

  /** The amount of asset a that has left the machine, less the amount that has entered it. */
  function Outflow(tx: Tx, a: bytes): int {
    Logged(tx.log, RETIRE_CODE, a) + AmountOut(tx.moves, a)
    - Logged(tx.log, ISSUE_CODE, a) - AmountIn(tx.moves, a)
  }

  /** A suspended contract has already been handed to the argument stack or put out. */
  function Balance(s: State, a: bytes): int {
    StackAmount(s.argstack, a)
    + (if s.unwinding then 0 else StackAmount(s.contract.stack, a))
    + Outflow(s.tx, a)
  }

  function SnapshotID(c: Crypto, t: seq<Data>): Hash {
    c.vmHash("SnapshotID", Encode(Tuple(t)))
  }

  function MoveIDs(c: Crypto, moves: seq<Move>): (r: seq<LoggedMove>)
    ensures |r| == |moves|
    ensures forall i :: 0 <= i < |moves| ==> r[i] == LoggedMove(moves[i].In?, SnapshotID(c, moves[i].snapshot))
  {
    seq(|moves|, i requires 0 <= i < |moves| => LoggedMove(moves[i].In?, SnapshotID(c, moves[i].snapshot)))
  }

  function EncodeEach(log: seq<Entry>): seq<bytes> {
    seq(|log|, i requires 0 <= i < |log| => Encode(Tuple(log[i])))
  }

  /** The log names exactly the contracts taken in and put out, in order; TxID commits to a finalized log. */
  ghost predicate WellLogged(c: Crypto, tx: Tx) {
    && LoggedMoves(tx.log) == MoveIDs(c, tx.moves)
    && if tx.finalized
       then
         && tx.log != []
         && HasCode(tx.log[|tx.log| - 1], FINALIZE_CODE)
         && NoneHasCode(tx.log[..|tx.log| - 1], FINALIZE_CODE)
         && tx.txid == Merkle.Root(c.sha3, EncodeEach(tx.log))
       else NoneHasCode(tx.log, FINALIZE_CODE)
  }

  /** The log only grows, and nothing is recorded once it is finalized. */
  ghost predicate Extends(tx: Tx, tx': Tx) {
    && tx.log <= tx'.log && tx.moves <= tx'.moves
    && (tx.finalized ==> tx' == tx)
  }

  /** As long as nothing negative is taken in, nothing negative is held or put out. */
  ghost predicate Natural(s: State) {
    && OutputsFollow(s.tx.moves)
    && (InputsNatural(s.tx.moves) ==>
          NaturalStack(s.argstack) && (s.unwinding || NaturalStack(s.contract.stack)))
  }

  /** No value is created or lost, runlimit never grows, and the log only grows and then freezes. */
  ghost predicate Kept(c: Crypto, s: State, r: Step) {
    r.Ok? ==>
      var t := r.value;
      && t.version == s.version && t.extension == s.extension
      && t.run.prog == s.run.prog
      && (s.run.pc <= |s.run.prog| ==> t.run.pc <= |t.run.prog|)
      && t.runlimit <= s.runlimit && (0 <= s.runlimit ==> 0 <= t.runlimit)
      && Extends(s.tx, t.tx)
      && (!s.unwinding ==> forall a :: Balance(t, a) == Balance(s, a))
      && (!s.unwinding && Natural(s) ==> Natural(t))
      && (WellLogged(c, s.tx) ==> WellLogged(c, t.tx))
      && (FormedLog(s.tx.log) ==> FormedLog(t.tx.log))
      && (NoncesDated(s.tx.log) ==> NoncesDated(t.tx.log))
  }

  // --- runlimit

  /** A charge is never negative: every caller passes a nat. */
  function Charge(s: State, n: nat): (r: Step)
    ensures r.Ok? <==> n <= s.runlimit
    ensures r.Ok? ==> r.value.runlimit + n == s.runlimit && r.value == s.(runlimit := r.value.runlimit)
    ensures r.Err? ==> r.error == ErrRunlimit
  {
    if s.runlimit - n < 0 then Err(ErrRunlimit) else Ok(s.(runlimit := s.runlimit - n))
  }

  /** chargeCreate and chargeCopy of plain data. */
  function DataCost(d: Data): nat {
    match d
    case Int(_) => 0
    case Bytes(b) => 1 + |b|
    case Tuple(t) => 1 + |t|
  }

  const ENTRY_COST: nat := 128

  // --- stack access

  function Push(s: State, x: Item): (t: State)
    ensures forall a :: StackAmount(t.contract.stack, a) == StackAmount(s.contract.stack, a) + Amount(x, a)
    ensures NaturalStack(s.contract.stack) && NaturalItem(x) ==> NaturalStack(t.contract.stack)
  {
    s.(contract := s.contract.(stack := s.contract.stack + [x]))
  }

  function PushData(s: State, d: Data): State {
    Push(s, Plain(d))
  }

  function Bool(b: bool): Data {
    Int(if b then 1 else 0)
  }

  function Pop(s: State): (r: Result<(Item, State), Error>)
    ensures r.Ok? <==> s.contract.stack != []
    ensures r.Ok? ==> forall a ::
      StackAmount(r.value.1.contract.stack, a) + Amount(r.value.0, a) == StackAmount(s.contract.stack, a)
    ensures r.Ok? && NaturalStack(s.contract.stack) ==> NaturalItem(r.value.0) && NaturalStack(r.value.1.contract.stack)
  {
    var n := |s.contract.stack|;
    :- Need(n > 0, ErrUnderflow);
    Ok((s.contract.stack[n - 1], s.(contract := s.contract.(stack := s.contract.stack[..n - 1]))))
  }

  function PopData(s: State): Result<(Data, State), Error> {
    var (x, s) :- Pop(s);
    :- Need(x.Plain?, ErrType);
    Ok((x.d, s))
  }

  function PopInt(s: State): Result<(int64, State), Error> {
    var (x, s) :- Pop(s);
    :- Need(x.Plain? && x.d.Int?, ErrType);
    Ok((x.d.i, s))
  }

  function PopBytes(s: State): Result<(bytes, State), Error> {
    var (x, s) :- Pop(s);
    :- Need(x.Plain? && x.d.Bytes?, ErrType);
    Ok((x.d.b, s))
  }

  function PopTuple(s: State): Result<(seq<Data>, State), Error> {
    var (x, s) :- Pop(s);
    :- Need(x.Plain? && x.d.Tuple?, ErrType);
    Ok((x.d.items, s))
  }

  /** Anything but the integer zero is true. */
  function AsBool(d: Data): bool {
    d != Int(0)
  }

  function PopBool(s: State): Result<(bool, State), Error> {
    var (d, s) :- PopData(s);
    Ok((AsBool(d), s))
  }

  function PopValue(s: State): Result<(Value, State), Error> {
    var (x, s) :- Pop(s);
    :- Need(x.Val?, ErrType);
    Ok((x.v, s))
  }

  function PopZeroValue(s: State): Result<(Value, State), Error> {
    var (v, s) :- PopValue(s);
    :- Need(v.amount == 0, ErrAnchorVal);
    Ok((v, s))
  }

  function Peek(s: State): Result<Item, Error> {
    var n := |s.contract.stack|;
    :- Need(n > 0, ErrUnderflow);
    Ok(s.contract.stack[n - 1])
  }

  function PeekValue(s: State): Result<Value, Error> {
    var x :- Peek(s);
    :- Need(x.Val?, ErrType);
    Ok(x.v)
  }

  /** Charges for d and pushes it. */
  function ChargeAndPush(s: State, d: Data): Step {
    var s :- Charge(s, DataCost(d));
    Ok(PushData(s, d))
  }

  function PushArg(s: State, x: Item): (t: State)
    ensures forall a :: StackAmount(t.argstack, a) == StackAmount(s.argstack, a) + Amount(x, a)
    ensures NaturalStack(s.argstack) && NaturalItem(x) ==> NaturalStack(t.argstack)
  {
    s.(argstack := s.argstack + [x])
  }

  // --- the log

  /** Entries that name no contract and do not finalize. */
  predicate IsOrdinary(t: Entry) {
    !HasCode(t, INPUT_CODE) && !HasCode(t, OUTPUT_CODE) && !HasCode(t, FINALIZE_CODE)
  }

  function Append(c: Crypto, tx: Tx, t: Entry): (tx': Tx)
    ensures forall a :: Outflow(tx', a) ==
                        Outflow(tx, a) + EntryAmount(t, RETIRE_CODE, a) - EntryAmount(t, ISSUE_CODE, a)
    ensures IsOrdinary(t) && !tx.finalized && WellLogged(c, tx) ==> WellLogged(c, tx')
    ensures FormedEntry(t) && FormedLog(tx.log) ==> FormedLog(tx'.log)
    ensures !HasCode(t, NONCE_CODE) && NoncesDated(tx.log) ==> NoncesDated(tx'.log)
  {
    tx.(log := tx.log + [t])
  }

  /** Logging t changes the log and runlimit only, and records amounts as t says. */
  ghost predicate Recorded(s: State, t: Entry, r: Step) {
    r.Ok? ==>
      && r.value == s.(runlimit := r.value.runlimit, tx := r.value.tx)
      && 0 <= r.value.runlimit <= s.runlimit
      && Extends(s.tx, r.value.tx) && r.value.tx.moves == s.tx.moves && r.value.tx.log == s.tx.log + [t]
      && (FormedEntry(t) && FormedLog(s.tx.log) ==> FormedLog(r.value.tx.log))
      && (!HasCode(t, NONCE_CODE) && NoncesDated(s.tx.log) ==> NoncesDated(r.value.tx.log))
      && forall a :: Outflow(r.value.tx, a)
                     == Outflow(s.tx, a) + EntryAmount(t, RETIRE_CODE, a) - EntryAmount(t, ISSUE_CODE, a)
  }

  function Log(c: Crypto, s: State, t: Entry): (r: Step)
    ensures Recorded(s, t, r)
    ensures r.Ok? && IsOrdinary(t) && WellLogged(c, s.tx) ==> WellLogged(c, r.value.tx)
  {
    if s.tx.finalized then Err(ErrFinalized) else
    var s :- Charge(s, 1 + |t|);
    Ok(s.(tx := Append(c, s.tx, t)))
  }

  /** Logging a move changes the log, the runlimit and the list of moves only. */
  ghost predicate RecordedMove(c: Crypto, s: State, m: Move, r: Step) {
    r.Ok? ==>
      && r.value == s.(runlimit := r.value.runlimit, tx := r.value.tx)
      && 0 <= r.value.runlimit <= s.runlimit
      && Extends(s.tx, r.value.tx) && r.value.tx.moves == s.tx.moves + [m]
      && (forall a :: Outflow(r.value.tx, a) == Outflow(s.tx, a) + (if m.In? then -1 else 1) * SnapshotAmount(m.snapshot, a))
      && (WellLogged(c, s.tx) ==> WellLogged(c, r.value.tx))
      && (FormedLog(s.tx.log) ==> FormedLog(r.value.tx.log))
      && (NoncesDated(s.tx.log) ==> NoncesDated(r.value.tx.log))
  }

  lemma MoveStaysWellLogged(c: Crypto, tx: Tx, t: Entry, m: Move)
    requires |t| == 3 && HasCode(t, if m.In? then INPUT_CODE else OUTPUT_CODE) && t[2] == Bytes(SnapshotID(c, m.snapshot))
    ensures WellLogged(c, tx) && !tx.finalized ==> WellLogged(c, Append(c, tx, t).(moves := tx.moves + [m]))
  {
    hide SnapshotID;
    assert (tx.log + [t])[..|tx.log|] == tx.log;
    assert MoveIDs(c, tx.moves + [m]) == MoveIDs(c, tx.moves) + [LoggedMove(m.In?, SnapshotID(c, m.snapshot))];
  }

  lemma NonceThenRange(log: seq<Entry>, nonce: Entry, range: Entry)
    requires HasCode(nonce, NONCE_CODE) && IsRangeOf(nonce, range)
    ensures NoncesDated(log) ==> NoncesDated(log + [nonce] + [range])
  {
  }

  lemma KeptErr(c: Crypto, s: State, e: Error)
    ensures Kept(c, s, Err(e))
  {
  }
}
