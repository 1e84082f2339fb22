/** The instructions that neither run a program nor return from one. Each keeps what Kept says. */
module Instructions {
  import opened Prelude
  import opened Varint
  import opened Items
  import opened Ledger
  import opened Encoding
  import opened Machine
  import opened Opcodes
  import Merkle
  import Stacks

  // --- values (values.go, anchors.go)

  function AssetID(c: Crypto, seed: bytes, tag: bytes): Hash {
    c.vmHash("AssetID", seed + tag)
  }

  function PushNewValue(s: State, v: Value): Step {
    var s :- Charge(s, ENTRY_COST);
    Ok(Push(s, Val(v)))
  }

  function OpIssue(c: Crypto, s: State): (r: Step)
    ensures Kept(c, s, r)
  {
    hide NaturalStack, InputsNatural, OutputsFollow, WellLogged, FormedLog, NoncesDated, Outflow, Log;
    var (tag, s) :- PopBytes(s);
    var (amount, s) :- PopInt(s);
    :- Need(amount >= 0, ErrNegAmount);
    var (v, s) :- PopZeroValue(s);
    var asset := AssetID(c, s.contract.seed, tag);
    var s :- PushNewValue(s, Value(amount, asset, v.anchor));
    Log(c, s, [Bytes([ISSUE_CODE]), Bytes(s.caller), Int(amount), Bytes(asset), Bytes(v.anchor)])
  }

  function OpSplit(c: Crypto, s: State): (r: Step)
    ensures Kept(c, s, r)
  {
    hide NaturalStack, InputsNatural, OutputsFollow, WellLogged, FormedLog, NoncesDated;
    var (amount, s) :- PopInt(s);
    :- Need(amount >= 0, ErrNegAmount);
    var (v, s) :- PopValue(s);
    :- Need(amount <= v.amount, ErrSplit);
    var s :- Charge(s, ENTRY_COST);
    var s :- Charge(s, ENTRY_COST);
    var s := Push(s, Val(Value(v.amount - amount, v.assetID, c.vmHash("Split1", v.anchor))));
    Ok(Push(s, Val(Value(amount, v.assetID, c.vmHash("Split2", v.anchor)))))
  }

  function OpMerge(c: Crypto, s: State): (r: Step)
    ensures Kept(c, s, r)
  {
    hide NaturalStack, InputsNatural, OutputsFollow, WellLogged, FormedLog, NoncesDated;
    var (v, s) :- PopValue(s);
    var (w, s) :- PopValue(s);
    :- Need(v.assetID == w.assetID, ErrMergeAsset);
    :- Need(FitsInt64(v.amount + w.amount), ErrIntOverflow);
    PushNewValue(s, Value(v.amount + w.amount, v.assetID, c.vmHash("Merge", v.anchor + w.anchor)))
  }

  function OpRetire(c: Crypto, s: State): (r: Step)
    ensures Kept(c, s, r)
  {
    hide NaturalStack, InputsNatural, OutputsFollow, WellLogged, FormedLog, NoncesDated, Outflow, Log;
    var (v, s) :- PopValue(s);
    Log(c, s, [Bytes([RETIRE_CODE]), Bytes(s.contract.seed), Int(v.amount), Bytes(v.assetID), Bytes(v.anchor)])
  }

  function NonceTuple(caller: bytes, seed: bytes, blockID: bytes, exp: int64): Entry {
    [Bytes([NONCE_CODE]), Bytes(caller), Bytes(seed), Bytes(blockID), Int(exp)]
  }

  function TimeRangeTuple(seed: bytes, min: int64, max: int64): Entry {
    [Bytes([TIMERANGE_CODE]), Bytes(seed), Int(min), Int(max)]
  }

  lemma NoncesMoveNothing(t: Entry)
    requires HasCode(t, NONCE_CODE) || HasCode(t, TIMERANGE_CODE)
    ensures IsOrdinary(t) && forall a :: EntryAmount(t, RETIRE_CODE, a) == EntryAmount(t, ISSUE_CODE, a) == 0
  {
  }

  lemma RangeOfNonce(nonce: Entry, range: Entry, seed: bytes, exp: int64)
    requires |nonce| == 5 && HasCode(nonce, NONCE_CODE) && nonce[4] == Int(exp) && range == TimeRangeTuple(seed, 0, exp)
    ensures HasCode(range, TIMERANGE_CODE) && !HasCode(range, NONCE_CODE) && IsRangeOf(nonce, range) && FormedEntry(range)
  {
  }

  function LogNonce(c: Crypto, s: State, nonce: Entry, exp: int64): (r: Step)
    requires |nonce| == 5 && HasCode(nonce, NONCE_CODE) && nonce[4] == Int(exp) && FormedEntry(nonce)
    ensures r.Ok? ==> r.value == s.(runlimit := r.value.runlimit, tx := r.value.tx)
    ensures Kept(c, s, r)
  {
    hide Log, Balance, Outflow, NaturalStack, InputsNatural, OutputsFollow, WellLogged, FormedLog, NoncesDated, EntryAmount, HasCode,
      IsOrdinary, IsRangeOf, TimeRangeTuple, FormedEntry;
    var range := TimeRangeTuple(s.contract.seed, 0, exp);
    RangeOfNonce(nonce, range, s.contract.seed, exp);
    NonceThenRange(s.tx.log, nonce, range);
    NoncesMoveNothing(nonce);
    NoncesMoveNothing(range);
    var s1 :- Log(c, s, nonce);
    var s2 :- Log(c, s1, range);
    SameBalance(s, s1);
    SameBalance(s1, s2);
    Ok(s2)
  }

  lemma SameBalance(s: State, t: State)
    requires t == s.(runlimit := t.runlimit, tx := t.tx) && forall a :: Outflow(t.tx, a) == Outflow(s.tx, a)
    ensures forall a :: Balance(t, a) == Balance(s, a)
  {
    hide Outflow;
  }

  lemma NonceIsFormed(caller: bytes, seed: bytes, blockID: bytes, exp: int64)
    ensures
      var t := NonceTuple(caller, seed, blockID, exp);
      |t| == 5 && HasCode(t, NONCE_CODE) && t[4] == Int(exp) && FormedEntry(t)
  {
  }

  function OpNonce(c: Crypto, s: State): (r: Step)
    ensures Kept(c, s, r)
  {
    hide NaturalStack, InputsNatural, OutputsFollow, WellLogged, FormedLog, NoncesDated, Outflow, Log, FormedEntry, NonceTuple;
    var (exp, s) :- PopInt(s);
    var (blockID, s) :- PopBytes(s);
    var nonce := NonceTuple(s.caller, s.contract.seed, blockID, exp);
    NonceIsFormed(s.caller, s.contract.seed, blockID, exp);
    var s :- LogNonce(c, s, nonce, exp);
    PushNewValue(s, Value(0, ZeroHash(), c.vmHash("Nonce", Encode(Tuple(nonce)))))
  }

  function AmountOf(v: Value): Data {
    Int(v.amount)
  }

  function AssetOf(v: Value): Data {
    Bytes(v.assetID)
  }

  function AnchorOf(v: Value): Data {
    Bytes(v.anchor)
  }

  /** opAmount, opAssetID, opAnchor: a copy of one part of the value on top. */
  function OpValuePart(c: Crypto, s: State, part: Value -> Data): (r: Step)
    ensures Kept(c, s, r)
  {
    hide NaturalStack, InputsNatural, OutputsFollow, WellLogged, FormedLog, NoncesDated, Outflow;
    var v :- PeekValue(s);
    ChargeAndPush(s, part(v))
  }

  // --- contracts (contract.go)

  predicate StackPortable(s: seq<Item>) {
    forall x <- s :: IsPortable(x)
  }

  function NewContract(c: Crypto, prog: bytes): (con: Contract)
    ensures forall a :: Amount(Con(con), a) == 0
  {
    var con := Contract(false, c.vmHash("ContractSeed", prog), prog, []);
    assert forall a :: Amount(Con(con), a) == StackAmount(con.stack, a) == 0;
    con
  }

  function OpContract(c: Crypto, s: State): (r: Step)
    ensures Kept(c, s, r)
  {
    hide NaturalStack, InputsNatural, OutputsFollow, WellLogged, FormedLog, NoncesDated, Outflow;
    var (prog, s) :- PopBytes(s);
    var s :- Charge(s, ENTRY_COST);
    Ok(Push(s, Con(NewContract(c, prog))))
  }

  function WithProgram(s: State, prog: bytes): State {
    s.(contract := s.contract.(program := prog))
  }

  /** The running contract leaves the transaction: its snapshot is logged and its stack is gone. */
  function OpOutput(c: Crypto, s: State): (r: Step)
    ensures Kept(c, s, r)
  {
    hide NaturalStack, InputsNatural, OutputsFollow, WellLogged, FormedLog, NoncesDated, Outflow;
    if !StackPortable(s.contract.stack) then Err(ErrUnportable) else
    var (prog, s) :- PopBytes(s);
    var s := WithProgram(s, prog);
    var snapshot := InspectContract(s.contract);
    var s :- Charge(s, DataCost(Bytes(Encode(Tuple(snapshot)))));
    UninspectInspectContract(s.contract);
    MovesGrow(s.tx.moves, Out(snapshot));
    var s :- LogMove(c, s, Out(snapshot));
    Ok(s.(unwinding := true))
  }

  function MoveEntry(c: Crypto, s: State, m: Move): Entry {
    [Bytes([if m.In? then INPUT_CODE else OUTPUT_CODE]), Bytes(if m.In? then s.contract.seed else s.caller),
     Bytes(SnapshotID(c, m.snapshot))]
  }

  lemma MoveIsFormed(c: Crypto, s: State, m: Move)
    ensures
      var t := MoveEntry(c, s, m);
      && |t| == 3 && HasCode(t, if m.In? then INPUT_CODE else OUTPUT_CODE) && t[2] == Bytes(SnapshotID(c, m.snapshot))
      && FormedEntry(t) && !HasCode(t, NONCE_CODE)
      && forall a :: EntryAmount(t, RETIRE_CODE, a) == EntryAmount(t, ISSUE_CODE, a) == 0
  {
    hide SnapshotID;
  }

  /** Logs a contract that is put out by its caller, or taken in by the running contract. */
  function LogMove(c: Crypto, s: State, m: Move): (r: Step)
    ensures RecordedMove(c, s, m, r)
  {
    hide WellLogged, FormedLog, NoncesDated, FormedEntry, HasCode, EntryAmount, MoveEntry, SnapshotAmount;
    var t := MoveEntry(c, s, m);
    MoveIsFormed(c, s, m);
    MoveStaysWellLogged(c, s.tx, t, m);
    var s :- Log(c, s, t);
    Ok(s.(tx := s.tx.(moves := s.tx.moves + [m])))
  }

  lemma ContractIsNatural(con: Contract)
    ensures NaturalItem(Con(con)) <==> NaturalStack(con.stack)
  {
  }

  function OpInput(c: Crypto, s: State): (r: Step)
    ensures Kept(c, s, r)
  {
    hide NaturalStack, InputsNatural, OutputsFollow, WellLogged, FormedLog, NoncesDated, Outflow;
    var (t, s) :- PopTuple(s);
    match UninspectContract(t)
    case Err(e) => Err(if e == FieldsError.ErrFields then Error.ErrFields else ErrRuntime)
    case Ok(con) =>
      MovesGrow(s.tx.moves, In(t));
      ContractIsNatural(con);
      var s :- Charge(s, ENTRY_COST);
      LogMove(c, Push(s, Con(con)), In(t))
  }

  function OpYield(c: Crypto, s: State): (r: Step)
    ensures Kept(c, s, r)
  {
    hide NaturalStack, InputsNatural, OutputsFollow, WellLogged, FormedLog, NoncesDated, Outflow;
    var (prog, s) :- PopBytes(s);
    var s := WithProgram(s, prog);
    ContractIsNatural(s.contract);
    Ok(PushArg(s, Con(s.contract)).(unwinding := true))
  }

  function OpWrap(c: Crypto, s: State): (r: Step)
    ensures Kept(c, s, r)
  {
    hide NaturalStack, InputsNatural, OutputsFollow, WellLogged, FormedLog, NoncesDated, Outflow;
    if !StackPortable(s.contract.stack) then Err(ErrUnportable) else
    var (prog, s) :- PopBytes(s);
    var s := s.(contract := s.contract.(wrapped := true, program := prog));
    ContractIsNatural(s.contract);
    Ok(PushArg(s, Con(s.contract)).(unwinding := true))
  }

  function OpGet(c: Crypto, s: State): (r: Step)
    ensures Kept(c, s, r)
  {
    hide InputsNatural, OutputsFollow, WellLogged, FormedLog, NoncesDated, Outflow;
    var n := |s.argstack|;
    :- Need(n > 0, ErrUnderflow);
    Ok(Push(s.(argstack := s.argstack[..n - 1]), s.argstack[n - 1]))
  }

  function OpPut(c: Crypto, s: State): (r: Step)
    ensures Kept(c, s, r)
  {
    hide NaturalStack, InputsNatural, OutputsFollow, WellLogged, FormedLog, NoncesDated, Outflow;
    var (x, s) :- Pop(s);
    Ok(PushArg(s, x))
  }

  function OpSeed(c: Crypto, s: State): (r: Step)
    ensures Kept(c, s, r)
  {
    hide NaturalStack, InputsNatural, OutputsFollow, WellLogged, FormedLog, NoncesDated, Outflow;
    var x :- Peek(s);
    :- Need(x.Con?, ErrType);
    ChargeAndPush(s, Bytes(x.c.seed))
  }

  /** opSelf, opCaller, opContractProgram and opDepth push something that is always at hand. */
  function OpPushData(c: Crypto, s: State, d: Data): (r: Step)
    ensures Kept(c, s, r)
  {
    hide NaturalStack, InputsNatural, OutputsFollow, WellLogged, FormedLog, NoncesDated, Outflow;
    ChargeAndPush(s, d)
  }

  function OpExt(c: Crypto, s: State): (r: Step)
    ensures Kept(c, s, r)
  {
    hide NaturalStack, InputsNatural, OutputsFollow, WellLogged, FormedLog, NoncesDated, Outflow;
    if !s.extension then Err(ErrExt) else
    var (_, s) :- PopData(s);
    Ok(s)
  }

  // --- stacks (stack.go)

  function OpRoll(c: Crypto, s: State): (r: Step)
    ensures Kept(c, s, r)
  {
    hide NaturalStack, InputsNatural, OutputsFollow, WellLogged, FormedLog, NoncesDated, Outflow;
    var (n, s) :- PopInt(s);
    :- Need(0 <= n < |s.contract.stack|, ErrStackRange);
    Charge(s.(contract := s.contract.(stack := Stacks.Roll(s.contract.stack, n))), n)
  }

  function OpBury(c: Crypto, s: State): (r: Step)
    ensures Kept(c, s, r)
  {
    hide NaturalStack, InputsNatural, OutputsFollow, WellLogged, FormedLog, NoncesDated, Outflow;
    var (n, s) :- PopInt(s);
    :- Need(0 <= n < |s.contract.stack|, ErrStackRange);
    Charge(s.(contract := s.contract.(stack := Stacks.Bury(s.contract.stack, n))), n)
  }

  function OpReverse(c: Crypto, s: State): (r: Step)
    ensures Kept(c, s, r)
  {
    hide NaturalStack, InputsNatural, OutputsFollow, WellLogged, FormedLog, NoncesDated, Outflow;
    var (n, s) :- PopInt(s);
    :- Need(0 <= n <= |s.contract.stack|, ErrStackRange);
    Charge(s.(contract := s.contract.(stack := Stacks.Reverse(s.contract.stack, n))), n)
  }

  function OpPeek(c: Crypto, s: State): (r: Step)
    ensures Kept(c, s, r)
  {
    hide NaturalStack, InputsNatural, OutputsFollow, WellLogged, FormedLog, NoncesDated, Outflow;
    var (n, s) :- PopInt(s);
    :- Need(0 <= n < |s.contract.stack|, ErrStackRange);
    var x := s.contract.stack[|s.contract.stack| - 1 - n];
    :- Need(x.Plain?, ErrType);
    ChargeAndPush(s, x.d)
  }

  // --- data (data.go)

  function OpDup(c: Crypto, s: State): (r: Step)
    ensures Kept(c, s, r)
  {
    hide NaturalStack, InputsNatural, OutputsFollow, WellLogged, FormedLog, NoncesDated, Outflow;
    var x :- Peek(s);
    :- Need(x.Plain?, ErrType);
    ChargeAndPush(s, x.d)
  }

  function OpDrop(c: Crypto, s: State): (r: Step)
    ensures Kept(c, s, r)
  {
    hide NaturalStack, InputsNatural, OutputsFollow, WellLogged, FormedLog, NoncesDated, Outflow;
    var (x, s) :- Pop(s);
    :- Need(IsDroppable(x), ErrType);
    Ok(s)
  }

  /** Pops n items of plain data; the deepest comes first. */
  function PopDatas(s: State, n: nat): (r: Result<(seq<Data>, State), Error>)
    requires n <= |s.contract.stack|
    ensures r.Ok? ==>
      && |r.value.0| == n
      && r.value.1 == s.(contract := s.contract.(stack := s.contract.stack[..|s.contract.stack| - n]))
      && Stacks.KeepsValue(s.contract.stack, r.value.1.contract.stack)
    decreases n
  {
    if n == 0 then
      assert s.contract.stack[..|s.contract.stack|] == s.contract.stack;
      Ok(([], s))
    else
      var (d, s1) :- PopData(s);
      var (ds, s2) :- PopDatas(s1, n - 1);
      Ok((ds + [d], s2))
  }

  function OpTuple(c: Crypto, s: State): (r: Step)
    ensures Kept(c, s, r)
  {
    hide NaturalStack, InputsNatural, OutputsFollow, WellLogged, FormedLog, NoncesDated, Outflow;
    var (n, s) :- PopInt(s);
    :- Need(0 <= n <= |s.contract.stack|, ErrUnderflow);
    var (t, s) :- PopDatas(s, n);
    ChargeAndPush(s, Tuple(t))
  }

  function PushDatas(s: State, t: seq<Data>): (r: State)
    ensures r == s.(contract := r.contract) && r.contract == s.contract.(stack := r.contract.stack)
    ensures Stacks.KeepsValue(s.contract.stack, r.contract.stack)
    decreases |t|
  {
    if t == [] then s else PushDatas(PushData(s, t[0]), t[1..])
  }

  function OpUntuple(c: Crypto, s: State): (r: Step)
    ensures Kept(c, s, r)
  {
    hide NaturalStack, InputsNatural, OutputsFollow, WellLogged, FormedLog, NoncesDated, Outflow;
    var (t, s) :- PopTuple(s);
    Charge(PushData(PushDatas(s, t), Int(Length(|t|))), |t|)
  }

  // --- the log and the transaction (log.go, time.go, tx.go)

  function OpLog(c: Crypto, s: State): (r: Step)
    ensures Kept(c, s, r)
  {
    hide NaturalStack, InputsNatural, OutputsFollow, WellLogged, FormedLog, NoncesDated, Outflow, Log;
    var (d, s) :- PopData(s);
    Log(c, s, [Bytes([LOG_CODE]), Bytes(s.contract.seed), d])
  }

  function OpPeekLog(c: Crypto, s: State): (r: Step)
    ensures Kept(c, s, r)
  {
    hide NaturalStack, InputsNatural, OutputsFollow, WellLogged, FormedLog, NoncesDated, Outflow;
    var (i, s) :- PopInt(s);
    :- Need(0 <= i < |s.tx.log|, ErrRange);
    ChargeAndPush(s, Tuple(s.tx.log[i]))
  }

  function OpTimeRange(c: Crypto, s: State): (r: Step)
    ensures Kept(c, s, r)
  {
    hide NaturalStack, InputsNatural, OutputsFollow, WellLogged, FormedLog, NoncesDated, Outflow, Log;
    var (max, s) :- PopInt(s);
    var (min, s) :- PopInt(s);
    Log(c, s, TimeRangeTuple(s.contract.seed, min, max))
  }

  lemma SealedIsWellLogged(c: Crypto, before: Tx, t: Entry, after: Tx)
    requires |t| == 4 && HasCode(t, FINALIZE_CODE) && t[2].Int? && !before.finalized && after.finalized
    requires after.log == before.log + [t] && after.moves == before.moves && after.txid == Merkle.Root(c.sha3, EncodeEach(after.log))
    ensures WellLogged(c, before) ==> WellLogged(c, after)
  {
    hide Merkle.Root, EncodeEach;
    assert after.log[..|after.log| - 1] == before.log;
  }

  /** Seals the log: the transaction ID commits to every entry, the finalize entry last. */
  function OpFinalize(c: Crypto, s: State): (r: Step)
    ensures Kept(c, s, r)
    ensures r.Ok? ==> r.value.tx.finalized
  {
    hide NaturalStack, InputsNatural, OutputsFollow, FormedLog, NoncesDated, Outflow, WellLogged, Merkle.Root, EncodeEach;
    var (v, s) :- PopZeroValue(s);
    var t := [Bytes([FINALIZE_CODE]), Bytes(s.contract.seed), Int(s.version), Bytes(v.anchor)];
    var s1 :- Log(c, s, t);
    var sealed := s1.tx.(finalized := true, txid := Merkle.Root(c.sha3, EncodeEach(s1.tx.log)));
    SealedIsWellLogged(c, s.tx, t, sealed);
    Ok(s1.(tx := sealed))
  }

  function OpTxID(c: Crypto, s: State): (r: Step)
    ensures Kept(c, s, r)
  {
    hide NaturalStack, InputsNatural, OutputsFollow, WellLogged, FormedLog, NoncesDated, Outflow;
    if !s.tx.finalized then Err(ErrUnfinalized) else
    ChargeAndPush(s, Bytes(s.tx.txid))
  }

  // --- control (control.go)

  function OpVerify(c: Crypto, s: State): (r: Step)
    ensures Kept(c, s, r)
  {
    hide NaturalStack, InputsNatural, OutputsFollow, WellLogged, FormedLog, NoncesDated, Outflow;
    var (b, s) :- PopBool(s);
    :- Need(b, ErrVerifyFail);
    Ok(s)
  }

  /** The destination is relative to the instruction that follows, and may be the end of the program. */
  function OpJumpIf(c: Crypto, s: State): (r: Step)
    ensures Kept(c, s, r)
  {
    hide NaturalStack, InputsNatural, OutputsFollow, WellLogged, FormedLog, NoncesDated, Outflow;
    var (offset, s) :- PopInt(s);
    var (cond, s) :- PopBool(s);
    if !cond then Ok(s) else
    var dest := s.run.pc + offset;
    :- Need(FitsInt64(dest), ErrIntOverflow);
    :- Need(0 <= dest <= |s.run.prog|, ErrJump);
    Ok(s.(run := s.run.(pc := dest)))
  }

  // --- signatures (crypto.go)

  function OpCheckSig(c: Crypto, s: State): (r: Step)
    ensures Kept(c, s, r)
  {
    hide NaturalStack, InputsNatural, OutputsFollow, WellLogged, FormedLog, NoncesDated, Outflow;
    var (scheme, s) :- PopData(s);
    var (sig, s) :- PopBytes(s);
    var (pubkey, s) :- PopBytes(s);
    var (msg, s) :- PopBytes(s);
    if sig == [] then Ok(PushData(s, Bool(false))) else
    var s :- Charge(s, 2048);
    if scheme != Int(0) then
      if s.extension then Ok(PushData(s, Bool(true))) else Err(ErrExt)
    else if |sig| != 64 then Err(ErrSigSize)
    else if |pubkey| != 32 then Err(ErrPubSize)
    else if !c.verify(pubkey, msg, sig) then Err(ErrSignature)
    else Ok(PushData(s, Bool(true)))
  }

  // --- operators on plain data (data.go, math.go, boolean.go, strings.go, bitwise.go, crypto.go)

  datatype Kind = AnyData | IntKind | BytesKind | TupleKind

  predicate HasKind(d: Data, k: Kind) {
    match k
    case AnyData => true
    case IntKind => d.Int?
    case BytesKind => d.Bytes?
    case TupleKind => d.Tuple?
  }

  /** The kinds an operator pops, first popped first; None if the opcode is not such an operator. */
  function Operands(op: byte): Option<seq<Kind>> {
    if op in {ADD, MUL, DIV, MOD, GT} then Some([IntKind, IntKind])
    else if op == NEG then Some([IntKind])
    else if op in {AND, OR, EQ} then Some([AnyData, AnyData])
    else if op in {NOT, LEN, ENCODE} then Some([AnyData])
    else if op in {INT, SHA256, SHA3, BIT_NOT} then Some([BytesKind])
    else if op in {VM_HASH, CAT, BIT_AND, BIT_OR, BIT_XOR} then Some([BytesKind, BytesKind])
    else if op == SLICE then Some([IntKind, IntKind, BytesKind])
    else if op == FIELD then Some([IntKind, TupleKind])
    else None
  }

  /** Go's division, which truncates toward zero. */
  function TruncDiv(a: int, b: int): int
    requires b != 0
  {
    if a >= 0 then a / b else -(-a / b)
  }

  function Checked(x: int): Result<Data, Error> {
    if FitsInt64(x) then Ok(Int(x)) else Err(ErrIntOverflow)
  }

  function AsString(b: bytes): string {
    seq(|b|, i requires 0 <= i < |b| => b[i] as char)
  }

  function Bitwise(op: byte, x: byte, y: byte): byte {
    var u, v := x as bv8, y as bv8;
    (if op == BIT_AND then u & v else if op == BIT_OR then u | v else u ^ v) as int
  }

  predicate HaveKinds(x: seq<Data>, ks: seq<Kind>) {
    |x| == |ks| && forall i :: 0 <= i < |x| ==> HasKind(x[i], ks[i])
  }

  /** The result of an operator on its operands, first popped first. */
  function Operate(c: Crypto, op: byte, x: seq<Data>): Result<Data, Error>
    requires Operands(op).Some? && HaveKinds(x, Operands(op).value)
  {
    match op
    case ADD => Checked(x[1].i + x[0].i)
    case MUL => Checked(x[1].i * x[0].i)
    case NEG => Checked(0 - x[0].i)
    case DIV => if x[0].i == 0 then Err(ErrIntOverflow) else Checked(TruncDiv(x[1].i, x[0].i))
    case MOD =>
      if x[0].i == 0 || (x[1].i == MIN_INT64 && x[0].i == -1) then Err(ErrIntOverflow)
      else Checked(x[1].i - x[0].i * TruncDiv(x[1].i, x[0].i))
    case GT => Ok(Bool(x[1].i > x[0].i))
    case NOT => Ok(Bool(!AsBool(x[0])))
    case AND => Ok(Bool(AsBool(x[1]) && AsBool(x[0])))
    case OR => Ok(Bool(AsBool(x[1]) || AsBool(x[0])))
    case EQ => Ok(Bool(!x[0].Tuple? && x[0] == x[1]))
    case LEN =>
      (match x[0]
       case Int(_) => Err(ErrType)
       case Bytes(b) => Ok(Int(Length(|b|)))
       case Tuple(t) => Ok(Int(Length(|t|))))
    case ENCODE => Ok(Bytes(Encode(x[0])))
    case INT =>
      (match Uvarint(x[0].b)
       case None => Err(ErrInt)
       case Some((v, n)) => UvarintFits(x[0].b); Ok(Int(ToInt64(v))))
    case FIELD =>
      if 0 <= x[0].i < |x[1].items| then Ok(x[1].items[x[0].i]) else Err(ErrRange)
    case VM_HASH => Ok(Bytes(c.vmHash(AsString(x[0].b), x[1].b)))
    case SHA256 => Ok(Bytes(c.sha256(x[0].b)))
    case SHA3 => Ok(Bytes(c.sha3(x[0].b)))
    case CAT => Ok(Bytes(x[1].b + x[0].b))
    case SLICE =>
      if 0 <= x[1].i <= x[0].i <= |x[2].b| then Ok(Bytes(x[2].b[x[1].i..x[0].i])) else Err(ErrSliceRange)
    case BIT_NOT => Ok(Bytes(seq(|x[0].b|, i requires 0 <= i < |x[0].b| => 0xff - x[0].b[i])))
    case _ =>
      if |x[0].b| != |x[1].b| then Err(ErrBitLen)
      else Ok(Bytes(seq(|x[0].b|, i requires 0 <= i < |x[0].b| => Bitwise(op, x[1].b[i], x[0].b[i]))))
  }

  function PopKinds(s: State, ks: seq<Kind>): (r: Result<(seq<Data>, State), Error>)
    ensures r.Ok? ==>
      && HaveKinds(r.value.0, ks)
      && r.value.1 == s.(contract := r.value.1.contract)
      && Stacks.KeepsValue(s.contract.stack, r.value.1.contract.stack)
    decreases |ks|
  {
    if ks == [] then Ok(([], s))
    else
      var (d, s1) :- PopData(s);
      :- Need(HasKind(d, ks[0]), ErrType);
      var (ds, s2) :- PopKinds(s1, ks[1..]);
      Ok(([d] + ds, s2))
  }

  function OpOperator(c: Crypto, s: State, op: byte): (r: Step)
    requires Operands(op).Some?
    ensures Kept(c, s, r)
  {
    hide NaturalStack, InputsNatural, OutputsFollow, WellLogged, FormedLog, NoncesDated, Outflow, Operate, Operands;
    var (x, s) :- PopKinds(s, Operands(op).value);
    var d :- Operate(c, op, x);
    ChargeAndPush(s, d)
  }

  // --- dispatch

  /** Instructions other than exec and call. */
  function Perform(c: Crypto, s: State, inst: Inst): (r: Step)
    requires inst.opcode <= MIN_PUSHDATA
    ensures Kept(c, s, r)
  {
    hide Kept;
    if inst.opcode == MIN_PUSHDATA then OpPushData(c, s, Bytes(inst.data))
    else if IsSmallInt(inst.opcode) then OpPushData(c, s, Int(inst.opcode))
    else if Operands(inst.opcode).Some? then OpOperator(c, s, inst.opcode)
    else
      match inst.opcode
      case ROLL => OpRoll(c, s)
      case BURY => OpBury(c, s)
      case REVERSE => OpReverse(c, s)
      case GET => OpGet(c, s)
      case PUT => OpPut(c, s)
      case DEPTH => OpPushData(c, s, Int(Length(|s.argstack|)))
      case NONCE => OpNonce(c, s)
      case MERGE => OpMerge(c, s)
      case SPLIT => OpSplit(c, s)
      case ISSUE => OpIssue(c, s)
      case RETIRE => OpRetire(c, s)
      case AMOUNT => OpValuePart(c, s, AmountOf)
      case ASSET_ID => OpValuePart(c, s, AssetOf)
      case ANCHOR => OpValuePart(c, s, AnchorOf)
      case CHECK_SIG => OpCheckSig(c, s)
      case LOG => OpLog(c, s)
      case PEEK_LOG => OpPeekLog(c, s)
      case TX_ID => OpTxID(c, s)
      case FINALIZE => OpFinalize(c, s)
      case VERIFY => OpVerify(c, s)
      case JUMP_IF => OpJumpIf(c, s)
      case YIELD => OpYield(c, s)
      case WRAP => OpWrap(c, s)
      case INPUT => OpInput(c, s)
      case OUTPUT => OpOutput(c, s)
      case CONTRACT => OpContract(c, s)
      case SEED => OpSeed(c, s)
      case SELF => OpPushData(c, s, Bytes(s.contract.seed))
      case CALLER => OpPushData(c, s, Bytes(s.caller))
      case CONTRACT_PROGRAM => OpPushData(c, s, Bytes(s.contract.program))
      case TIME_RANGE => OpTimeRange(c, s)
      case EXT => OpExt(c, s)
      case DUP => OpDup(c, s)
      case DROP => OpDrop(c, s)
      case PEEK => OpPeek(c, s)
      case TUPLE => OpTuple(c, s)
      case UNTUPLE => OpUntuple(c, s)
      case _ => KeptErr(c, s, ErrPrv); Err(ErrPrv)
  }
}
