/**
 The virtual machine as the source runs it: an object whose methods update its fields and recurse into
 exec. Each method is proved to do what the frame machine of module Interpreter does.
 */
module VirtualMachine {
  import opened Prelude
  import opened Items
  import opened Ledger
  import opened Encoding
  import opened Machine
  import opened Interpreter
  import opened Opcodes
  import Spec = Instructions
  import Stacks
  import Merkle

  function Continue(c: Crypto, r: Result<Config, Error>, base: nat): Result<Config, Error>
    requires r.Ok? ==> base <= |r.value.frames|
  {
    hide RunTo, KeptWhole;
    var g :- r;
    RunTo(c, g, base)
  }

  /** Running to a deeper frame first makes no difference. */
  lemma {:induction false} RunToNested(c: Crypto, g: Config, base: nat, deeper: nat)
    requires base <= deeper <= |g.frames|
    ensures RunTo(c, g, base)
         == Continue(c, RunTo(c, g, deeper), base)
    decreases g.s.runlimit, |g.frames|
  {
    hide Instruct, Return, KeptWhole;
    if AtEnd(g.s) {
      if |g.frames| > deeper && Return(c, g).Ok? {
        ReturnKeepsRunlimit(c, g);
        RunToNested(c, Return(c, g).value, base, deeper);
      }
    } else if Instruct(c, g).Ok? {
      RunToNested(c, Instruct(c, g).value, base, deeper);
    }
  }

  /** Runs the program on top of the frames and returns from it. */
  ghost function Through(c: Crypto, e: Result<Config, Error>, base: nat): Result<Config, Error>
    requires e.Ok? ==> |e.value.frames| == base + 1
  {
    hide RunTo, KeptWhole;
    var g :- e;
    var h :- RunTo(c, g, base + 1);
    Return(c, h)
  }

  /** An instruction that enters a program amounts to going through it. */
  lemma EnteringGoesThrough(c: Crypto, g: Config, e: Result<Config, Error>)
    requires !AtEnd(g.s) && Instruct(c, g) == e && (e.Ok? ==> |e.value.frames| == |g.frames| + 1)
    ensures RunTo(c, g, |g.frames|)
         == Continue(c, Through(c, e, |g.frames|), |g.frames|)
  {
    hide Instruct, Return, KeptWhole;
    if e.Ok? {
      RunToNested(c, e.value, |g.frames|, |g.frames| + 1);
    }
  }

  lemma ReturnKeepsRunlimit(c: Crypto, g: Config)
    requires AtEnd(g.s) && g.frames != [] && Return(c, g).Ok?
    ensures Return(c, g).value.s.runlimit == g.s.runlimit
  {
    hide KeptWhole;
  }

  type Done = Result<(), Error>
  type Popped = Result<(seq<Data>, State), Error>

  /** What is popped first goes behind what is popped later. */
  function Join(r: Popped, vals: seq<Data>): Popped {
    match r
    case Ok((ds, t)) => Ok((ds + vals, t))
    case Err(e) => Err(e)
  }

  lemma JoinNothing(r: Popped)
    ensures Join(r, []) == r
  {
    if r.Ok? {
      assert r.value.0 + [] == r.value.0;
    }
  }

  lemma JoinStep(s: State, n: nat, vals: seq<Data>)
    requires 0 < n <= |s.contract.stack|
    ensures Join(Spec.PopDatas(s, n), vals)
         == match Machine.PopData(s)
            case Ok((d, t)) => Join(Spec.PopDatas(t, n - 1), [d] + vals)
            case Err(e) => Err(e)
    ensures Machine.PopData(s).Ok? ==> |Machine.PopData(s).value.1.contract.stack| == |s.contract.stack| - 1
  {
    if Machine.PopData(s).Ok? {
      var (d, t) := Machine.PopData(s).value;
      if Spec.PopDatas(t, n - 1).Ok? {
        var ds := Spec.PopDatas(t, n - 1).value.0;
        assert ds + [d] + vals == ds + ([d] + vals);
      }
    }
  }

  /** What is popped first goes before what is popped later. */
  function Prepend(x: seq<Data>, r: Popped): Popped {
    match r
    case Ok((ds, t)) => Ok((x + ds, t))
    case Err(e) => Err(e)
  }

  lemma PrependStep(s: State, ks: seq<Spec.Kind>, x: seq<Data>)
    requires ks != []
    ensures Prepend(x, Spec.PopKinds(s, ks))
         == match Machine.PopData(s)
            case Ok((d, t)) =>
              if Spec.HasKind(d, ks[0]) then Prepend(x + [d], Spec.PopKinds(t, ks[1..])) else Err(ErrType)
            case Err(e) => Err(e)
  {
    if Machine.PopData(s).Ok? {
      var (d, t) := Machine.PopData(s).value;
      if Spec.PopKinds(t, ks[1..]).Ok? {
        var ds := Spec.PopKinds(t, ks[1..]).value.0;
        assert x + ([d] + ds) == x + [d] + ds;
      }
    }
  }

  lemma PopsNoKinds(s: State, ks: seq<Spec.Kind>, x: seq<Data>)
    requires ks == []
    ensures Prepend(x, Spec.PopKinds(s, ks)) == Ok((x, s))
  {
    assert x + [] == x;
  }

  lemma PrependNothing(s: State, ks: seq<Spec.Kind>)
    ensures Prepend([], Spec.PopKinds(s, ks[0..])) == Spec.PopKinds(s, ks)
  {
    assert ks[0..] == ks;
    if Spec.PopKinds(s, ks).Ok? {
      assert [] + Spec.PopKinds(s, ks).value.0 == Spec.PopKinds(s, ks).value.0;
    }
  }

  class VM {
    const crypto: Crypto
    const version: int64
    const extension: bool

    var runlimit: int
    var argstack: seq<Item>
    var run: Run
    var runstack: seq<Run>
    var unwinding: bool
    var contract: Contract
    var caller: bytes

    var txid: Hash
    var log: seq<Entry>
    var finalized: bool
    var moves: seq<Move>

    constructor (crypto: Crypto, prog: bytes, version: int64, runlimit: int64, extension: bool)
      ensures this.crypto == crypto
      ensures St() == Initial(prog, version, runlimit, extension).s.(run := Run(0, [])) && runstack == []
    {
      this.crypto, this.version, this.extension := crypto, version, extension;
      this.runlimit, argstack, run, runstack, unwinding := runlimit, [], Run(0, []), [], false;
      contract, caller := Contract(false, ZeroHash(), prog, []), ZeroHash();
      txid, log, finalized, moves := ZeroHash(), [], false, [];
    }

    function St(): State
      reads this
    {
      State(version, extension, runlimit, argstack, run, unwinding, contract, caller,
            Tx(log, finalized, txid, moves))
    }

    /** The call did what the specification says: same new state, or same error. */
    ghost predicate Did(r: Done, spec: Step)
      reads this
    {
      match spec
      case Ok(t) => r.Ok? && St() == t
      case Err(e) => r == Err(e)
    }

    ghost predicate DidYield<T>(r: Result<T, Error>, spec: Result<(T, State), Error>)
      reads this
    {
      match spec
      case Ok((x, t)) => r == Ok(x) && St() == t
      case Err(e) => r == Err(e)
    }

    // --- runlimit and stacks

    method Charge(n: nat) returns (r: Done)
      modifies this`runlimit
      ensures Did(r, Machine.Charge(old(St()), n))
    {
      runlimit := runlimit - n;
      if runlimit < 0 {
        return Err(ErrRunlimit);
      }
      return Ok(());
    }

    method Push(x: Item)
      modifies this`contract
      ensures St() == Machine.Push(old(St()), x)
    {
      contract := contract.(stack := contract.stack + [x]);
    }

    method Pop() returns (r: Result<Item, Error>)
      modifies this`contract
      ensures DidYield(r, Machine.Pop(old(St())))
    {
      var n := |contract.stack|;
      if n == 0 {
        return Err(ErrUnderflow);
      }
      r := Ok(contract.stack[n - 1]);
      contract := contract.(stack := contract.stack[..n - 1]);
    }

    method PopData() returns (r: Result<Data, Error>)
      modifies this`contract
      ensures DidYield(r, Machine.PopData(old(St())))
    {
      var x :- Pop();
      if !x.Plain? {
        return Err(ErrType);
      }
      return Ok(x.d);
    }

    method PopInt() returns (r: Result<int64, Error>)
      modifies this`contract
      ensures DidYield(r, Machine.PopInt(old(St())))
    {
      var x :- Pop();
      if !(x.Plain? && x.d.Int?) {
        return Err(ErrType);
      }
      return Ok(x.d.i);
    }

    method PopValue() returns (r: Result<Value, Error>)
      modifies this`contract
      ensures DidYield(r, Machine.PopValue(old(St())))
    {
      var x :- Pop();
      if !x.Val? {
        return Err(ErrType);
      }
      return Ok(x.v);
    }

    method PopBytes() returns (r: Result<bytes, Error>)
      modifies this`contract
      ensures DidYield(r, Machine.PopBytes(old(St())))
    {
      var x :- Pop();
      if !(x.Plain? && x.d.Bytes?) {
        return Err(ErrType);
      }
      return Ok(x.d.b);
    }

    method PopTuple() returns (r: Result<seq<Data>, Error>)
      modifies this`contract
      ensures DidYield(r, Machine.PopTuple(old(St())))
    {
      var x :- Pop();
      if !(x.Plain? && x.d.Tuple?) {
        return Err(ErrType);
      }
      return Ok(x.d.items);
    }

    method PopBool() returns (r: Result<bool, Error>)
      modifies this`contract
      ensures DidYield(r, Machine.PopBool(old(St())))
    {
      var d :- PopData();
      if d.Int? {
        return Ok(d.i != 0);
      }
      return Ok(true);
    }

    method PopZeroValue() returns (r: Result<Value, Error>)
      modifies this`contract
      ensures DidYield(r, Machine.PopZeroValue(old(St())))
    {
      var v :- PopValue();
      if v.amount != 0 {
        return Err(ErrAnchorVal);
      }
      return Ok(v);
    }

    method PeekItem() returns (r: Result<Item, Error>)
      ensures r == Peek(St())
    {
      if contract.stack == [] {
        return Err(ErrUnderflow);
      }
      return Ok(contract.stack[|contract.stack| - 1]);
    }

    method ChargeAndPush(d: Data) returns (r: Done)
      modifies this`contract, this`runlimit
      ensures Did(r, Machine.ChargeAndPush(old(St()), d))
    {
      var _ :- Charge(DataCost(d));
      Push(Plain(d));
      return Ok(());
    }

    // --- the log (log.go)

    method Log(t: Entry) returns (r: Done)
      modifies this`log, this`runlimit
      ensures Did(r, Machine.Log(crypto, old(St()), t))
    {
      hide Recorded, WellLogged, FormedLog, NoncesDated, Outflow;
      if finalized {
        return Err(ErrFinalized);
      }
      var _ :- Charge(1 + |t|);
      log := log + [t];
      return Ok(());
    }

    method OpLog() returns (r: Done)
      modifies this`contract, this`log, this`runlimit
      ensures Did(r, Spec.OpLog(crypto, old(St())))
    {
      hide Kept, Recorded, WellLogged, FormedLog, NoncesDated, Machine.Log;
      var d :- PopData();
      r := Log([Bytes([LOG_CODE]), Bytes(contract.seed), d]);
    }

    method OpPeekLog() returns (r: Done)
      modifies this`contract, this`runlimit
      ensures Did(r, Spec.OpPeekLog(crypto, old(St())))
    {
      hide Kept;
      var i :- PopInt();
      if i < 0 || i >= |log| {
        return Err(ErrRange);
      }
      r := ChargeAndPush(Tuple(log[i]));
    }

    method OpTimeRange() returns (r: Done)
      modifies this`contract, this`log, this`runlimit
      ensures Did(r, Spec.OpTimeRange(crypto, old(St())))
    {
      hide Kept, Recorded, WellLogged, FormedLog, NoncesDated, Machine.Log;
      var max :- PopInt();
      var min :- PopInt();
      r := Log(Spec.TimeRangeTuple(contract.seed, min, max));
    }

    // --- values (values.go, anchors.go)

    method CreateValue(amount: int64, assetID: bytes, anchor: bytes) returns (r: Result<Value, Error>)
      modifies this`runlimit
      ensures match Machine.Charge(old(St()), ENTRY_COST)
        case Ok(t) => r == Ok(Value(amount, assetID, anchor)) && St() == t
        case Err(e) => r == Err(e)
    {
      var _ :- Charge(ENTRY_COST);
      return Ok(Value(amount, assetID, anchor));
    }

    method OpIssue() returns (r: Done)
      modifies this`contract, this`log, this`runlimit
      ensures Did(r, Spec.OpIssue(crypto, old(St())))
    {
      hide Kept, Recorded, WellLogged, FormedLog, NoncesDated, Machine.Log;
      var tag :- PopBytes();
      var amount :- PopInt();
      if amount < 0 {
        return Err(ErrNegAmount);
      }
      var zero :- PopZeroValue();
      var assetID := Spec.AssetID(crypto, contract.seed, tag);
      var v :- CreateValue(amount, assetID, zero.anchor);
      Push(Val(v));
      r := Log([Bytes([ISSUE_CODE]), Bytes(caller), Int(amount), Bytes(assetID), Bytes(zero.anchor)]);
    }

    method OpSplit() returns (r: Done)
      modifies this`contract, this`runlimit
      ensures Did(r, Spec.OpSplit(crypto, old(St())))
    {
      hide Kept, Machine.Charge, Machine.PopInt, Machine.PopValue, Machine.Push;
      var amount :- PopInt();
      if amount < 0 {
        return Err(ErrNegAmount);
      }
      var a :- PopValue();
      if amount > a.amount {
        return Err(ErrSplit);
      }
      var b :- CreateValue(a.amount - amount, a.assetID, crypto.vmHash("Split1", a.anchor));
      var c :- CreateValue(amount, a.assetID, crypto.vmHash("Split2", a.anchor));
      Push(Val(b));
      Push(Val(c));
      return Ok(());
    }

    method OpMerge() returns (r: Done)
      modifies this`contract, this`runlimit
      ensures Did(r, Spec.OpMerge(crypto, old(St())))
    {
      hide Kept, Machine.Charge, Machine.PopInt, Machine.PopValue, Machine.Push;
      var a :- PopValue();
      var b :- PopValue();
      if a.assetID != b.assetID {
        return Err(ErrMergeAsset);
      }
      if !FitsInt64(a.amount + b.amount) {
        return Err(ErrIntOverflow);
      }
      var v :- CreateValue(a.amount + b.amount, a.assetID, crypto.vmHash("Merge", a.anchor + b.anchor));
      Push(Val(v));
      return Ok(());
    }

    method OpRetire() returns (r: Done)
      modifies this`contract, this`log, this`runlimit
      ensures Did(r, Spec.OpRetire(crypto, old(St())))
    {
      hide Kept, Recorded, WellLogged, FormedLog, NoncesDated, Machine.Log;
      var v :- PopValue();
      r := Log([Bytes([RETIRE_CODE]), Bytes(contract.seed), Int(v.amount), Bytes(v.assetID), Bytes(v.anchor)]);
    }

    method OpNonce() returns (r: Done)
      modifies this`contract, this`log, this`runlimit
      ensures Did(r, Spec.OpNonce(crypto, old(St())))
    {
      hide Kept, Recorded, WellLogged, FormedLog, NoncesDated, Machine.Log, Machine.Charge, Machine.PopInt, Machine.PopBytes, Machine.Push;
      var exp :- PopInt();
      var blockID :- PopBytes();
      var nonce := Spec.NonceTuple(caller, contract.seed, blockID, exp);
      var _ :- Log(nonce);
      var _ :- Log(Spec.TimeRangeTuple(contract.seed, 0, exp));
      var v :- CreateValue(0, ZeroHash(), crypto.vmHash("Nonce", Encode(Tuple(nonce))));
      Push(Val(v));
      return Ok(());
    }

    method OpValuePart(part: Value -> Data) returns (r: Done)
      modifies this`contract, this`runlimit
      ensures Did(r, Spec.OpValuePart(crypto, old(St()), part))
    {
      hide Kept;
      var x :- PeekItem();
      if !x.Val? {
        return Err(ErrType);
      }
      r := ChargeAndPush(part(x.v));
    }

    // --- contracts (contract.go)

    method OpContract() returns (r: Done)
      modifies this`contract, this`runlimit
      ensures Did(r, Spec.OpContract(crypto, old(St())))
    {
      hide Kept;
      var prog :- PopBytes();
      var _ :- Charge(ENTRY_COST);
      Push(Con(Contract(false, crypto.vmHash("ContractSeed", prog), prog, [])));
      return Ok(());
    }

    method StackPortable() returns (b: bool)
      ensures b == Spec.StackPortable(contract.stack)
    {
      for i := 0 to |contract.stack|
        invariant forall x <- contract.stack[..i] :: IsPortable(x)
      {
        if !IsPortable(contract.stack[i]) {
          return false;
        }
      }
      return true;
    }

    method OpOutput() returns (r: Done)
      modifies this`contract, this`log, this`runlimit, this`moves, this`unwinding
      ensures Did(r, Spec.OpOutput(crypto, old(St())))
    {
      hide Kept, Recorded, RecordedMove, WellLogged, FormedLog, NoncesDated, Outflow, Machine.Charge, Machine.PopBytes, Machine.Log;
      var portable := StackPortable();
      if !portable {
        return Err(ErrUnportable);
      }
      var prog :- PopBytes();
      contract := contract.(program := prog);
      var snapshot := InspectContract(contract);
      var _ :- Charge(DataCost(Bytes(Encode(Tuple(snapshot)))));
      var _ :- Log([Bytes([OUTPUT_CODE]), Bytes(caller), Bytes(SnapshotID(crypto, snapshot))]);
      moves := moves + [Out(snapshot)];
      unwinding := true;
      return Ok(());
    }

    method OpInput() returns (r: Done)
      modifies this`contract, this`log, this`runlimit, this`moves
      ensures Did(r, Spec.OpInput(crypto, old(St())))
    {
      hide Kept, Recorded, RecordedMove, WellLogged, FormedLog, NoncesDated, Outflow, Machine.Charge, Machine.PopTuple, Machine.Log, Machine.Push;
      var t :- PopTuple();
      match UninspectContract(t)
      case Err(e) =>
        return Err(if e == FieldsError.ErrFields then Error.ErrFields else ErrRuntime);
      case Ok(con) =>
        var _ :- Charge(ENTRY_COST);
        Push(Con(con));
        var _ :- Log([Bytes([INPUT_CODE]), Bytes(contract.seed), Bytes(SnapshotID(crypto, t))]);
        moves := moves + [In(t)];
        return Ok(());
    }

    method OpYield() returns (r: Done)
      modifies this`contract, this`argstack, this`unwinding
      ensures Did(r, Spec.OpYield(crypto, old(St())))
    {
      hide Kept;
      var prog :- PopBytes();
      contract := contract.(program := prog);
      argstack := argstack + [Con(contract)];
      unwinding := true;
      return Ok(());
    }

    method OpWrap() returns (r: Done)
      modifies this`contract, this`argstack, this`unwinding
      ensures Did(r, Spec.OpWrap(crypto, old(St())))
    {
      hide Kept;
      var portable := StackPortable();
      if !portable {
        return Err(ErrUnportable);
      }
      var prog :- PopBytes();
      contract := contract.(wrapped := true);
      contract := contract.(program := prog);
      argstack := argstack + [Con(contract)];
      unwinding := true;
      return Ok(());
    }

    method OpGet() returns (r: Done)
      modifies this`contract, this`argstack
      ensures Did(r, Spec.OpGet(crypto, old(St())))
    {
      hide Kept;
      if argstack == [] {
        return Err(ErrUnderflow);
      }
      Push(argstack[|argstack| - 1]);
      argstack := argstack[..|argstack| - 1];
      return Ok(());
    }

    method OpPut() returns (r: Done)
      modifies this`contract, this`argstack
      ensures Did(r, Spec.OpPut(crypto, old(St())))
    {
      hide Kept;
      var x :- Pop();
      argstack := argstack + [x];
      return Ok(());
    }

    method OpSeed() returns (r: Done)
      modifies this`contract, this`runlimit
      ensures Did(r, Spec.OpSeed(crypto, old(St())))
    {
      hide Kept;
      var x :- PeekItem();
      if !x.Con? {
        return Err(ErrType);
      }
      r := ChargeAndPush(Bytes(x.c.seed));
    }

    method OpPushData(d: Data) returns (r: Done)
      modifies this`contract, this`runlimit
      ensures Did(r, Spec.OpPushData(crypto, old(St()), d))
    {
      hide Kept;
      r := ChargeAndPush(d);
    }

    method OpExt() returns (r: Done)
      modifies this`contract
      ensures Did(r, Spec.OpExt(crypto, old(St())))
    {
      hide Kept;
      if !extension {
        return Err(ErrExt);
      }
      var _ :- PopData();
      return Ok(());
    }

    // --- stacks and data (stack.go, data.go)

    method OpRoll() returns (r: Done)
      modifies this`contract, this`runlimit
      ensures Did(r, Spec.OpRoll(crypto, old(St())))
    {
      hide Kept;
      var n :- PopInt();
      if n < 0 || n >= |contract.stack| {
        return Err(ErrStackRange);
      }
      var i := |contract.stack| - 1 - n;
      var item, before, after := contract.stack[i], contract.stack[..i], contract.stack[i + 1..];
      contract := contract.(stack := before + after + [item]);
      r := Charge(n);
    }

    method OpBury() returns (r: Done)
      modifies this`contract, this`runlimit
      ensures Did(r, Spec.OpBury(crypto, old(St())))
    {
      hide Kept, Stacks.KeepsValue, Machine.Charge, Machine.PopInt;
      var n :- PopInt();
      if n < 0 || n >= |contract.stack| {
        return Err(ErrStackRange);
      }
      var rest, item := contract.stack[..|contract.stack| - 1], contract.stack[|contract.stack| - 1];
      var i := |rest| - n;
      contract := contract.(stack := rest[..i] + [item] + rest[i..]);
      r := Charge(n);
    }

    /** popN: at most n items, the top one first. */
    method PopN(n: int64) returns (vals: seq<Item>)
      modifies this`contract
      ensures
        var s := old(contract.stack);
        var k := if n < 0 then 0 else if n < |s| then n else |s|;
        && vals == Stacks.Reversed(s[|s| - k..])
        && contract == old(contract).(stack := s[..|s| - k])
    {
      hide Stacks.Reversed, Stacks.KeepsValue, StackAmount, NaturalStack;
      vals := [];
      var m: int := n;
      ghost var s := contract.stack;
      assert s[..|s|] == s && Stacks.Reversed(s[|s|..]) == [];
      while m > 0 && |contract.stack| > 0
        invariant contract == old(contract).(stack := s[..|contract.stack|])
        invariant |contract.stack| <= |s| && |vals| == |s| - |contract.stack|
        invariant vals == Stacks.Reversed(s[|contract.stack|..])
        invariant m == n - |vals| && (m < 0 ==> vals == [])
        decreases |contract.stack|
      {
        var k := |contract.stack|;
        assert s[..k][..k - 1] == s[..k - 1] && s[..k][k - 1] == s[k - 1];
        vals := vals + [contract.stack[k - 1]];
        contract := contract.(stack := contract.stack[..k - 1]);
        m := m - 1;
        Stacks.ReversedSuffix(s, k);
      }
    }

    method OpReverse() returns (r: Done)
      modifies this`contract, this`runlimit
      ensures Did(r, Spec.OpReverse(crypto, old(St())))
    {
      hide Kept, Stacks.Reversed;
      var n :- PopInt();
      var vals := PopN(n);
      if |vals| != n {
        return Err(ErrStackRange);
      }
      contract := contract.(stack := contract.stack + vals);
      r := Charge(n);
    }

    method OpPeek() returns (r: Done)
      modifies this`contract, this`runlimit
      ensures Did(r, Spec.OpPeek(crypto, old(St())))
    {
      hide Kept;
      var n :- PopInt();
      var index := |contract.stack| - 1 - n;
      if index < 0 || index >= |contract.stack| {
        return Err(ErrStackRange);
      }
      var x := contract.stack[index];
      if !x.Plain? {
        return Err(ErrType);
      }
      r := ChargeAndPush(x.d);
    }

    method OpDup() returns (r: Done)
      modifies this`contract, this`runlimit
      ensures Did(r, Spec.OpDup(crypto, old(St())))
    {
      hide Kept;
      var x :- PeekItem();
      if !x.Plain? {
        return Err(ErrType);
      }
      r := ChargeAndPush(x.d);
    }

    method OpDrop() returns (r: Done)
      modifies this`contract
      ensures Did(r, Spec.OpDrop(crypto, old(St())))
    {
      hide Kept;
      var x :- Pop();
      if !IsDroppable(x) {
        return Err(ErrType);
      }
      return Ok(());
    }

    /** Pops n items of plain data, filling the result from its end. */
    method PopDatas(n: nat) returns (r: Result<seq<Data>, Error>)
      requires n <= |contract.stack|
      modifies this`contract
      ensures DidYield(r, Spec.PopDatas(old(St()), n))
    {
      hide Stacks.KeepsValue, Machine.PopData;
      var vals: seq<Data> := [];
      ghost var spec := Spec.PopDatas(St(), n);
      JoinNothing(spec);
      while |vals| < n
        invariant |vals| <= n && n - |vals| <= |contract.stack|
        invariant spec == Join(Spec.PopDatas(St(), n - |vals|), vals)
        decreases n - |vals|
      {
        JoinStep(St(), n - |vals|, vals);
        var v :- PopData();
        vals := [v] + vals;
      }
      assert [] + vals == vals;
      return Ok(vals);
    }

    method OpTuple() returns (r: Done)
      modifies this`contract, this`runlimit
      ensures Did(r, Spec.OpTuple(crypto, old(St())))
    {
      hide Kept, Machine.ChargeAndPush, Spec.PopDatas;
      var n :- PopInt();
      if n > |contract.stack| || n < 0 {
        return Err(ErrUnderflow);
      }
      var vals :- PopDatas(n);
      r := ChargeAndPush(Tuple(vals));
    }

    method OpUntuple() returns (r: Done)
      modifies this`contract, this`runlimit
      ensures Did(r, Spec.OpUntuple(crypto, old(St())))
    {
      hide Kept;
      var t :- PopTuple();
      ghost var s := St();
      for i := 0 to |t|
        invariant Spec.PushDatas(s, t) == Spec.PushDatas(St(), t[i..])
      {
        Push(Plain(t[i]));
      }
      Push(Plain(Int(Length(|t|))));
      r := Charge(|t|);
    }

    // --- the transaction (tx.go)

    method OpFinalize() returns (r: Done)
      modifies this`contract, this`log, this`runlimit, this`finalized, this`txid
      ensures Did(r, Spec.OpFinalize(crypto, old(St())))
    {
      hide Kept, Recorded, WellLogged, FormedLog, NoncesDated, Outflow;
      var v :- PopZeroValue();
      var _ :- Log([Bytes([FINALIZE_CODE]), Bytes(contract.seed), Int(version), Bytes(v.anchor)]);
      finalized := true;
      var items := EncodeLog();
      txid := Merkle.Root(crypto.sha3, items);
      return Ok(());
    }

    method EncodeLog() returns (items: seq<bytes>)
      ensures items == EncodeEach(log)
    {
      items := [];
      for i := 0 to |log|
        invariant items == EncodeEach(log[..i])
      {
        items := items + [Encode(Tuple(log[i]))];
        assert log[..i + 1] == log[..i] + [log[i]];
      }
      assert log[..|log|] == log;
    }

    method OpTxID() returns (r: Done)
      modifies this`contract, this`runlimit
      ensures Did(r, Spec.OpTxID(crypto, old(St())))
    {
      hide Kept;
      if !finalized {
        return Err(ErrUnfinalized);
      }
      r := ChargeAndPush(Bytes(txid));
    }

    // --- control and signatures (control.go, crypto.go)

    method OpVerify() returns (r: Done)
      modifies this`contract
      ensures Did(r, Spec.OpVerify(crypto, old(St())))
    {
      hide Kept;
      var b :- PopBool();
      if !b {
        return Err(ErrVerifyFail);
      }
      return Ok(());
    }

    method OpJumpIf() returns (r: Done)
      modifies this`contract, this`run
      ensures Did(r, Spec.OpJumpIf(crypto, old(St())))
    {
      hide Kept;
      var offset :- PopInt();
      var cond :- PopBool();
      if !cond {
        return Ok(());
      }
      var dest := run.pc + offset;
      if !FitsInt64(dest) {
        return Err(ErrIntOverflow);
      }
      if dest < 0 || dest > |run.prog| {
        return Err(ErrJump);
      }
      run := run.(pc := dest);
      return Ok(());
    }

    method OpCheckSig() returns (r: Done)
      modifies this`contract, this`runlimit
      ensures Did(r, Spec.OpCheckSig(crypto, old(St())))
    {
      hide Kept;
      var scheme :- PopData();
      var sig :- PopBytes();
      var pubkey :- PopBytes();
      var msg :- PopBytes();
      if |sig| == 0 {
        Push(Plain(Bool(false)));
        return Ok(());
      }
      var _ :- Charge(2048);
      if scheme == Int(0) {
        if |sig| != 64 {
          return Err(ErrSigSize);
        }
        if |pubkey| != 32 {
          return Err(ErrPubSize);
        }
        if !crypto.verify(pubkey, msg, sig) {
          return Err(ErrSignature);
        }
      } else if !extension {
        return Err(ErrExt);
      }
      Push(Plain(Bool(true)));
      return Ok(());
    }

    method PopKinds(ks: seq<Spec.Kind>) returns (r: Result<seq<Data>, Error>)
      modifies this`contract
      ensures DidYield(r, Spec.PopKinds(old(St()), ks))
    {
      hide Stacks.KeepsValue, Machine.PopData, Spec.PopKinds;
      var x: seq<Data> := [];
      ghost var spec := Spec.PopKinds(St(), ks);
      PrependNothing(St(), ks);
      for i := 0 to |ks|
        invariant spec == Prepend(x, Spec.PopKinds(St(), ks[i..]))
      {
        PrependStep(St(), ks[i..], x);
        var d :- PopData();
        if !Spec.HasKind(d, ks[i]) {
          return Err(ErrType);
        }
        x := x + [d];
        assert ks[i..][1..] == ks[i + 1..];
      }
      PopsNoKinds(St(), ks[|ks|..], x);
      return Ok(x);
    }

    method OpOperator(op: byte) returns (r: Done)
      requires Spec.Operands(op).Some?
      modifies this`contract, this`runlimit
      ensures Did(r, Spec.OpOperator(crypto, old(St()), op))
    {
      hide Kept, Spec.Operands, Spec.Operate, Spec.PopKinds, Machine.ChargeAndPush;
      var x :- PopKinds(Spec.Operands(op).value);
      var d :- Spec.Operate(crypto, op, x);
      r := ChargeAndPush(d);
    }

    // --- dispatch and control (vm.go)

    method Perform(inst: Inst) returns (r: Done)
      requires inst.opcode <= MIN_PUSHDATA
      modifies this
      ensures runstack == old(runstack)
      ensures Did(r, Spec.Perform(crypto, old(St()), inst))
    {
      hide Kept;
      if inst.opcode == MIN_PUSHDATA {
        r := OpPushData(Bytes(inst.data));
      } else if IsSmallInt(inst.opcode) {
        r := OpPushData(Int(inst.opcode));
      } else if Spec.Operands(inst.opcode).Some? {
        r := OpOperator(inst.opcode);
      } else {
        match inst.opcode
        case ROLL => r := OpRoll();
        case BURY => r := OpBury();
        case REVERSE => r := OpReverse();
        case GET => r := OpGet();
        case PUT => r := OpPut();
        case DEPTH => r := OpPushData(Int(Length(|argstack|)));
        case NONCE => r := OpNonce();
        case MERGE => r := OpMerge();
        case SPLIT => r := OpSplit();
        case ISSUE => r := OpIssue();
        case RETIRE => r := OpRetire();
        case AMOUNT => r := OpValuePart(Spec.AmountOf);
        case ASSET_ID => r := OpValuePart(Spec.AssetOf);
        case ANCHOR => r := OpValuePart(Spec.AnchorOf);
        case CHECK_SIG => r := OpCheckSig();
        case LOG => r := OpLog();
        case PEEK_LOG => r := OpPeekLog();
        case TX_ID => r := OpTxID();
        case FINALIZE => r := OpFinalize();
        case VERIFY => r := OpVerify();
        case JUMP_IF => r := OpJumpIf();
        case YIELD => r := OpYield();
        case WRAP => r := OpWrap();
        case INPUT => r := OpInput();
        case OUTPUT => r := OpOutput();
        case CONTRACT => r := OpContract();
        case SEED => r := OpSeed();
        case SELF => r := OpPushData(Bytes(contract.seed));
        case CALLER => r := OpPushData(Bytes(caller));
        case CONTRACT_PROGRAM => r := OpPushData(Bytes(contract.program));
        case TIME_RANGE => r := OpTimeRange();
        case EXT => r := OpExt();
        case DUP => r := OpDup();
        case DROP => r := OpDrop();
        case PEEK => r := OpPeek();
        case TUPLE => r := OpTuple();
        case UNTUPLE => r := OpUntuple();
        case _ => r := Err(ErrPrv);
      }
    }

    /** The fields now describe the configuration a run of the frame machine leads to. */
    ghost predicate Reached(r: Done, spec: Result<Config, Error>, frames: seq<Frame>)
      reads this
    {
      match spec
      case Ok(k) => r.Ok? && Config(St(), frames) == k
      case Err(e) => r == Err(e)
    }

    method OpExec(ghost frames: seq<Frame>) returns (r: Done)
      requires run.prog != [] && 0 <= runlimit && !unwinding
      modifies this
      ensures runstack == old(runstack)
      ensures r.Ok? ==> 0 <= runlimit <= old(runlimit)
      ensures Reached(r, Through(crypto, Interpreter.Exec(crypto, old(St()), frames), |frames|), frames)
      decreases runlimit, 3
    {
      hide KeptWhole, RunTo;
      var prog :- PopBytes();
      r := Exec(prog, frames + [ExecFrame(run)]);
    }

    method OpCall(ghost frames: seq<Frame>) returns (r: Done)
      requires run.prog != [] && 0 <= runlimit && !unwinding
      modifies this
      ensures runstack == old(runstack)
      ensures r.Ok? ==> 0 <= runlimit <= old(runlimit)
      ensures Reached(r, Through(crypto, Interpreter.Call(crypto, old(St()), frames), |frames|), frames)
      decreases runlimit, 3
    {
      hide KeptWhole, RunTo, Kept, NaturalItem, NaturalStack, StackAmount;
      var item :- Pop();
      if !item.Con? {
        return Err(ErrType);
      }
      var prevContract, prevCaller := contract, caller;
      ghost var frame := CallFrame(run, prevContract, prevCaller);
      caller := contract.seed;
      contract := item.c.(wrapped := false);
      var _ :- Exec(contract.program, frames + [frame]);
      if !unwinding && |contract.stack| > 0 {
        return Err(ErrNonEmpty);
      }
      unwinding := false;
      contract := prevContract;
      caller := prevCaller;
      return Ok(());
    }

    method Step(ghost frames: seq<Frame>) returns (r: Done)
      requires !AtEnd(St())
      modifies this
      ensures runstack == old(runstack)
      ensures r.Ok? ==> 0 <= runlimit < old(runlimit)
      ensures RunTo(crypto, Config(old(St()), frames), |frames|)
           == Continue(crypto, match r case Ok(_) => Ok(Config(St(), frames)) case Err(e) => Err(e), |frames|)
      decreases runlimit, 1
    {
      hide KeptWhole, Kept, Spec.Perform, Interpreter.Exec, Interpreter.Call;
      ghost var g := Config(St(), frames);
      match DecodeInst(run.prog[run.pc..])
      case None =>
        return Err(ErrDecode);
      case Some(inst) =>
        var _ :- Charge(1);
        run := run.(pc := run.pc + inst.size);
        if inst.opcode == EXEC {
          EnteringGoesThrough(crypto, g, Interpreter.Exec(crypto, St(), frames));
          r := OpExec(frames);
        } else if inst.opcode == CALL {
          EnteringGoesThrough(crypto, g, Interpreter.Call(crypto, St(), frames));
          r := OpCall(frames);
        } else {
          r := Perform(inst);
          assert r.Ok? ==> Instruct(crypto, g) == Ok(Config(St(), frames));
        }
    }

    /** Runs prog to its end or until it is suspended, then comes back to the interrupted run. */
    method Exec(prog: bytes, ghost frames: seq<Frame>) returns (r: Done)
      requires 0 <= runlimit
      modifies this
      ensures r.Ok? ==> 0 <= runlimit <= old(runlimit)
      ensures runstack == old(runstack)
      ensures match RunTo(crypto, Config(old(St()).(run := Run(0, prog)), frames), |frames|)
        case Ok(h) => r.Ok? && St() == (if old(run.prog) == [] then h.s else h.s.(run := old(run)))
        case Err(e) => r == Err(e)
      decreases runlimit, 2
    {
      hide KeptWhole, Instruct, Return;
      var nested := |run.prog| > 0;
      if nested {
        runstack := runstack + [run];
      }
      run := Run(0, prog);
      ghost var spec := RunTo(crypto, Config(St(), frames), |frames|);
      r := Ok(());
      while run.pc < |run.prog|
        invariant runstack == if nested then old(runstack) + [old(run)] else old(runstack)
        invariant 0 <= runlimit <= old(runlimit)
        invariant r.Ok? && spec == RunTo(crypto, Config(St(), frames), |frames|)
        decreases runlimit
      {
        if unwinding {
          break;
        }
        r := Step(frames);
        if r.Err? {
          if nested {
            runstack := runstack[..|runstack| - 1];
          }
          return;
        }
      }
      if nested {
        run := runstack[|runstack| - 1];
        runstack := runstack[..|runstack| - 1];
      }
    }
  }

  /** Validate: the machine object ends exactly as the frame machine says, with the same error if any. */
  method Validate(crypto: Crypto, prog: bytes, version: int64, runlimit: int64, extension: bool)
    returns (r: Result<VM, Error>)
    ensures match Interpreter.Validate(crypto, prog, version, runlimit, extension)
      case Ok(s) => r.Ok? && r.value.St() == s
      case Err(e) => r == Err(e)
  {
    hide KeptWhole, RunTo;
    if version < 3 {
      return Err(ErrVersion);
    }
    var vm := new VM(crypto, prog, version, runlimit, extension);
    if |prog| > vm.runlimit {
      return Err(ErrRunlimit);
    }
    var done := vm.Exec(prog, []);
    if done.Err? {
      return Err(done.error);
    }
    if |vm.contract.stack| > 0 || |vm.argstack| > 0 {
      return Err(ErrResidue);
    }
    return Ok(vm);
  }
}
