/**
 What each instruction does, opcode by opcode, as the specification describes it (specifications/txvm.md):
 the items it takes from the top of the stack, what it leaves there, what it costs and what it logs.
 */
module Effects {
  import opened Prelude
  import opened Items
  import opened Ledger
  import opened Encoding
  import opened Machine
  import opened Instructions
  import opened Opcodes
  import opened Compilation
  import Laws
  import Merkle
  import Stacks

  /** s with results in the place of what was above rest, at some cost. */
  function Leaves(s: State, rest: seq<Item>, results: seq<Item>, cost: nat): State {
    WithStack(s, rest + results).(runlimit := s.runlimit - cost)
  }

  function Logging(s: State, t: Entry): State {
    s.(tx := s.tx.(log := s.tx.log + [t]))
  }

  // --- the table of opcodes

  function Does(c: Crypto, s: State, op: byte): Step
    requires op < 0x5f
  {
    Perform(c, s, Inst(op, [], 1))
  }

  /** The instructions by their codes; those on plain data alone are below. */
  lemma OpcodeTable(c: Crypto, s: State, op: byte)
    requires 0x2a <= op <= 0x55 && op !in {0x38, 0x39, 0x3a, 0x50}
    ensures Does(c, s, op) ==
      match op
      case 0x2a => OpRoll(c, s)
      case 0x2b => OpBury(c, s)
      case 0x2c => OpReverse(c, s)
      case 0x2d => OpGet(c, s)
      case 0x2e => OpPut(c, s)
      case 0x2f => OpPushData(c, s, Int(Length(|s.argstack|)))
      case 0x30 => OpNonce(c, s)
      case 0x31 => OpMerge(c, s)
      case 0x32 => OpSplit(c, s)
      case 0x33 => OpIssue(c, s)
      case 0x34 => OpRetire(c, s)
      case 0x35 => OpValuePart(c, s, AmountOf)
      case 0x36 => OpValuePart(c, s, AssetOf)
      case 0x37 => OpValuePart(c, s, AnchorOf)
      case 0x3b => OpCheckSig(c, s)
      case 0x3c => OpLog(c, s)
      case 0x3d => OpPeekLog(c, s)
      case 0x3e => OpTxID(c, s)
      case 0x3f => OpFinalize(c, s)
      case 0x40 => OpVerify(c, s)
      case 0x41 => OpJumpIf(c, s)
      case 0x44 => OpYield(c, s)
      case 0x45 => OpWrap(c, s)
      case 0x46 => OpInput(c, s)
      case 0x47 => OpOutput(c, s)
      case 0x48 => OpContract(c, s)
      case 0x49 => OpSeed(c, s)
      case 0x4a => OpPushData(c, s, Bytes(s.contract.seed))
      case 0x4b => OpPushData(c, s, Bytes(s.caller))
      case 0x4c => OpPushData(c, s, Bytes(s.contract.program))
      case 0x4d => OpTimeRange(c, s)
      case 0x4f => OpExt(c, s)
      case 0x51 => OpDup(c, s)
      case 0x52 => OpDrop(c, s)
      case 0x53 => OpPeek(c, s)
      case 0x54 => OpTuple(c, s)
      case 0x55 => OpUntuple(c, s)
      case _ => Err(ErrPrv)
  {
    hide Kept, OpRoll, OpBury, OpReverse, OpGet, OpPut, OpNonce, OpMerge, OpSplit, OpIssue, OpRetire, OpCheckSig, OpLog, OpPeekLog, OpTxID, OpFinalize, OpVerify, OpJumpIf, OpYield, OpWrap, OpInput, OpOutput, OpContract, OpSeed, OpTimeRange, OpExt, OpDup, OpDrop, OpPeek, OpTuple, OpUntuple, OpPushData, OpValuePart, OpOperator;
  }

  lemma Pushes(c: Crypto, s: State, d: Data)
    ensures OpPushData(c, s, d) ==
      if s.runlimit < DataCost(d) then Err(ErrRunlimit) else Ok(Leaves(s, s.contract.stack, [Plain(d)], DataCost(d)))
  {
    hide Kept;
  }

  /** depth, self, caller and contractprogram push something that is always at hand. */
  lemma PushesAtHand(c: Crypto, s: State)
    requires |s.argstack| <= MAX_INT64 && s.runlimit >= 1 + |s.contract.seed| + |s.caller| + |s.contract.program|
    ensures Does(c, s, 0x2f) == Ok(Leaves(s, s.contract.stack, [Plain(Int(|s.argstack|))], 0))
    ensures Does(c, s, 0x4a) == Ok(Leaves(s, s.contract.stack, [Plain(Bytes(s.contract.seed))], 1 + |s.contract.seed|))
    ensures Does(c, s, 0x4b) == Ok(Leaves(s, s.contract.stack, [Plain(Bytes(s.caller))], 1 + |s.caller|))
    ensures Does(c, s, 0x4c) == Ok(Leaves(s, s.contract.stack, [Plain(Bytes(s.contract.program))], 1 + |s.contract.program|))
  {
    hide Does, OpPushData, Leaves;
    OpcodeTable(c, s, 0x2f);
    OpcodeTable(c, s, 0x4a);
    OpcodeTable(c, s, 0x4b);
    OpcodeTable(c, s, 0x4c);
    forall d: Data { Pushes(c, s, d); }
  }

  lemma CopiesPart(c: Crypto, s: State, rest: seq<Item>, v: Value, part: Value -> Data)
    requires s.contract.stack == rest + [Val(v)] && s.runlimit >= DataCost(part(v))
    ensures OpValuePart(c, s, part) == Ok(Leaves(s, rest, [Val(v), Plain(part(v))], DataCost(part(v))))
  {
    hide Kept, StackAmount, NaturalStack;
    assert s.contract.stack + [Plain(part(v))] == rest + [Val(v), Plain(part(v))];
  }

  /** amount, assetid and anchor copy a part of the value on top, and leave it there. */
  lemma CopiesParts(c: Crypto, s: State, rest: seq<Item>, v: Value)
    requires s.contract.stack == rest + [Val(v)] && s.runlimit >= 1 + |v.assetID| + |v.anchor|
    ensures Does(c, s, 0x35) == Ok(Leaves(s, rest, [Val(v), Plain(Int(v.amount))], 0))
    ensures Does(c, s, 0x36) == Ok(Leaves(s, rest, [Val(v), Plain(Bytes(v.assetID))], 1 + |v.assetID|))
    ensures Does(c, s, 0x37) == Ok(Leaves(s, rest, [Val(v), Plain(Bytes(v.anchor))], 1 + |v.anchor|))
  {
    hide Does, OpValuePart, Leaves;
    OpcodeTable(c, s, 0x35);
    OpcodeTable(c, s, 0x36);
    OpcodeTable(c, s, 0x37);
    CopiesPart(c, s, rest, v, AmountOf);
    CopiesPart(c, s, rest, v, AssetOf);
    CopiesPart(c, s, rest, v, AnchorOf);
  }

  // --- stacks

  lemma Moves(c: Crypto, s: State, rest: seq<Item>, x: Item, xs: seq<Item>)
    requires |xs| <= s.runlimit && |xs| <= MAX_INT64
    ensures s.contract.stack == rest + [x] + xs + [Plain(Int(|xs|))] ==> OpRoll(c, s) == Ok(Leaves(s, rest, xs + [x], |xs|))
    ensures s.contract.stack == rest + xs + [x] + [Plain(Int(|xs|))] ==> OpBury(c, s) == Ok(Leaves(s, rest, [x] + xs, |xs|))
    ensures s.contract.stack == rest + xs + [Plain(Int(|xs|))] ==>
      var r := OpReverse(c, s);
      && r.Ok? && r.value == Leaves(s, r.value.contract.stack, [], |xs|)
      && |r.value.contract.stack| == |rest| + |xs| && r.value.contract.stack[..|rest|] == rest
      && forall i :: |rest| <= i < |rest| + |xs| ==> r.value.contract.stack[i] == xs[|rest| + |xs| - 1 - i]
  {
    hide Kept, Pop, Stacks.Roll, Stacks.Bury, Stacks.Reverse, Stacks.KeepsValue, StackAmount, NaturalStack;
    Stacks.Rearranges(rest, x, xs);
    var n := Plain(Int(|xs|));
    if s.contract.stack == rest + [x] + xs + [n] {
      PopsOne(s, rest + [x] + xs, n);
      assert rest + xs + [x] == rest + (xs + [x]);
    }
    if s.contract.stack == rest + xs + [x] + [n] {
      PopsOne(s, rest + xs + [x], n);
      assert rest + [x] + xs == rest + ([x] + xs);
    }
    if s.contract.stack == rest + xs + [n] {
      PopsOne(s, rest + xs, n);
      var r := Stacks.Reverse(rest + xs, |xs|);
      assert r + [] == r;
    }
  }

  /** A count that is negative or reaches below the stack fails. */
  lemma MovesFail(c: Crypto, s: State, rest: seq<Item>, n: int64)
    requires s.contract.stack == rest + [Plain(Int(n))]
    ensures n < 0 || n >= |rest| ==>
      OpRoll(c, s) == OpBury(c, s) == OpPeek(c, s) == Err(ErrStackRange)
    ensures n < 0 || n > |rest| ==> OpReverse(c, s) == Err(ErrStackRange) && OpTuple(c, s) == Err(ErrUnderflow)
  {
    hide Kept, Pop, Stacks.Roll, Stacks.Bury, Stacks.Reverse, StackAmount, NaturalStack;
    PopsOne(s, rest, Plain(Int(n)));
  }

  /** get and put move the top items of the two stacks. */
  lemma GetsAndPuts(c: Crypto, s: State, rest: seq<Item>, x: Item)
    ensures s.contract.stack == rest + [x] ==> OpPut(c, s) == Ok(WithStack(s, rest).(argstack := s.argstack + [x]))
    ensures s.argstack == rest + [x] ==> OpGet(c, s) == Ok(Leaves(s, s.contract.stack, [x], 0).(argstack := rest))
    ensures s.argstack == [] ==> OpGet(c, s) == Err(ErrUnderflow)
  {
    hide Kept;
  }

  /** dup and peek copy plain data only, at its cost. */
  lemma Copies(c: Crypto, s: State, rest: seq<Item>, x: Item, xs: seq<Item>)
    requires |xs| <= MAX_INT64 && (x.Plain? ==> DataCost(x.d) <= s.runlimit)
    ensures s.contract.stack == rest + [x] ==> OpDup(c, s) == if x.Plain? then Ok(Leaves(s, rest, [x, x], DataCost(x.d))) else Err(ErrType)
    ensures s.contract.stack == rest + [x] + xs + [Plain(Int(|xs|))] ==>
      OpPeek(c, s) == if x.Plain? then Ok(Leaves(s, rest, [x] + xs + [x], DataCost(x.d))) else Err(ErrType)
  {
    hide Kept, StackAmount, NaturalStack;
    assert rest + [x] + [x] == rest + [x, x];
    if s.contract.stack == rest + [x] + xs + [Plain(Int(|xs|))] {
      PopsOne(s, rest + [x] + xs, Plain(Int(|xs|)));
      assert rest + ([x] + xs + [x]) == rest + [x] + xs + [x];
    }
  }

  /** drop takes away plain data and values of nothing, and no more. */
  lemma Drops(c: Crypto, s: State, rest: seq<Item>, x: Item)
    requires s.contract.stack == rest + [x]
    ensures OpDrop(c, s) == if x.Plain? || (x.Val? && x.v.amount == 0) then Ok(WithStack(s, rest)) else Err(ErrType)
  {
    hide Kept, StackAmount, NaturalStack;
    PopsOne(s, rest, x);
  }

  // --- the log and the transaction

  /** log and timerange write what they pop. */
  lemma LogsItem(c: Crypto, s: State, rest: seq<Item>, d: Data)
    requires s.contract.stack == rest + [Plain(d)] && !s.tx.finalized && s.runlimit >= 4
    ensures OpLog(c, s) == Ok(Logging(Leaves(s, rest, [], 4), [Bytes([0x4c]), Bytes(s.contract.seed), d]))
  {
    hide Kept, Pop, Log, Recorded;
    PopsOne(s, rest, Plain(d));
    Laws.Logs(c, WithStack(s, rest), [Bytes([LOG_CODE]), Bytes(s.contract.seed), d]);
    assert rest + [] == rest;
  }

  lemma LogsTimeRange(c: Crypto, s: State, rest: seq<Item>, min: int64, max: int64)
    requires s.contract.stack == rest + [Plain(Int(min)), Plain(Int(max))] && !s.tx.finalized && s.runlimit >= 5
    ensures OpTimeRange(c, s) ==
      Ok(Logging(Leaves(s, rest, [], 5), [Bytes([0x52]), Bytes(s.contract.seed), Int(min), Int(max)]))
  {
    hide Kept, Pop, Log, Recorded;
    Laws.PopsTwo(s, rest, Plain(Int(min)), Plain(Int(max)));
    Laws.Logs(c, WithStack(s, rest), TimeRangeTuple(s.contract.seed, min, max));
    assert rest + [] == rest;
  }

  /** nonce logs itself and its time range, and leaves a value of nothing whose anchor is the hash of its entry. */
  lemma MakesNonce(c: Crypto, s: State, rest: seq<Item>, blockID: bytes, exp: int64)
    requires s.contract.stack == rest + [Plain(Bytes(blockID)), Plain(Int(exp))] && !s.tx.finalized && s.runlimit >= 139
    ensures
      var nonce := [Bytes([0x4e]), Bytes(s.caller), Bytes(s.contract.seed), Bytes(blockID), Int(exp)];
      var range := [Bytes([0x52]), Bytes(s.contract.seed), Int(0), Int(exp)];
      OpNonce(c, s) == Ok(Logging(Logging(
        Leaves(s, rest, [Val(Value(0, ZeroHash(), c.vmHash("Nonce", Encode(Tuple(nonce)))))], 139), nonce), range))
  {
    hide Kept, Pop, Log, Recorded, Encode;
    Laws.PopsTwo(s, rest, Plain(Bytes(blockID)), Plain(Int(exp)));
    var t := WithStack(s, rest);
    var nonce := NonceTuple(s.caller, s.contract.seed, blockID, exp);
    Laws.Logs(c, t, nonce);
    Laws.Logs(c, Logging(t, nonce).(runlimit := t.runlimit - 6), TimeRangeTuple(s.contract.seed, 0, exp));
  }

  /** peeklog copies an entry of the log, wherever it came from. */
  lemma PeeksLog(c: Crypto, s: State, rest: seq<Item>, i: int64)
    requires s.contract.stack == rest + [Plain(Int(i))]
    ensures !(0 <= i < |s.tx.log|) ==> OpPeekLog(c, s) == Err(ErrRange)
    ensures 0 <= i < |s.tx.log| && 1 + |s.tx.log[i]| <= s.runlimit ==>
      OpPeekLog(c, s) == Ok(Leaves(s, rest, [Plain(Tuple(s.tx.log[i]))], 1 + |s.tx.log[i]|))
  {
    hide Kept, Pop, StackAmount, NaturalStack;
    PopsOne(s, rest, Plain(Int(i)));
  }

  /** finalize seals the log with the anchor of a value of nothing; only then does txid give the hash of the whole log. */
  lemma FinalizesThenIdentifies(c: Crypto, s: State, rest: seq<Item>, v: Value)
    requires s.contract.stack == rest + [Val(v)]
    ensures v.amount != 0 ==> OpFinalize(c, s) == Err(ErrAnchorVal)
    ensures !s.tx.finalized ==> OpTxID(c, s) == Err(ErrUnfinalized)
    ensures v.amount == 0 && !s.tx.finalized && s.runlimit >= 38 ==>
      var t := OpFinalize(c, s);
      var sealed := Logging(Leaves(s, rest, [], 5), [Bytes([0x46]), Bytes(s.contract.seed), Int(s.version), Bytes(v.anchor)]);
      && t.Ok? && t.value == sealed.(tx := t.value.tx)
      && t.value.tx == sealed.tx.(finalized := true, txid := Merkle.TreeHash(c.sha3, EncodeEach(sealed.tx.log)))
      && OpTxID(c, t.value) == Ok(Leaves(t.value, rest, [Plain(Bytes(t.value.tx.txid))], 33))
  {
    hide Kept, Pop, Log, Recorded, Encode, Merkle.Root, Merkle.TreeHash;
    PopsOne(s, rest, Val(v));
    if v.amount == 0 && !s.tx.finalized && s.runlimit >= 38 {
      var t := [Bytes([FINALIZE_CODE]), Bytes(s.contract.seed), Int(s.version), Bytes(v.anchor)];
      Laws.Logs(c, WithStack(s, rest), t);
      Merkle.RootIsTreeHash(c.sha3, EncodeEach(s.tx.log + [t]));
      assert rest + [] == rest;
    }
  }

  /** After finalize nothing can be logged, and no contract, value or nonce that must be logged comes or goes. */
  lemma FinalizedStopsLogging(c: Crypto, s: State)
    requires s.tx.finalized
    ensures OpLog(c, s).Err? && OpTimeRange(c, s).Err? && OpNonce(c, s).Err? && OpFinalize(c, s).Err?
    ensures OpIssue(c, s).Err? && OpRetire(c, s).Err? && OpInput(c, s).Err? && OpOutput(c, s).Err?
  {
    hide OpInput, OpOutput, OpIssue, OpRetire, OpNonce, Kept, Recorded, Encode, StackAmount, NaturalStack;
    FinalizedStopsMoves(c, s);
    FinalizedStopsValues(c, s);
  }

  lemma FinalizedStopsValues(c: Crypto, s: State)
    requires s.tx.finalized
    ensures OpIssue(c, s).Err? && OpRetire(c, s).Err? && OpNonce(c, s).Err?
  {
    hide Kept, Recorded, Encode, AssetID, StackAmount, NaturalStack;
  }

  lemma FinalizedStopsMoves(c: Crypto, s: State)
    requires s.tx.finalized
    ensures OpInput(c, s).Err? && OpOutput(c, s).Err?
  {
    hide Kept, Recorded, RecordedMove, Encode, UninspectContract, SnapshotID, StackAmount, NaturalStack;
  }

  // --- contracts

  /** contract makes one with an empty stack, whose seed is the hash of its program. */
  lemma MakesContract(c: Crypto, s: State, rest: seq<Item>, prog: bytes)
    requires s.contract.stack == rest + [Plain(Bytes(prog))] && s.runlimit >= 128
    ensures OpContract(c, s) == Ok(Leaves(s, rest, [Con(Contract(false, c.vmHash("ContractSeed", prog), prog, []))], 128))
  {
    hide Kept, Pop, StackAmount, NaturalStack;
    PopsOne(s, rest, Plain(Bytes(prog)));
  }

  /** seed copies the seed of the contract on top. */
  lemma CopiesSeed(c: Crypto, s: State, rest: seq<Item>, con: Contract)
    requires s.contract.stack == rest + [Con(con)] && s.runlimit >= 1 + |con.seed|
    ensures OpSeed(c, s) == Ok(Leaves(s, rest, [Con(con), Plain(Bytes(con.seed))], 1 + |con.seed|))
  {
    hide Kept, StackAmount, NaturalStack;
    assert s.contract.stack + [Plain(Bytes(con.seed))] == rest + [Con(con), Plain(Bytes(con.seed))];
  }

  /** yield and wrap hand the running contract, with the program given, to the argument stack; wrap makes it portable. */
  lemma Suspends(c: Crypto, s: State, rest: seq<Item>, prog: bytes)
    requires s.contract.stack == rest + [Plain(Bytes(prog))]
    ensures
      var con := Contract(s.contract.wrapped, s.contract.seed, prog, rest);
      OpYield(c, s) == Ok(s.(contract := con, argstack := s.argstack + [Con(con)], unwinding := true))
    ensures
      var con := Contract(true, s.contract.seed, prog, rest);
      OpWrap(c, s) ==
        if exists x <- rest :: x.Con? && !x.c.wrapped then Err(ErrUnportable)
        else Ok(s.(contract := con, argstack := s.argstack + [Con(con)], unwinding := true))
  {
    hide Kept, Pop, StackAmount, NaturalStack, StackPortable;
    PopsOne(s, rest, Plain(Bytes(prog)));
    PortableBelow(s, rest, prog);
  }

  lemma PortableBelow(s: State, rest: seq<Item>, prog: bytes)
    requires s.contract.stack == rest + [Plain(Bytes(prog))]
    ensures StackPortable(s.contract.stack) <==> !exists x <- rest :: x.Con? && !x.c.wrapped
  {
    if exists x <- rest :: x.Con? && !x.c.wrapped {
      var x :| x in rest && x.Con? && !x.c.wrapped;
      assert x in s.contract.stack && !IsPortable(x);
    }
  }

  /**
   output logs the running contract, with the program given, under the hash of its inspected form, and suspends it.
   The encoding of that form is paid for.
   */
  lemma PutsOut(c: Crypto, s: State, rest: seq<Item>, prog: bytes)
    requires s.contract.stack == rest + [Plain(Bytes(prog))]
    ensures
      var con := Contract(s.contract.wrapped, s.contract.seed, prog, rest);
      var snapshot := Encode(Tuple(InspectContract(con)));
      && ((exists x <- rest :: x.Con? && !x.c.wrapped) ==> OpOutput(c, s) == Err(ErrUnportable))
      && (!(exists x <- rest :: x.Con? && !x.c.wrapped) && !s.tx.finalized && s.runlimit >= 5 + |snapshot| ==>
            OpOutput(c, s) == Ok(s.(contract := con, unwinding := true, runlimit := s.runlimit - 5 - |snapshot|,
              tx := s.tx.(moves := s.tx.moves + [Out(InspectContract(con))],
                log := s.tx.log + [[Bytes([0x4f]), Bytes(s.caller), Bytes(c.vmHash("SnapshotID", snapshot))]]))))
  {
    hide Kept, Pop, Log, Recorded, RecordedMove, StackPortable, InspectContract, Encode;
    PopsOne(s, rest, Plain(Bytes(prog)));
    PortableBelow(s, rest, prog);
    var con := Contract(s.contract.wrapped, s.contract.seed, prog, rest);
    var snapshot := Encode(Tuple(InspectContract(con)));
    var t := [Bytes([OUTPUT_CODE]), Bytes(s.caller), Bytes(c.vmHash("SnapshotID", snapshot))];
    if !s.tx.finalized && s.runlimit >= 5 + |snapshot| {
      Laws.Logs(c, s.(contract := con, runlimit := s.runlimit - 1 - |snapshot|), t);
    }
  }

  /** input takes in the contract that a tuple describes, and logs the hash of that tuple. */
  lemma TakesIn(c: Crypto, s: State, rest: seq<Item>, t: seq<Data>)
    requires s.contract.stack == rest + [Plain(Tuple(t))] && !s.tx.finalized && s.runlimit >= 132
    ensures match UninspectContract(t)
      case Err(_) => OpInput(c, s).Err?
      case Ok(con) =>
        OpInput(c, s) == Ok(Leaves(s, rest, [Con(con)], 132).(
          tx := s.tx.(moves := s.tx.moves + [In(t)],
            log := s.tx.log + [[Bytes([0x49]), Bytes(s.contract.seed), Bytes(c.vmHash("SnapshotID", Encode(Tuple(t))))]])))
  {
    hide Kept, Pop, Log, Recorded, RecordedMove, UninspectContract, Encode, StackAmount, NaturalStack;
    PopsOne(s, rest, Plain(Tuple(t)));
    if UninspectContract(t).Ok? {
      var u := WithStack(s, rest + [Con(UninspectContract(t).value)]).(runlimit := s.runlimit - 128);
      Laws.Logs(c, u, [Bytes([INPUT_CODE]), Bytes(s.contract.seed), Bytes(c.vmHash("SnapshotID", Encode(Tuple(t))))]);
    }
  }

  // --- control

  /** verify fails on the integer zero alone; ext drops data where extensions are allowed. */
  lemma Verifies(c: Crypto, s: State, rest: seq<Item>, d: Data)
    requires s.contract.stack == rest + [Plain(d)]
    ensures OpVerify(c, s) == if d == Int(0) then Err(ErrVerifyFail) else Ok(WithStack(s, rest))
    ensures OpExt(c, s) == if s.extension then Ok(WithStack(s, rest)) else Err(ErrExt)
  {
    hide Kept, StackAmount, NaturalStack;
    PopsOne(s, rest, Plain(d));
  }

  /** jumpif goes nowhere on zero, and otherwise by the offset from behind itself, if that is inside the program. */
  lemma Jumps(c: Crypto, s: State, rest: seq<Item>, d: Data, offset: int64)
    requires s.contract.stack == rest + [Plain(d), Plain(Int(offset))] && |s.run.prog| <= MAX_INT64
    ensures OpJumpIf(c, s).Ok? <==> d == Int(0) || 0 <= s.run.pc + offset <= |s.run.prog|
    ensures OpJumpIf(c, s).Ok? ==>
      OpJumpIf(c, s).value == WithStack(s, rest).(run := s.run.(pc := if d == Int(0) then s.run.pc else s.run.pc + offset))
  {
    hide Kept, Pop, StackAmount, NaturalStack;
    Laws.PopsTwo(s, rest, Plain(d), Plain(Int(offset)));
  }

  // --- signatures

  /**
   checksig gives false for an empty signature only. Any other must verify, or the run fails; but a scheme that is
   not the integer zero is taken as valid where extensions are allowed.
   */
  lemma ChecksSignature(c: Crypto, s: State, rest: seq<Item>, msg: bytes, pubkey: bytes, sig: bytes, scheme: Data)
    requires s.contract.stack == rest + [Plain(Bytes(msg)), Plain(Bytes(pubkey))] + [Plain(Bytes(sig)), Plain(scheme)]
    ensures sig == [] ==> OpCheckSig(c, s) == Ok(Leaves(s, rest, [Plain(Int(0))], 0))
    ensures sig != [] ==>
      && (OpCheckSig(c, s).Ok? <==>
            && s.runlimit >= 2048
            && if scheme == Int(0) then |sig| == 64 && |pubkey| == 32 && c.verify(pubkey, msg, sig) else s.extension)
      && (OpCheckSig(c, s).Ok? ==> OpCheckSig(c, s) == Ok(Leaves(s, rest, [Plain(Int(1))], 2048)))
  {
    hide Kept, Pop, StackAmount, NaturalStack;
    var below := rest + [Plain(Bytes(msg)), Plain(Bytes(pubkey))];
    Laws.PopsTwo(s, below, Plain(Bytes(sig)), Plain(scheme));
    Laws.PopsTwo(WithStack(s, below), rest, Plain(Bytes(msg)), Plain(Bytes(pubkey)));
  }

  // --- operators on plain data

  /** An operator takes its operands from the top, the last one uppermost, and leaves its result. */
  lemma Operates(c: Crypto, s: State, rest: seq<Item>, op: byte, xs: seq<Data>)
    requires Operands(op).Some? && HaveKinds(xs, Operands(op).value)
    requires s.contract.stack == rest + Stacks.Reversed(Plains(xs))
    ensures OpOperator(c, s, op) ==
      match Operate(c, op, xs)
      case Err(e) => Err(e)
      case Ok(d) => if s.runlimit < DataCost(d) then Err(ErrRunlimit) else Ok(Leaves(s, rest, [Plain(d)], DataCost(d)))
  {
    hide Kept, Operate, Operands, StackAmount, NaturalStack;
    PopsKinds(s, rest, xs, Operands(op).value);
  }

  lemma {:induction false} PopsKinds(s: State, rest: seq<Item>, xs: seq<Data>, ks: seq<Kind>)
    requires HaveKinds(xs, ks) && s.contract.stack == rest + Stacks.Reversed(Plains(xs))
    ensures PopKinds(s, ks) == Ok((xs, WithStack(s, rest)))
    decreases |xs|
  {
    hide StackAmount, NaturalStack, Stacks.KeepsValue;
    if xs == [] {
      assert rest + Stacks.Reversed(Plains(xs)) == rest;
    } else {
      var below := rest + Stacks.Reversed(Plains(xs[1..]));
      assert Plains(xs) == [Plain(xs[0])] + Plains(xs[1..]);
      Stacks.ReversedCons(Plain(xs[0]), Plains(xs[1..]));
      assert s.contract.stack == below + [Plain(xs[0])];
      PopsOne(s, below, Plain(xs[0]));
      PopsKinds(WithStack(s, below), rest, xs[1..], ks[1..]);
      assert [xs[0]] + xs[1..] == xs;
    }
  }

  lemma OperatorTable(c: Crypto, s: State, op: byte)
    requires 0x20 <= op < 0x5f
    ensures Operands(op) ==
      if op in {0x21, 0x23, 0x24, 0x25, 0x26} then Some([IntKind, IntKind])
      else if op == 0x22 then Some([IntKind])
      else if op in {0x28, 0x29, 0x50} then Some([AnyData, AnyData])
      else if op in {0x27, 0x56, 0x58} then Some([AnyData])
      else if op in {0x20, 0x39, 0x3a, 0x5b} then Some([BytesKind])
      else if op in {0x38, 0x59, 0x5c, 0x5d, 0x5e} then Some([BytesKind, BytesKind])
      else if op == 0x5a then Some([IntKind, IntKind, BytesKind])
      else if op == 0x57 then Some([IntKind, TupleKind])
      else None
    ensures Operands(op).Some? ==> Does(c, s, op) == OpOperator(c, s, op)
  {
    hide Kept, OpOperator;
  }

  /** a and b are as they are written, b on top. Quotients are truncated toward zero, and remainders go with them. */
  lemma Arithmetic(c: Crypto, a: int64, b: int64)
    ensures Operate(c, 0x21, [Int(b), Int(a)]) == if FitsInt64(a + b) then Ok(Int(a + b)) else Err(ErrIntOverflow)
    ensures Operate(c, 0x22, [Int(a)]) == if a != MIN_INT64 then Ok(Int(-a)) else Err(ErrIntOverflow)
    ensures Operate(c, 0x23, [Int(b), Int(a)]) == if FitsInt64(a * b) then Ok(Int(a * b)) else Err(ErrIntOverflow)
    ensures Operate(c, 0x26, [Int(b), Int(a)]) == Ok(Int(if a > b then 1 else 0))
    ensures
      var q, r := Operate(c, 0x24, [Int(b), Int(a)]), Operate(c, 0x25, [Int(b), Int(a)]);
      if b == 0 || (a == MIN_INT64 && b == -1) then q == r == Err(ErrIntOverflow)
      else
        && q.Ok? && q.value.Int? && r.Ok? && r.value.Int?
        && a == q.value.i * b + r.value.i
        && (if b > 0 then -b < r.value.i < b else b < r.value.i && r.value.i + b < 0)
        && (r.value.i > 0 ==> a > 0) && (r.value.i < 0 ==> a < 0)
  {
    if b != 0 && !(a == MIN_INT64 && b == -1) {
      Truncates(a, b);
    }
  }

  /** Everything but the integer zero is true; two data are equal if they are the same integer or the same string. */
  lemma Logic(c: Crypto, p: Data, q: Data)
    ensures Operate(c, 0x27, [p]) == Ok(Int(if p == Int(0) then 1 else 0))
    ensures Operate(c, 0x28, [q, p]) == Ok(Int(if p != Int(0) && q != Int(0) then 1 else 0))
    ensures Operate(c, 0x29, [q, p]) == Ok(Int(if p != Int(0) || q != Int(0) then 1 else 0))
    ensures Operate(c, 0x50, [q, p]) == Ok(Int(if p == q && !p.Tuple? then 1 else 0))
  {
  }

  lemma Strings(c: Crypto, a: bytes, b: bytes, start: int64, end: int64)
    requires |a| <= MAX_INT64
    ensures Operate(c, 0x59, [Bytes(b), Bytes(a)]) == Ok(Bytes(a + b))
    ensures Operate(c, 0x56, [Bytes(a)]) == Ok(Int(|a|))
    ensures Operate(c, 0x5a, [Int(end), Int(start), Bytes(a)])
         == if 0 <= start <= end <= |a| then Ok(Bytes(a[start..end])) else Err(ErrSliceRange)
    ensures Operate(c, 0x38, [Bytes(b), Bytes(a)]) == Ok(Bytes(c.vmHash(AsString(b), a)))
    ensures Operate(c, 0x39, [Bytes(a)]) == Ok(Bytes(c.sha256(a))) && Operate(c, 0x3a, [Bytes(a)]) == Ok(Bytes(c.sha3(a)))
  {
  }

  lemma Tuples(c: Crypto, t: seq<Data>, i: int64, v: Data)
    requires |t| <= MAX_INT64
    ensures Operate(c, 0x57, [Int(i), Tuple(t)]) == if 0 <= i < |t| then Ok(t[i]) else Err(ErrRange)
    ensures Operate(c, 0x56, [Tuple(t)]) == Ok(Int(|t|)) && Operate(c, 0x56, [Int(i)]) == Err(ErrType)
    ensures Operate(c, 0x58, [v]) == Ok(Bytes(Encode(v)))
  {
  }

  /** Strings of one length are combined byte by byte. */
  lemma Bitwises(c: Crypto, a: bytes, b: bytes)
    ensures
      var r := Operate(c, 0x5b, [Bytes(a)]);
      r.Ok? && r.value.Bytes? && |r.value.b| == |a| && forall i :: 0 <= i < |a| ==> r.value.b[i] == 255 - a[i]
    ensures |a| != |b| ==> forall op <- {0x5c, 0x5d, 0x5e} :: Operate(c, op, [Bytes(b), Bytes(a)]) == Err(ErrBitLen)
    ensures |a| == |b| ==>
      var x, y, z := Operate(c, 0x5c, [Bytes(b), Bytes(a)]), Operate(c, 0x5d, [Bytes(b), Bytes(a)]), Operate(c, 0x5e, [Bytes(b), Bytes(a)]);
      && x.Ok? && y.Ok? && z.Ok? && x.value.Bytes? && y.value.Bytes? && z.value.Bytes?
      && |x.value.b| == |y.value.b| == |z.value.b| == |a|
      && forall i :: 0 <= i < |a| ==>
        && x.value.b[i] as bv8 == a[i] as bv8 & b[i] as bv8 && y.value.b[i] as bv8 == a[i] as bv8 | b[i] as bv8
        && z.value.b[i] as bv8 == a[i] as bv8 ^ b[i] as bv8
  {
  }

  lemma Truncates(a: int, b: int)
    requires FitsInt64(a) && FitsInt64(b) && b != 0 && !(a == MIN_INT64 && b == -1)
    ensures
      var q := TruncDiv(a, b);
      var r := a - b * q;
      && FitsInt64(q) && FitsInt64(r) && a == q * b + r
      && (if b > 0 then -b < r < b else b < r < -b) && (r > 0 ==> a > 0) && (r < 0 ==> a < 0)
  {
    var n := if a >= 0 then a else -a;
    var q, r := n / b, n % b;
    var t := TruncDiv(a, b);
    assert t == if a >= 0 then q else -q;
    assert n == b * q + r;
    QuotientIsSmall(n, b, q, r);
    hide TruncDiv;
    WithSign(a, b, q, r, t);
  }

  lemma WithSign(a: int, b: int, q: int, r: int, t: int)
    requires (if a >= 0 then a else -a) == b * q + r && t == if a >= 0 then q else -q
    ensures a - b * t == (if a >= 0 then r else -r) && b * t == t * b
  {
    assert b * -q == -(b * q);
  }

  lemma QuotientIsSmall(n: int, b: int, q: int, r: int)
    requires n == b * q + r && 0 <= r && (if b > 0 then r < b else r < -b) && 0 <= n
    ensures -n <= q <= n && (b > 1 || b < -1 ==> -n <= 2 * q <= n) && r <= n
  {
    var x := b * q;
    Products(b, q);
    assert n == x + r;
  }

  lemma AtLeast(b: int, q: int)
    requires b > 0 && q > 0
    ensures b * q >= q && b * q >= b && (b > 1 ==> b * q >= 2 * q)
  {
  }

  lemma Products(b: int, q: int)
    requires b != 0
    ensures
      var x := b * q;
      if q == 0 then x == 0
      else if b > 0 && q > 0 then x >= q && (b > 1 ==> x >= 2 * q)
      else if b < 0 && q < 0 then x >= -q && (b < -1 ==> x >= -2 * q)
      else if b > 0 then x <= -b else x <= b
  {
    if b > 0 && q > 0 {
      AtLeast(b, q);
    } else if b < 0 && q < 0 {
      AtLeast(-b, -q);
      assert -b * -q == b * q;
    } else if b > 0 && q < 0 {
      AtLeast(b, -q);
      assert b * -q == -(b * q);
    } else if q > 0 {
      AtLeast(-b, q);
      assert -b * q == -(b * q);
    }
  }
}
