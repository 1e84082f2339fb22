/** Encoded data are programs that push that data (item.go, asm/asm.go, txvmutil/builder.go). */
module Compilation {
  import opened Prelude
  import opened Varint
  import opened Items
  import opened Encoding
  import opened Machine
  import opened Instructions
  import opened Interpreter
  import opened Opcodes
  import opened Ledger
  import Runs
  import Stacks

  /** Lengths are Go ints. */
  ghost predicate Sized(v: Data) {
    match v
    case Int(_) => true
    case Bytes(b) => |b| <= MAX_INT64
    case Tuple(t) => |t| <= MAX_INT64 && forall x <- t :: Sized(x)
  }

  /** The machine is about to run code, whatever comes before and after it in the program. */
  ghost predicate About(g: Config, code: bytes) {
    && !g.s.unwinding
    && g.s.run.pc + |code| <= |g.s.run.prog|
    && g.s.run.prog[g.s.run.pc..g.s.run.pc + |code|] == code
  }

  /** g after size bytes of program that cost so much and push xs. */
  function After(g: Config, size: nat, xs: seq<Item>, cost: nat): Config {
    g.(s := g.s.(runlimit := g.s.runlimit - cost,
                 run := g.s.run.(pc := g.s.run.pc + size),
                 contract := g.s.contract.(stack := g.s.contract.stack + xs)))
  }

  function Plains(xs: seq<Data>): seq<Item> {
    seq(|xs|, i requires 0 <= i < |xs| => Plain(xs[i]))
  }

  // --- costs and instruction counts

  function IntCost(i: int64): nat {
    if IsSmallInt(i) then 1 else 3 + |PutUvarint(ToUint64(i))|
  }

  function IntCount(i: int64): nat {
    if IsSmallInt(i) then 1 else 2
  }

  /** The runlimit that running Encode(v) takes. */
  function Cost(v: Data): nat
    decreases v, 0
  {
    match v
    case Int(i) => IntCost(i)
    case Bytes(b) => 2 + |b|
    case Tuple(t) => CostAll(t) + IntCost(Length(|t|)) + 2 + |t|
  }

  function CostAll(t: seq<Data>): nat
    decreases t, 0
  {
    if t == [] then 0 else Cost(t[0]) + CostAll(t[1..])
  }

  /** The number of instructions in Encode(v). */
  function Count(v: Data): nat
    decreases v, 0
  {
    match v
    case Int(i) => IntCount(i)
    case Bytes(_) => 1
    case Tuple(t) => CountAll(t) + IntCount(Length(|t|)) + 1
  }

  function CountAll(t: seq<Data>): nat
    decreases t, 0
  {
    if t == [] then 0 else Count(t[0]) + CountAll(t[1..])
  }

  // --- single instructions

  /** A fetched instruction that is neither exec nor call is performed with pc already past it. */
  lemma PerformsNext(c: Crypto, g: Config, inst: Inst)
    requires !AtEnd(g.s) && g.s.runlimit >= 1
    requires DecodeInst(g.s.run.prog[g.s.run.pc..]) == Some(inst) && inst.opcode !in {EXEC, CALL}
    ensures
      var s := g.s.(runlimit := g.s.runlimit - 1, run := g.s.run.(pc := g.s.run.pc + inst.size));
      Steps(c, g, 1) == match Perform(c, s, inst) case Ok(t) => Ok(g.(s := t)) case Err(e) => Err(e)
  {
    hide Perform, Kept, KeptWhole, DecodeInst;
    assert Steps(c, g, 1) == match Next(c, g) case Ok(h) => Steps(c, h, 0) case Err(e) => Err(e);
  }

  lemma DecodesByte(prog: bytes)
    requires prog != [] && prog[0] < MIN_PUSHDATA
    ensures DecodeInst(prog) == Some(Inst(prog[0], [], 1))
  {
  }

  lemma DecodesPushdata(data: bytes, rest: bytes)
    requires |data| <= MAX_INT64
    ensures DecodeInst(Pushdata(data) + rest) == Some(Inst(MIN_PUSHDATA, data, |Pushdata(data)|))
  {
    var opcode := |data| + MIN_PUSHDATA;
    assert Pushdata(data) + rest == PutUvarint(opcode) + (data + rest);
    UvarintRoundTrip(opcode, data + rest);
  }

  lemma Splits(g: Config, code: bytes)
    requires About(g, code)
    ensures g.s.run.prog[g.s.run.pc..] == code + g.s.run.prog[g.s.run.pc + |code|..]
  {
  }

  /** A one-byte instruction at pc, in a machine that is not at its end. */
  lemma RunsOne(c: Crypto, g: Config, op: byte)
    requires About(g, [op]) && g.s.runlimit >= 1 && op < MIN_PUSHDATA && op !in {EXEC, CALL}
    ensures
      var s := g.s.(runlimit := g.s.runlimit - 1, run := g.s.run.(pc := g.s.run.pc + 1));
      Steps(c, g, 1) == match Perform(c, s, Inst(op, [], 1)) case Ok(t) => Ok(g.(s := t)) case Err(e) => Err(e)
  {
    hide Perform, Next, Kept, KeptWhole;
    Splits(g, [op]);
    DecodesByte(g.s.run.prog[g.s.run.pc..]);
    PerformsNext(c, g, Inst(op, [], 1));
  }

  /** s with its stack replaced. */
  function WithStack(s: State, stack: seq<Item>): State {
    s.(contract := s.contract.(stack := stack))
  }

  lemma OperatorsAreNotControl(op: byte)
    requires Operands(op).Some?
    ensures op !in {EXEC, CALL}
  {
  }

  /** An operator with one operand replaces it by an integer. */
  lemma PerformsUnary(c: Crypto, s: State, op: byte, k: Kind, rest: seq<Item>, x: Data, y: Data)
    requires op < MIN_PUSHDATA && !IsSmallInt(op) && Operands(op) == Some([k]) && HasKind(x, k) && y.Int?
    requires s.contract.stack == rest + [Plain(x)] && 0 <= s.runlimit
    requires Operate(c, op, [x]) == Ok(y)
    ensures Perform(c, s, Inst(op, [], 1)) == Ok(WithStack(s, rest + [Plain(y)]))
  {
    hide Operate, Operands, Kept;
    var t := WithStack(s, rest);
    assert PopKinds(s, [k]) == Ok(([x], t)) by {
      assert Pop(s) == Ok((Plain(x), t));
      assert PopKinds(t, []) == Ok(([], t));
      assert [k][1..] == [] && [x] + [] == [x];
    }
  }

  lemma RunsUnary(c: Crypto, g: Config, op: byte, k: Kind, rest: seq<Item>, x: Data, y: Data)
    requires op < MIN_PUSHDATA && !IsSmallInt(op) && Operands(op) == Some([k]) && HasKind(x, k) && y.Int?
    requires About(g, [op]) && g.s.runlimit >= 1 && g.s.contract.stack == rest + [Plain(x)]
    requires Operate(c, op, [x]) == Ok(y)
    ensures Steps(c, g, 1) == Ok(After(g.(s := WithStack(g.s, rest)), 1, [Plain(y)], 1))
  {
    hide Operate, Operands, Perform, Next, Kept, KeptWhole;
    Splits(g, [op]);
    DecodesByte(g.s.run.prog[g.s.run.pc..]);
    OperatorsAreNotControl(op);
    PerformsNext(c, g, Inst(op, [], 1));
    var s := g.s.(runlimit := g.s.runlimit - 1, run := g.s.run.(pc := g.s.run.pc + 1));
    PerformsUnary(c, s, op, k, rest, x, y);
  }

  /** A push instruction. */
  lemma RunsPush(c: Crypto, g: Config, code: bytes, inst: Inst, d: Data)
    requires About(g, code) && code != [] && g.s.runlimit >= 1 + DataCost(d)
    requires DecodeInst(code + g.s.run.prog[g.s.run.pc + |code|..]) == Some(inst) && inst.size == |code|
    requires if inst.opcode == MIN_PUSHDATA then d == Bytes(inst.data)
             else IsSmallInt(inst.opcode) && d == Int(inst.opcode)
    ensures Steps(c, g, 1) == Ok(After(g, |code|, [Plain(d)], 1 + DataCost(d)))
  {
    hide Next, DecodeInst, Kept, KeptWhole;
    Splits(g, code);
    PerformsNext(c, g, inst);
  }

  lemma {:induction false} StepsCompose(c: Crypto, g: Config, m: nat, n: nat)
    requires Steps(c, g, m).Ok?
    ensures Steps(c, g, m + n) == Steps(c, Steps(c, g, m).value, n)
    decreases m
  {
    hide Next, KeptWhole;
    if m > 0 {
      StepsCompose(c, Next(c, g).value, m - 1, n);
    }
  }

  lemma NoSteps(c: Crypto, g: Config)
    ensures Steps(c, g, 0) == Ok(g)
  {
  }

  /** Code that is a concatenation runs part by part. */
  lemma AboutParts(g: Config, x: bytes, y: bytes, xs: seq<Item>, cost: nat)
    requires About(g, x + y)
    ensures About(g, x) && About(After(g, |x|, xs, cost), y)
  {
    var pc, prog := g.s.run.pc, g.s.run.prog;
    assert prog[pc..pc + |x|] == prog[pc..pc + |x + y|][..|x|];
    assert prog[pc + |x|..pc + |x| + |y|] == prog[pc..pc + |x + y|][|x|..];
  }

  // --- integers

  lemma DecodesSmallInt(i: int64, rest: bytes)
    requires IsSmallInt(i)
    ensures DecodeInst([i] + rest) == Some(Inst(i, [], 1))
  {
  }

  lemma {:induction false} VarintIsShort(x: nat, i: nat)
    requires i <= 9 && x < Room(i)
    ensures |PutUvarint(x)| <= 10 - i
    decreases 9 - i
  {
    if x >= 0x80 {
      VarintIsShort(x / 0x80, i + 1);
    }
  }

  /** Pushing the varint of an integer and converting it brings the integer back, sign included. */
  lemma RunsVarint(c: Crypto, g: Config, i: int64)
    requires About(g, Pushdata(PutUvarint(ToUint64(i))) + [INT])
    requires g.s.runlimit >= 3 + |PutUvarint(ToUint64(i))|
    ensures
      var v := PutUvarint(ToUint64(i));
      Steps(c, g, 2) == Ok(After(g, |Pushdata(v)| + 1, [Plain(Int(i))], 3 + |v|))
  {
    hide Next, DecodeInst, Kept, KeptWhole;
    var v := PutUvarint(ToUint64(i));
    RoomAtStart();
    VarintIsShort(ToUint64(i), 0);
    AboutParts(g, Pushdata(v), [INT], [Plain(Bytes(v))], 2 + |v|);
    DecodesPushdata(v, g.s.run.prog[g.s.run.pc + |Pushdata(v)|..]);
    RunsPush(c, g, Pushdata(v), Inst(MIN_PUSHDATA, v, |Pushdata(v)|), Bytes(v));
    var h := After(g, |Pushdata(v)|, [Plain(Bytes(v))], 2 + |v|);
    assert Operate(c, INT, [Bytes(v)]) == Ok(Int(i)) by {
      UvarintRoundTrip(ToUint64(i), []);
      assert v + [] == v;
    }
    RunsUnary(c, h, INT, BytesKind, g.s.contract.stack, Bytes(v), Int(i));
    StepsCompose(c, g, 1, 1);
  }

  lemma RunsEncodeInt(c: Crypto, g: Config, i: int64)
    requires About(g, EncodeInt(i)) && g.s.runlimit >= IntCost(i)
    ensures Steps(c, g, IntCount(i)) == Ok(After(g, |EncodeInt(i)|, [Plain(Int(i))], IntCost(i)))
  {
    hide Next, DecodeInst, Kept, KeptWhole;
    if IsSmallInt(i) {
      DecodesSmallInt(i, g.s.run.prog[g.s.run.pc + 1..]);
      RunsPush(c, g, [i], Inst(i, [], 1), Int(i));
    } else {
      RunsVarint(c, g, i);
    }
  }

  /** The integer encoders of the assembler and of the builder push the same integer, the minimum included. */
  lemma RunsPushInt64(c: Crypto, g: Config, n: int64)
    requires About(g, PushInt64(n)) && g.s.runlimit >= PushInt64Cost(n)
    ensures Steps(c, g, PushInt64Count(n)) == Ok(After(g, |PushInt64(n)|, [Plain(Int(n))], PushInt64Cost(n)))
  {
    hide Next, DecodeInst, Kept, KeptWhole, Steps;
    PushInt64Forms(n);
    if n >= 0 || n == MIN_INT64 {
      RunsEncodeInt(c, g, n);
    } else {
      RunsNegated(c, g, -n);
    }
  }

  lemma PushInt64Forms(n: int64)
    ensures PushInt64(n) == if n < 0 && n != MIN_INT64 then EncodeInt(-n) + [NEG] else EncodeInt(n)
  {
  }

  lemma RunsNegated(c: Crypto, g: Config, m: int64)
    requires About(g, EncodeInt(m) + [NEG]) && g.s.runlimit >= IntCost(m) + 1 && m > 0
    ensures Steps(c, g, IntCount(m) + 1) == Ok(After(g, |EncodeInt(m)| + 1, [Plain(Int(-m))], IntCost(m) + 1))
  {
    hide Next, DecodeInst, Kept, KeptWhole, EncodeInt, IntCost, IntCount, Steps;
    AboutParts(g, EncodeInt(m), [NEG], [Plain(Int(m))], IntCost(m));
    RunsEncodeInt(c, g, m);
    var h := After(g, |EncodeInt(m)|, [Plain(Int(m))], IntCost(m));
    Negates(c, m);
    RunsUnary(c, h, NEG, IntKind, g.s.contract.stack, Int(m), Int(-m));
    StepsCompose(c, g, IntCount(m), 1);
  }

  lemma Negates(c: Crypto, m: int64)
    requires m > 0
    ensures Operate(c, NEG, [Int(m)]) == Ok(Int(-m)) && Operands(NEG) == Some([IntKind])
  {
  }

  function PushInt64Cost(n: int64): nat {
    if n < 0 && n != MIN_INT64 then IntCost(-n) + 1 else IntCost(n)
  }

  function PushInt64Count(n: int64): nat {
    if n < 0 && n != MIN_INT64 then IntCount(-n) + 1 else IntCount(n)
  }

  // --- all data

  lemma {:induction false} PopsDatas(s: State, rest: seq<Item>, t: seq<Data>)
    requires s.contract.stack == rest + Plains(t)
    ensures PopDatas(s, |t|) == Ok((t, WithStack(s, rest)))
    decreases |t|
  {
    hide Stacks.KeepsValue, NaturalStack, NaturalItem, StackAmount;
    if t == [] {
      assert rest + Plains(t) == rest;
    } else {
      var front := t[..|t| - 1];
      assert Plains(t) == Plains(front) + [Plain(t[|t| - 1])];
      var s1 := WithStack(s, rest + Plains(front));
      assert rest + Plains(t) == (rest + Plains(front)) + [Plain(t[|t| - 1])];
      assert PopData(s) == Ok((t[|t| - 1], s1));
      PopsDatas(s1, rest, front);
      assert t == front + [t[|t| - 1]];
    }
  }

  lemma PopsOne(s: State, rest: seq<Item>, x: Item)
    requires s.contract.stack == rest + [x]
    ensures Pop(s) == Ok((x, WithStack(s, rest)))
  {
  }

  /** The tuple instruction collects the items below its count, deepest first. */
  lemma Tuples(c: Crypto, s: State, rest: seq<Item>, t: seq<Data>)
    requires s.contract.stack == rest + Plains(t) + [Plain(Int(Length(|t|)))] && |t| <= MAX_INT64
    requires s.runlimit >= 1 + |t|
    ensures OpTuple(c, s) == Ok(WithStack(s, rest + [Plain(Tuple(t))]).(runlimit := s.runlimit - 1 - |t|))
  {
    hide Kept, PopDatas, Pop, Amount, StackAmount, Plains, Stacks.KeepsValue, NaturalStack, NaturalItem;
    var s1 := WithStack(s, rest + Plains(t));
    PopsOne(s, rest + Plains(t), Plain(Int(|t|)));
    PlainsLength(t);
    PopsDatas(s1, rest, t);
  }

  lemma PlainsLength(t: seq<Data>)
    ensures |Plains(t)| == |t|
  {
  }

  /** The same as a step of the machine. */
  lemma RunsTuple(c: Crypto, g: Config, rest: seq<Item>, t: seq<Data>)
    requires About(g, [TUPLE]) && g.s.runlimit >= 2 + |t| && |t| <= MAX_INT64
    requires g.s.contract.stack == rest + Plains(t) + [Plain(Int(|t|))]
    ensures Steps(c, g, 1) == Ok(After(g.(s := WithStack(g.s, rest)), 1, [Plain(Tuple(t))], 2 + |t|))
  {
    hide Next, Kept, KeptWhole, OpTuple, Plains;
    Splits(g, [TUPLE]);
    DecodesByte(g.s.run.prog[g.s.run.pc..]);
    PerformsNext(c, g, Inst(TUPLE, [], 1));
    var s := g.s.(runlimit := g.s.runlimit - 1, run := g.s.run.(pc := g.s.run.pc + 1));
    Tuples(c, s, rest, t);
  }

  /**
   Encode is a correct compiler: from any state, inside any longer program, running Encode(v) takes
   exactly Cost(v), pushes exactly v and stops exactly at its end.
   */
  lemma {:induction false} RunsEncode(c: Crypto, g: Config, v: Data)
    requires Sized(v) && About(g, Encode(v)) && g.s.runlimit >= Cost(v)
    ensures Steps(c, g, Count(v)) == Ok(After(g, |Encode(v)|, [Plain(v)], Cost(v)))
    decreases v, 0
  {
    hide Next, DecodeInst, Kept, KeptWhole;
    match v
    case Int(i) =>
      RunsEncodeInt(c, g, i);
    case Bytes(b) =>
      DecodesPushdata(b, g.s.run.prog[g.s.run.pc + |Pushdata(b)|..]);
      RunsPush(c, g, Pushdata(b), Inst(MIN_PUSHDATA, b, |Pushdata(b)|), v);
    case Tuple(t) =>
      RunsEncodeTuple(c, g, t);
  }

  lemma {:induction false} RunsEncodeTuple(c: Crypto, g: Config, t: seq<Data>)
    requires Sized(Tuple(t)) && About(g, Encode(Tuple(t))) && g.s.runlimit >= Cost(Tuple(t))
    ensures Steps(c, g, Count(Tuple(t))) == Ok(After(g, |Encode(Tuple(t))|, [Plain(Tuple(t))], Cost(Tuple(t))))
    decreases t, 1
  {
    hide Next, DecodeInst, Kept, KeptWhole, Steps, EncodeInt, IntCost, IntCount, EncodeAll, CostAll, CountAll;
    var all, len := EncodeAll(t), EncodeInt(|t|);
    assert Encode(Tuple(t)) == all + (len + [TUPLE]);
    AboutParts(g, all, len + [TUPLE], Plains(t), CostAll(t));
    RunsEncodeAll(c, g, t);
    var h := After(g, |all|, Plains(t), CostAll(t));
    AboutParts(h, len, [TUPLE], [Plain(Int(|t|))], IntCost(|t|));
    RunsEncodeInt(c, h, |t|);
    var k := After(h, |len|, [Plain(Int(|t|))], IntCost(|t|));
    RunsTuple(c, k, g.s.contract.stack, t);
    StepsCompose(c, g, CountAll(t), IntCount(|t|));
    StepsCompose(c, g, CountAll(t) + IntCount(|t|), 1);
  }

  lemma {:induction false} RunsEncodeAll(c: Crypto, g: Config, t: seq<Data>)
    requires (forall x <- t :: Sized(x)) && About(g, EncodeAll(t)) && g.s.runlimit >= CostAll(t)
    ensures Steps(c, g, CountAll(t)) == Ok(After(g, |EncodeAll(t)|, Plains(t), CostAll(t)))
    decreases t, 0
  {
    hide Next, DecodeInst, Kept, KeptWhole, Steps, Encode, Cost, Count;
    if t == [] {
      assert g.s.contract.stack + Plains(t) == g.s.contract.stack;
      NoSteps(c, g);
    } else {
      AboutParts(g, Encode(t[0]), EncodeAll(t[1..]), [Plain(t[0])], Cost(t[0]));
      RunsEncode(c, g, t[0]);
      var h := After(g, |Encode(t[0])|, [Plain(t[0])], Cost(t[0]));
      RunsEncodeAll(c, h, t[1..]);
      StepsCompose(c, g, Count(t[0]), CountAll(t[1..]));
      assert g.s.contract.stack + Plains(t) == h.s.contract.stack + Plains(t[1..]);
    }
  }
}
