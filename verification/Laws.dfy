/** What instructions do to each other's results: pairs that undo one another, and resumption of contracts. */
module Laws {
  import opened Prelude
  import opened Items
  import opened Ledger
  import opened Encoding
  import opened Machine
  import opened Instructions
  import opened Interpreter
  import opened Compilation
  import Stacks

  // --- values

  lemma PopsTwo(s: State, rest: seq<Item>, x: Item, y: Item)
    requires s.contract.stack == rest + [x, y]
    ensures Pop(s) == Ok((y, WithStack(s, rest + [x]))) && Pop(WithStack(s, rest + [x])) == Ok((x, WithStack(s, rest)))
  {
    assert rest + [x, y] == (rest + [x]) + [y];
  }

  /** The amount split off is on top and the rest of the value below it. */
  lemma Splits(c: Crypto, s: State, rest: seq<Item>, v: Value, n: int64)
    requires s.contract.stack == rest + [Val(v), Plain(Int(n))]
    requires 0 <= n <= v.amount && s.runlimit >= 2 * ENTRY_COST
    ensures
      var left := Value(v.amount - n, v.assetID, c.vmHash("Split1", v.anchor));
      var right := Value(n, v.assetID, c.vmHash("Split2", v.anchor));
      OpSplit(c, s) == Ok(WithStack(s, rest + [Val(left), Val(right)]).(runlimit := s.runlimit - 2 * ENTRY_COST))
  {
    hide Kept, Pop, Amount, StackAmount;
    PopsTwo(s, rest, Val(v), Plain(Int(n)));
    var x := Val(Value(v.amount - n, v.assetID, c.vmHash("Split1", v.anchor)));
    var y := Val(Value(n, v.assetID, c.vmHash("Split2", v.anchor)));
    assert rest + [x] + [y] == rest + [x, y];
  }

  lemma Merges(c: Crypto, s: State, rest: seq<Item>, v: Value, w: Value)
    requires s.contract.stack == rest + [Val(w), Val(v)] && v.assetID == w.assetID
    requires FitsInt64(v.amount + w.amount) && s.runlimit >= ENTRY_COST
    ensures
      var sum := Value(v.amount + w.amount, v.assetID, c.vmHash("Merge", v.anchor + w.anchor));
      OpMerge(c, s) == Ok(WithStack(s, rest + [Val(sum)]).(runlimit := s.runlimit - ENTRY_COST))
  {
    hide Kept, Pop, Amount, StackAmount;
    PopsTwo(s, rest, Val(w), Val(v));
  }

  /** Merging the two parts of a split value gives the value back under a new anchor. */
  lemma SplitThenMerge(c: Crypto, s: State, rest: seq<Item>, v: Value, n: int64)
    requires s.contract.stack == rest + [Val(v), Plain(Int(n))]
    requires 0 <= n <= v.amount && s.runlimit >= 3 * ENTRY_COST
    ensures
      var anchor := c.vmHash("Merge", c.vmHash("Split2", v.anchor) + c.vmHash("Split1", v.anchor));
      && OpSplit(c, s).Ok?
      && OpMerge(c, OpSplit(c, s).value)
         == Ok(WithStack(s, rest + [Val(v.(anchor := anchor))]).(runlimit := s.runlimit - 3 * ENTRY_COST))
  {
    hide Kept, OpSplit, OpMerge;
    Splits(c, s, rest, v, n);
    var left := Value(v.amount - n, v.assetID, c.vmHash("Split1", v.anchor));
    var right := Value(n, v.assetID, c.vmHash("Split2", v.anchor));
    Merges(c, OpSplit(c, s).value, rest, right, left);
  }

  lemma Logs(c: Crypto, s: State, t: Entry)
    requires !s.tx.finalized && s.runlimit >= 1 + |t|
    ensures Log(c, s, t) == Ok(s.(runlimit := s.runlimit - 1 - |t|, tx := s.tx.(log := s.tx.log + [t])))
  {
    hide Recorded, WellLogged, FormedLog, NoncesDated, Outflow;
  }

  function IssueEntry(c: Crypto, s: State, tag: bytes, n: int64, anchor: bytes): Entry {
    [Bytes([ISSUE_CODE]), Bytes(s.caller), Int(n), Bytes(AssetID(c, s.contract.seed, tag)), Bytes(anchor)]
  }

  function RetireEntry(s: State, v: Value): Entry {
    [Bytes([RETIRE_CODE]), Bytes(s.contract.seed), Int(v.amount), Bytes(v.assetID), Bytes(v.anchor)]
  }

  lemma Issues(c: Crypto, s: State, rest: seq<Item>, v: Value, n: int64, tag: bytes)
    requires s.contract.stack == rest + [Val(v), Plain(Int(n)), Plain(Bytes(tag))]
    requires v.amount == 0 && n >= 0 && !s.tx.finalized && s.runlimit >= ENTRY_COST + 6
    ensures OpIssue(c, s) ==
      Ok(WithStack(s, rest + [Val(Value(n, AssetID(c, s.contract.seed, tag), v.anchor))])
         .(runlimit := s.runlimit - ENTRY_COST - 6, tx := s.tx.(log := s.tx.log + [IssueEntry(c, s, tag, n, v.anchor)])))
  {
    hide Kept, Pop, Log, AssetID, Amount, StackAmount, Recorded, WellLogged, FormedLog, NoncesDated;
    var below := rest + [Val(v), Plain(Int(n))];
    assert s.contract.stack == below + [Plain(Bytes(tag))];
    PopsOne(s, below, Plain(Bytes(tag)));
    PopsTwo(WithStack(s, below), rest, Val(v), Plain(Int(n)));
    var t := WithStack(s, rest + [Val(Value(n, AssetID(c, s.contract.seed, tag), v.anchor))]).(runlimit := s.runlimit - ENTRY_COST);
    Logs(c, t, IssueEntry(c, s, tag, n, v.anchor));
  }

  lemma Retires(c: Crypto, s: State, rest: seq<Item>, v: Value)
    requires s.contract.stack == rest + [Val(v)] && !s.tx.finalized && s.runlimit >= 6
    ensures OpRetire(c, s) ==
      Ok(WithStack(s, rest).(runlimit := s.runlimit - 6, tx := s.tx.(log := s.tx.log + [RetireEntry(s, v)])))
  {
    hide Kept, Pop, Log, Recorded, WellLogged, FormedLog, NoncesDated;
    PopsOne(s, rest, Val(v));
    Logs(c, WithStack(s, rest), RetireEntry(s, v));
  }

  /** What is issued and then retired leaves no trace but its two log entries, which name the same amount. */
  lemma IssueThenRetire(c: Crypto, s: State, rest: seq<Item>, v: Value, n: int64, tag: bytes)
    requires s.contract.stack == rest + [Val(v), Plain(Int(n)), Plain(Bytes(tag))]
    requires v.amount == 0 && n >= 0 && !s.tx.finalized && s.runlimit >= ENTRY_COST + 12
    ensures
      var issued := IssueEntry(c, s, tag, n, v.anchor);
      var retired := RetireEntry(s, Value(n, AssetID(c, s.contract.seed, tag), v.anchor));
      && OpIssue(c, s).Ok?
      && OpRetire(c, OpIssue(c, s).value)
         == Ok(WithStack(s, rest).(runlimit := s.runlimit - ENTRY_COST - 12, tx := s.tx.(log := s.tx.log + [issued] + [retired])))
  {
    hide Kept, OpIssue, OpRetire, AssetID;
    Issues(c, s, rest, v, n, tag);
    Retires(c, OpIssue(c, s).value, rest, Value(n, AssetID(c, s.contract.seed, tag), v.anchor));
  }

  // --- stacks

  lemma PutThenGet(c: Crypto, s: State)
    requires s.contract.stack != []
    ensures OpPut(c, s).Ok? && OpGet(c, OpPut(c, s).value) == Ok(s)
  {
    hide Kept;
    var n := |s.contract.stack|;
    assert s.contract.stack[..n - 1] + [s.contract.stack[n - 1]] == s.contract.stack;
  }

  lemma GetThenPut(c: Crypto, s: State)
    requires s.argstack != []
    ensures OpGet(c, s).Ok? && OpPut(c, OpGet(c, s).value) == Ok(s)
  {
    hide Kept;
    var n := |s.argstack|;
    assert s.argstack[..n - 1] + [s.argstack[n - 1]] == s.argstack;
  }

  lemma {:induction false} PushesDatas(s: State, t: seq<Data>)
    ensures PushDatas(s, t) == WithStack(s, s.contract.stack + Plains(t))
    decreases |t|
  {
    if t == [] {
      assert s.contract.stack + Plains(t) == s.contract.stack;
    } else {
      PushesDatas(PushData(s, t[0]), t[1..]);
      assert Plains(t) == [Plain(t[0])] + Plains(t[1..]);
      assert s.contract.stack + Plains(t) == s.contract.stack + [Plain(t[0])] + Plains(t[1..]);
    }
  }

  lemma Untuples(c: Crypto, s: State, rest: seq<Item>, t: seq<Data>)
    requires s.contract.stack == rest + [Plain(Tuple(t))] && s.runlimit >= |t|
    ensures OpUntuple(c, s) ==
      Ok(WithStack(s, rest + Plains(t) + [Plain(Int(Length(|t|)))]).(runlimit := s.runlimit - |t|))
  {
    hide Kept, PushDatas, Pop, Amount, StackAmount, Plains, Stacks.KeepsValue, NaturalStack;
    PopsOne(s, rest, Plain(Tuple(t)));
    PushesDatas(WithStack(s, rest), t);
  }

  /** Untuple takes apart exactly what tuple put together. */
  lemma TupleThenUntuple(c: Crypto, s: State, rest: seq<Item>, t: seq<Data>)
    requires s.contract.stack == rest + Plains(t) + [Plain(Int(Length(|t|)))] && |t| <= MAX_INT64
    requires s.runlimit >= 1 + 2 * |t|
    ensures
      && OpTuple(c, s).Ok? && OpTuple(c, s).value.contract.stack == rest + [Plain(Tuple(t))]
      && OpUntuple(c, OpTuple(c, s).value) == Ok(s.(runlimit := s.runlimit - 1 - 2 * |t|))
  {
    hide Kept, OpTuple, OpUntuple, Plains;
    Tuples(c, s, rest, t);
    Untuples(c, OpTuple(c, s).value, rest, t);
  }

  // --- contracts

  /** A contract on top of the caller's argument stack after it was suspended. */
  function Resumed(g: Config, con: Contract, frame: Frame, frames: seq<Frame>): Config
    requires frame.CallFrame?
  {
    Config(g.s.(run := Run(0, con.program), contract := con.(wrapped := false), caller := frame.contract.seed,
                unwinding := false),
           frames + [frame])
  }

  /** get and call, run by the caller of a contract that has just been suspended. */
  lemma GetThenCallResumes(c: Crypto, g: Config, con: Contract, frame: Frame, frames: seq<Frame>)
    requires frame.CallFrame? && g.frames == frames + [frame]
    requires g.s.unwinding && g.s.argstack != [] && g.s.argstack[|g.s.argstack| - 1] == Con(con)
    ensures
      var back := Return(c, g);
      && back.Ok? && back.value.frames == frames && back.value.s.contract == frame.contract
      && OpGet(c, back.value.s).Ok?
      && Call(c, OpGet(c, back.value.s).value, frames)
         == Ok(Resumed(g.(s := g.s.(argstack := g.s.argstack[..|g.s.argstack| - 1])), con, frame, frames))
  {
    hide Kept, KeptWhole;
    assert g.frames[..|g.frames| - 1] == frames;
    var s := Return(c, g).value.s;
    var t := OpGet(c, s).value;
    assert t.contract.stack == s.contract.stack + [Con(con)];
    assert t.contract.stack[..|t.contract.stack| - 1] == s.contract.stack;
  }

  /** A contract that yields, or wraps itself with a portable stack, resumes with the same seed and stack in its new program. */
  lemma SuspendedContractResumes(c: Crypto, g: Config, rest: seq<Item>, prog: bytes, frame: Frame, frames: seq<Frame>)
    requires frame.CallFrame? && g.frames == frames + [frame] && !g.s.unwinding
    requires g.s.contract.stack == rest + [Plain(Bytes(prog))]
    ensures Resumes(c, g, OpYield(c, g.s), Contract(g.s.contract.wrapped, g.s.contract.seed, prog, rest), frame, frames)
    ensures StackPortable(rest) ==>
      Resumes(c, g, OpWrap(c, g.s), Contract(true, g.s.contract.seed, prog, rest), frame, frames)
    ensures !StackPortable(rest) ==> OpWrap(c, g.s) == Err(ErrUnportable)
  {
    hide Kept, KeptWhole, NaturalStack, NaturalItem, StackAmount;
    var popped := WithStack(g.s, rest);
    assert Pop(g.s) == Ok((Plain(Bytes(prog)), popped));
    var yielded := Contract(g.s.contract.wrapped, g.s.contract.seed, prog, rest);
    var h := g.(s := OpYield(c, g.s).value);
    assert h.s.argstack == g.s.argstack + [Con(yielded)];
    GetThenCallResumes(c, h, yielded, frame, frames);
    if StackPortable(rest) {
      var wrapped := Contract(true, g.s.contract.seed, prog, rest);
      var k := g.(s := OpWrap(c, g.s).value);
      assert k.s.argstack == g.s.argstack + [Con(wrapped)];
      GetThenCallResumes(c, k, wrapped, frame, frames);
    } else {
      assert exists x <- g.s.contract.stack :: !IsPortable(x) by {
        var x :| x in rest && !IsPortable(x);
        assert x in g.s.contract.stack;
      }
    }
  }

  /** The suspension succeeds, and after a return, a get and a call the contract con runs its program on its stack. */
  ghost predicate Resumes(c: Crypto, g: Config, suspended: Step, con: Contract, frame: Frame, frames: seq<Frame>)
    requires frame.CallFrame? && g.frames == frames + [frame]
  {
    && suspended.Ok? && suspended.value.unwinding
    && var back := Return(c, g.(s := suspended.value));
    && back.Ok? && OpGet(c, back.value.s).Ok?
    && var called := Call(c, OpGet(c, back.value.s).value, frames);
    && called.Ok?
    && called.value.s.run == Run(0, con.program)
    && called.value.s.contract == con.(wrapped := false)
    && called.value.s.argstack == g.s.argstack
    && called.value.frames == g.frames
  }
}
