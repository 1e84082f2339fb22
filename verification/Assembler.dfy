/** Symbolic jumps: finding their encodings, and where they lead (asm/asm.go). */
module Assembler {
  import opened Prelude
  import opened Varint
  import opened Items
  import opened Encoding
  import opened Machine
  import opened Instructions
  import opened Interpreter
  import opened Opcodes
  import opened Compilation
  import Ledger

  /** Assembled bytes, a jump target, or a jump whose encoding is kept apart. */
  datatype AsmItem = Code(code: bytes) | Label(name: string) | Jump(target: string, isJumpIf: bool)

  // --- the length of a pushed integer

  lemma {:induction false} VarintGrows(x: nat, y: nat)
    requires x <= y
    ensures |PutUvarint(x)| <= |PutUvarint(y)|
  {
    if x >= 0x80 {
      VarintGrows(x / 0x80, y / 0x80);
    }
  }

  const MAX_PUSH := 13
  const MAX_JUMP := 15

  /** A larger magnitude never has a shorter encoding. */
  lemma PushGrows(m: int64, n: int64)
    requires 0 <= m <= n || n <= m < 0
    requires n != MIN_INT64
    ensures 0 < |PushInt64(m)| <= |PushInt64(n)| <= MAX_PUSH
  {
    var a, b := if m < 0 then -m else m, if n < 0 then -n else n;
    NaturalPushGrows(a, b);
  }

  lemma NaturalPushGrows(a: int64, b: int64)
    requires 0 <= a <= b
    ensures 0 < |PushInt64(a)| <= |PushInt64(b)| <= 12
  {
    VarintGrows(a, b);
    RoomAtStart();
    VarintIsShort(b, 0);
    OneBytePrefix(PutUvarint(a));
    OneBytePrefix(PutUvarint(b));
  }

  lemma OneBytePrefix(data: bytes)
    requires 0 < |data| <= 10
    ensures |Pushdata(data)| == |data| + 1
  {
  }

  // --- sizes and offsets

  predicate Parallel(items: seq<AsmItem>, ops: seq<bytes>) {
    |ops| == |items|
  }

  function Size(items: seq<AsmItem>, ops: seq<bytes>, k: nat): nat
    requires Parallel(items, ops) && k < |items|
  {
    match items[k]
    case Code(b) => |b|
    case Label(_) => 0
    case Jump(_, _) => |ops[k]|
  }

  /** The bytes taken by items a up to b. */
  function Between(items: seq<AsmItem>, ops: seq<bytes>, a: nat, b: nat): nat
    requires Parallel(items, ops) && a <= b <= |items|
    decreases b - a
  {
    if a == b then 0 else Size(items, ops, a) + Between(items, ops, a + 1, b)
  }

  lemma {:induction false} BetweenSplits(items: seq<AsmItem>, ops: seq<bytes>, a: nat, b: nat, c: nat)
    requires Parallel(items, ops) && a <= b <= c <= |items|
    ensures Between(items, ops, a, c) == Between(items, ops, a, b) + Between(items, ops, b, c)
    decreases b - a
  {
    if a < b {
      BetweenSplits(items, ops, a + 1, b, c);
    }
  }

  lemma BetweenOne(items: seq<AsmItem>, ops: seq<bytes>, k: nat)
    requires Parallel(items, ops) && k < |items|
    ensures Between(items, ops, k, k + 1) == Size(items, ops, k)
  {
  }

  /** A bound on all lengths, as every program fits in memory. */
  function Bound(items: seq<AsmItem>): nat {
    if items == [] then 0
    else (if items[0].Code? then |items[0].code| else MAX_JUMP) + Bound(items[1..])
  }

  ghost predicate Bounded(items: seq<AsmItem>, ops: seq<bytes>)
    requires Parallel(items, ops)
  {
    forall k :: 0 <= k < |items| ==> |ops[k]| <= MAX_JUMP
  }

  lemma {:induction false} BetweenIsBounded(items: seq<AsmItem>, ops: seq<bytes>, a: nat, b: nat)
    requires Parallel(items, ops) && Bounded(items, ops) && a <= b <= |items|
    ensures Between(items, ops, a, b) <= Bound(items[a..])
    decreases b - a
  {
    if a < b {
      BetweenIsBounded(items, ops, a + 1, b);
      assert items[a..][1..] == items[a + 1..];
    }
  }

  lemma {:induction false} BoundOfRest(items: seq<AsmItem>, a: nat)
    requires a <= |items|
    ensures Bound(items[a..]) <= Bound(items)
  {
    if a > 0 {
      BoundOfRest(items[1..], a - 1);
      assert items[1..][a - 1..] == items[a..];
    } else {
      assert items[0..] == items;
    }
  }

  // --- the encoding of one jump

  /** The displacement of a backward jump grows with its own encoding; adj is tried until it fits. */
  function AdjFrom(rel: int64, adj: nat): (r: nat)
    requires -MAX_INT64 + MAX_PUSH <= rel < 0 && adj <= MAX_PUSH
    requires adj <= |PushInt64(rel - adj)|
    ensures adj <= r <= MAX_PUSH && r == |PushInt64(rel - r)|
    decreases MAX_PUSH - adj
  {
    PushGrows(rel, rel - adj);
    var n := |PushInt64(rel - adj)|;
    if n == adj then adj
    else
      PushGrows(rel - adj, rel - n);
      AdjFrom(rel, n)
  }

  function Adj(rel: int64): (r: nat)
    requires -MAX_INT64 + MAX_PUSH <= rel < 0
    ensures r <= MAX_PUSH && r == |PushInt64(rel - r)|
  {
    AdjFrom(rel, 0)
  }

  ghost predicate Enough(rel: int64, n: nat)
    requires -MAX_INT64 + MAX_PUSH <= rel < 0
  {
    n <= MAX_PUSH && |PushInt64(rel - n)| <= n
  }

  /** The loop reaches the least length that is enough for the encoding it leads to. */
  lemma {:induction false} AdjIsLeast(rel: int64, adj: nat, other: nat)
    requires -MAX_INT64 + MAX_PUSH <= rel < 0 && adj <= other <= MAX_PUSH
    requires adj <= |PushInt64(rel - adj)| && Enough(rel, other)
    ensures AdjFrom(rel, adj) <= other
    decreases MAX_PUSH - adj
  {
    hide PushInt64;
    PushGrows(rel, rel - adj);
    var n := |PushInt64(rel - adj)|;
    PushGrows(rel - adj, rel - other);
    if n != adj {
      PushGrows(rel - adj, rel - n);
      AdjIsLeast(rel, n, other);
    }
  }

  const LIMIT := 0x4000_0000_0000_0000

  /** All lengths fit comfortably in an int64. */
  ghost predicate Fits(items: seq<AsmItem>, ops: seq<bytes>) {
    Parallel(items, ops) && Bounded(items, ops) && Bound(items) <= LIMIT
  }

  /** The instructions before the displacement: an unconditional jump pushes a true condition. */
  function Before(item: AsmItem): bytes
    requires item.Jump?
  {
    if item.isJumpIf then [] else PushInt64(1)
  }

  lemma BetweenFits(items: seq<AsmItem>, ops: seq<bytes>, a: nat, b: nat)
    requires Fits(items, ops) && a <= b <= |items|
    ensures Between(items, ops, a, b) <= LIMIT
  {
    BetweenIsBounded(items, ops, a, b);
    BoundOfRest(items, a);
  }

  /** How far back a jump goes, not counting the encoding of the displacement itself. */
  function Back(items: seq<AsmItem>, ops: seq<bytes>, i: nat, l: nat): (n: int64)
    requires Fits(items, ops) && l < i < |items| && items[i].Jump?
    ensures 0 < n <= LIMIT + 2
  {
    BetweenFits(items, ops, l + 1, i);
    Between(items, ops, l + 1, i) + 1 + |Before(items[i])|
  }

  /** The displacement from the end of jump i to item l. */
  function Rel(items: seq<AsmItem>, ops: seq<bytes>, i: nat, l: nat): (rel: int64)
    requires Fits(items, ops) && l < |items| && i < |items| && items[i].Jump? && l != i
    ensures -LIMIT - 2 - MAX_PUSH <= rel <= LIMIT
  {
    if l < i then
      var back := Back(items, ops, i, l);
      -back - Adj(-back)
    else
      BetweenFits(items, ops, i + 1, l);
      Between(items, ops, i + 1, l)
  }

  function JumpCode(items: seq<AsmItem>, ops: seq<bytes>, i: nat, l: nat): (code: bytes)
    requires Fits(items, ops) && l < |items| && i < |items| && items[i].Jump? && l != i
    ensures |code| <= MAX_JUMP
  {
    var rel := Rel(items, ops, i, l);
    PushGrows(rel, rel);
    Before(items[i]) + PushInt64(rel) + [JUMP_IF]
  }

  /** In no item is ops longer than ops'. */
  ghost predicate NoLonger(items: seq<AsmItem>, ops: seq<bytes>, ops': seq<bytes>) {
    Parallel(items, ops) && Parallel(items, ops') && forall k :: 0 <= k < |items| ==> |ops[k]| <= |ops'[k]|
  }

  lemma {:induction false} BetweenGrows(items: seq<AsmItem>, ops: seq<bytes>, ops': seq<bytes>, a: nat, b: nat)
    requires NoLonger(items, ops, ops') && a <= b <= |items|
    ensures Between(items, ops, a, b) <= Between(items, ops', a, b)
    decreases b - a
  {
    if a < b {
      BetweenGrows(items, ops, ops', a + 1, b);
    }
  }

  lemma AdjGrows(rel: int64, rel': int64)
    requires -MAX_INT64 + MAX_PUSH <= rel' <= rel < 0
    ensures Adj(rel) <= Adj(rel')
  {
    var r' := Adj(rel');
    PushGrows(rel - r', rel' - r');
    AdjIsLeast(rel, 0, r');
  }

  /** Longer encodings in between never make a jump's own encoding shorter. */
  lemma JumpCodeGrows(items: seq<AsmItem>, ops: seq<bytes>, ops': seq<bytes>, i: nat, l: nat)
    requires Fits(items, ops) && Fits(items, ops') && NoLonger(items, ops, ops')
    requires l < |items| && i < |items| && items[i].Jump? && l != i
    ensures |JumpCode(items, ops, i, l)| <= |JumpCode(items, ops', i, l)|
  {
    hide PushInt64, AdjFrom, Between, Bounded;
    if l < i {
      BetweenGrows(items, ops, ops', l + 1, i);
      AdjGrows(-Back(items, ops, i, l), -Back(items, ops', i, l));
    } else {
      BetweenGrows(items, ops, ops', i + 1, l);
      PushGrows(Rel(items, ops, i, l), Rel(items, ops', i, l));
    }
  }

  ghost predicate SameLengths(items: seq<AsmItem>, ops: seq<bytes>, ops': seq<bytes>) {
    NoLonger(items, ops, ops') && NoLonger(items, ops', ops)
  }

  lemma {:induction false} BetweenDependsOnLengths(items: seq<AsmItem>, ops: seq<bytes>, ops': seq<bytes>, a: nat, b: nat)
    requires SameLengths(items, ops, ops') && a <= b <= |items|
    ensures Between(items, ops, a, b) == Between(items, ops', a, b)
    decreases b - a
  {
    BetweenGrows(items, ops, ops', a, b);
    BetweenGrows(items, ops', ops, a, b);
  }

  lemma JumpCodeDependsOnLengths(items: seq<AsmItem>, ops: seq<bytes>, ops': seq<bytes>, i: nat, l: nat)
    requires Fits(items, ops) && Fits(items, ops') && SameLengths(items, ops, ops')
    requires l < |items| && i < |items| && items[i].Jump? && l != i
    ensures JumpCode(items, ops, i, l) == JumpCode(items, ops', i, l)
  {
    hide PushInt64, AdjFrom, Between, Bounded;
    if l < i {
      BetweenDependsOnLengths(items, ops, ops', l + 1, i);
    } else {
      BetweenDependsOnLengths(items, ops, ops', i + 1, l);
    }
  }

  /** A jump's encoding does not depend on the one it has now. */
  lemma {:induction false} BetweenSkips(items: seq<AsmItem>, ops: seq<bytes>, i: nat, code: bytes, a: nat, b: nat)
    requires Parallel(items, ops) && a <= b <= |items| && i < |items| && !(a <= i < b)
    ensures Between(items, ops[i := code], a, b) == Between(items, ops, a, b)
    decreases b - a
  {
    if a < b {
      BetweenSkips(items, ops, i, code, a + 1, b);
    }
  }

  lemma JumpCodeSkipsItself(items: seq<AsmItem>, ops: seq<bytes>, i: nat, l: nat, code: bytes)
    requires Fits(items, ops) && l < |items| && i < |items| && items[i].Jump? && l != i
    requires Fits(items, ops[i := code])
    ensures JumpCode(items, ops[i := code], i, l) == JumpCode(items, ops, i, l)
  {
    hide PushInt64, AdjFrom, Between, Bounded;
    if l < i {
      BetweenSkips(items, ops, i, code, l + 1, i);
    } else {
      BetweenSkips(items, ops, i, code, i + 1, l);
    }
  }

  // --- labels

  /** The last label of that name. */
  function Find(items: seq<AsmItem>, name: string): (r: Option<nat>)
    ensures r.Some? ==> r.value < |items| && items[r.value] == Label(name)
  {
    if items == [] then None
    else if items[|items| - 1] == Label(name) then Some(|items| - 1)
    else Find(items[..|items| - 1], name)
  }

  /** Jump i has the encoding that the present lengths call for. */
  ghost predicate SettledAt(items: seq<AsmItem>, ops: seq<bytes>, i: nat)
    requires Fits(items, ops) && i < |items|
  {
    items[i].Jump? ==>
      Find(items, items[i].target).Some? && ops[i] == JumpCode(items, ops, i, Find(items, items[i].target).value)
  }

  ghost predicate Settled(items: seq<AsmItem>, ops: seq<bytes>, n: nat)
    requires Fits(items, ops) && n <= |items|
  {
    forall i :: 0 <= i < n ==> SettledAt(items, ops, i)
  }

  /** No encoding is longer than the one the present lengths call for: encodings never shrink. */
  ghost predicate Growing(items: seq<AsmItem>, ops: seq<bytes>) {
    Fits(items, ops) && forall i :: 0 <= i < |items| && items[i].Jump? && Find(items, items[i].target).Some? ==>
      |ops[i]| <= |JumpCode(items, ops, i, Find(items, items[i].target).value)|
  }

  lemma UpdateKeepsGrowing(items: seq<AsmItem>, ops: seq<bytes>, i: nat, l: nat)
    requires Growing(items, ops) && i < |items| && items[i].Jump? && Find(items, items[i].target) == Some(l)
    ensures
      var ops' := ops[i := JumpCode(items, ops, i, l)];
      Growing(items, ops') && NoLonger(items, ops, ops') && SettledAt(items, ops', i)
  {
    hide JumpCode, Find;
    var code := JumpCode(items, ops, i, l);
    var ops' := ops[i := code];
    assert Fits(items, ops');
    JumpCodeSkipsItself(items, ops, i, l, code);
    forall j | 0 <= j < |items| && items[j].Jump? && Find(items, items[j].target).Some?
      ensures |ops'[j]| <= |JumpCode(items, ops', j, Find(items, items[j].target).value)|
    {
      if j != i {
        JumpCodeGrows(items, ops, ops', j, Find(items, items[j].target).value);
      }
    }
  }

  // --- the least solution

  /** These encodings are no longer than any others that agree with their own lengths. */
  ghost predicate Least(items: seq<AsmItem>, ops: seq<bytes>)
    requires Parallel(items, ops)
  {
    forall other: seq<bytes> :: Fits(items, other) && Settled(items, other, |items|) ==> NoLonger(items, ops, other)
  }

  lemma UpdateKeepsLeast(items: seq<AsmItem>, ops: seq<bytes>, i: nat, l: nat)
    requires Fits(items, ops) && Least(items, ops)
    requires i < |items| && items[i].Jump? && Find(items, items[i].target) == Some(l)
    ensures Least(items, ops[i := JumpCode(items, ops, i, l)])
  {
    hide JumpCode, Find;
    forall other: seq<bytes> | Fits(items, other) && Settled(items, other, |items|)
      ensures NoLonger(items, ops[i := JumpCode(items, ops, i, l)], other)
    {
      assert SettledAt(items, other, i);
      JumpCodeGrows(items, ops, other, i, l);
    }
  }

  // --- termination of the refinement

  /** How much the encodings can still grow. */
  ghost function Slack(ops: seq<bytes>): nat
    requires forall k :: 0 <= k < |ops| ==> |ops[k]| <= MAX_JUMP
  {
    if ops == [] then 0 else MAX_JUMP - |ops[0]| + Slack(ops[1..])
  }

  lemma {:induction false} SlackShrinks(ops: seq<bytes>, ops': seq<bytes>)
    requires |ops| == |ops'| && forall k :: 0 <= k < |ops| ==> |ops[k]| <= |ops'[k]| <= MAX_JUMP
    ensures Slack(ops') <= Slack(ops)
    ensures Slack(ops') == Slack(ops) ==> forall k :: 0 <= k < |ops| ==> |ops[k]| == |ops'[k]|
  {
    if ops != [] {
      SlackShrinks(ops[1..], ops'[1..]);
      if Slack(ops') == Slack(ops) {
        forall k | 0 <= k < |ops| ensures |ops[k]| == |ops'[k]| {
          assert k > 0 ==> ops[k] == ops[1..][k - 1] && ops'[k] == ops'[1..][k - 1];
        }
      }
    }
  }

  /** Lengths, then bytes, then the flag: what each pass over the items lowers. */
  lemma PassesEnd(items: seq<AsmItem>, ops: seq<bytes>, ops': seq<bytes>)
    requires Fits(items, ops) && Fits(items, ops') && NoLonger(items, ops, ops')
    requires SameLengths(items, ops, ops') ==> Settled(items, ops', |items|)
    ensures Slack(ops') <= Slack(ops)
    ensures Slack(ops') == Slack(ops) ==> Settled(items, ops', |items|)
  {
    hide Settled;
    SlackShrinks(ops, ops');
  }

  /** A jump that was settled stays so while no length changes. */
  lemma SettledDependsOnLengths(items: seq<AsmItem>, ops: seq<bytes>, i: nat, code: bytes)
    requires i < |items| && Fits(items, ops) && Settled(items, ops, i) && |code| == |ops[i]|
    ensures Fits(items, ops[i := code]) && Settled(items, ops[i := code], i)
  {
    hide JumpCode, Find;
    var ops' := ops[i := code];
    forall j | 0 <= j < i ensures SettledAt(items, ops', j) {
      assert SettledAt(items, ops, j);
      if items[j].Jump? {
        JumpCodeDependsOnLengths(items, ops, ops', j, Find(items, items[j].target).value);
      }
    }
  }

  // --- the algorithm

  method FindLabels(items: seq<AsmItem>) returns (labels: map<string, nat>)
    ensures forall name ::
      Find(items, name) == if name in labels then Some(labels[name]) else None
  {
    labels := map[];
    for i := 0 to |items|
      invariant forall name ::
        Find(items[..i], name) == if name in labels then Some(labels[name]) else None
    {
      assert items[..i + 1][..i] == items[..i];
      if items[i].Label? {
        labels := labels[items[i].name := i];
      }
    }
    assert items[..|items|] == items;
  }

  /** Counts the bytes of the items between. */
  method CountBetween(items: seq<AsmItem>, ops: seq<bytes>, a: nat, b: nat) returns (n: nat)
    requires Parallel(items, ops) && a <= b <= |items|
    ensures n == Between(items, ops, a, b)
  {
    n := 0;
    for k := a to b
      invariant n == Between(items, ops, a, k)
    {
      BetweenSplits(items, ops, a, k, k + 1);
      match items[k] {
        case Code(code) => n := n + |code|;
        case Label(_) =>
        case Jump(_, _) => n := n + |ops[k]|;
      }
    }
  }

  /** The room for the displacement's own encoding, refined until it fits exactly. */
  method RefineAdj(rel: int64) returns (adj: nat)
    requires -MAX_INT64 + MAX_PUSH <= rel < 0
    ensures adj <= MAX_PUSH && adj == |PushInt64(rel - adj)|
    ensures forall other :: Enough(rel, other) ==> adj <= other
    ensures adj == Adj(rel)
  {
    hide PushInt64;
    adj := 0;
    var n := |PushInt64(rel)|;
    PushGrows(rel, rel);
    while n != adj
      invariant adj <= n <= MAX_PUSH && n == |PushInt64(rel - adj)|
      invariant AdjFrom(rel, adj) == Adj(rel)
      decreases MAX_PUSH - adj
    {
      PushGrows(rel - adj, rel - n);
      adj := n;
      n := |PushInt64(rel - adj)|;
    }
    forall other | Enough(rel, other) ensures adj <= other {
      AdjIsLeast(rel, 0, other);
    }
  }

  method EncodeJump(items: seq<AsmItem>, ops: seq<bytes>, i: nat, l: nat) returns (code: bytes)
    requires Fits(items, ops) && l < |items| && i < |items| && items[i].Jump? && l != i
    ensures code == JumpCode(items, ops, i, l)
  {
    hide PushInt64, AdjFrom, Between, Bounded, Enough;
    var rel: int;
    var a, b := if l < i then l else i, if l < i then i else l;
    rel := CountBetween(items, ops, a + 1, b);
    BetweenFits(items, ops, a + 1, b);
    if l < i {
      rel := -rel - 1;
    }
    code := [];
    if !items[i].isJumpIf {
      code := PushInt64(1);
      if l < i {
        rel := rel - |code|;
      }
    }
    if l < i {
      assert rel == -Back(items, ops, i, l);
      var adj := RefineAdj(rel);
      rel := rel - adj;
    }
    code := code + PushInt64(rel) + [JUMP_IF];
  }

  function Assembled(items: seq<AsmItem>, ops: seq<bytes>, n: nat): bytes
    requires Parallel(items, ops) && n <= |items|
  {
    if n == 0 then [] else
    var before := Assembled(items, ops, n - 1);
    match items[n - 1]
    case Code(code) => before + code
    case Label(_) => before
    case Jump(_, _) => before + ops[n - 1]
  }

  ghost predicate KnownLabels(items: seq<AsmItem>, n: nat)
    requires n <= |items|
  {
    forall i :: 0 <= i < n && items[i].Jump? ==> Find(items, items[i].target).Some?
  }

  /** One pass over the items, replacing the encoding of each jump whose present one is out of date. */
  method Pass(items: seq<AsmItem>, labels: map<string, nat>, start: seq<bytes>) returns (ops: seq<bytes>, again: bool, known: bool)
    requires Growing(items, start) && Least(items, start)
    requires forall name :: Find(items, name) == if name in labels then Some(labels[name]) else None
    ensures known == KnownLabels(items, |items|)
    ensures known ==>
      && Growing(items, ops) && Least(items, ops) && NoLonger(items, start, ops)
      && (!again ==> Settled(items, ops, |items|))
      && (SameLengths(items, start, ops) ==> Settled(items, ops, |items|))
      && (Settled(items, start, |items|) ==> !again)
  {
    hide Find, JumpCode, Least;
    ops, again, known := start, false, true;
    for i := 0 to |items|
      invariant Fits(items, ops) && Growing(items, ops) && Least(items, ops) && NoLonger(items, start, ops)
      invariant KnownLabels(items, i)
      invariant !again ==> ops == start && Settled(items, ops, i)
      invariant SameLengths(items, start, ops) ==> Settled(items, ops, i)
      invariant Settled(items, start, |items|) ==> !again
    {
      if items[i].Jump? {
        if items[i].target !in labels {
          known := false;
          return;
        }
        assert Settled(items, start, |items|) ==> SettledAt(items, start, i);
        var l := labels[items[i].target];
        var code := EncodeJump(items, ops, i, l);
        UpdateKeepsGrowing(items, ops, i, l);
        UpdateKeepsLeast(items, ops, i, l);
        if |code| == |ops[i]| && Settled(items, ops, i) {
          SettledDependsOnLengths(items, ops, i, code);
        }
        if code != ops[i] {
          ops := ops[i := code];
          again := true;
        }
      }
    }
  }

  /**
   Resolves every jump, or reports an unknown label. The encodings found agree with their own lengths,
   and no shorter ones would.
   */
  method Resolve(items: seq<AsmItem>) returns (r: Option<bytes>, ghost ops: seq<bytes>)
    requires Bound(items) <= LIMIT
    ensures r.Some? <==> KnownLabels(items, |items|)
    ensures r.Some? ==>
      && Fits(items, ops) && Settled(items, ops, |items|) && Least(items, ops)
      && r.value == Assembled(items, ops, |items|)
  {
    hide Find, JumpCode, Settled, KnownLabels, SameLengths;
    var labels := FindLabels(items);
    var codes: seq<bytes> := seq(|items|, _ => []);
    var again, known := true, true;
    while again
      invariant Growing(items, codes) && Least(items, codes)
      invariant !again ==> Settled(items, codes, |items|) && KnownLabels(items, |items|)
      decreases Slack(codes), !Settled(items, codes, |items|), again
    {
      ghost var start := codes;
      codes, again, known := Pass(items, labels, codes);
      if !known {
        return None, codes;
      }
      PassesEnd(items, start, codes);
    }
    ops := codes;
    var buf := [];
    for k := 0 to |items|
      invariant buf == Assembled(items, codes, k)
    {
      match items[k] {
        case Code(code) => buf := buf + code;
        case Label(_) =>
        case Jump(_, _) => buf := buf + codes[k];
      }
    }
    r := Some(buf);
  }

  // --- where jumps lead

  function Offset(items: seq<AsmItem>, ops: seq<bytes>, k: nat): nat
    requires Parallel(items, ops) && k <= |items|
  {
    |Assembled(items, ops, k)|
  }

  lemma {:induction false} OffsetIsBetween(items: seq<AsmItem>, ops: seq<bytes>, k: nat)
    requires Parallel(items, ops) && k <= |items|
    ensures Offset(items, ops, k) == Between(items, ops, 0, k)
  {
    if k > 0 {
      OffsetIsBetween(items, ops, k - 1);
      BetweenSplits(items, ops, 0, k - 1, k);
    }
  }

  /** A settled backward jump is long enough to jump over its own encoding. */
  lemma BackwardJump(items: seq<AsmItem>, ops: seq<bytes>, i: nat, l: nat)
    requires Fits(items, ops) && l < i < |items| && items[i].Jump? && ops[i] == JumpCode(items, ops, i, l)
    ensures Rel(items, ops, i, l) + Between(items, ops, l + 1, i) + |ops[i]| == 0
  {
    hide PushInt64, AdjFrom, Between, Bounded, Bound, Before;
  }

  /** Each displacement, counted from the end of its jump, is exactly the offset of its label. */
  lemma DisplacementReachesLabel(items: seq<AsmItem>, ops: seq<bytes>, i: nat, l: nat)
    requires Fits(items, ops) && Settled(items, ops, |items|)
    requires i < |items| && items[i].Jump? && Find(items, items[i].target) == Some(l)
    ensures ops[i] == Before(items[i]) + PushInt64(Rel(items, ops, i, l)) + [JUMP_IF]
    ensures Offset(items, ops, i + 1) == Offset(items, ops, i) + |ops[i]|
    ensures Offset(items, ops, i + 1) + Rel(items, ops, i, l) == Offset(items, ops, l)
  {
    hide Find, PushInt64, Adj, Between, Bounded, Bound, Before, Offset, Assembled;
    assert SettledAt(items, ops, i);
    OffsetIsBetween(items, ops, i);
    OffsetIsBetween(items, ops, i + 1);
    OffsetIsBetween(items, ops, l);
    BetweenSplits(items, ops, 0, i, i + 1);
    BetweenOne(items, ops, i);
    if l < i {
      hide Rel, JumpCode;
      BackwardJump(items, ops, i, l);
      BetweenSplits(items, ops, 0, l, i);
      BetweenSplits(items, ops, l, l + 1, i);
      BetweenOne(items, ops, l);
    } else {
      BetweenSplits(items, ops, 0, i + 1, l);
    }
  }

  // --- running the jumps

  lemma PerformsJumpIf(c: Crypto, s: State, rest: seq<Item>, cond: Data, rel: int64)
    requires s.contract.stack == rest + [Plain(cond), Plain(Int(rel))]
    requires 0 <= s.run.pc + rel <= |s.run.prog| <= MAX_INT64
    ensures Perform(c, s, Inst(JUMP_IF, [], 1)) ==
      Ok(WithStack(s, rest).(run := s.run.(pc := if AsBool(cond) then s.run.pc + rel else s.run.pc)))
  {
    hide Kept, Ledger.NaturalStack, Ledger.NaturalItem, StackAmount;
    var t := WithStack(s, rest + [Plain(cond)]);
    assert s.contract.stack == (rest + [Plain(cond)]) + [Plain(Int(rel))];
    assert PopInt(s) == Ok((rel, t));
    assert PopBool(t) == Ok((AsBool(cond), WithStack(s, rest)));
    assert Perform(c, s, Inst(JUMP_IF, [], 1)) == OpJumpIf(c, s);
  }

  /** g with a condition consumed, so much runlimit used, and control at pc. */
  function Arrived(g: Config, rest: seq<Item>, cost: nat, pc: nat): Config {
    g.(s := WithStack(g.s, rest).(runlimit := g.s.runlimit - cost, run := g.s.run.(pc := pc)))
  }

  lemma RunsJumpIf(c: Crypto, g: Config, rest: seq<Item>, cond: Data, rel: int64)
    requires About(g, [JUMP_IF]) && g.s.runlimit >= 1
    requires g.s.contract.stack == rest + [Plain(cond), Plain(Int(rel))]
    requires 0 <= g.s.run.pc + 1 + rel <= |g.s.run.prog| <= MAX_INT64
    ensures Steps(c, g, 1) ==
      Ok(Arrived(g, rest, 1, if AsBool(cond) then g.s.run.pc + 1 + rel else g.s.run.pc + 1))
  {
    hide Perform, Next, Kept, KeptWhole;
    Splits(g, [JUMP_IF]);
    DecodesByte(g.s.run.prog[g.s.run.pc..]);
    PerformsNext(c, g, Inst(JUMP_IF, [], 1));
    var s := g.s.(runlimit := g.s.runlimit - 1, run := g.s.run.(pc := g.s.run.pc + 1));
    PerformsJumpIf(c, s, rest, cond, rel);
  }

  /** A pushed displacement and its jumpif. */
  lemma RunsConditionalJump(c: Crypto, g: Config, rest: seq<Item>, cond: Data, rel: int64)
    requires About(g, PushInt64(rel) + [JUMP_IF]) && g.s.runlimit >= PushInt64Cost(rel) + 1
    requires g.s.contract.stack == rest + [Plain(cond)]
    requires 0 <= g.s.run.pc + |PushInt64(rel)| + 1 + rel <= |g.s.run.prog| <= MAX_INT64
    ensures
      var end := g.s.run.pc + |PushInt64(rel)| + 1;
      Steps(c, g, PushInt64Count(rel) + 1) ==
        Ok(Arrived(g, rest, PushInt64Cost(rel) + 1, if AsBool(cond) then end + rel else end))
  {
    hide Next, Kept, KeptWhole, PushInt64, PushInt64Cost, PushInt64Count;
    var push := PushInt64(rel);
    AboutParts(g, push, [JUMP_IF], [Plain(Int(rel))], PushInt64Cost(rel));
    RunsPushInt64(c, g, rel);
    var h := After(g, |push|, [Plain(Int(rel))], PushInt64Cost(rel));
    assert h.s.contract.stack == rest + [Plain(cond), Plain(Int(rel))];
    RunsJumpIf(c, h, rest, cond, rel);
    StepsCompose(c, g, PushInt64Count(rel), 1);
  }

  /** The assembled code lies in the running program, starting at base. */
  ghost predicate Loaded(g: Config, code: bytes, base: nat) {
    && base + |code| <= |g.s.run.prog| <= MAX_INT64
    && g.s.run.prog[base..base + |code|] == code
  }

  lemma {:induction false} CodeOfItem(items: seq<AsmItem>, ops: seq<bytes>, i: nat, n: nat)
    requires Parallel(items, ops) && i < n <= |items| && items[i].Jump?
    ensures Offset(items, ops, i) + |ops[i]| == Offset(items, ops, i + 1) <= Offset(items, ops, n)
    ensures Assembled(items, ops, n)[Offset(items, ops, i)..Offset(items, ops, i + 1)] == ops[i]
    decreases n
  {
    if i + 1 < n {
      CodeOfItem(items, ops, i, n - 1);
      PrefixSlice(Assembled(items, ops, n - 1), Assembled(items, ops, n), Offset(items, ops, i), Offset(items, ops, i + 1));
    }
  }

  lemma PrefixSlice(s: bytes, t: bytes, a: nat, b: nat)
    requires s <= t && a <= b <= |s|
    ensures t[a..b] == s[a..b]
  {
  }

  lemma {:induction false} OffsetsGrow(items: seq<AsmItem>, ops: seq<bytes>, a: nat, b: nat)
    requires Parallel(items, ops) && a <= b <= |items|
    ensures Offset(items, ops, a) <= Offset(items, ops, b)
    decreases b
  {
    if a < b {
      OffsetsGrow(items, ops, a, b - 1);
    }
  }

  lemma AboutJump(g: Config, items: seq<AsmItem>, ops: seq<bytes>, i: nat, base: nat)
    requires Parallel(items, ops) && i < |items| && items[i].Jump? && !g.s.unwinding
    requires Loaded(g, Assembled(items, ops, |items|), base) && g.s.run.pc == base + Offset(items, ops, i)
    ensures About(g, ops[i])
  {
    hide Assembled;
    CodeOfItem(items, ops, i, |items|);
    var all := Assembled(items, ops, |items|);
    var p, q := Offset(items, ops, i), Offset(items, ops, i + 1);
    assert g.s.run.prog[base + p..base + q] == g.s.run.prog[base..base + |all|][p..q];
  }

  /**
   A symbolic jumpif, wherever the assembled code lies in a program, goes to exactly the place of its
   label when the condition holds, and to the item after it otherwise.
   */
  lemma JumpIfLandsOnLabel(c: Crypto, g: Config, items: seq<AsmItem>, ops: seq<bytes>, i: nat, l: nat, base: nat,
                           rest: seq<Item>, cond: Data)
    requires Fits(items, ops) && Settled(items, ops, |items|)
    requires i < |items| && items[i].Jump? && items[i].isJumpIf && Find(items, items[i].target) == Some(l)
    requires Loaded(g, Assembled(items, ops, |items|), base) && g.s.run.pc == base + Offset(items, ops, i)
    requires !g.s.unwinding && g.s.contract.stack == rest + [Plain(cond)]
    requires g.s.runlimit >= PushInt64Cost(Rel(items, ops, i, l)) + 1
    ensures
      var rel := Rel(items, ops, i, l);
      Steps(c, g, PushInt64Count(rel) + 1) ==
        Ok(Arrived(g, rest, PushInt64Cost(rel) + 1, base + Offset(items, ops, if AsBool(cond) then l else i + 1)))
  {
    hide Settled, Find, Rel, PushInt64, Assembled, PushInt64Cost, PushInt64Count, Steps;
    var rel := Rel(items, ops, i, l);
    DisplacementReachesLabel(items, ops, i, l);
    AboutJump(g, items, ops, i, base);
    assert ops[i] == PushInt64(rel) + [JUMP_IF];
    OffsetsGrow(items, ops, l, |items|);
    RunsConditionalJump(c, g, rest, cond, rel);
  }

  lemma PushesTrue()
    ensures PushInt64(1) == [1] && PushInt64Count(1) == 1 && PushInt64Cost(1) == 1
  {
  }

  /** An unconditional symbolic jump always goes to exactly the place of its label. */
  lemma JumpLandsOnLabel(c: Crypto, g: Config, items: seq<AsmItem>, ops: seq<bytes>, i: nat, l: nat, base: nat)
    requires Fits(items, ops) && Settled(items, ops, |items|)
    requires i < |items| && items[i].Jump? && !items[i].isJumpIf && Find(items, items[i].target) == Some(l)
    requires Loaded(g, Assembled(items, ops, |items|), base) && g.s.run.pc == base + Offset(items, ops, i)
    requires !g.s.unwinding && g.s.runlimit >= PushInt64Cost(Rel(items, ops, i, l)) + 2
    ensures
      var rel := Rel(items, ops, i, l);
      Steps(c, g, PushInt64Count(rel) + 2) ==
        Ok(Arrived(g, g.s.contract.stack, PushInt64Cost(rel) + 2, base + Offset(items, ops, l)))
  {
    hide Settled, Find, Rel, Assembled, PushInt64Cost, PushInt64Count, Next, Kept, KeptWhole;
    var rel := Rel(items, ops, i, l);
    DisplacementReachesLabel(items, ops, i, l);
    AboutJump(g, items, ops, i, base);
    OffsetsGrow(items, ops, l, |items|);
    PushesTrue();
    assert ops[i] == [1] + (PushInt64(rel) + [JUMP_IF]);
    AboutParts(g, [1], PushInt64(rel) + [JUMP_IF], [Plain(Int(1))], 1);
    RunsPushInt64(c, g, 1);
    var h := After(g, 1, [Plain(Int(1))], 1);
    RunsConditionalJump(c, h, g.s.contract.stack, Int(1), rel);
    StepsCompose(c, g, 1, PushInt64Count(rel) + 1);
  }
}
