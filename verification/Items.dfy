/** Stack items: plain data, values and contracts, and their inspected forms (item.go, entries.go). */
module Items {
  import opened Prelude

  datatype Data =
    | Int(i: int64)
    | Bytes(b: bytes)
    | Tuple(items: seq<Data>)

  /** An amount of an asset. The amount is signed: input accepts any integer there. */
  datatype Value = Value(amount: int64, assetID: bytes, anchor: bytes)

  /** A contract owns its stack outright; no other item refers to it. */
  datatype Contract = Contract(wrapped: bool, seed: bytes, program: bytes, stack: seq<Item>)

  datatype Item =
    | Plain(d: Data)
    | Val(v: Value)
    | Con(c: Contract)

  datatype FieldsError = ErrFields | ErrIndex

  const INT_CODE: byte := 0x5a  // 'Z'
  const BYTES_CODE: byte := 0x53  // 'S'
  const TUPLE_CODE: byte := 0x54  // 'T'
  const VALUE_CODE: byte := 0x56  // 'V'
  const CONTRACT_CODE: byte := 0x43  // 'C'
  const WRAPPED_CODE: byte := 0x57  // 'W'

  predicate IsPortable(x: Item) {
    x.Con? ==> x.c.wrapped
  }

  predicate IsDroppable(x: Item) {
    match x
    case Plain(_) => true
    case Val(v) => v.amount == 0
    case Con(_) => false
  }

  // --- inspection

  function InspectValue(v: Value): Data {
    Tuple([Bytes([VALUE_CODE]), Int(v.amount), Bytes(v.assetID), Bytes(v.anchor)])
  }

  function Inspect(x: Item): Data
    decreases x, 0
  {
    match x
    case Plain(Int(i)) => Tuple([Bytes([INT_CODE]), Int(i)])
    case Plain(Bytes(b)) => Tuple([Bytes([BYTES_CODE]), Bytes(b)])
    case Plain(Tuple(t)) => Tuple([Bytes([TUPLE_CODE]), Tuple(t)])
    case Val(v) => InspectValue(v)
    case Con(c) => Tuple(InspectContract(c))
  }

  function InspectContract(c: Contract): seq<Data>
    decreases c, 1
  {
    [Bytes([if c.wrapped then WRAPPED_CODE else CONTRACT_CODE]), Bytes(c.seed), Bytes(c.program)]
    + InspectStack(c.stack)
  }

  function InspectStack(s: seq<Item>): (t: seq<Data>)
    ensures |t| == |s|
    decreases s, 0
  {
    if s == [] then [] else [Inspect(s[0])] + InspectStack(s[1..])
  }

  /** extractTypeCode: zero stands for a missing or malformed code. */
  function TypeCode(t: seq<Data>): byte
    requires t != []
  {
    if t[0].Bytes? && |t[0].b| == 1 then t[0].b[0] else 0
  }

  function UninspectValue(t: seq<Data>): Result<Value, FieldsError> {
    if |t| == 4 && TypeCode(t) == VALUE_CODE && t[1].Int? && t[2].Bytes? && t[3].Bytes?
    then Ok(Value(t[1].i, t[2].b, t[3].b))
    else Err(ErrFields)
  }

  function UninspectContract(t: seq<Data>): Result<Contract, FieldsError>
    decreases t, 1
  {
    if |t| < 3 then Err(ErrFields) else
    var code := TypeCode(t);
    :- Need(code == CONTRACT_CODE || code == WRAPPED_CODE, ErrFields);
    :- Need(t[1].Bytes? && t[2].Bytes?, ErrFields);
    var stack :- UninspectStack(t[3..]);
    Ok(Contract(code == WRAPPED_CODE, t[1].b, t[2].b, stack))
  }

  function UninspectStack(t: seq<Data>): Result<seq<Item>, FieldsError>
    decreases t, 0
  {
    if t == [] then Ok([])
    else
      :- Need(t[0].Tuple?, ErrFields);
      var x :- Uninspect(t[0].items);
      var rest :- UninspectStack(t[1..]);
      Ok([x] + rest)
  }

  /** A one-field Z, S or T tuple makes the source index past its end. */
  function Uninspect(t: seq<Data>): Result<Item, FieldsError>
    decreases t, 2
  {
    if !(t != [] && t[0].Bytes? && |t[0].b| == 1) then Err(ErrFields) else
    var code := t[0].b[0];
    if code == INT_CODE || code == BYTES_CODE || code == TUPLE_CODE then
      :- Need(|t| >= 2, ErrIndex);
      :- Need(if code == INT_CODE then t[1].Int? else if code == BYTES_CODE then t[1].Bytes? else t[1].Tuple?,
              ErrFields);
      Ok(Plain(t[1]))
    else if code == VALUE_CODE then
      var v :- UninspectValue(t);
      Ok(Val(v))
    else if code == CONTRACT_CODE || code == WRAPPED_CODE then
      var c :- UninspectContract(t);
      Ok(Con(c))
    else Err(ErrFields)
  }

  // --- the round trip

  /** Every item, with arbitrarily nested contract stacks, survives inspection. */
  lemma {:induction false} UninspectInspect(x: Item)
    ensures Inspect(x).Tuple? && Uninspect(Inspect(x).items) == Ok(x)
    decreases x, 0
  {
    if x.Con? {
      UninspectInspectContract(x.c);
    }
  }

  /** uninspect(inspect(c)) is c. */
  lemma {:induction false} UninspectInspectContract(c: Contract)
    ensures UninspectContract(InspectContract(c)) == Ok(c)
    decreases c, 1
  {
    UninspectInspectStack(c.stack);
    assert InspectContract(c)[3..] == InspectStack(c.stack);
  }

  lemma {:induction false} UninspectInspectStack(s: seq<Item>)
    ensures UninspectStack(InspectStack(s)) == Ok(s)
    decreases s, 0
  {
    if s != [] {
      UninspectInspect(s[0]);
      UninspectInspectStack(s[1..]);
      assert InspectStack(s)[1..] == InspectStack(s[1..]);
      assert [s[0]] + s[1..] == s;
    }
  }

  lemma {:induction false} InspectsEach(s: seq<Item>, k: nat)
    requires k < |s|
    ensures InspectStack(s)[k] == Inspect(s[k])
  {
    if k > 0 {
      InspectsEach(s[1..], k - 1);
    }
  }

  /** The type codes and fields of inspected items, as strings and numbers. */
  lemma InspectedForms(i: int64, b: bytes, t: seq<Data>, v: Value, c: Contract)
    ensures Inspect(Plain(Int(i))) == Tuple([Bytes([0x5a]), Int(i)]) && Inspect(Plain(Bytes(b))) == Tuple([Bytes([0x53]), Bytes(b)])
    ensures Inspect(Plain(Tuple(t))) == Tuple([Bytes([0x54]), Tuple(t)])
    ensures Inspect(Val(v)) == Tuple([Bytes([0x56]), Int(v.amount), Bytes(v.assetID), Bytes(v.anchor)])
    ensures
      var r := InspectContract(c);
      && Inspect(Con(c)) == Tuple(r) && |r| == 3 + |c.stack| && r[0] == Bytes([if c.wrapped then 0x57 else 0x43])
      && r[1] == Bytes(c.seed) && r[2] == Bytes(c.program) && forall k :: 0 <= k < |c.stack| ==> r[3..][k] == Inspect(c.stack[k])
  {
    assert InspectContract(c)[3..] == InspectStack(c.stack);
    forall k | 0 <= k < |c.stack| ensures InspectStack(c.stack)[k] == Inspect(c.stack[k]) {
      InspectsEach(c.stack, k);
    }
  }

  /** No integer, string or tuple inside carries more than itself. The source does not look at further fields. */
  ghost predicate NothingExtra(t: seq<Data>)
    decreases t, 1
  {
    t != [] &&
    if TypeCode(t) in {INT_CODE, BYTES_CODE, TUPLE_CODE} then |t| == 2
    else TypeCode(t) in {CONTRACT_CODE, WRAPPED_CODE} && |t| >= 3 ==> NothingExtraIn(t[3..])
  }

  ghost predicate NothingExtraIn(t: seq<Data>)
    decreases t, 0
  {
    forall x <- t :: x.Tuple? ==> NothingExtra(x.items)
  }

  /** What uninspects to an item is the inspected form of that item, if it carries nothing extra. */
  lemma {:induction false} InspectUninspect(t: seq<Data>)
    requires NothingExtra(t) && Uninspect(t).Ok?
    ensures Inspect(Uninspect(t).value) == Tuple(t)
    decreases t, 1
  {
    assert t[0] == Bytes([t[0].b[0]]);
    if TypeCode(t) in {CONTRACT_CODE, WRAPPED_CODE} {
      InspectUninspectContract(t);
    } else if TypeCode(t) == VALUE_CODE {
      assert t == [t[0], t[1], t[2], t[3]];
    } else {
      assert t == [t[0], t[1]];
    }
  }

  lemma {:induction false} InspectUninspectContract(t: seq<Data>)
    requires UninspectContract(t).Ok? && NothingExtraIn(t[3..])
    ensures InspectContract(UninspectContract(t).value) == t
    decreases t, 0
  {
    InspectUninspectStack(t[3..]);
    assert t == [t[0], t[1], t[2]] + t[3..];
    assert t[0] == Bytes([t[0].b[0]]);
  }

  lemma {:induction false} InspectUninspectStack(t: seq<Data>)
    requires UninspectStack(t).Ok? && NothingExtraIn(t)
    ensures InspectStack(UninspectStack(t).value) == t
    decreases t, 0
  {
    if t != [] {
      assert t[0] in t;
      InspectUninspect(t[0].items);
      forall x <- t[1..] ensures x in t {}
      InspectUninspectStack(t[1..]);
      assert t == [t[0]] + t[1..];
      assert UninspectStack(t).value[1..] == UninspectStack(t[1..]).value;
    }
  }

  // --- amounts

  /** The amount of asset a held by an item, counting every nested stack. */
  function Amount(x: Item, a: bytes): int
    decreases x, 0
  {
    match x
    case Plain(_) => 0
    case Val(v) => if v.assetID == a then v.amount else 0
    case Con(c) => StackAmount(c.stack, a)
  }

  function StackAmount(s: seq<Item>, a: bytes): int
    decreases s, 0
  {
    if s == [] then 0 else StackAmount(s[..|s| - 1], a) + Amount(s[|s| - 1], a)
  }

  lemma {:induction false} StackAmountConcat(s: seq<Item>, t: seq<Item>, a: bytes)
    ensures StackAmount(s + t, a) == StackAmount(s, a) + StackAmount(t, a)
    decreases |t|
  {
    if t == [] {
      assert s + t == s;
    } else {
      StackAmountConcat(s, t[..|t| - 1], a);
      assert (s + t)[..|s + t| - 1] == s + t[..|t| - 1];
    }
  }
}
