/**
 Multiplication and squaring in the field of integers modulo 2^255 - 19, on ten signed limbs of 26 and
 25 bits in turn (edwards25519.go). Every int32 and int64 operation is checked not to overflow.
 */
module FieldArithmetic {
  newtype int32 = x: int | -0x8000_0000 <= x < 0x8000_0000
  newtype int64 = x: int | -0x8000_0000_0000_0000 <= x < 0x8000_0000_0000_0000

  const T25 := 0x200_0000
  const T26 := 0x400_0000
  const T51 := 0x8_0000_0000_0000

  /** 2^255 - 19 */
  const P := 0x7fff_ffff_ffff_ffff_ffff_ffff_ffff_ffff_ffff_ffff_ffff_ffff_ffff_ffff_ffff_ffed

  type Ten = s: seq<int> | |s| == 10 witness [0, 0, 0, 0, 0, 0, 0, 0, 0, 0]

  /** h[0] + 2^26 h[1] + 2^51 h[2] + 2^77 h[3] + ... + 2^230 h[9] */
  function Eval(h: Ten): int {
    h[0] + T26 * (h[1] + T25 * (h[2] + T26 * (h[3] + T25 * (h[4]
      + T26 * (h[5] + T25 * (h[6] + T26 * (h[7] + T25 * (h[8] + T26 * h[9]))))))))
  }

  function Ints(h: seq<int64>): Ten
    requires |h| == 10
  {
    seq(10, i requires 0 <= i < 10 => h[i] as int)
  }

  function Wide(h: seq<int32>): (w: seq<int64>)
    ensures |w| == |h| && forall i :: 0 <= i < |h| ==> w[i] as int == h[i] as int
  {
    seq(|h|, i requires 0 <= i < |h| => h[i] as int64)
  }

  /** The integer that a field element stands for. */
  function Value(h: seq<int32>): int
    requires |h| == 10
  {
    Eval(Ints(Wide(h)))
  }

  predicate Within(x: int, b: int) {
    -b <= x <= b
  }

  /** Limbs bounded by max, and those of 25 bits by half of it. */
  ghost predicate Limbs(h: seq<int64>, max: int) {
    |h| == 10 && forall i :: 0 <= i < 10 ==> Within(h[i] as int, if i % 2 == 0 then max else max / 2)
  }

  ghost predicate Bounded(h: seq<int32>, max: int) {
    |h| == 10 && Limbs(Wide(h), max)
  }

  const LOOSE := 0x466_6666 // 1.1 * 2^26
  const LOOSER := 0x699_9999 // 1.65 * 2^26
  const TIGHT := 0x205_1eb8 // 1.01 * 2^25
  const MAX := 0x7fff_f000_0000_0000

  // --- carrying

  function Width(i: nat): int64 {
    if i % 2 == 0 then 0x400_0000 else 0x200_0000
  }

  lemma CarryKeepsValue(h: Ten, i: nat, c: int)
    requires i < 9
    ensures Eval(h[i := h[i] - c * Width(i) as int][i + 1 := h[i + 1] + c]) == Eval(h)
  {
    if i == 0 {} else if i == 1 {} else if i == 2 {} else if i == 3 {} else if i == 4 {}
    else if i == 5 {} else if i == 6 {} else if i == 7 {} else {}
  }

  /** 2^255 is 19 modulo P. */
  lemma WrapKeepsValue(h: Ten, c: int)
    ensures Eval(h[0 := h[0] + 19 * c][9 := h[9] - c * T25]) == Eval(h) - c * P
  {
  }

  /** Rounds limb i to its width, to nearest, and moves the rest into limb i + 1. */
  method Carry(h: seq<int64>, i: nat, ghost max: int) returns (r: seq<int64>)
    requires |h| == 10 && i < 9 && max <= 0x40_0000_0000
    requires Within(h[i] as int, max * Width(i) as int - Width(i) as int)
    requires Within(h[i] as int, 0x7fff_ff00_0000_0000) && Within(h[i + 1] as int, 0x7fff_ff00_0000_0000)
    ensures |r| == 10 && Eval(Ints(r)) == Eval(Ints(h))
    ensures Within(r[i] as int, Width(i) as int / 2) && Within(r[i + 1] as int - h[i + 1] as int, max)
    ensures forall j :: 0 <= j < 10 && j != i && j != i + 1 ==> r[j] == h[j]
  {
    hide Eval;
    var c := (h[i] + Width(i) / 2) / Width(i);
    assert -(Width(i) as int) <= 2 * (h[i] as int - c as int * Width(i) as int) <= Width(i) as int;
    r := h[i + 1 := h[i + 1] + c];
    r := r[i := r[i] - c * Width(i)];
    CarryKeepsValue(Ints(h), i, c as int);
    assert Ints(r) == Ints(h)[i := Ints(h)[i] - c as int * Width(i) as int][i + 1 := Ints(h)[i + 1] + c as int];
  }

  /** The carry out of the last limb comes back to the first. */
  method Wrap(h: seq<int64>) returns (r: seq<int64>)
    requires |h| == 10 && Within(h[9] as int, 0x7fff_ff00_0000_0000) && Within(h[0] as int, T25)
    ensures |r| == 10 && Eval(Ints(r)) % P == Eval(Ints(h)) % P
    ensures Within(r[9] as int, T25 / 2) && Within(r[0] as int - h[0] as int, 0x4c0_0000_0000)
    ensures forall j :: 0 < j < 9 ==> r[j] == h[j]
  {
    hide Eval;
    var c := (h[9] + 0x100_0000) / 0x200_0000;
    r := h[0 := h[0] + c * 19];
    r := r[9 := r[9] - c * 0x200_0000];
    WrapKeepsValue(Ints(h), c as int);
    assert Ints(r) == Ints(h)[0 := Ints(h)[0] + 19 * c as int][9 := Ints(h)[9] - c as int * T25];
  }

  method FeCombine(h: array<int32>, limbs: seq<int64>)
    requires h.Length == 10
    requires |limbs| == 10 && forall i :: 0 <= i < 10 ==> Within(limbs[i] as int, MAX)
    modifies h
    ensures Bounded(h[..], TIGHT)
    ensures Value(h[..]) % P == Eval(Ints(limbs)) % P
  {
    hide Eval, Ints;
    ghost var any := 0x40_0000_0000;
    var r := Carry(limbs, 0, any);
    r := Carry(r, 4, any);
    r := Carry(r, 1, any);
    r := Carry(r, 5, any);
    r := Carry(r, 2, any);
    r := Carry(r, 6, any);
    r := Carry(r, 3, any);
    r := Carry(r, 7, any);
    r := Carry(r, 4, 0x1002);
    r := Carry(r, 8, any);
    r := Wrap(r);
    r := Carry(r, 0, 0x1_3002);
    assert Limbs(r, TIGHT);
    forall i | 0 <= i < 10 {
      h[i] := r[i] as int32;
    }
    assert Wide(h[..]) == r;
  }

  // --- products

  function Prod(x: int, y: int): int {
    x * y
  }

  lemma ProdIsWithin(x: int, y: int, a: nat, b: nat)
    requires Within(x, a) && Within(y, b)
    ensures Within(x * y, a * b)
  {
    NatProd(if x < 0 then -x else x, if y < 0 then -y else y, a, b);
  }

  lemma NatProd(x: nat, y: nat, a: nat, b: nat)
    requires x <= a && y <= b
    ensures 0 <= x * y <= a * b
  {
    assert x * y <= a * y;
    assert a * y <= a * b;
  }

  const MAX_PRODUCT := 38 * LOOSER * LOOSER

  /** The product of two limbs, of which one may have been doubled and the other multiplied by 19. */
  function Mul(x: int64, y: int64): (r: int64)
    requires Within(x as int, 2 * LOOSER) && Within(y as int, 19 * LOOSER)
    ensures r as int == Prod(x as int, y as int) && Within(r as int, MAX_PRODUCT)
  {
    ProdIsWithin(x as int, y as int, 2 * LOOSER, 19 * LOOSER);
    x * y
  }

  /** What the product of limbs i and j adds to limb (i + j) mod 10. */
  function Term(f: seq<int64>, g: seq<int64>, i: nat, j: nat): int
    requires |f| == |g| == 10 && i < 10 && j < 10
  {
    var p := Prod(f[i] as int, g[j] as int);
    if i % 2 == 1 && j % 2 == 1 then if i + j >= 10 then 38 * p else 2 * p
    else if i + j >= 10 then 19 * p else p
  }

  /** All that is added to limb k. */
  function Column(f: seq<int64>, g: seq<int64>, k: nat): int
    requires |f| == |g| == 10 && k < 10
  {
    Term(f, g, 0, k) + Term(f, g, 1, (k + 9) % 10) + Term(f, g, 2, (k + 8) % 10) + Term(f, g, 3, (k + 7) % 10)
      + Term(f, g, 4, (k + 6) % 10) + Term(f, g, 5, (k + 5) % 10) + Term(f, g, 6, (k + 4) % 10)
      + Term(f, g, 7, (k + 3) % 10) + Term(f, g, 8, (k + 2) % 10) + Term(f, g, 9, (k + 1) % 10)
  }

  ghost predicate IsProduct(f: seq<int64>, g: seq<int64>, h: seq<int64>) {
    |f| == |g| == |h| == 10 && forall k :: 0 <= k < 10 ==> h[k] as int == Column(f, g, k)
  }

  // --- the columns are the product, by Horner's rule in 2^51

  function Scale(a: int, g: seq<int64>): Ten
    requires |g| == 10
  {
    seq(10, k requires 0 <= k < 10 => Prod(a, g[k] as int))
  }

  /** x times 2^26, folded back to ten limbs. */
  function Fold26(x: Ten): Ten {
    [38 * x[9], x[0], 2 * x[1], x[2], 2 * x[3], x[4], 2 * x[5], x[6], 2 * x[7], x[8]]
  }

  /** x times 2^51, folded back to ten limbs. */
  function Fold51(x: Ten): Ten {
    [19 * x[8], 19 * x[9], x[0], x[1], x[2], x[3], x[4], x[5], x[6], x[7]]
  }

  function Sum(x: Ten, y: Ten, z: Ten): Ten {
    seq(10, k requires 0 <= k < 10 => x[k] + y[k] + z[k])
  }

  lemma Fold26KeepsValue(x: Ten)
    ensures T26 * Eval(x) == Eval(Fold26(x)) + P * (2 * x[9])
  {
  }

  lemma Fold51KeepsValue(x: Ten)
    ensures T51 * Eval(x) == Eval(Fold51(x)) + P * (x[8] + T26 * x[9])
  {
  }

  lemma SumAddsValues(x: Ten, y: Ten, z: Ten)
    ensures Eval(Sum(x, y, z)) == Eval(x) + Eval(y) + Eval(z)
  {
  }

  lemma ScaleMultiplies(a: int, g: seq<int64>)
    requires |g| == 10
    ensures Eval(Scale(a, g)) == a * Eval(Ints(g))
  {
  }

  /** The value of limbs 2n and up, in units of limb 2n. */
  function Upper(f: seq<int64>, n: nat): int
    requires |f| == 10 && n <= 5
    decreases 5 - n
  {
    if n == 5 then 0 else f[2 * n] as int + T26 * f[2 * n + 1] as int + T51 * Upper(f, n + 1)
  }

  lemma UpperIsValue(f: seq<int64>)
    requires |f| == 10
    ensures Upper(f, 0) == Eval(Ints(f))
  {
    assert Upper(f, 4) == f[8] as int + T26 * f[9] as int;
    assert Upper(f, 3) == f[6] as int + T26 * f[7] as int + T51 * Upper(f, 4);
    assert Upper(f, 2) == f[4] as int + T26 * f[5] as int + T51 * Upper(f, 3);
    assert Upper(f, 1) == f[2] as int + T26 * f[3] as int + T51 * Upper(f, 2);
  }

  function Horner(f: seq<int64>, g: seq<int64>, n: nat): Ten
    requires |f| == |g| == 10 && n <= 5
    decreases 5 - n
  {
    if n == 5 then [0, 0, 0, 0, 0, 0, 0, 0, 0, 0]
    else Sum(Scale(f[2 * n] as int, g), Fold26(Scale(f[2 * n + 1] as int, g)), Fold51(Horner(f, g, n + 1)))
  }

  lemma Distribute(a: int, b: int, c: int, g: int)
    ensures (a + T26 * b + T51 * c) * g == a * g + T26 * (b * g) + T51 * (c * g)
  {
  }

  lemma {:induction false} HornerMultiplies(f: seq<int64>, g: seq<int64>, n: nat) returns (q: int)
    requires |f| == |g| == 10 && n <= 5
    ensures Upper(f, n) * Eval(Ints(g)) == Eval(Horner(f, g, n)) + P * q
    decreases 5 - n
  {
    hide Scale, Fold26, Fold51, Sum, Ints;
    if n == 5 {
      q := 0;
    } else {
      hide Eval;
      var a, b := f[2 * n] as int, f[2 * n + 1] as int;
      var r := HornerMultiplies(f, g, n + 1);
      var h := Horner(f, g, n + 1);
      Distribute(a, b, Upper(f, n + 1), Eval(Ints(g)));
      ScaleMultiplies(a, g);
      ScaleMultiplies(b, g);
      Fold26KeepsValue(Scale(b, g));
      Fold51KeepsValue(h);
      SumAddsValues(Scale(a, g), Fold26(Scale(b, g)), Fold51(h));
      q := 2 * Scale(b, g)[9] + h[8] + T26 * h[9] + T51 * r;
    }
  }

  /** One step of Horner's rule, limb by limb. */
  lemma StepAtZero(f: seq<int64>, g: seq<int64>, n: nat)
    requires |f| == |g| == 10 && n < 5
    ensures Horner(f, g, n)[0] ==
      Prod(f[2 * n] as int, g[0] as int) + 38 * Prod(f[2 * n + 1] as int, g[9] as int) + 19 * Horner(f, g, n + 1)[8]
  {
    hide Prod;
  }

  lemma StepAtOne(f: seq<int64>, g: seq<int64>, n: nat)
    requires |f| == |g| == 10 && n < 5
    ensures Horner(f, g, n)[1] ==
      Prod(f[2 * n] as int, g[1] as int) + Prod(f[2 * n + 1] as int, g[0] as int) + 19 * Horner(f, g, n + 1)[9]
  {
    hide Prod;
  }

  lemma StepAtEven(f: seq<int64>, g: seq<int64>, n: nat, k: nat)
    requires |f| == |g| == 10 && n < 5 && 2 <= k < 10 && k % 2 == 0
    ensures Horner(f, g, n)[k] ==
      Prod(f[2 * n] as int, g[k] as int) + 2 * Prod(f[2 * n + 1] as int, g[k - 1] as int) + Horner(f, g, n + 1)[k - 2]
  {
    hide Prod, Horner, Fold26, Fold51;
    StepAt(f, g, n, k);
    Fold26AtEven(Scale(f[2 * n + 1] as int, g), k);
    Fold51At(Horner(f, g, n + 1), k);
  }

  lemma StepAtOdd(f: seq<int64>, g: seq<int64>, n: nat, k: nat)
    requires |f| == |g| == 10 && n < 5 && 2 <= k < 10 && k % 2 == 1
    ensures Horner(f, g, n)[k] ==
      Prod(f[2 * n] as int, g[k] as int) + Prod(f[2 * n + 1] as int, g[k - 1] as int) + Horner(f, g, n + 1)[k - 2]
  {
    hide Prod, Horner, Fold26, Fold51;
    StepAt(f, g, n, k);
    Fold26AtOdd(Scale(f[2 * n + 1] as int, g), k);
    Fold51At(Horner(f, g, n + 1), k);
  }

  lemma StepAt(f: seq<int64>, g: seq<int64>, n: nat, k: nat)
    requires |f| == |g| == 10 && n < 5 && k < 10
    ensures Horner(f, g, n)[k] == Prod(f[2 * n] as int, g[k] as int)
      + Fold26(Scale(f[2 * n + 1] as int, g))[k] + Fold51(Horner(f, g, n + 1))[k]
  {
    hide Prod, Fold26, Fold51;
  }

  lemma HornerAtEnd(f: seq<int64>, g: seq<int64>)
    requires |f| == |g| == 10
    ensures forall k :: 0 <= k < 10 ==> Horner(f, g, 5)[k] == 0
  {
  }

  lemma Fold26AtEven(x: Ten, k: nat)
    requires 2 <= k < 10 && k % 2 == 0
    ensures Fold26(x)[k] == 2 * x[k - 1]
  {
  }

  lemma Fold26AtOdd(x: Ten, k: nat)
    requires 2 <= k < 10 && k % 2 == 1
    ensures Fold26(x)[k] == x[k - 1]
  {
  }

  lemma Fold51At(x: Ten, k: nat)
    requires 2 <= k < 10
    ensures Fold51(x)[k] == x[k - 2]
  {
  }

  lemma Column0(f: seq<int64>, g: seq<int64>)
    requires |f| == |g| == 10
    ensures Column(f, g, 0) == Horner(f, g, 0)[0]
  {
    hide Prod, Horner;
    StepAtZero(f, g, 0);
    StepAtEven(f, g, 1, 8);
    StepAtEven(f, g, 2, 6);
    StepAtEven(f, g, 3, 4);
    StepAtEven(f, g, 4, 2);
    HornerAtEnd(f, g);
  }

  lemma Column1(f: seq<int64>, g: seq<int64>)
    requires |f| == |g| == 10
    ensures Column(f, g, 1) == Horner(f, g, 0)[1]
  {
    hide Prod, Horner;
    StepAtOne(f, g, 0);
    StepAtOdd(f, g, 1, 9);
    StepAtOdd(f, g, 2, 7);
    StepAtOdd(f, g, 3, 5);
    StepAtOdd(f, g, 4, 3);
    HornerAtEnd(f, g);
  }

  lemma Column2(f: seq<int64>, g: seq<int64>)
    requires |f| == |g| == 10
    ensures Column(f, g, 2) == Horner(f, g, 0)[2]
  {
    hide Prod, Horner;
    StepAtEven(f, g, 0, 2);
    StepAtZero(f, g, 1);
    StepAtEven(f, g, 2, 8);
    StepAtEven(f, g, 3, 6);
    StepAtEven(f, g, 4, 4);
    HornerAtEnd(f, g);
  }

  lemma Column3(f: seq<int64>, g: seq<int64>)
    requires |f| == |g| == 10
    ensures Column(f, g, 3) == Horner(f, g, 0)[3]
  {
    hide Prod, Horner;
    StepAtOdd(f, g, 0, 3);
    StepAtOne(f, g, 1);
    StepAtOdd(f, g, 2, 9);
    StepAtOdd(f, g, 3, 7);
    StepAtOdd(f, g, 4, 5);
    HornerAtEnd(f, g);
  }

  lemma Column4(f: seq<int64>, g: seq<int64>)
    requires |f| == |g| == 10
    ensures Column(f, g, 4) == Horner(f, g, 0)[4]
  {
    hide Prod, Horner;
    StepAtEven(f, g, 0, 4);
    StepAtEven(f, g, 1, 2);
    StepAtZero(f, g, 2);
    StepAtEven(f, g, 3, 8);
    StepAtEven(f, g, 4, 6);
    HornerAtEnd(f, g);
  }

  lemma Column5(f: seq<int64>, g: seq<int64>)
    requires |f| == |g| == 10
    ensures Column(f, g, 5) == Horner(f, g, 0)[5]
  {
    hide Prod, Horner;
    StepAtOdd(f, g, 0, 5);
    StepAtOdd(f, g, 1, 3);
    StepAtOne(f, g, 2);
    StepAtOdd(f, g, 3, 9);
    StepAtOdd(f, g, 4, 7);
    HornerAtEnd(f, g);
  }

  lemma Column6(f: seq<int64>, g: seq<int64>)
    requires |f| == |g| == 10
    ensures Column(f, g, 6) == Horner(f, g, 0)[6]
  {
    hide Prod, Horner;
    StepAtEven(f, g, 0, 6);
    StepAtEven(f, g, 1, 4);
    StepAtEven(f, g, 2, 2);
    StepAtZero(f, g, 3);
    StepAtEven(f, g, 4, 8);
    HornerAtEnd(f, g);
  }

  lemma Column7(f: seq<int64>, g: seq<int64>)
    requires |f| == |g| == 10
    ensures Column(f, g, 7) == Horner(f, g, 0)[7]
  {
    hide Prod, Horner;
    StepAtOdd(f, g, 0, 7);
    StepAtOdd(f, g, 1, 5);
    StepAtOdd(f, g, 2, 3);
    StepAtOne(f, g, 3);
    StepAtOdd(f, g, 4, 9);
    HornerAtEnd(f, g);
  }

  lemma Column8(f: seq<int64>, g: seq<int64>)
    requires |f| == |g| == 10
    ensures Column(f, g, 8) == Horner(f, g, 0)[8]
  {
    hide Prod, Horner;
    StepAtEven(f, g, 0, 8);
    StepAtEven(f, g, 1, 6);
    StepAtEven(f, g, 2, 4);
    StepAtEven(f, g, 3, 2);
    StepAtZero(f, g, 4);
    HornerAtEnd(f, g);
  }

  lemma Column9(f: seq<int64>, g: seq<int64>)
    requires |f| == |g| == 10
    ensures Column(f, g, 9) == Horner(f, g, 0)[9]
  {
    hide Prod, Horner;
    StepAtOdd(f, g, 0, 9);
    StepAtOdd(f, g, 1, 7);
    StepAtOdd(f, g, 2, 5);
    StepAtOdd(f, g, 3, 3);
    StepAtOne(f, g, 4);
    HornerAtEnd(f, g);
  }

  lemma ColumnsAreHorner(f: seq<int64>, g: seq<int64>, h: seq<int64>)
    requires IsProduct(f, g, h)
    ensures Ints(h) == Horner(f, g, 0)
  {
    hide Column, Horner;
    Column0(f, g);
    Column1(f, g);
    Column2(f, g);
    Column3(f, g);
    Column4(f, g);
    Column5(f, g);
    Column6(f, g);
    Column7(f, g);
    Column8(f, g);
    Column9(f, g);
  }

  lemma SameResidue(a: int, b: int, q: int)
    requires a == b + P * q
    ensures b % P == a % P
  {
  }

  /** The ten columns together stand for the product modulo P. */
  lemma ColumnsMultiply(f: seq<int64>, g: seq<int64>, h: seq<int64>)
    requires IsProduct(f, g, h)
    ensures Eval(Ints(h)) % P == (Eval(Ints(f)) * Eval(Ints(g))) % P
  {
    hide Column, Horner, Eval, Ints, Upper;
    ColumnsAreHorner(f, g, h);
    UpperIsValue(f);
    var q := HornerMultiplies(f, g, 0);
    SameResidue(Eval(Ints(f)) * Eval(Ints(g)), Eval(Ints(h)), q);
  }

  // --- FeMul

  /** The operands with the copies that FeMul multiplies by 2 and by 19 beforehand. */
  ghost predicate Prepared(f: seq<int64>, f2: seq<int64>, g: seq<int64>, g19: seq<int64>) {
    && Limbs(f, LOOSE) && Limbs(g, LOOSE) && |f2| == |g19| == 10
    && (forall i :: 0 <= i < 10 && i % 2 == 1 ==> f2[i] as int == 2 * f[i] as int)
    && (forall j :: 0 < j < 10 ==> g19[j] as int == 19 * g[j] as int)
  }

  /** The product in place of Term(f, g, i, j). */
  function Factors(f: seq<int64>, f2: seq<int64>, g: seq<int64>, g19: seq<int64>, i: nat, j: nat): int
    requires |f| == |f2| == |g| == |g19| == 10 && i < 10 && j < 10
  {
    Prod(if i % 2 == 1 && j % 2 == 1 then f2[i] as int else f[i] as int, if i + j >= 10 then g19[j] as int else g[j] as int)
  }

  lemma FactorsOfTerm(f: seq<int64>, f2: seq<int64>, g: seq<int64>, g19: seq<int64>, i: nat, j: nat)
    requires Prepared(f, f2, g, g19) && i < 10 && j < 10
    ensures Factors(f, f2, g, g19, i, j) == Term(f, g, i, j)
  {
    ScaledProd(f[i] as int, g[j] as int);
  }

  lemma ScaledProd(a: int, b: int)
    ensures Prod(a, 19 * b) == 19 * Prod(a, b) && Prod(a, 38 * b) == 38 * Prod(a, b)
    ensures Prod(2 * a, b) == 2 * Prod(a, b) && Prod(2 * a, 2 * b) == 4 * Prod(a, b)
    ensures Prod(2 * a, 19 * b) == 38 * Prod(a, b) && Prod(2 * a, 38 * b) == 76 * Prod(a, b)
    ensures Prod(b, a) == Prod(a, b)
  {
  }

  lemma FactorsOfColumn(f: seq<int64>, f2: seq<int64>, g: seq<int64>, g19: seq<int64>, k: nat)
    requires Prepared(f, f2, g, g19) && k < 10
    ensures Column(f, g, k) ==
      Factors(f, f2, g, g19, 0, k) + Factors(f, f2, g, g19, 1, (k + 9) % 10) + Factors(f, f2, g, g19, 2, (k + 8) % 10)
      + Factors(f, f2, g, g19, 3, (k + 7) % 10) + Factors(f, f2, g, g19, 4, (k + 6) % 10)
      + Factors(f, f2, g, g19, 5, (k + 5) % 10) + Factors(f, f2, g, g19, 6, (k + 4) % 10)
      + Factors(f, f2, g, g19, 7, (k + 3) % 10) + Factors(f, f2, g, g19, 8, (k + 2) % 10)
      + Factors(f, f2, g, g19, 9, (k + 1) % 10)
  {
    hide Term, Factors;
    forall i: nat, j: nat | i < 10 && j < 10 ensures Factors(f, f2, g, g19, i, j) == Term(f, g, i, j) {
      FactorsOfTerm(f, f2, g, g19, i, j);
    }
  }

  function Product0(f: seq<int64>, f2: seq<int64>, g: seq<int64>, g19: seq<int64>): (h: int64)
    requires Prepared(f, f2, g, g19)
    ensures h as int == Column(f, g, 0) && Within(h as int, MAX)
  {
    hide Prod, Column;
    FactorsOfColumn(f, f2, g, g19, 0);
    Mul(f[0], g[0]) + Mul(f2[1], g19[9]) + Mul(f[2], g19[8]) + Mul(f2[3], g19[7]) + Mul(f[4], g19[6])
      + Mul(f2[5], g19[5]) + Mul(f[6], g19[4]) + Mul(f2[7], g19[3]) + Mul(f[8], g19[2]) + Mul(f2[9], g19[1])
  }

  function Product1(f: seq<int64>, f2: seq<int64>, g: seq<int64>, g19: seq<int64>): (h: int64)
    requires Prepared(f, f2, g, g19)
    ensures h as int == Column(f, g, 1) && Within(h as int, MAX)
  {
    hide Prod, Column;
    FactorsOfColumn(f, f2, g, g19, 1);
    Mul(f[0], g[1]) + Mul(f[1], g[0]) + Mul(f[2], g19[9]) + Mul(f[3], g19[8]) + Mul(f[4], g19[7])
      + Mul(f[5], g19[6]) + Mul(f[6], g19[5]) + Mul(f[7], g19[4]) + Mul(f[8], g19[3]) + Mul(f[9], g19[2])
  }

  function Product2(f: seq<int64>, f2: seq<int64>, g: seq<int64>, g19: seq<int64>): (h: int64)
    requires Prepared(f, f2, g, g19)
    ensures h as int == Column(f, g, 2) && Within(h as int, MAX)
  {
    hide Prod, Column;
    FactorsOfColumn(f, f2, g, g19, 2);
    Mul(f[0], g[2]) + Mul(f2[1], g[1]) + Mul(f[2], g[0]) + Mul(f2[3], g19[9]) + Mul(f[4], g19[8])
      + Mul(f2[5], g19[7]) + Mul(f[6], g19[6]) + Mul(f2[7], g19[5]) + Mul(f[8], g19[4]) + Mul(f2[9], g19[3])
  }

  function Product3(f: seq<int64>, f2: seq<int64>, g: seq<int64>, g19: seq<int64>): (h: int64)
    requires Prepared(f, f2, g, g19)
    ensures h as int == Column(f, g, 3) && Within(h as int, MAX)
  {
    hide Prod, Column;
    FactorsOfColumn(f, f2, g, g19, 3);
    Mul(f[0], g[3]) + Mul(f[1], g[2]) + Mul(f[2], g[1]) + Mul(f[3], g[0]) + Mul(f[4], g19[9])
      + Mul(f[5], g19[8]) + Mul(f[6], g19[7]) + Mul(f[7], g19[6]) + Mul(f[8], g19[5]) + Mul(f[9], g19[4])
  }

  function Product4(f: seq<int64>, f2: seq<int64>, g: seq<int64>, g19: seq<int64>): (h: int64)
    requires Prepared(f, f2, g, g19)
    ensures h as int == Column(f, g, 4) && Within(h as int, MAX)
  {
    hide Prod, Column;
    FactorsOfColumn(f, f2, g, g19, 4);
    Mul(f[0], g[4]) + Mul(f2[1], g[3]) + Mul(f[2], g[2]) + Mul(f2[3], g[1]) + Mul(f[4], g[0])
      + Mul(f2[5], g19[9]) + Mul(f[6], g19[8]) + Mul(f2[7], g19[7]) + Mul(f[8], g19[6]) + Mul(f2[9], g19[5])
  }

  function Product5(f: seq<int64>, f2: seq<int64>, g: seq<int64>, g19: seq<int64>): (h: int64)
    requires Prepared(f, f2, g, g19)
    ensures h as int == Column(f, g, 5) && Within(h as int, MAX)
  {
    hide Prod, Column;
    FactorsOfColumn(f, f2, g, g19, 5);
    Mul(f[0], g[5]) + Mul(f[1], g[4]) + Mul(f[2], g[3]) + Mul(f[3], g[2]) + Mul(f[4], g[1])
      + Mul(f[5], g[0]) + Mul(f[6], g19[9]) + Mul(f[7], g19[8]) + Mul(f[8], g19[7]) + Mul(f[9], g19[6])
  }

  function Product6(f: seq<int64>, f2: seq<int64>, g: seq<int64>, g19: seq<int64>): (h: int64)
    requires Prepared(f, f2, g, g19)
    ensures h as int == Column(f, g, 6) && Within(h as int, MAX)
  {
    hide Prod, Column;
    FactorsOfColumn(f, f2, g, g19, 6);
    Mul(f[0], g[6]) + Mul(f2[1], g[5]) + Mul(f[2], g[4]) + Mul(f2[3], g[3]) + Mul(f[4], g[2])
      + Mul(f2[5], g[1]) + Mul(f[6], g[0]) + Mul(f2[7], g19[9]) + Mul(f[8], g19[8]) + Mul(f2[9], g19[7])
  }

  function Product7(f: seq<int64>, f2: seq<int64>, g: seq<int64>, g19: seq<int64>): (h: int64)
    requires Prepared(f, f2, g, g19)
    ensures h as int == Column(f, g, 7) && Within(h as int, MAX)
  {
    hide Prod, Column;
    FactorsOfColumn(f, f2, g, g19, 7);
    Mul(f[0], g[7]) + Mul(f[1], g[6]) + Mul(f[2], g[5]) + Mul(f[3], g[4]) + Mul(f[4], g[3])
      + Mul(f[5], g[2]) + Mul(f[6], g[1]) + Mul(f[7], g[0]) + Mul(f[8], g19[9]) + Mul(f[9], g19[8])
  }

  function Product8(f: seq<int64>, f2: seq<int64>, g: seq<int64>, g19: seq<int64>): (h: int64)
    requires Prepared(f, f2, g, g19)
    ensures h as int == Column(f, g, 8) && Within(h as int, MAX)
  {
    hide Prod, Column;
    FactorsOfColumn(f, f2, g, g19, 8);
    Mul(f[0], g[8]) + Mul(f2[1], g[7]) + Mul(f[2], g[6]) + Mul(f2[3], g[5]) + Mul(f[4], g[4])
      + Mul(f2[5], g[3]) + Mul(f[6], g[2]) + Mul(f2[7], g[1]) + Mul(f[8], g[0]) + Mul(f2[9], g19[9])
  }

  function Product9(f: seq<int64>, f2: seq<int64>, g: seq<int64>, g19: seq<int64>): (h: int64)
    requires Prepared(f, f2, g, g19)
    ensures h as int == Column(f, g, 9) && Within(h as int, MAX)
  {
    hide Prod, Column;
    FactorsOfColumn(f, f2, g, g19, 9);
    Mul(f[0], g[9]) + Mul(f[1], g[8]) + Mul(f[2], g[7]) + Mul(f[3], g[6]) + Mul(f[4], g[5])
      + Mul(f[5], g[4]) + Mul(f[6], g[3]) + Mul(f[7], g[2]) + Mul(f[8], g[1]) + Mul(f[9], g[0])
  }

  /** h may be f or g. */
  method FeMul(h: array<int32>, f: array<int32>, g: array<int32>)
    requires h.Length == f.Length == g.Length == 10
    requires Bounded(f[..], LOOSE) && Bounded(g[..], LOOSE)
    modifies h
    ensures Bounded(h[..], TIGHT)
    ensures Value(h[..]) % P == (old(Value(f[..])) * old(Value(g[..]))) % P
  {
    hide Eval, Column, Ints;
    var a, b := Wide(f[..]), Wide(g[..]);
    var f2 := [0, 2 * f[1], 0, 2 * f[3], 0, 2 * f[5], 0, 2 * f[7], 0, 2 * f[9]];
    var g19 := [0, 19 * g[1], 19 * g[2], 19 * g[3], 19 * g[4], 19 * g[5], 19 * g[6], 19 * g[7], 19 * g[8], 19 * g[9]];
    var a2, b19 := Wide(f2), Wide(g19);
    var p := [
      Product0(a, a2, b, b19), Product1(a, a2, b, b19), Product2(a, a2, b, b19), Product3(a, a2, b, b19),
      Product4(a, a2, b, b19), Product5(a, a2, b, b19), Product6(a, a2, b, b19), Product7(a, a2, b, b19),
      Product8(a, a2, b, b19), Product9(a, a2, b, b19)];
    ColumnsMultiply(a, b, p);
    FeCombine(h, p);
  }

  // --- FeSquare

  ghost predicate PreparedSquare(f: seq<int64>, f2: seq<int64>, f19: seq<int64>, f38: seq<int64>) {
    && Limbs(f, LOOSER) && |f2| == |f19| == |f38| == 10
    && (forall i :: 0 <= i < 8 ==> f2[i] as int == 2 * f[i] as int)
    && f19[6] as int == 19 * f[6] as int && f19[8] as int == 19 * f[8] as int
    && f38[5] as int == 38 * f[5] as int && f38[7] as int == 38 * f[7] as int && f38[9] as int == 38 * f[9] as int
  }

  /** The products of limbs i and j that the squaring computes, in terms of the plain one. */
  ghost predicate ScaledSquare(f: seq<int64>, f2: seq<int64>, f19: seq<int64>, f38: seq<int64>, i: nat, j: nat)
    requires |f| == |f2| == |f19| == |f38| == 10 && i < 10 && j < 10
  {
    var p := Prod(f[i] as int, f[j] as int);
    && Prod(f[j] as int, f[i] as int) == p
    && (i < 8 ==> Prod(f2[i] as int, f[j] as int) == 2 * p)
    && (i < 8 && j < 8 ==> Prod(f2[i] as int, f2[j] as int) == 4 * p)
    && (j == 6 || j == 8 ==> Prod(f[i] as int, f19[j] as int) == 19 * p)
    && (i < 8 && (j == 6 || j == 8) ==> Prod(f2[i] as int, f19[j] as int) == 38 * p)
    && (j == 5 || j == 7 || j == 9 ==> Prod(f[i] as int, f38[j] as int) == 38 * p)
    && (i < 8 && (j == 5 || j == 7 || j == 9) ==> Prod(f2[i] as int, f38[j] as int) == 76 * p)
  }

  lemma ScaledSquares(f: seq<int64>, f2: seq<int64>, f19: seq<int64>, f38: seq<int64>, k: nat)
    requires PreparedSquare(f, f2, f19, f38) && k < 10
    ensures ScaledSquare(f, f2, f19, f38, 0, k) && ScaledSquare(f, f2, f19, f38, 1, (k + 9) % 10)
    ensures ScaledSquare(f, f2, f19, f38, 2, (k + 8) % 10) && ScaledSquare(f, f2, f19, f38, 3, (k + 7) % 10)
    ensures ScaledSquare(f, f2, f19, f38, 4, (k + 6) % 10) && ScaledSquare(f, f2, f19, f38, 5, (k + 5) % 10)
    ensures ScaledSquare(f, f2, f19, f38, 6, (k + 4) % 10) && ScaledSquare(f, f2, f19, f38, 7, (k + 3) % 10)
    ensures ScaledSquare(f, f2, f19, f38, 8, (k + 2) % 10) && ScaledSquare(f, f2, f19, f38, 9, (k + 1) % 10)
  {
    forall i: nat, j: nat | i < 10 && j < 10 ensures ScaledSquare(f, f2, f19, f38, i, j) {
      hide Prod;
      ScaledProd(f[i] as int, f[j] as int);
    }
  }

  function Square0(f: seq<int64>, f2: seq<int64>, f19: seq<int64>, f38: seq<int64>): (h: int64)
    requires PreparedSquare(f, f2, f19, f38)
    ensures h as int == Column(f, f, 0) && Within(2 * h as int, MAX)
  {
    hide Prod;
    ScaledSquares(f, f2, f19, f38, 0);
    Mul(f[0], f[0]) + Mul(f2[1], f38[9]) + Mul(f2[2], f19[8]) + Mul(f2[3], f38[7]) + Mul(f2[4], f19[6]) + Mul(f[5], f38[5])
  }

  function Square1(f: seq<int64>, f2: seq<int64>, f19: seq<int64>, f38: seq<int64>): (h: int64)
    requires PreparedSquare(f, f2, f19, f38)
    ensures h as int == Column(f, f, 1) && Within(2 * h as int, MAX)
  {
    hide Prod;
    ScaledSquares(f, f2, f19, f38, 1);
    Mul(f2[0], f[1]) + Mul(f[2], f38[9]) + Mul(f2[3], f19[8]) + Mul(f[4], f38[7]) + Mul(f2[5], f19[6])
  }

  function Square2(f: seq<int64>, f2: seq<int64>, f19: seq<int64>, f38: seq<int64>): (h: int64)
    requires PreparedSquare(f, f2, f19, f38)
    ensures h as int == Column(f, f, 2) && Within(2 * h as int, MAX)
  {
    hide Prod;
    ScaledSquares(f, f2, f19, f38, 2);
    Mul(f2[0], f[2]) + Mul(f2[1], f[1]) + Mul(f2[3], f38[9]) + Mul(f2[4], f19[8]) + Mul(f2[5], f38[7]) + Mul(f[6], f19[6])
  }

  function Square3(f: seq<int64>, f2: seq<int64>, f19: seq<int64>, f38: seq<int64>): (h: int64)
    requires PreparedSquare(f, f2, f19, f38)
    ensures h as int == Column(f, f, 3) && Within(2 * h as int, MAX)
  {
    hide Prod;
    ScaledSquares(f, f2, f19, f38, 3);
    Mul(f2[0], f[3]) + Mul(f2[1], f[2]) + Mul(f[4], f38[9]) + Mul(f2[5], f19[8]) + Mul(f[6], f38[7])
  }

  function Square4(f: seq<int64>, f2: seq<int64>, f19: seq<int64>, f38: seq<int64>): (h: int64)
    requires PreparedSquare(f, f2, f19, f38)
    ensures h as int == Column(f, f, 4) && Within(2 * h as int, MAX)
  {
    hide Prod;
    ScaledSquares(f, f2, f19, f38, 4);
    Mul(f2[0], f[4]) + Mul(f2[1], f2[3]) + Mul(f[2], f[2]) + Mul(f2[5], f38[9]) + Mul(f2[6], f19[8]) + Mul(f[7], f38[7])
  }

  function Square5(f: seq<int64>, f2: seq<int64>, f19: seq<int64>, f38: seq<int64>): (h: int64)
    requires PreparedSquare(f, f2, f19, f38)
    ensures h as int == Column(f, f, 5) && Within(2 * h as int, MAX)
  {
    hide Prod;
    ScaledSquares(f, f2, f19, f38, 5);
    Mul(f2[0], f[5]) + Mul(f2[1], f[4]) + Mul(f2[2], f[3]) + Mul(f[6], f38[9]) + Mul(f2[7], f19[8])
  }

  function Square6(f: seq<int64>, f2: seq<int64>, f19: seq<int64>, f38: seq<int64>): (h: int64)
    requires PreparedSquare(f, f2, f19, f38)
    ensures h as int == Column(f, f, 6) && Within(2 * h as int, MAX)
  {
    hide Prod;
    ScaledSquares(f, f2, f19, f38, 6);
    Mul(f2[0], f[6]) + Mul(f2[1], f2[5]) + Mul(f2[2], f[4]) + Mul(f2[3], f[3]) + Mul(f2[7], f38[9]) + Mul(f[8], f19[8])
  }

  function Square7(f: seq<int64>, f2: seq<int64>, f19: seq<int64>, f38: seq<int64>): (h: int64)
    requires PreparedSquare(f, f2, f19, f38)
    ensures h as int == Column(f, f, 7) && Within(2 * h as int, MAX)
  {
    hide Prod;
    ScaledSquares(f, f2, f19, f38, 7);
    Mul(f2[0], f[7]) + Mul(f2[1], f[6]) + Mul(f2[2], f[5]) + Mul(f2[3], f[4]) + Mul(f[8], f38[9])
  }

  function Square8(f: seq<int64>, f2: seq<int64>, f19: seq<int64>, f38: seq<int64>): (h: int64)
    requires PreparedSquare(f, f2, f19, f38)
    ensures h as int == Column(f, f, 8) && Within(2 * h as int, MAX)
  {
    hide Prod;
    ScaledSquares(f, f2, f19, f38, 8);
    Mul(f2[0], f[8]) + Mul(f2[1], f2[7]) + Mul(f2[2], f[6]) + Mul(f2[3], f2[5]) + Mul(f[4], f[4]) + Mul(f[9], f38[9])
  }

  function Square9(f: seq<int64>, f2: seq<int64>, f19: seq<int64>, f38: seq<int64>): (h: int64)
    requires PreparedSquare(f, f2, f19, f38)
    ensures h as int == Column(f, f, 9) && Within(2 * h as int, MAX)
  {
    hide Prod;
    ScaledSquares(f, f2, f19, f38, 9);
    Mul(f2[0], f[9]) + Mul(f2[1], f[8]) + Mul(f2[2], f[7]) + Mul(f2[3], f[6]) + Mul(f2[4], f[5])
  }

  /** The shared terms of a square are computed once and doubled: the same ten columns as a product. */
  method SquareLimbs(f: array<int32>) returns (h: seq<int64>)
    requires f.Length == 10 && Bounded(f[..], LOOSER)
    ensures IsProduct(Wide(f[..]), Wide(f[..]), h)
    ensures forall k :: 0 <= k < 10 ==> Within(2 * h[k] as int, MAX)
  {
    hide Column;
    var a := Wide(f[..]);
    var f2 := Wide([2 * f[0], 2 * f[1], 2 * f[2], 2 * f[3], 2 * f[4], 2 * f[5], 2 * f[6], 2 * f[7], 0, 0]);
    var f19 := [0, 0, 0, 0, 0, 0, 19 * a[6], 0, 19 * a[8], 0];
    var f38 := [0, 0, 0, 0, 0, 38 * a[5], 0, 38 * a[7], 0, 38 * a[9]];
    h := [
      Square0(a, f2, f19, f38), Square1(a, f2, f19, f38), Square2(a, f2, f19, f38), Square3(a, f2, f19, f38),
      Square4(a, f2, f19, f38), Square5(a, f2, f19, f38), Square6(a, f2, f19, f38), Square7(a, f2, f19, f38),
      Square8(a, f2, f19, f38), Square9(a, f2, f19, f38)];
  }

  method FeSquare(h: array<int32>, f: array<int32>)
    requires h.Length == f.Length == 10 && Bounded(f[..], LOOSE)
    modifies h
    ensures Bounded(h[..], TIGHT)
    ensures Value(h[..]) % P == (old(Value(f[..])) * old(Value(f[..]))) % P
  {
    hide Eval, Column, Ints;
    var s := SquareLimbs(f);
    ColumnsMultiply(Wide(f[..]), Wide(f[..]), s);
    FeCombine(h, s);
  }

  lemma DoubleDoubles(h: seq<int64>, d: seq<int64>)
    requires |h| == |d| == 10 && forall k :: 0 <= k < 10 ==> d[k] as int == 2 * h[k] as int
    ensures Eval(Ints(d)) == 2 * Eval(Ints(h))
  {
  }

  lemma TwiceResidue(a: int, b: int)
    requires a % P == b % P
    ensures (2 * a) % P == (2 * b) % P
  {
    var q := a / P - b / P;
    assert a == b + P * q;
    SameResidue(2 * a, 2 * b, 2 * q);
  }

  method FeSquare2(h: array<int32>, f: array<int32>)
    requires h.Length == f.Length == 10 && Bounded(f[..], LOOSER)
    modifies h
    ensures Bounded(h[..], TIGHT)
    ensures Value(h[..]) % P == (2 * (old(Value(f[..])) * old(Value(f[..])))) % P
  {
    hide Eval, Column, Ints;
    var s := SquareLimbs(f);
    ColumnsMultiply(Wide(f[..]), Wide(f[..]), s);
    var d := seq(10, k requires 0 <= k < 10 => s[k] + s[k]);
    DoubleDoubles(s, d);
    TwiceResidue(Eval(Ints(s)), Value(f[..]) * Value(f[..]));
    FeCombine(h, d);
  }
}
