/** Signed-digit recodings of scalars (edwards25519.go): sliding windows, and radix 16. */
module Recoding {
  import opened Powers
  import Primes

  newtype int8 = x: int | -0x80 <= x < 0x80
  newtype byte = x: int | 0 <= x < 0x100

  /** 2^256 */
  const TWO_256 := 0x1_0000_0000_0000_0000_0000_0000_0000_0000_0000_0000_0000_0000_0000_0000_0000_0000

  /** The value of digits i and up, least significant first, in units of digit i. */
  function Sum(base: nat, s: seq<int8>, i: nat): int
    requires i <= |s|
    decreases |s| - i
  {
    if i == |s| then 0 else s[i] as int + base * Sum(base, s, i + 1)
  }

  lemma Weigh(base: nat, n: nat, x: int, d: int)
    ensures base * (x + Pow(base, n) * d) == base * x + Pow(base, n + 1) * d
  {
    var p := Pow(base, n);
    assert base * (x + p * d) == base * x + base * (p * d);
    assert base * (p * d) == (base * p) * d;
  }

  /** Writing digit j changes the value by the difference at its weight. */
  lemma {:induction false} Update(base: nat, s: seq<int8>, i: nat, j: nat, v: int8)
    requires i <= |s| && j < |s|
    ensures Sum(base, s[j := v], i) ==
      if i <= j then Sum(base, s, i) + Pow(base, j - i) * (v as int - s[j] as int) else Sum(base, s, i)
    decreases |s| - i
  {
    if i < |s| {
      Update(base, s, i + 1, j, v);
      if i < j {
        Weigh(base, j - i - 1, Sum(base, s, i + 1), v as int - s[j] as int);
      } else if i == j {
        assert Pow(base, 0) == 1;
      }
    }
  }

  /** Strings that differ only from digit j on differ by as much as those digits do. */
  lemma {:induction false} SamePrefix(base: nat, s: seq<int8>, t: seq<int8>, i: nat, j: nat)
    requires i <= j <= |s| == |t| && forall k :: i <= k < j ==> s[k] == t[k]
    ensures Sum(base, s, i) == Sum(base, t, i) + Pow(base, j - i) * (Sum(base, s, j) - Sum(base, t, j))
    decreases j - i
  {
    if i < j {
      var x, y := Sum(base, s, i + 1), Sum(base, t, i + 1);
      assert Sum(base, s, i) == s[i] as int + base * x && Sum(base, t, i) == t[i] as int + base * y;
      hide Pow, Sum;
      SamePrefix(base, s, t, i + 1, j);
      Weigh(base, j - i - 1, y, Sum(base, s, j) - Sum(base, t, j));
    } else {
      hide Sum;
      assert Pow(base, 0) == 1;
    }
  }

  // --- bits

  ghost predicate Bits(s: seq<int8>, i: nat) {
    forall k :: i <= k < |s| ==> s[k] == 0 || s[k] == 1
  }

  lemma {:induction false} BitsBelow(s: seq<int8>, i: nat)
    requires i <= |s| && Bits(s, i)
    ensures 0 <= Sum(2, s, i) < Pow(2, |s| - i)
    decreases |s| - i
  {
    if i < |s| {
      BitsBelow(s, i + 1);
    }
  }

  lemma {:induction false} AllOnes(s: seq<int8>, i: nat)
    requires i <= |s| && forall k :: i <= k < |s| ==> s[k] == 1
    ensures Sum(2, s, i) == Pow(2, |s| - i) - 1
    decreases |s| - i
  {
    if i < |s| {
      AllOnes(s, i + 1);
    }
  }

  lemma {:induction false} ZerosBetween(s: seq<int8>, i: nat, j: nat)
    requires i <= j <= |s| && forall k :: i <= k < j ==> s[k] == 0
    ensures Sum(2, s, i) == Pow(2, j - i) * Sum(2, s, j)
    decreases j - i
  {
    if i < j {
      ZerosBetween(s, i + 1, j);
    }
  }

  /** Adds one at bit from; lost tells that the carry ran off the end. */
  method AddOne(r: array<int8>, from: nat) returns (ghost lost: bool)
    requires from < r.Length && Bits(r[..], from)
    modifies r
    ensures r[..from] == old(r[..from]) && Bits(r[..], from)
    ensures Sum(2, r[..], from) == old(Sum(2, r[..], from)) + 1 - (if lost then Pow(2, r.Length - from) else 0)
    ensures lost ==> old(Sum(2, r[..], from)) == Pow(2, r.Length - from) - 1
    ensures old(r[from]) == 1 ==> r[from] == 0
  {
    ghost var was := r[..];
    var k := from;
    while k < r.Length
      invariant from <= k <= r.Length
      invariant forall j :: from <= j < k ==> was[j] == 1 && r[j] == 0
      invariant forall j :: k <= j < r.Length ==> r[j] == was[j]
      invariant r[..from] == was[..from]
      invariant Sum(2, r[..], from) == Sum(2, was, from) + 1 - Pow(2, k - from)
    {
      ghost var now := r[..];
      if r[k] == 0 {
        Update(2, now, from, k, 1);
        r[k] := 1;
        assert r[..] == now[k := 1];
        return false;
      }
      Update(2, now, from, k, 0);
      r[k] := 0;
      assert r[..] == now[k := 0];
      k := k + 1;
    }
    AllOnes(was, from);
    return true;
  }

  // --- sliding windows

  function Shl(x: int8, b: nat): (r: int8)
    requires 0 <= x <= 1 && b <= 6
    ensures r as int == Pow(2, b) * x as int && 0 <= r <= 64
  {
    SmallPowers();
    if b == 0 then x else if b == 1 then 2 * x else if b == 2 then 4 * x else if b == 3 then 8 * x
    else if b == 4 then 16 * x else if b == 5 then 32 * x else 64 * x
  }

  lemma SmallPowers()
    ensures Pow(2, 0) == 1 && Pow(2, 1) == 2 && Pow(2, 2) == 4 && Pow(2, 3) == 8
    ensures Pow(2, 4) == 16 && Pow(2, 5) == 32 && Pow(2, 6) == 64
  {
  }

  ghost predicate Small(d: int8) {
    -15 <= d <= 15 && d % 2 == 1
  }

  /** Moves bit i + b into digit i. */
  method Absorb(r: array<int8>, i: nat, b: nat)
    requires 1 <= b <= 6 && i + b < r.Length && Bits(r[..], i + 1) && Small(r[i])
    requires r[i + b] == 1 && r[i] + Shl(r[i + b], b) <= 15
    modifies r
    ensures r[..] == old(r[..][i := r[i] + Shl(r[i + b], b)][i + b := 0])
    ensures Sum(2, r[..], i) == old(Sum(2, r[..], i))
    ensures Small(r[i]) && Bits(r[..], i + 1)
  {
    ghost var was := r[..];
    var v := r[i] + Shl(r[i + b], b);
    Update(2, was, i, i, v);
    r[i] := v;
    assert r[..] == was[i := v];
    Update(2, r[..], i, i + b, 0);
    r[i + b] := 0;
    assert r[..] == was[i := v][i + b := 0];
    SmallPowers();
  }

  lemma Distribute(p: int, q: int)
    ensures p * (1 - q) == p - p * q
  {
  }

  /** Takes bit i + b from digit i, and adds it twice above. */
  method Borrow(r: array<int8>, i: nat, b: nat) returns (ghost lost: bool)
    requires 1 <= b <= 6 && i + b < r.Length && Bits(r[..], i + 1) && Small(r[i])
    requires r[i + b] == 1 && r[i] - Shl(r[i + b], b) >= -15
    modifies r
    ensures r[..i] == old(r[..i]) && r[i + b] == 0 && forall k :: i < k < i + b ==> r[k] == old(r[k])
    ensures r[i] == old(r[i] - Shl(r[i + b], b))
    ensures Small(r[i]) && Bits(r[..], i + 1)
    ensures Sum(2, r[..], i) == old(Sum(2, r[..], i)) - (if lost then Pow(2, r.Length - i) else 0)
    ensures lost ==> old(Sum(2, r[..], i + b)) == Pow(2, r.Length - i - b) - 1
  {
    hide Sum, Pow;
    ghost var was := r[..];
    SmallPowers();
    var v := r[i] - Shl(r[i + b], b);
    Update(2, was, i, i, v);
    Update(2, was, i + b, i, v);
    r[i] := v;
    ghost var now := r[..];
    assert now == was[i := v];
    lost := AddOne(r, i + b);
    forall k | 0 <= k < i + b ensures r[k] == now[k] {
      assert r[..i + b][k] == now[..i + b][k];
    }
    SamePrefix(2, r[..], now, i, i + b);
    PowAdd(2, b, r.Length - i - b);
    Distribute(Pow(2, b), Pow(2, r.Length - i - b));
  }

  /** Digit i with a positive digit so far: the bits below b have been absorbed. */
  ghost predicate Absorbing(s: seq<int8>, i: nat, b: nat)
    requires i < |s|
  {
    s[i] > 0 && (b <= 4 ==> s[i] as int < Pow(2, b)) && Gap(s, i, b)
  }

  /** Zeros between digit i and digit i + b, of which the first four are for good. */
  ghost predicate Gap(s: seq<int8>, i: nat, b: nat) {
    forall k :: i < k < i + b && k < i + 5 && k < |s| ==> s[k] == 0
  }

  /** Digit i after a borrow at its fifth bit. */
  ghost predicate Borrowed(s: seq<int8>, i: nat, b: nat)
    requires i < |s|
  {
    s[i] < 0 && b >= 5 && i + 4 < |s| && Gap(s, i, 5)
  }

  /** Gathers up to six bits above a set bit i into digit i. */
  method Window(r: array<int8>, i: nat) returns (ghost lost: bool)
    requires i < r.Length && Bits(r[..], i) && r[i] == 1
    modifies r
    ensures r[..i] == old(r[..i]) && Bits(r[..], i + 1) && Small(r[i]) && Gap(r[..], i, 5)
    ensures Sum(2, r[..], i) == old(Sum(2, r[..], i)) - (if lost then Pow(2, r.Length - i) else 0)
    ensures lost ==> i + 4 < r.Length
  {
    hide Sum, Pow;
    ghost var x := Sum(2, r[..], i);
    SmallPowers();
    lost := false;
    var b := 1;
    while b <= 6 && i + b < r.Length
      invariant 1 <= b <= 7
      invariant r[..i] == old(r[..i]) && Bits(r[..], i + 1) && Small(r[i])
      invariant Sum(2, r[..], i) == x - (if lost then Pow(2, r.Length - i) else 0)
      invariant (!lost && Absorbing(r[..], i, b)) || Borrowed(r[..], i, b)
    {
      if r[i + b] != 0 {
        if r[i] + Shl(r[i + b], b) <= 15 {
          Absorb(r, i, b);
        } else if r[i] - Shl(r[i + b], b) >= -15 {
          assert b == 4;
          lost := Borrow(r, i, b);
        } else {
          break;
        }
      }
      b := b + 1;
    }
  }

  // --- scalars

  /** The integer whose bytes from i on these are, least significant first, in units of byte i. */
  function Scalar(a: seq<byte>, i: nat): nat
    requires i <= |a|
    decreases |a| - i
  {
    if i == |a| then 0 else a[i] as int + 256 * Scalar(a, i + 1)
  }

  /** v shifted right by n bits. */
  function Shr(v: nat, n: nat): nat {
    if n == 0 then v else Shr(v, n - 1) / 2
  }

  /** Bit i of the bytes. */
  function Bit(a: seq<byte>, i: nat): int8
    requires i < 8 * |a|
  {
    (Shr(a[i / 8] as int, i % 8) % 2) as int8
  }

  /** The bits of one byte. */
  lemma {:induction false} ByteOfBits(a: seq<byte>, s: seq<int8>, i: nat, n: nat)
    requires |s| == 8 * |a| && i < |a| && n <= 8
    requires forall k :: 0 <= k < |s| ==> s[k] == Bit(a, k)
    ensures Sum(2, s, 8 * i + n) == Shr(a[i] as int, n) + Pow(2, 8 - n) * Sum(2, s, 8 * i + 8)
    decreases 8 - n
  {
    var v, rest := a[i] as int, Sum(2, s, 8 * i + 8);
    if n < 8 {
      ByteOfBits(a, s, i, n + 1);
      BitOfByte(a, i, n);
      Weigh(2, 7 - n, Shr(v, n + 1), rest);
      assert Sum(2, s, 8 * i + n) == s[8 * i + n] as int + 2 * Sum(2, s, 8 * i + n + 1);
    } else {
      ShiftedOut(v);
    }
  }

  lemma ShiftedOut(v: nat)
    requires v < 256
    ensures Shr(v, 8) == 0
  {
    assert Shr(v, 1) == v / 2 < 128;
    assert Shr(v, 2) == Shr(v, 1) / 2 < 64;
    assert Shr(v, 3) == Shr(v, 2) / 2 < 32;
    assert Shr(v, 4) == Shr(v, 3) / 2 < 16;
    assert Shr(v, 5) == Shr(v, 4) / 2 < 8;
    assert Shr(v, 6) == Shr(v, 5) / 2 < 4;
    assert Shr(v, 7) == Shr(v, 6) / 2 < 2;
  }

  lemma BitOfByte(a: seq<byte>, i: nat, n: nat)
    requires i < |a| && n < 8
    ensures Bit(a, 8 * i + n) as int == Shr(a[i] as int, n) % 2
  {
    assert (8 * i + n) / 8 == i && (8 * i + n) % 8 == n;
  }

  lemma {:induction false} ScalarOfBits(a: seq<byte>, s: seq<int8>, i: nat)
    requires |s| == 8 * |a| && i <= |a|
    requires forall k :: 0 <= k < |s| ==> s[k] == Bit(a, k)
    ensures Sum(2, s, 8 * i) == Scalar(a, i)
    decreases |a| - i
  {
    if i < |a| {
      ScalarOfBits(a, s, i + 1);
      ByteOfBits(a, s, i, 0);
      SmallPowers();
      assert Pow(2, 8) == 4 * Pow(2, 6);
    }
  }

  ghost predicate Digits(s: seq<int8>, n: nat) {
    forall k :: 0 <= k < n && k < |s| && s[k] != 0 ==> Small(s[k]) && Gap(s, k, 5)
  }

  /** Rewriting from a set bit i on does not touch the gaps after earlier digits. */
  lemma GapsStay(s: seq<int8>, t: seq<int8>, i: nat)
    requires i < |s| == |t| && s[i] != 0 && Digits(s, i) && s[..i] == t[..i]
    ensures Digits(t, i)
  {
    forall k | 0 <= k < i ensures s[k] == t[k] {
      assert s[..i][k] == t[..i][k];
    }
    forall k | 0 <= k < i && t[k] != 0 ensures Small(t[k]) && Gap(t, k, 5) {
      assert Gap(s, k, 5);
    }
  }

  // --- exactly when no carry is lost

  /** The digit that a window takes off a number: odd numbers are rounded to the nearest multiple of 32. */
  function Digit(x: int): int {
    if x % 2 == 0 then 0 else if x % 32 < 16 then x % 32 else x % 32 - 32
  }

  lemma Parity(x: nat, q: nat, r: nat)
    requires x == 32 * q + r
    ensures x % 2 == r % 2
  {
    assert x == 2 * (16 * q) + r;
  }

  /** What is left above the digit. */
  function Above(x: nat): (y: nat)
    ensures x == Digit(x) + 2 * y
  {
    hide Digit;
    DigitFacts(x);
    (x - Digit(x)) / 2
  }

  lemma DigitFacts(x: nat)
    ensures -16 < Digit(x) < 16 && (Digit(x) == 0 <==> x % 2 == 0) && (Digit(x) != 0 ==> Digit(x) % 2 == 1)
    ensures Digit(x) != 0 ==> (x - Digit(x)) % 32 == 0
    ensures Digit(x) < 0 ==> x >= 17
    ensures Digit(x) <= x && (x - Digit(x)) % 2 == 0
  {
    var q, r := x / 32, x % 32;
    assert x == 32 * q + r;
    Parity(x, q, r);
    if x % 2 == 1 {
      Multiple(if r < 16 then q else q + 1);
      assert x - Digit(x) == 32 * if r < 16 then q else q + 1;
    }
  }

  lemma Multiple(k: nat)
    ensures (32 * k) % 32 == 0 && (32 * k) % 2 == 0
  {
    Remainder(32 * k, k, 0);
    Even(32 * k, 16 * k);
  }

  lemma Even(x: nat, h: nat)
    requires x == 2 * h
    ensures x % 2 == 0
  {
  }

  lemma Remainder(x: nat, q: nat, r: nat)
    requires x == 32 * q + r && r < 32
    ensures x % 32 == r
  {
  }

  /** Rounding a scalar of n bits, window by window, never takes it to the next power of two. */
  predicate KeepsAll(x: nat, n: nat)
    decreases n
  {
    n < 5 || (Above(x) < Pow(2, n - 1) && KeepsAll(Above(x), n - 1))
  }

  lemma KeepsAllStep(x: nat, n: nat, y: int)
    requires n >= 5 && x == Digit(x) + 2 * y
    ensures KeepsAll(x, n) <==> y < Pow(2, n - 1) && y >= 0 && KeepsAll(y, n - 1)
  {
    hide Digit, Pow;
    assert y == Above(x);
  }

  lemma DigitIs(x: int, d: int)
    requires (x - d) % 32 == 0 && -16 < d < 16 && d % 2 == 1
    ensures Digit(x) == d
  {
  }

  lemma PowerIsEven32(n: nat)
    requires n >= 5
    ensures Pow(2, n) % 32 == 0
  {
    SmallPowers();
    hide Pow;
    PowAdd(2, 5, n - 5);
    var k: int := Pow(2, n - 5);
    assert Pow(2, n) == 32 * k;
  }

  /** Window computes Digit. */
  lemma WindowTakesDigit(s: seq<int8>, i: nat, x: int, lost: bool)
    requires i + 4 < |s| && Gap(s, i, 5) && Small(s[i])
    requires Sum(2, s, i) == x - (if lost then Pow(2, |s| - i) else 0)
    ensures Digit(x) == s[i] as int
  {
    hide Digit, Pow;
    SmallPowers();
    ZerosBetween(s, i + 1, i + 5);
    PowerIsEven32(|s| - i);
    var tail, top: int := Sum(2, s, i + 5), Pow(2, |s| - i);
    assert Sum(2, s, i) == s[i] as int + 32 * tail;
    assert (x - s[i] as int) % 32 == 0 by {
      assert (32 * tail) % 32 == 0;
    }
    DigitIs(x, s[i] as int);
  }

  /** Step i replaces digits from i on, keeping their value or losing one carry. */
  ghost predicate Stepped(s: seq<int8>, t: seq<int8>, i: nat, lost: bool) {
    && i < |s| == |t| == 256 && s[..i] == t[..i] && Bits(s, i) && Bits(t, i + 1)
    && Sum(2, t, i) == Sum(2, s, i) - (if lost then Pow(2, 256 - i) else 0)
    && (s[i] == 0 ==> t == s && !lost)
    && (s[i] != 0 ==> Small(t[i]) && Gap(t, i, 5) && (lost ==> i + 4 < 256))
  }

  lemma Lost(x: int, p: int, q: int, m: int)
    requires p * q == m
    ensures x + p * (-q) == x - m
  {
  }

  lemma StepKeepsValue(s: seq<int8>, t: seq<int8>, i: nat, lost: bool)
    requires i < |s| == |t| == 256 && s[..i] == t[..i]
    requires Sum(2, t, i) == Sum(2, s, i) - (if lost then Pow(2, 256 - i) else 0)
    ensures Sum(2, t, 0) == Sum(2, s, 0) - (if lost then TWO_256 else 0)
  {
    hide Sum, Pow;
    forall k | 0 <= k < i ensures s[k] == t[k] {
      assert s[..i][k] == t[..i][k];
    }
    SamePrefix(2, t, s, 0, i);
    if lost {
      PowAdd(2, i, 256 - i);
      PowerIs256();
      Lost(Sum(2, s, 0), Pow(2, i), Pow(2, 256 - i), TWO_256);
      var q: int := Pow(2, 256 - i);
      assert Sum(2, t, i) - Sum(2, s, i) == -q;
    } else {
      assert Sum(2, t, i) - Sum(2, s, i) == 0;
    }
  }

  /** A step loses a carry exactly when rounding goes too far. */
  lemma StepKeepsAll(s: seq<int8>, t: seq<int8>, i: nat, lost: bool)
    requires Stepped(s, t, i, lost)
    ensures Sum(2, s, i) >= 0 && Sum(2, t, i + 1) >= 0
    ensures KeepsAll(Sum(2, s, i), 256 - i) <==> !lost && KeepsAll(Sum(2, t, i + 1), 256 - i - 1)
  {
    BitsBelow(s, i);
    BitsBelow(t, i + 1);
    var x, y, n := Sum(2, s, i), Sum(2, t, i + 1), 256 - i;
    assert Sum(2, t, i) == t[i] as int + 2 * y;
    if n >= 5 {
      hide KeepsAll, Digit, Sum;
      if s[i] != 0 {
        WindowTakesDigit(t, i, x, lost);
        KeepsAllStep(x, n, if lost then y + Pow(2, n - 1) else y);
      } else {
        DigitFacts(x);
        KeepsAllStep(x, n, y);
      }
    }
  }

  lemma PowerIs256()
    ensures Pow(2, 256) == TWO_256
  {
    SmallPowers();
    hide Pow;
    PowAdd(2, 4, 4);
    PowAdd(2, 8, 8);
    PowAdd(2, 16, 16);
    PowAdd(2, 32, 32);
    assert Pow(2, 64) == 0x1_0000_0000_0000_0000;
    PowAdd(2, 64, 64);
    PowAdd(2, 128, 128);
  }

  /** The number whose bits n, n - 5, n - 10, ... are set. */
  function Sparse(n: nat): nat {
    2 * (if n == 0 then 0 else Sparse(n - 1)) + EveryFifth(n)
  }

  function EveryFifth(n: nat): nat {
    if n % 5 == 0 then 1 else 0
  }

  lemma {:induction false} SparseBetween(n: nat)
    ensures Pow(2, n) <= Sparse(n) < Pow(2, n + 1)
  {
    if n > 0 {
      SparseBetween(n - 1);
    } else {
      SmallPowers();
    }
  }

  /** Its last five bits are one set bit. */
  lemma SparseFive(n: nat)
    requires n >= 5
    ensures Sparse(n) == 32 * Sparse(n - 5) + Pow(2, n % 5)
  {
    SmallPowers();
    hide EveryFifth;
    assert Sparse(n) == 2 * Sparse(n - 1) + EveryFifth(n);
    assert Sparse(n - 1) == 2 * Sparse(n - 2) + EveryFifth(n - 1);
    assert Sparse(n - 2) == 2 * Sparse(n - 3) + EveryFifth(n - 2);
    assert Sparse(n - 3) == 2 * Sparse(n - 4) + EveryFifth(n - 3);
    assert Sparse(n - 4) == 2 * Sparse(n - 5) + EveryFifth(n - 4);
    OneInFive(n);
  }

  lemma OneInFive(n: nat)
    requires n >= 5
    ensures 16 * EveryFifth(n - 4) + 8 * EveryFifth(n - 3) + 4 * EveryFifth(n - 2) + 2 * EveryFifth(n - 1) + EveryFifth(n)
         == Pow(2, n % 5)
  {
    var k := n / 5;
    SmallPowers();
    hide Pow;
    match n % 5
    case 0 => assert n == 5 * k;
    case 1 => assert n == 5 * k + 1;
    case 2 => assert n == 5 * k + 2;
    case 3 => assert n == 5 * k + 3;
    case _ => assert n == 5 * k + 4;
  }

  lemma SparseEnds(n: nat)
    requires n >= 4
    ensures Sparse(n) % 32 <= 16
  {
    SmallPowers();
    if n >= 5 {
      SparseFive(n);
      Remainder(Sparse(n), Sparse(n - 5), Pow(2, n % 5));
    } else {
      SparseFour();
    }
  }

  lemma SparseFour()
    ensures Sparse(3) == 8 && Sparse(4) == 16
  {
    assert Sparse(0) == 1;
    assert Sparse(2) == 4;
  }

  /** Rounding up to a multiple of 32 does not step over a number that ends in at most 16. */
  lemma RoundsWithin(x: nat, s: nat)
    requires x <= s && s % 32 <= 16
    ensures x - Digit(x) <= s
  {
    hide Digit;
    DigitFacts(x);
    if Digit(x) < 0 {
      var k, q, r := (x - Digit(x)) / 32, s / 32, s % 32;
      assert x - Digit(x) == 32 * k && s == 32 * q + r;
    }
  }

  /** No carry is lost up to the sparse number with one bit less than the scalar. */
  lemma {:induction false} SmallKeepsAll(x: nat, n: nat)
    requires n >= 1 && x <= Sparse(n - 1)
    ensures KeepsAll(x, n)
    decreases n
  {
    if n >= 5 {
      SparseEnds(n - 1);
      RoundsWithin(x, Sparse(n - 1));
      SparseBetween(n - 2);
      assert Sparse(n - 1) == 2 * Sparse(n - 2) + EveryFifth(n - 1);
      hide Digit, Sparse;
      SmallKeepsAll(Above(x), n - 1);
    }
  }

  /** The next number, at lengths that are multiples of five, loses its top carry. */
  lemma {:induction false} NextIsLost(n: nat)
    requires n >= 5 && n % 5 == 0
    ensures !KeepsAll(Sparse(n - 1) + 1, n)
    decreases n
  {
    if n == 5 {
      FiveBitsLost();
    } else {
      hide *;
      NextIsLost(n - 5);
      var y := Sparse(n - 6) + 1;
      NextIs(n);
      RoundsUp(y, n);
      EvenSteps(y, n - 5);
    }
  }

  lemma FiveBitsLost()
    ensures !KeepsAll(Sparse(4) + 1, 5)
  {
    SparseFour();
    SmallPowers();
    assert Above(17) == 16;
  }

  lemma NextIs(n: nat)
    requires n >= 10 && n % 5 == 0
    ensures Sparse(n - 1) + 1 == 32 * (Sparse(n - 6) + 1) - 15
  {
    hide Sparse;
    SparseFive(n - 1);
    SmallPowers();
  }

  lemma RoundsUp(y: nat, n: nat)
    requires n >= 5 && y > 0
    ensures KeepsAll(32 * y - 15, n) ==> KeepsAll(16 * y, n - 1)
  {
    hide KeepsAll;
    DigitIs(32 * y - 15, -15);
    KeepsAllStep(32 * y - 15, n, 16 * y);
  }

  /** Four halvings. */
  lemma EvenSteps(y: nat, n: nat)
    requires n >= 5
    ensures KeepsAll(16 * y, n + 4) ==> KeepsAll(y, n)
  {
    hide KeepsAll;
    HalvingStep(8 * y, n + 3);
    HalvingStep(4 * y, n + 2);
    HalvingStep(2 * y, n + 1);
    HalvingStep(y, n);
  }

  lemma HalvingStep(y: nat, n: nat)
    requires n >= 4
    ensures KeepsAll(2 * y, n + 1) ==> KeepsAll(y, n)
  {
    hide KeepsAll;
    DigitFacts(2 * y);
    KeepsAllStep(2 * y, n + 1, y);
  }

  /** The least scalar of 256 bits that loses a carry has the bits 255, 250, ..., 10, 5 and 1 set. */
  lemma LeastLost(x: nat)
    ensures x <= Sparse(255) ==> KeepsAll(x, 256)
    ensures !KeepsAll(Sparse(255) + 1, 256) && Pow(2, 255) <= Sparse(255)
  {
    hide *;
    SparseBetween(255);
    if x <= Sparse(255) {
      SmallKeepsAll(x, 256);
    }
    NextIsLost(255);
    SparseLast(255);
    HalvingStep(Sparse(254) + 1, 255);
  }

  lemma SparseLast(n: nat)
    requires n > 0 && n % 5 == 0
    ensures Sparse(n) == 2 * Sparse(n - 1) + 1
  {
  }

  lemma {:induction false} LastByteBounds(a: seq<byte>, i: nat)
    requires i < |a| && a[|a| - 1] <= 127
    ensures Scalar(a, i) < Pow(2, 8 * (|a| - i) - 1)
    decreases |a| - i
  {
    SmallPowers();
    if i + 1 < |a| {
      LastByteBounds(a, i + 1);
      PowAdd(2, 4, 4);
      PowAdd(2, 8, 8 * (|a| - i - 1) - 1);
    } else {
      assert Scalar(a, i) == a[i] as int;
      PowAdd(2, 4, 3);
    }
  }

  lemma BoundedKeepsAll(a: seq<byte>)
    requires |a| == 32
    ensures Scalar(a, 0) <= Sparse(255) || a[31] <= 127 ==> KeepsAll(Scalar(a, 0), 256)
  {
    hide *;
    LeastLost(Scalar(a, 0));
    if a[31] <= 127 {
      LastByteBounds(a, 0);
    }
  }

  method FillBits(r: array<int8>, a: array<byte>)
    requires r.Length == 8 * a.Length
    modifies r
    ensures Bits(r[..], 0) && Sum(2, r[..], 0) == Scalar(a[..], 0)
  {
    for i := 0 to r.Length
      invariant forall k :: 0 <= k < i ==> r[k] == Bit(a[..], k)
    {
      r[i] := Bit(a[..], i);
    }
    ScalarOfBits(a[..], r[..], 0);
  }

  /**
   Every digit is zero or odd and of at most four bits, with at least four zeros after it. The digits
   stand for the scalar modulo 2^256, and for the scalar itself exactly if rounding keeps all carries,
   as it does up to 2^255 and for every scalar whose last byte is at most 127.
   */
  method Slide(r: array<int8>, a: array<byte>)
    requires r.Length == 256 && a.Length == 32
    modifies r
    ensures Digits(r[..], 256)
    ensures Sum(2, r[..], 0) % TWO_256 == Scalar(a[..], 0) % TWO_256
    ensures Sum(2, r[..], 0) == Scalar(a[..], 0) <==> KeepsAll(Scalar(a[..], 0), 256)
    ensures Scalar(a[..], 0) <= Sparse(255) || a[31] <= 127 ==> Sum(2, r[..], 0) == Scalar(a[..], 0)
  {
    hide Sum, Pow, Scalar, KeepsAll, Sparse, EveryFifth;
    FillBits(r, a);
    ghost var x := Scalar(a[..], 0);
    ghost var losses := 0;
    BoundedKeepsAll(a[..]);
    BitsBelow(r[..], 0);
    for i := 0 to 256
      invariant Bits(r[..], i) && Digits(r[..], i) && losses >= 0 && Sum(2, r[..], i) >= 0
      invariant Sum(2, r[..], 0) == x - losses * TWO_256
      invariant KeepsAll(x, 256) <==> losses == 0 && KeepsAll(Sum(2, r[..], i), 256 - i)
    {
      ghost var was := r[..];
      ghost var lost := false;
      if r[i] != 0 {
        lost := Window(r, i);
        GapsStay(was, r[..], i);
        losses := losses + if lost then 1 else 0;
      }
      StepKeepsValue(was, r[..], i, lost);
      StepKeepsAll(was, r[..], i, lost);
    }
    NothingLeft(Sum(2, r[..], 256));
    Primes.AddMultiple(x, -losses, TWO_256);
  }

  lemma NothingLeft(x: nat)
    ensures KeepsAll(x, 0)
  {
  }

  // --- radix 16

  /** The two digits of each byte, low one first. */
  ghost predicate Nibbles(a: seq<byte>, s: seq<int8>, n: nat) {
    |s| == 2 * |a| && forall i :: 0 <= i < n && i < |a| ==>
      s[2 * i] as int == a[i] as int % 16 && s[2 * i + 1] as int == a[i] as int / 16
  }

  lemma {:induction false} ScalarOfNibbles(a: seq<byte>, s: seq<int8>, i: nat)
    requires Nibbles(a, s, |a|) && i <= |a|
    ensures Sum(16, s, 2 * i) == Scalar(a, i)
    decreases |a| - i
  {
    if i < |a| {
      ScalarOfNibbles(a, s, i + 1);
      assert Sum(16, s, 2 * i + 1) == s[2 * i + 1] as int + 16 * Sum(16, s, 2 * i + 2);
    }
  }

  lemma {:induction false} NibblesAreSmall(a: seq<byte>, s: seq<int8>)
    requires Nibbles(a, s, |a|)
    ensures forall k :: 0 <= k < |s| ==> 0 <= s[k] <= 15
  {
    forall k | 0 <= k < |s| ensures 0 <= s[k] <= 15 {
      var i := k / 2;
      assert s[2 * i] as int == a[i] as int % 16 && s[2 * i + 1] as int == a[i] as int / 16;
      assert k == 2 * i || k == 2 * i + 1;
    }
  }

  /** The value of all digits and of a carry into digit i. */
  function WithCarry(s: seq<int8>, i: nat, c: int8): int {
    Sum(16, s, 0) + Pow(16, i) * c as int
  }

  lemma CarryMoves(p: int, c: int, c': int)
    ensures p * (c - 16 * c') + 16 * p * c' == p * c
  {
  }

  lemma CarryKeepsValue(s: seq<int8>, i: nat, c: int8, c': int8)
    requires i + 1 < |s| && -0x80 <= s[i] as int + c as int - 16 * c' as int < 0x80
    ensures
      var t := s[i := (s[i] as int + c as int - 16 * c' as int) as int8];
      WithCarry(t, i + 1, c') == WithCarry(s, i, c)
  {
    var d := c as int - 16 * c' as int;
    Update(16, s, 0, i, (s[i] as int + d) as int8);
    var p := Pow(16, i);
    assert Pow(16, i + 1) == 16 * p;
    CarryMoves(p, c as int, c' as int);
  }

  method FillNibbles(e: array<int8>, a: array<byte>)
    requires e.Length == 2 * a.Length
    modifies e
    ensures Nibbles(a[..], e[..], a.Length)
  {
    for i := 0 to a.Length
      invariant Nibbles(a[..], e[..], i)
    {
      var v := a[i];
      e[2 * i] := (v % 16) as int8;
      e[2 * i + 1] := (v / 16 % 16) as int8;
    }
  }

  /** The number with n ones in radix 16. */
  function Ones(n: nat): nat {
    if n == 0 then 0 else 1 + 16 * Ones(n - 1)
  }

  lemma {:induction false} OnesIsAlmostPower(n: nat)
    ensures 15 * Ones(n) + 1 == Pow(16, n)
  {
    if n > 0 {
      OnesIsAlmostPower(n - 1);
    }
  }

  /** Digits from -8 to 7 below the last one can only shift the value so far. */
  lemma {:induction false} BelowLast(s: seq<int8>, i: nat, last: nat)
    requires i <= last && |s| == last + 1 && forall k :: 0 <= k < last ==> -8 <= s[k] < 8
    ensures -8 * Ones(last - i) <= Sum(16, s, i) - Pow(16, last - i) * s[last] as int <= 7 * Ones(last - i)
    decreases last - i
  {
    if i < last {
      BelowLast(s, i + 1, last);
      Weigh(16, last - i - 1, Sum(16, s, i + 1) - Pow(16, last - i - 1) * s[last] as int, s[last] as int);
    } else {
      assert Sum(16, s, last) == s[last] as int + 16 * Sum(16, s, last + 1);
    }
  }

  lemma Threshold(p: int, o: int, d: int, x: int)
    requires p == 15 * o + 1 && o >= 0 && -8 * o <= x - p * d <= 7 * o
    ensures d <= 8 <==> x <= 8 * p + 7 * o
  {
    if d <= 8 {
      AtMost(p, d, 8);
    } else {
      AtMost(p, 9, d);
    }
  }

  lemma AtMost(p: int, x: int, y: int)
    requires p >= 0 && x <= y
    ensures p * x <= p * y
  {
  }

  /** The largest scalar whose last digit is at most 8. */
  function Largest(): int {
    8 * Pow(16, 63) + 7 * Ones(63)
  }

  lemma LastDigitIsSmall(s: seq<int8>)
    requires |s| == 64 && forall k :: 0 <= k < 63 ==> -8 <= s[k] < 8
    ensures s[63] <= 8 <==> Sum(16, s, 0) <= Largest()
  {
    hide Pow, Ones, Sum;
    BelowLast(s, 0, 63);
    OnesIsAlmostPower(63);
    Threshold(Pow(16, 63), Ones(63), s[63] as int, Sum(16, s, 0));
  }

  /** Brings all digits but the last into the range from -8 to 7, and returns the carry into the last. */
  method CarryDigits(e: array<int8>) returns (carry: int8)
    requires e.Length == 64 && forall k :: 0 <= k < 64 ==> 0 <= e[k] <= 15
    modifies e
    ensures 0 <= carry <= 1 && e[63] == old(e[63])
    ensures forall k :: 0 <= k < 63 ==> -8 <= e[k] < 8
    ensures WithCarry(e[..], 63, carry) == old(Sum(16, e[..], 0))
  {
    hide Sum, WithCarry, Pow;
    carry := 0;
    NoCarry(e[..]);
    for i := 0 to 63
      invariant 0 <= carry <= 1 && e[63] == old(e[63])
      invariant forall k :: 0 <= k < i ==> -8 <= e[k] < 8
      invariant forall k :: i <= k < 64 ==> 0 <= e[k] <= 15
      invariant WithCarry(e[..], i, carry) == old(Sum(16, e[..], 0))
    {
      ghost var was, c := e[..], carry;
      e[i] := e[i] + carry;
      carry := (e[i] + 8) / 16;
      e[i] := e[i] - carry * 16;
      CarryKeepsValue(was, i, c, carry);
      assert e[..] == was[i := e[i]];
    }
  }

  /**
   The recoding in GeScalarMultBase. The digits always stand for the scalar; all but the last lie
   from -8 to 7. The last lies from 0 to 8 exactly for scalars up to a bound; a[31] <= 127 is enough.
   */
  method Radix16(a: array<byte>) returns (e: array<int8>)
    requires a.Length == 32
    ensures fresh(e) && e.Length == 64
    ensures Sum(16, e[..], 0) == Scalar(a[..], 0)
    ensures forall k :: 0 <= k < 63 ==> -8 <= e[k] < 8
    ensures 0 <= e[63] && (e[63] <= 8 <==> Scalar(a[..], 0) <= Largest())
    ensures a[31] <= 127 ==> e[63] <= 8
  {
    hide Sum, Scalar, WithCarry, Pow, Largest;
    e := new int8[64];
    FillNibbles(e, a);
    ScalarOfNibbles(a[..], e[..], 0);
    NibblesAreSmall(a[..], e[..]);
    assert e[..][63] as int == a[..][31] as int / 16;
    hide Nibbles;
    var carry := CarryDigits(e);
    LastCarry(e[..], 63, carry);
    ghost var was := e[..];
    e[63] := e[63] + carry;
    assert e[..] == was[63 := e[63]];
    LastDigitIsSmall(e[..]);
  }

  lemma NoCarry(s: seq<int8>)
    ensures WithCarry(s, 0, 0) == Sum(16, s, 0)
  {
  }

  lemma LastCarry(s: seq<int8>, i: nat, c: int8)
    requires i < |s| && -0x80 <= s[i] as int + c as int < 0x80
    ensures Sum(16, s[i := s[i] + c], 0) == WithCarry(s, i, c)
  {
    Update(16, s, 0, i, s[i] + c);
  }
}
