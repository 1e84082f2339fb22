/** Inversion in the field by raising to the power P - 2 (edwards25519.go). */
module FieldInversion {
  import opened FieldArithmetic
  import opened Powers
  import Primes
  import FieldPrime

  /** v stands for the n-th power of z modulo P. */
  ghost predicate IsPower(v: int, z: int, n: int) {
    n >= 0 && v % P == Pow(z, n) % P
  }

  lemma PowersMultiply(v: int, a: int, m: int, b: int, n: int, z: int)
    requires IsPower(a, z, m) && IsPower(b, z, n) && v % P == (a * b) % P
    ensures IsPower(v, z, m + n)
  {
    Primes.SameProduct(a, b, Pow(z, m), Pow(z, n), P);
    PowAdd(z, m, n);
  }

  /** The limbs h are within bounds and stand for the n-th power of z. */
  ghost predicate Holds(h: seq<int32>, z: int, n: int) {
    |h| == 10 && Bounded(h, LOOSE) && IsPower(Value(h), z, n)
  }

  method Multiply(h: array<int32>, f: array<int32>, g: array<int32>, ghost z: int, ghost m: int, ghost n: int)
    requires h.Length == f.Length == g.Length == 10
    requires Holds(f[..], z, m) && Holds(g[..], z, n)
    modifies h
    ensures Holds(h[..], z, m + n) && Bounded(h[..], TIGHT)
  {
    hide IsPower, Value;
    ghost var a, b := Value(f[..]), Value(g[..]);
    FeMul(h, f, g);
    PowersMultiply(Value(h[..]), a, m, b, n, z);
  }

  method Square(h: array<int32>, f: array<int32>, ghost z: int, ghost n: int)
    requires h.Length == f.Length == 10 && Holds(f[..], z, n)
    modifies h
    ensures Holds(h[..], z, 2 * n)
  {
    hide IsPower, Value;
    ghost var a := Value(f[..]);
    FeSquare(h, f);
    PowersMultiply(Value(h[..]), a, n, a, n, z);
  }

  /** Squares count times. */
  method SquareTimes(h: array<int32>, f: array<int32>, count: nat, ghost z: int, ghost n: int)
    requires h.Length == f.Length == 10 && count >= 1 && Holds(f[..], z, n)
    modifies h
    ensures Holds(h[..], z, Pow(2, count) * n)
  {
    hide Holds;
    Square(h, f, z, n);
    assert Pow(2, 1) == 2;
    for i := 1 to count
      invariant Holds(h[..], z, Pow(2, i) * n)
    {
      Square(h, h, z, Pow(2, i) * n);
      assert 2 * (Pow(2, i) * n) == Pow(2, i + 1) * n;
    }
  }

  /** f^(2^k) * g, where the exponents of f and g are m and k one-bits: one of m + k one-bits. */
  method Append(h: array<int32>, t: array<int32>, f: array<int32>, g: array<int32>, m: nat, k: nat, ghost z: int)
    requires h.Length == t.Length == f.Length == g.Length == 10 && k >= 1 && t != g
    requires Holds(f[..], z, Pow(2, m) - 1) && Holds(g[..], z, Pow(2, k) - 1)
    modifies h, t
    ensures Holds(h[..], z, Pow(2, m + k) - 1)
  {
    hide Holds;
    SquareTimes(t, f, k, z, Pow(2, m) - 1);
    Multiply(h, t, g, z, Pow(2, k) * (Pow(2, m) - 1), Pow(2, k) - 1);
    PowAdd(2, m, k);
    assert Pow(2, k) * (Pow(2, m) - 1) + (Pow(2, k) - 1) == Pow(2, m + k) - 1;
  }

  lemma Exponent()
    ensures Pow(2, 2) == 4 && Pow(2, 5) == 32
    ensures Pow(2, 5) * (Pow(2, 250) - 1) + 11 == P - 2
  {
    assert Pow(2, 5) == 32;
    hide Pow;
    PowAdd(2, 5, 5);
    PowAdd(2, 10, 10);
    PowAdd(2, 20, 5);
    assert Pow(2, 25) == 0x200_0000;
    PowAdd(2, 25, 25);
    PowAdd(2, 50, 50);
    PowAdd(2, 100, 25);
    assert Pow(2, 125) == 0x2000_0000_0000_0000_0000_0000_0000_0000;
    PowAdd(2, 125, 125);
  }

  /** P is prime, so by Fermat's little theorem z^(P-2) inverts z unless z is zero in the field. */
  lemma PowerInverts(v: int, z: int)
    requires IsPower(v, z, P - 2)
    ensures if z % P == 0 then v % P == 0 else (v * z) % P == 1
  {
    assert IsPower(z, z, 1) by {
      Primes.PowUnfolds(z, 1);
    }
    FieldPrime.FieldIsPrime();
    hide Pow, Primes.Prime;
    if z % P == 0 {
      Primes.PowResidue(z, P - 2, P);
      Primes.PowUnfolds(0, P - 2);
    } else {
      PowersMultiply(v * z, v, P - 2, z, 1, z);
      Primes.PowResidue(z, P - 1, P);
      Primes.ResidueTwice(z, P);
      Primes.Fermat(P, z % P);
    }
  }

  /** The addition chain of the inverse; zero is its own. */
  method FeInvert(out: array<int32>, z: array<int32>)
    requires out.Length == z.Length == 10 && Bounded(z[..], LOOSE)
    modifies out
    ensures Bounded(out[..], TIGHT)
    ensures IsPower(Value(out[..]), old(Value(z[..])), P - 2)
    ensures
      var x := old(Value(z[..]));
      if x % P == 0 then Value(out[..]) % P == 0 else (Value(out[..]) * x) % P == 1
  {
    ghost var x := Value(z[..]);
    assert Holds(z[..], x, 1) by {
      assert Pow(x, 1) == x * Pow(x, 0);
    }
    hide Pow;
    Exponent();
    InvertPower(out, z, x);
    PowerInverts(Value(out[..]), x);
  }

  method AppendOnes(t1: array<int32>, t2: array<int32>, t3: array<int32>, ghost x: int)
    requires t1.Length == t2.Length == t3.Length == 10 && t1 != t2 && t2 != t3 && t1 != t3
    requires Holds(t1[..], x, Pow(2, 5) - 1)
    modifies t1, t2, t3
    ensures Holds(t1[..], x, Pow(2, 250) - 1)
  {
    hide Holds, Pow;
    Append(t1, t2, t1, t1, 5, 5, x);
    Append(t2, t2, t1, t1, 10, 10, x);
    Append(t2, t3, t2, t2, 20, 20, x);
    Append(t1, t2, t2, t1, 40, 10, x);
    Append(t2, t2, t1, t1, 50, 50, x);
    Append(t2, t3, t2, t2, 100, 100, x);
    Append(t1, t2, t2, t1, 200, 50, x);
  }

  method InvertPower(out: array<int32>, z: array<int32>, ghost x: int)
    requires out.Length == z.Length == 10 && Holds(z[..], x, 1)
    modifies out
    ensures Holds(out[..], x, Pow(2, 5) * (Pow(2, 250) - 1) + 11) && Bounded(out[..], TIGHT)
  {
    hide Holds, Pow, Bounded;
    Exponent();
    var t0, t1, t2, t3 := new int32[10], new int32[10], new int32[10], new int32[10];
    Square(t0, z, x, 1);
    SquareTimes(t1, t0, 2, x, 2);
    Multiply(t1, z, t1, x, 1, 8);
    Multiply(t0, t0, t1, x, 2, 9);
    Square(t2, t0, x, 11);
    Multiply(t1, t1, t2, x, 9, 22);
    AppendOnes(t1, t2, t3, x);
    SquareTimes(t1, t1, 5, x, Pow(2, 250) - 1);
    Multiply(out, t1, t0, x, Pow(2, 5) * (Pow(2, 250) - 1), 11);
  }
}
