/** Primes, Fermat's little theorem, and a way to certify that a number is prime. */
module Primes {
  import opened Powers

  ghost predicate Prime(p: nat) {
    p >= 2 && forall d: nat :: 2 <= d < p ==> p % d != 0
  }

  // --- residues

  lemma SmallMultiple(m: int, d: int)
    requires -m < m * d < m
    ensures d == 0
  {
  }

  lemma ResidueIs(y: int, m: int, q: int, r: int)
    requires 0 <= r < m && y == m * q + r
    ensures y % m == r
  {
    var q', r' := y / m, y % m;
    assert y == m * q' + r';
    assert m * (q - q') == m * q - m * q' == r' - r;
    SmallMultiple(m, q - q');
  }

  lemma AddMultiple(x: int, k: int, m: int)
    requires m > 0
    ensures (x + m * k) % m == x % m
  {
    assert x + m * k == m * (x / m + k) + x % m;
    ResidueIs(x + m * k, m, x / m + k, x % m);
  }

  lemma MultipleIs(x: int, m: int)
    requires m > 0
    ensures (m * x) % m == 0
  {
    AddMultiple(0, x, m);
  }

  lemma SumResidue(a: int, b: int, m: int)
    requires m > 0
    ensures (a + b) % m == (a % m + b % m) % m
  {
    assert a + b == a % m + b % m + m * (a / m + b / m);
    AddMultiple(a % m + b % m, a / m + b / m, m);
  }

  lemma ProductResidue(a: int, b: int, m: int)
    requires m > 0
    ensures (a * b) % m == ((a % m) * (b % m)) % m
  {
    var q, r, a', b' := a / m, b / m, a % m, b % m;
    var k := q * (m * r) + q * b' + a' * r;
    calc {
      a * b;
      (m * q + a') * (m * r + b');
      (m * q) * (m * r) + (m * q) * b' + a' * (m * r) + a' * b';
      a' * b' + m * k;
    }
    AddMultiple(a' * b', k, m);
  }

  lemma SameProduct(a: int, b: int, a': int, b': int, m: int)
    requires m > 0 && a % m == a' % m && b % m == b' % m
    ensures (a * b) % m == (a' * b') % m
  {
    ProductResidue(a, b, m);
    ProductResidue(a', b', m);
  }

  lemma ResidueTwice(x: int, m: int)
    requires m > 0
    ensures (x % m) % m == x % m
  {
    ResidueIs(x % m, m, 0, x % m);
  }

  /** A number that is a multiple of m is one of every divisor of m, so residues modulo m give those modulo the divisor. */
  lemma ResidueOfDivisor(x: int, m: int, d: int)
    requires m > 0 && d > 0 && m % d == 0
    ensures (x % m) % d == x % d
  {
    var q, k := x / m, m / d;
    assert x == x % m + d * (k * q);
    AddMultiple(x % m, k * q, d);
  }

  // --- powers

  lemma PowUnfolds(x: int, n: nat)
    ensures Pow(x, 0) == 1 && (n > 0 ==> Pow(x, n) == x * Pow(x, n - 1))
  {
  }

  lemma {:induction false} PowResidue(x: int, n: nat, m: int)
    requires m > 0
    ensures Pow(x, n) % m == Pow(x % m, n) % m
  {
    if n > 0 {
      PowResidue(x, n - 1, m);
      ResidueTwice(x, m);
      SameProduct(x, Pow(x, n - 1), x % m, Pow(x % m, n - 1), m);
    }
  }

  lemma {:induction false} PowMul(x: int, m: nat, n: nat)
    ensures Pow(x, m * n) == Pow(Pow(x, m), n)
  {
    if n > 0 {
      PowMul(x, m, n - 1);
      assert m * n == m + m * (n - 1);
      PowAdd(x, m, m * (n - 1));
    }
  }

  lemma {:induction false} PowOne(n: nat)
    ensures Pow(1, n) == 1
  {
    if n > 0 {
      PowOne(n - 1);
    }
  }

  /** Once a power is one, so are the powers of it. */
  lemma PowOfOne(x: int, m: nat, n: nat, p: int)
    requires p > 1 && Pow(x, m) % p == 1
    ensures Pow(x, m * n) % p == 1
  {
    hide Pow;
    PowMul(x, m, n);
    PowResidue(Pow(x, m), n, p);
    PowOne(n);
    ResidueIs(1, p, 0, 1);
  }

  // --- divisors

  /** The greatest common divisor is a combination of the two numbers. */
  lemma {:induction false} Bezout(a: nat, b: nat) returns (g: nat, s: int, t: int)
    requires a > 0 || b > 0
    ensures g > 0 && a % g == 0 && b % g == 0 && s * a + t * b == g
    decreases b
  {
    if b == 0 {
      g, s, t := a, 1, 0;
      MultipleIs(1, a);
    } else {
      var s', t';
      g, s', t' := Bezout(b, a % b);
      var q := a / b;
      s, t := t', s' - t' * q;
      assert a == q * b + a % b;
      calc {
        s * a + t * b;
        t' * (q * b + a % b) + (s' - t' * q) * b;
        t' * (q * b) + t' * (a % b) + s' * b - (t' * q) * b;
        s' * b + t' * (a % b);
      }
      var i, j := b / g, (a % b) / g;
      assert a == g * (q * i + j);
      MultipleIs(q * i + j, g);
    }
  }

  lemma DivisorOfPrime(p: nat, g: nat)
    requires Prime(p) && g > 0 && p % g == 0
    ensures g == 1 || g == p
  {
    if g > p {
      ResidueIs(p, g, 0, p);
    }
  }

  /** Euclid's lemma. */
  lemma PrimeDividesFactor(p: nat, x: nat, y: nat)
    requires Prime(p) && (x * y) % p == 0
    ensures x % p == 0 || y % p == 0
  {
    if x % p != 0 {
      var g, s, t := Bezout(x, p);
      DivisorOfPrime(p, g);
      var k := x * y / p;
      assert x * y == p * k;
      calc {
        y;
        (s * x + t * p) * y;
        s * (x * y) + (t * p) * y;
        s * (p * k) + (t * p) * y;
        p * (s * k + t * y);
      }
      MultipleIs(s * k + t * y, p);
    }
  }

  /** The least divisor is prime, and it is no larger than the square root unless it is the number itself. */
  lemma LeastDivisor(n: nat) returns (p: nat)
    requires n >= 2
    ensures Prime(p) && n % p == 0 && (p == n || p * p <= n)
  {
    MultipleIs(1, n);
    p := DivisorFrom(n, 2);
    forall d: nat | 2 <= d < p ensures p % d != 0 {
      if p % d == 0 {
        ResidueOfDivisor(n, p, d);
      }
    }
    if p != n {
      CofactorIsLarge(n, p, n / p);
    }
  }

  lemma CofactorIsLarge(n: nat, p: nat, k: nat)
    requires 2 <= p < n && n == p * k && forall e: nat :: 2 <= e < p ==> n % e != 0
    ensures p * p <= n
  {
    assert k > 1;
    MultipleIs(p, k);
    assert k * p == n;
    if k < p {
      assert false;
    }
    assert p * k >= p * p;
  }

  lemma DivisorFrom(n: nat, d: nat) returns (p: nat)
    requires 2 <= d <= n && n % n == 0 && forall e: nat :: 2 <= e < d ==> n % e != 0
    ensures d <= p <= n && n % p == 0 && forall e: nat :: 2 <= e < p ==> n % e != 0
    decreases n - d
  {
    if n % d == 0 {
      p := d;
    } else {
      p := DivisorFrom(n, d + 1);
    }
  }

  // --- Fermat's little theorem

  function Choose(n: nat, k: nat): nat {
    if k == 0 then 1 else if n == 0 then 0 else Choose(n - 1, k - 1) + Choose(n - 1, k)
  }

  lemma {:induction false} ChooseEnds(n: nat, k: nat)
    requires k >= n
    ensures Choose(n, k) == if k == n then 1 else 0
  {
    if n > 0 {
      ChooseEnds(n - 1, k - 1);
      ChooseEnds(n - 1, k);
    }
  }

  lemma AbsorbStep(n: int, k: int, a: int, b: int, c: int, d: int)
    requires a == c + d && k * b == (n - 1) * d && (k - 1) * a == (n - 1) * c
    ensures k * (a + b) == n * a
  {
    assert k * (a + b) == (k - 1) * a + a + k * b;
    assert (n - 1) * a == (n - 1) * c + (n - 1) * d;
  }

  lemma {:induction false} ChooseAbsorbs(n: nat, k: nat)
    requires n >= 1 && k >= 1
    ensures k * Choose(n, k) == n * Choose(n - 1, k - 1)
  {
    if n == 1 {
      assert Choose(1, k) == Choose(0, k - 1) + Choose(0, k);
    } else {
      ChooseAbsorbs(n - 1, k);
      var a, b, d := Choose(n - 1, k - 1), Choose(n - 1, k), Choose(n - 2, k - 1);
      assert Choose(n, k) == a + b;
      if k == 1 {
        assert a == d == 1;
      } else {
        ChooseAbsorbs(n - 1, k - 1);
        var c := Choose(n - 2, k - 2);
        assert a == c + d;
        hide Choose;
        AbsorbStep(n, k, a, b, c, d);
      }
    }
  }

  lemma ChooseIsMultiple(p: nat, k: nat)
    requires Prime(p) && 0 < k < p
    ensures Choose(p, k) % p == 0
  {
    ChooseAbsorbs(p, k);
    MultipleIs(Choose(p - 1, k - 1), p);
    PrimeDividesFactor(p, k, Choose(p, k));
    ResidueIs(k, p, 0, k);
  }

  /** The first k terms of (1 + a)^n. */
  function Terms(n: nat, a: nat, k: nat): nat {
    if k == 0 then 0 else Terms(n, a, k - 1) + Choose(n, k - 1) * Pow(a, k - 1)
  }

  lemma Distribute(a: int, c: int, d: int, p: int, t: int)
    ensures (c + d) * (a * p) == a * (c * p) + d * (a * p) && a * (t + c * p) == a * t + a * (c * p)
  {
  }

  lemma {:induction false} TermsStep(n: nat, a: nat, k: nat)
    ensures Terms(n + 1, a, k + 1) == Terms(n, a, k + 1) + a * Terms(n, a, k)
  {
    if k > 0 {
      TermsStep(n, a, k - 1);
      var c, d, p := Choose(n, k - 1), Choose(n, k), Pow(a, k - 1);
      assert Choose(n + 1, k) == c + d && Pow(a, k) == a * p;
      var t := Terms(n, a, k - 1);
      assert Terms(n, a, k) == t + c * p;
      assert Terms(n, a, k + 1) == Terms(n, a, k) + d * (a * p);
      assert Terms(n + 1, a, k + 1) == Terms(n + 1, a, k) + (c + d) * (a * p);
      hide *;
      Distribute(a, c, d, p, t);
    }
  }

  lemma FirstTerm(n: nat, a: nat)
    ensures Terms(n, a, 1) == 1
  {
    var x, y := Choose(n, 0), Pow(a, 0);
    assert Terms(n, a, 1) == Terms(n, a, 0) + x * y;
  }

  lemma NoTermBeyond(n: nat, a: nat)
    ensures Terms(n, a, n + 2) == Terms(n, a, n + 1)
  {
    ChooseEnds(n, n + 1);
    var x := Pow(a, n + 1);
    hide Pow, Choose;
    assert Terms(n, a, n + 2) == Terms(n, a, n + 1) + 0 * x;
  }

  lemma {:induction false} Binomial(a: nat, n: nat)
    ensures Pow(a + 1, n) == Terms(n, a, n + 1)
  {
    hide *;
    if n == 0 {
      FirstTerm(0, a);
      PowUnfolds(a + 1, 0);
    } else {
      PowUnfolds(a + 1, n);
      Binomial(a, n - 1);
      TermsStep(n - 1, a, n);
      NoTermBeyond(n - 1, a);
      var t := Terms(n - 1, a, n);
      assert (a + 1) * t == t + a * t;
    }
  }

  lemma {:induction false} MiddleTermsVanish(p: nat, a: nat, k: nat)
    requires Prime(p) && 1 <= k <= p
    ensures Terms(p, a, k) % p == 1
  {
    if k == 1 {
      FirstTerm(p, a);
      ResidueIs(1, p, 0, 1);
    } else {
      MiddleTermsVanish(p, a, k - 1);
      ChooseIsMultiple(p, k - 1);
      var c, x := Choose(p, k - 1), Pow(a, k - 1);
      ProductResidue(c, x, p);
      MultipleIs(0, p);
      SumResidue(Terms(p, a, k - 1), c * x, p);
      ResidueIs(1, p, 0, 1);
    }
  }

  lemma {:induction false} PowerOfPrime(p: nat, a: nat)
    requires Prime(p)
    ensures Pow(a, p) % p == a % p
  {
    if a == 0 {
      assert Pow(0, p) == 0 * Pow(0, p - 1);
    } else {
      PowerOfPrime(p, a - 1);
      Binomial(a - 1, p);
      MiddleTermsVanish(p, a - 1, p);
      ChooseEnds(p, p);
      var x := Pow(a - 1, p);
      assert Pow(a, p) == Terms(p, a - 1, p) + 1 * x;
      SumResidue(Terms(p, a - 1, p), x, p);
      SumResidue(1, a - 1, p);
      ResidueIs(1, p, 0, 1);
    }
  }

  /** Fermat's little theorem. */
  lemma Fermat(p: nat, a: nat)
    requires Prime(p) && a % p != 0
    ensures Pow(a, p - 1) % p == 1
  {
    var x := Pow(a, p - 1);
    PowerOfPrime(p, a);
    assert Pow(a, p) == a * x;
    var y := x - 1;
    assert a * y == a * x - a;
    SumResidue(a * y, a, p);
    assert (a * y) % p == 0 by {
      var k := a * x / p - a / p;
      assert a * y == p * k;
      MultipleIs(k, p);
    }
    PrimeDividesFactor(p, a, y);
    assert x == 1 + p * (y / p);
    AddMultiple(1, y / p, p);
    ResidueIs(1, p, 0, 1);
  }

  // --- certificates

  /** If b has order q modulo a prime p, then q divides p - 1. */
  lemma OrderDivides(p: nat, q: nat, b: nat)
    requires Prime(p) && Prime(q) && Pow(b, q) % p == 1 && b % p != 1
    ensures (p - 1) % q == 0
  {
    hide Pow;
    ZeroHasNoOrder(p, q, b);
    Fermat(p, b);
    var g, s, t := Bezout(q, p - 1);
    DivisorOfPrime(q, g);
    if g == 1 {
      Signs(s, q, t, p - 1);
      if s > 0 {
        NextPowers(p, b, q, s, p - 1, -t);
      } else {
        NextPowers(p, b, p - 1, t, q, -s);
      }
    }
  }

  lemma ZeroHasNoOrder(p: nat, q: nat, b: nat)
    requires p > 1 && q > 0 && Pow(b, q) % p == 1
    ensures b % p != 0
  {
    ProductResidue(b, Pow(b, q - 1), p);
    ResidueIs(0, p, 0, 0);
  }

  lemma Signs(s: int, m: int, t: int, n: int)
    requires m >= 2 && n >= 1 && s * m + t * n == 1
    ensures if s > 0 then t <= 0 && m * s == n * -t + 1 else t > 0 && n * t == m * -s + 1
  {
  }

  lemma NextPowers(p: nat, b: nat, m: nat, i: nat, n: nat, j: nat)
    requires p > 1 && Pow(b, m) % p == 1 && Pow(b, n) % p == 1 && m * i == n * j + 1
    ensures b % p == 1
  {
    PowOfOne(b, m, i, p);
    PowOfOne(b, n, j, p);
    assert Pow(b, m * i) == b * Pow(b, n * j);
    ProductResidue(b, Pow(b, n * j), p);
    ResidueIs(b % p, p, 0, b % p);
  }

  /** If b has order q modulo n, every prime factor of n is one more than a multiple of q. */
  lemma FactorIsOne(n: nat, q: nat, b: nat, inverse: int, p: nat)
    requires n >= 2 && Prime(p) && n % p == 0 && Prime(q) && Pow(b, q) % n == 1 && ((b - 1) * inverse) % n == 1
    ensures (p - 1) % q == 0
  {
    hide Pow;
    ResidueOfDivisor(Pow(b, q), n, p);
    ResidueOfDivisor((b - 1) * inverse, n, p);
    ResidueIs(1, p, 0, 1);
    assert b % p != 1 by {
      if b % p == 1 {
        assert b - 1 == p * (b / p);
        assert (b - 1) * inverse == p * (b / p * inverse);
        MultipleIs(b / p * inverse, p);
        assert false;
      }
    }
    OrderDivides(p, q, b);
  }

  /** A product of two numbers that are one more than a positive multiple of q. */
  lemma Cofactors(n: nat, q: nat, r: nat, k: nat, j: nat)
    requires q >= 2 && k >= 1 && j >= 1 && n == (k * q + 1) * (j * q + 1) && n - 1 == r * q
    ensures r == q * (k * j) + (k + j)
  {
    var u := q * (k * j) + (k + j);
    assert (k * q + 1) * (j * q + 1) == (k * q) * (j * q) + k * q + j * q + 1;
    assert (k * q) * (j * q) == (q * (k * j)) * q;
    assert (r - u) * q == 0;
  }

  lemma QuotientIs(r: int, q: int, t: int, s: int)
    requires 0 <= s < q && r == q * t + s
    ensures r / q == t && r % q == s
  {
    ResidueIs(r, q, t, s);
    var t' := r / q;
    assert r == q * t' + s;
    assert q * (t' - t) == q * t' - q * t == 0;
    SmallMultiple(q, t' - t);
  }

  lemma Larger(q: nat, t: int, u: int)
    requires t >= u
    ensures q * t >= q * u
  {
  }

  lemma NoCofactors(q: nat, r: nat, t: nat, s: nat)
    requires q >= 2 && s <= t + 1 && r == q * t + s
    ensures if s < q then r / q == t && r % q == s else r >= q * (q - 1)
  {
    if s < q {
      QuotientIs(r, q, t, s);
    } else {
      Larger(q, t, q - 1);
    }
  }

  lemma SumIsSmall(k: int, j: int)
    requires k >= 1 && j >= 1
    ensures k + j <= k * j + 1
  {
    assert (k - 1) * (j - 1) >= 0;
  }

  lemma MultipleOf(x: nat, q: nat) returns (k: nat)
    requires q > 0 && x % q == 0
    ensures x == k * q
  {
    k := x / q;
  }

  /**
   Pocklington's criterion, for one prime factor q of n - 1 that is large enough: if b has order q modulo n,
   every factor of n is one more than a multiple of q, and there are no two such factors.
   */
  lemma Pocklington(n: nat, q: nat, r: nat, b: nat, inverse: int)
    requires n >= 2 && Prime(q) && n - 1 == r * q && Pow(b, q) % n == 1 && ((b - 1) * inverse) % n == 1
    requires r < q * (q - 1) && r % q > r / q + 1
    ensures Prime(n)
  {
    hide Pow;
    var p := LeastDivisor(n);
    if p != n {
      FactorIsOne(n, q, b, inverse, p);
      var m := MultipleOf(n, p);
      OtherFactor(n, q, r, p, m);
      var k := MultipleOf(p - 1, q);
      var j := MultipleOf(m - 1, q);
      Cofactors(n, q, r, k, j);
      SumIsSmall(k, j);
      NoCofactors(q, r, k * j, k + j);
      assert false;
    }
  }

  lemma OtherFactor(n: nat, q: nat, r: nat, p: nat, m: nat)
    requires q >= 2 && p >= 2 && n > p && n == p * m && n - 1 == r * q && (p - 1) % q == 0
    ensures m > 1 && (m - 1) % q == 0
  {
    var k := (p - 1) / q;
    assert p == q * k + 1;
    assert m - 1 == n - 1 - (q * k) * m == q * (r - k * m);
    MultipleIs(r - k * m, q);
    assert m > 1;
  }

  // --- powers, a few bits of the exponent at a time

  /** Squares k times and multiplies by b, and so on with k2 to k4 up to the first zero. */
  function Raise(x: nat, b: nat, k: nat, k2: nat, k3: nat, k4: nat): nat
    decreases k + 2 * k2 + 3 * k3 + 4 * k4
  {
    if k != 0 then Raise(x * x, b, k - 1, k2, k3, k4)
    else if k2 != 0 then Raise(x * b, b, k2, k3, k4, 0)
    else x * b
  }

  /** What Raise does to the exponent of b. */
  function Exponent(m: nat, k: nat, k2: nat, k3: nat, k4: nat): nat
    decreases k + 2 * k2 + 3 * k3 + 4 * k4
  {
    if k != 0 then Exponent(2 * m, k - 1, k2, k3, k4)
    else if k2 != 0 then Exponent(m + 1, k2, k3, k4, 0)
    else m + 1
  }

  /** x is the m-th power of b modulo n. */
  ghost predicate IsPower(n: nat, b: nat, x: nat, m: nat)
    requires n > 0
  {
    x % n == Pow(b, m) % n
  }

  lemma FirstPower(n: nat, b: nat)
    requires n > 0
    ensures IsPower(n, b, b, 1)
  {
    PowUnfolds(b, 1);
  }

  lemma PowerTimes(n: nat, b: nat, x: nat, m: nat, y: nat, l: nat)
    requires n > 0 && IsPower(n, b, x, m) && IsPower(n, b, y, l)
    ensures IsPower(n, b, x * y, m + l)
  {
    PowAdd(b, m, l);
    SameProduct(x, y, Pow(b, m), Pow(b, l), n);
  }

  lemma {:induction false} Raised(n: nat, b: nat, x: nat, m: nat, k: nat, k2: nat, k3: nat, k4: nat)
    requires n > 0 && IsPower(n, b, x, m)
    ensures IsPower(n, b, Raise(x, b, k, k2, k3, k4), Exponent(m, k, k2, k3, k4))
    decreases k + 2 * k2 + 3 * k3 + 4 * k4
  {
    if k != 0 {
      hide IsPower;
      PowerTimes(n, b, x, m, x, m);
      Raised(n, b, x * x, 2 * m, k - 1, k2, k3, k4);
    } else {
      hide IsPower;
      FirstPower(n, b);
      PowerTimes(n, b, x, m, b, 1);
      if k2 != 0 {
        Raised(n, b, x * b, m + 1, k2, k3, k4, 0);
      }
    }
  }

  /** One line of a certificate: y is the residue after raising x. */
  lemma Advance(n: nat, b: nat, x: nat, y: nat, m: nat, k: nat, k2: nat, k3: nat, k4: nat) returns (m': nat)
    requires n > 0 && IsPower(n, b, x, m) && Raise(x, b, k, k2, k3, k4) % n == y
    ensures m' == Exponent(m, k, k2, k3, k4) && IsPower(n, b, y, m')
  {
    m' := Exponent(m, k, k2, k3, k4);
    Raised(n, b, x, m, k, k2, k3, k4);
    ResidueTwice(Raise(x, b, k, k2, k3, k4), n);
  }

  /** No number from k up to k + count - 1 divides n. */
  predicate NoDivisor(n: nat, k: nat, count: nat)
    requires k > 0
    decreases count
  {
    count == 0 || (n % k != 0 && NoDivisor(n, k + 1, count - 1))
  }

  lemma {:induction false} NoDivisorAt(n: nat, k: nat, count: nat, d: nat)
    requires k > 0 && NoDivisor(n, k, count) && k <= d < k + count
    ensures n % d != 0
    decreases count
  {
    if k < d {
      NoDivisorAt(n, k + 1, count - 1, d);
    }
  }

  /** A number with a base of order q, as its powers show, is prime. */
  lemma Certified(n: nat, q: nat, r: nat, b: nat, inverse: nat)
    requires n >= 2 && Prime(q) && n - 1 == r * q && IsPower(n, b, 1, q) && ((b - 1) * inverse) % n == 1
    requires r < q * (q - 1) && r % q > r / q + 1
    ensures Prime(n)
  {
    ResidueIs(1, n, 0, 1);
    Pocklington(n, q, r, b, inverse);
  }
}
