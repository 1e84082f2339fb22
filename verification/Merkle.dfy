/** Merkle binary trees (merkle.go). */
module Merkle {
  import opened Prelude

  // --- the algorithm

  predicate IsPowerOfTwo(k: nat) {
    k == 1 || (k > 1 && k % 2 == 0 && IsPowerOfTwo(k / 2))
  }

  /** The power of two k with k < n <= 2k. */
  function PrevPowerOfTwo(n: nat): (k: nat)
    requires n >= 2
    ensures IsPowerOfTwo(k) && k < n <= 2 * k
  {
    PrevPowerOfTwoFrom(n, 1)
  }

  function PrevPowerOfTwoFrom(n: nat, j: nat): (k: nat)
    requires IsPowerOfTwo(j) && 0 < j < n
    ensures IsPowerOfTwo(k) && k < n <= 2 * k
    decreases n - j
  {
    if n <= 2 * j then j else PrevPowerOfTwoFrom(n, 2 * j)
  }

  /** The byte string hashed at the top of the tree. */
  function Preimage(sha3: bytes -> Hash, items: seq<bytes>): (b: bytes)
    ensures b == [] <==> items == []
    ensures b != [] ==> (b[0] == 0x01 <==> |items| >= 2)
    decreases |items|, 0
  {
    if |items| == 0 then []
    else if |items| == 1 then [0x00] + items[0]
    else
      var k := PrevPowerOfTwo(|items|);
      [0x01] + Root(sha3, items[..k]) + Root(sha3, items[k..])
  }

  function Root(sha3: bytes -> Hash, items: seq<bytes>): Hash
    decreases |items|, 1
  {
    sha3(Preimage(sha3, items))
  }

  // --- section 2.1 of RFC 6962

  /** k is the largest power of two smaller than n. */
  ghost predicate IsSplit(k: nat, n: nat) {
    && IsPowerOfTwo(k)
    && k < n
    && forall j: nat :: k < j < n ==> !IsPowerOfTwo(j)
  }

  ghost function TreeHash(sha3: bytes -> Hash, d: seq<bytes>): Hash {
    if |d| == 0 then sha3([])
    else if |d| == 1 then sha3([0x00] + d[0])
    else
      SplitExists(|d|);
      var k: nat :| IsSplit(k, |d|);
      sha3([0x01] + TreeHash(sha3, d[..k]) + TreeHash(sha3, d[k..]))
  }

  lemma {:induction false} PowersAreApart(j: nat, k: nat)
    requires IsPowerOfTwo(j) && IsPowerOfTwo(k) && k < j
    ensures 2 * k <= j
  {
    if k > 1 {
      PowersAreApart(j / 2, k / 2);
    }
  }

  lemma SplitIsPrevPowerOfTwo(n: nat, k: nat)
    requires n >= 2
    ensures IsSplit(k, n) <==> k == PrevPowerOfTwo(n)
  {
    var p := PrevPowerOfTwo(n);
    forall j: nat | p < j < n && IsPowerOfTwo(j) ensures false {
      PowersAreApart(j, p);
    }
  }

  lemma SplitExists(n: nat)
    requires n >= 2
    ensures exists k: nat :: IsSplit(k, n)
  {
    SplitIsPrevPowerOfTwo(n, PrevPowerOfTwo(n));
  }

  /** Root computes the Merkle tree hash of RFC 6962, with SHA3-256 as the hash. */
  lemma {:induction false} RootIsTreeHash(sha3: bytes -> Hash, items: seq<bytes>)
    ensures Root(sha3, items) == TreeHash(sha3, items)
    decreases |items|
  {
    if |items| >= 2 {
      var k := PrevPowerOfTwo(|items|);
      forall j: nat { SplitIsPrevPowerOfTwo(|items|, j); }
      RootIsTreeHash(sha3, items[..k]);
      RootIsTreeHash(sha3, items[k..]);
    }
  }

  // --- binding

  /** All byte strings hashed to compute the root of items: one for each node of the tree. */
  ghost function Hashed(sha3: bytes -> Hash, items: seq<bytes>): set<bytes>
    decreases |items|
  {
    {Preimage(sha3, items)} +
    if |items| < 2 then {}
    else
      var k := PrevPowerOfTwo(|items|);
      Hashed(sha3, items[..k]) + Hashed(sha3, items[k..])
  }

  /** Two different item lists with one root: of the strings hashed for them, two have one hash. */
  function Collision(sha3: bytes -> Hash, s: seq<bytes>, t: seq<bytes>): (r: (bytes, bytes))
    requires s != t && Root(sha3, s) == Root(sha3, t)
    ensures r.0 in Hashed(sha3, s) && r.1 in Hashed(sha3, t)
    ensures r.0 != r.1 && sha3(r.0) == sha3(r.1)
    decreases |s|
  {
    var x, y := Preimage(sha3, s), Preimage(sha3, t);
    if x != y then (x, y)
    else
      assert x == y;
      assert |s| >= 2 && |t| >= 2 by {
        if |s| < 2 { ShortListDetermined(sha3, s, t); }
        if |t| < 2 { ShortListDetermined(sha3, t, s); }
      }
      var j, k := PrevPowerOfTwo(|s|), PrevPowerOfTwo(|t|);
      assert Root(sha3, s[..j]) == x[1..33] == Root(sha3, t[..k]);
      assert Root(sha3, s[j..]) == x[33..] == Root(sha3, t[k..]);
      if s[..j] != t[..k] then Collision(sha3, s[..j], t[..k])
      else
        assert s == s[..j] + s[j..] && t == t[..k] + t[k..];
        Collision(sha3, s[j..], t[k..])
  }

  /** The leaf and interior prefixes differ, so a short list is determined by its preimage. */
  lemma ShortListDetermined(sha3: bytes -> Hash, s: seq<bytes>, t: seq<bytes>)
    requires |s| < 2 && Preimage(sha3, s) == Preimage(sha3, t)
    ensures s == t
  {
    var x := Preimage(sha3, s);
    if |s| == 1 && |t| == 1 {
      assert s[0] == x[1..] == t[0];
    }
  }

  /** The root binds the list: if it is that of a different list, two strings hashed on the way collide. */
  lemma RootBindsList(sha3: bytes -> Hash, s: seq<bytes>, t: seq<bytes>)
    requires Root(sha3, s) == Root(sha3, t)
    ensures s == t ||
      exists x, y :: x in Hashed(sha3, s) && y in Hashed(sha3, t) && x != y && sha3(x) == sha3(y)
  {
    if s != t {
      var (x, y) := Collision(sha3, s, t);
    }
  }
}
