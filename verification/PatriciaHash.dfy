/** The hash of a patricia tree: what it is of the set, and what it binds (patricia.go, blockchain.md). */
module PatriciaHash {
  import opened Prelude
  import opened Bits
  import opened Patricia

  /** The byte string hashed at the root of t. */
  function Preimage(sha3: bytes -> Hash, t: Trie): bytes
    decreases t, 0
  {
    match t
    case Leaf(key) => [0x00] + key
    case Branch(_, _, left, right) => [0x01] + HashOf(sha3, left) + HashOf(sha3, right)
  }

  function HashOf(sha3: bytes -> Hash, t: Trie): Hash
    decreases t, 1
  {
    sha3(Preimage(sha3, t))
  }

  /** RootHash. */
  function RootHash(sha3: bytes -> Hash, root: Option<Trie>): Hash {
    match root
    case None => ZeroHash()
    case Some(t) => HashOf(sha3, t)
  }

  // --- the merkle patricia tree hash of a set

  ghost predicate Common(s: set<bytes>, p: BitString) {
    forall x <- s :: p <= ToBits(x)
  }

  ghost predicate IsLongestCommon(s: set<bytes>, p: BitString) {
    Common(s, p) && forall q: BitString :: Common(s, q) ==> |q| <= |p|
  }

  ghost function Under(s: set<bytes>, p: BitString): set<bytes> {
    set x <- s | p <= ToBits(x)
  }

  /** Split on the bit after the longest common prefix of all items, and hash the two halves. */
  ghost function Mpth(sha3: bytes -> Hash, s: set<bytes>): Hash
    requires PrefixFree(s)
    decreases |s|
  {
    if s == {} then ZeroHash()
    else if |s| == 1 then
      var x :| x in s;
      sha3([0x00] + x)
    else
      LongestCommonExists(s);
      var p :| IsLongestCommon(s, p);
      SplitIsProper(s, p);
      var low := Under(s, p + [false]);
      sha3([0x01] + Mpth(sha3, low) + Mpth(sha3, s - low))
  }

  lemma {:induction false} LongestCommonUpTo(s: set<bytes>, x: bytes, n: nat) returns (p: BitString)
    requires x in s && n <= 8 * |x|
    ensures p <= ToBits(x) && Common(s, p)
    ensures forall k: nat :: |p| < k <= n ==> !Common(s, ToBits(x)[..k])
  {
    if n == 0 || Common(s, ToBits(x)[..n]) {
      p := ToBits(x)[..n];
    } else {
      p := LongestCommonUpTo(s, x, n - 1);
    }
  }

  lemma LongestCommonExists(s: set<bytes>)
    requires s != {}
    ensures exists p :: IsLongestCommon(s, p)
  {
    hide ToBits;
    var x :| x in s;
    var p := LongestCommonUpTo(s, x, 8 * |x|);
    forall q: BitString | Common(s, q) ensures |q| <= |p| {
      assert q == ToBits(x)[..|q|];
      assert Common(s, ToBits(x)[..|q|]);
    }
    assert IsLongestCommon(s, p);
  }

  lemma LongestCommonIsProper(s: set<bytes>, p: BitString, x: bytes)
    requires PrefixFree(s) && |s| > 1 && Common(s, p) && x in s
    ensures p < ToBits(x)
  {
    hide ToBits;
    assert s != {x};
    var y :| y in s && y != x;
    PrefixByBits(x, y);
  }

  lemma SplitIsProper(s: set<bytes>, p: BitString)
    requires PrefixFree(s) && |s| > 1 && IsLongestCommon(s, p)
    ensures {} < Under(s, p + [false]) < s
    ensures |Under(s, p + [false])| < |s| && |s - Under(s, p + [false])| < |s|
    ensures PrefixFree(Under(s, p + [false])) && PrefixFree(s - Under(s, p + [false]))
  {
    hide ToBits, PrefixFree;
    var low := Under(s, p + [false]);
    assert !Common(s, p + [false]) && !Common(s, p + [true]);
    var x :| x in s && !(p + [true] <= ToBits(x));
    LongestCommonIsProper(s, p, x);
    NextBit(p, ToBits(x));
    assert x in low;
    SubsetIsPrefixFree(low, s);
    SubsetIsPrefixFree(s - low, s);
    ProperSubsetIsSmaller(low, s);
    ProperSubsetIsSmaller(s - low, s);
  }

  lemma SubsetIsPrefixFree(a: set<bytes>, b: set<bytes>)
    requires a <= b && PrefixFree(b)
    ensures PrefixFree(a)
  {
  }

  lemma ProperSubsetIsSmaller(a: set<bytes>, b: set<bytes>)
    requires a < b
    ensures |a| < |b|
  {
    assert b == a + (b - a);
  }

  lemma BranchPrefixIsLongest(t: Trie, p: BitString)
    requires Valid(t) && t.Branch?
    ensures IsLongestCommon(Elements(t), p) ==> p == Prefix(t)
    ensures Under(Elements(t), Prefix(t) + [false]) == Elements(t.left)
    ensures Elements(t) - Elements(t.left) == Elements(t.right)
    ensures |Elements(t)| > 1
  {
    hide ToBits, Prefix, Valid;
    BranchSplits(t);
    var s, q := Elements(t), Prefix(t);
    var x, y := TwoSides(t);
    ProperOrEqual({x, y}, s);
    if IsLongestCommon(s, p) {
      CommonIsAtMost(q, p, ToBits(x), ToBits(y));
    }
  }

  lemma BranchSplits(t: Trie)
    requires Valid(t) && t.Branch?
    ensures Common(Elements(t), Prefix(t))
    ensures Under(Elements(t), Prefix(t) + [false]) == Elements(t.left)
    ensures Elements(t) - Elements(t.left) == Elements(t.right)
  {
    hide ToBits, Prefix, Valid;
    var s, q := Elements(t), Prefix(t);
    forall z <- s ensures q < ToBits(z) && (z in Elements(t.left) <==> q + [false] <= ToBits(z))
                        && (z in Elements(t.left) <==> z !in Elements(t.right)) {
      ElementIsOnOneSide(t, z);
    }
  }

  /** Two elements that part right after the prefix of their branch. */
  lemma TwoSides(t: Trie) returns (x: bytes, y: bytes)
    requires Valid(t) && t.Branch?
    ensures x in Elements(t.left) && y in Elements(t.right) && x != y
    ensures Prefix(t) < ToBits(x) && Prefix(t) < ToBits(y) && ToBits(x)[|Prefix(t)|] != ToBits(y)[|Prefix(t)|]
  {
    hide ToBits, Prefix;
    x := HasElement(t.left);
    y := HasElement(t.right);
    ElementIsOnOneSide(t, x);
    ElementIsOnOneSide(t, y);
    NextBit(Prefix(t), ToBits(x));
    NextBit(Prefix(t), ToBits(y));
  }

  lemma ElementIsOnOneSide(t: Trie, z: bytes)
    requires Valid(t) && t.Branch? && z in Elements(t)
    ensures Prefix(t) < ToBits(z)
    ensures z in Elements(t.left) <==> Prefix(t) + [false] <= ToBits(z)
    ensures z in Elements(t.left) <==> z !in Elements(t.right)
  {
    hide ToBits;
    ElementsSharePrefix(t, z);
    ElementIsUnderItsBit(t, z);
    NotUnderOtherBit(t, z);
    NextBit(Prefix(t), ToBits(z));
  }

  /** What two bit strings share ends where they part. */
  lemma CommonIsAtMost(q: BitString, p: BitString, x: BitString, y: BitString)
    requires q < x && q < y && x[|q|] != y[|q|] && p <= x && p <= y && |q| <= |p|
    ensures p == q
  {
  }

  lemma ProperOrEqual(a: set<bytes>, b: set<bytes>)
    requires a <= b
    ensures |a| <= |b|
  {
    assert b == a + (b - a);
  }

  /** The root hash of a tree is the merkle patricia tree hash of its set of elements. */
  lemma {:induction false} HashIsMpth(sha3: bytes -> Hash, t: Trie)
    requires Valid(t)
    ensures PrefixFree(Elements(t)) && HashOf(sha3, t) == Mpth(sha3, Elements(t))
  {
    ElementsArePrefixFree(t);
    if t.Branch? {
      HashIsMpth(sha3, t.left);
      HashIsMpth(sha3, t.right);
      MpthOfBranch(sha3, t);
    }
  }

  lemma MpthOfBranch(sha3: bytes -> Hash, t: Trie)
    requires Valid(t) && t.Branch?
    requires PrefixFree(Elements(t)) && PrefixFree(Elements(t.left)) && PrefixFree(Elements(t.right))
    ensures Mpth(sha3, Elements(t))
         == sha3([0x01] + Mpth(sha3, Elements(t.left)) + Mpth(sha3, Elements(t.right)))
  {
    hide IsLongestCommon, Under, PrefixFree, Prefix;
    var s := Elements(t);
    forall p: BitString | IsLongestCommon(s, p)
      ensures Under(s, p + [false]) == Elements(t.left) && s - Under(s, p + [false]) == Elements(t.right)
    {
      BranchPrefixIsLongest(t, p);
    }
    BranchPrefixIsLongest(t, []);
    LongestCommonExists(s);
  }

  /** Trees with the same elements, however they came about, have the same root hash. */
  lemma RootHashIsOfTheSet(sha3: bytes -> Hash, root: Option<Trie>)
    requires ValidRoot(root)
    ensures PrefixFree(Contents(root)) && RootHash(sha3, root) == Mpth(sha3, Contents(root))
  {
    if root.Some? {
      HashIsMpth(sha3, root.value);
    }
  }

  /** Writing out the elements of a tree and inserting them again gives the same set and the same root. */
  lemma RebuiltTreeIsTheSame(sha3: bytes -> Hash, t: Trie)
    requires Valid(t)
    ensures
      var r := FromKeys(Walk(t));
      r.Some? && Contents(r.value) == Elements(t) && RootHash(sha3, r.value) == HashOf(sha3, t)
  {
    WalkIsSorted(t);
    ElementsArePrefixFree(t);
    FromKeysHasKeys(Walk(t));
    RootHashIsOfTheSet(sha3, FromKeys(Walk(t)).value);
    HashIsMpth(sha3, t);
  }

  /** All byte strings hashed to compute the hash of t: one for each node. */
  ghost function Hashed(sha3: bytes -> Hash, t: Trie): set<bytes> {
    match t
    case Leaf(_) => {Preimage(sha3, t)}
    case Branch(_, _, left, right) => {Preimage(sha3, t)} + Hashed(sha3, left) + Hashed(sha3, right)
  }

  /** Two trees with different elements and one root hash: of the strings hashed for them, two have one hash. */
  function Collision(sha3: bytes -> Hash, t: Trie, u: Trie): (r: (bytes, bytes))
    requires Walk(t) != Walk(u) && HashOf(sha3, t) == HashOf(sha3, u)
    ensures r.0 in Hashed(sha3, t) && r.1 in Hashed(sha3, u)
    ensures r.0 != r.1 && sha3(r.0) == sha3(r.1)
  {
    var x, y := Preimage(sha3, t), Preimage(sha3, u);
    if x != y then (x, y)
    else
      SamePreimage(sha3, t, u);
      if Walk(t.left) != Walk(u.left) then Collision(sha3, t.left, u.left)
      else Collision(sha3, t.right, u.right)
  }

  /** The leaf and interior prefixes differ, so equal preimages of different trees are of branches. */
  lemma SamePreimage(sha3: bytes -> Hash, t: Trie, u: Trie)
    requires Walk(t) != Walk(u) && Preimage(sha3, t) == Preimage(sha3, u)
    ensures t.Branch? && u.Branch?
    ensures HashOf(sha3, t.left) == HashOf(sha3, u.left) && HashOf(sha3, t.right) == HashOf(sha3, u.right)
  {
    var x := Preimage(sha3, t);
    assert x[0] == if t.Leaf? then 0x00 else 0x01;
    assert x[0] == if u.Leaf? then 0x00 else 0x01;
    if t.Leaf? {
      LeafPreimage(sha3, t, u);
    } else {
      assert HashOf(sha3, t.left) == x[1..33] == HashOf(sha3, u.left);
      assert HashOf(sha3, t.right) == x[33..] == HashOf(sha3, u.right);
    }
  }

  lemma LeafPreimage(sha3: bytes -> Hash, t: Trie, u: Trie)
    requires t.Leaf? && u.Leaf? && Preimage(sha3, t) == Preimage(sha3, u)
    ensures t == u
  {
    assert t.key == Preimage(sha3, t)[1..] && u.key == Preimage(sha3, u)[1..];
  }

  /** The root hash binds the set: if it is that of a different set, two strings hashed on the way collide. */
  lemma RootBindsSet(sha3: bytes -> Hash, t: Trie, u: Trie)
    requires Valid(t) && Valid(u) && HashOf(sha3, t) == HashOf(sha3, u)
    ensures Elements(t) == Elements(u) ||
      exists x, y :: x in Hashed(sha3, t) && y in Hashed(sha3, u) && x != y && sha3(x) == sha3(y)
  {
    WalkIsSorted(t);
    WalkIsSorted(u);
    if Walk(t) != Walk(u) {
      var (x, y) := Collision(sha3, t, u);
    }
  }
}
