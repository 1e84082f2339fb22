/** Patricia trees as values: a radix-2 trie over byte strings and what it computes (patricia.go). */
module Patricia {
  import opened Prelude
  import opened Bits

  /** A branch's key is a slice of one of its leaves' keys; its prefix ends at keybit of the last byte. */
  datatype Trie =
    | Leaf(key: bytes)
    | Branch(key: bytes, keybit: nat, left: Trie, right: Trie)
  {
    function Child(bit: bool): Trie
      requires Branch?
    {
      if bit then right else left
    }
  }

  function KeyBit(t: Trie): nat {
    if t.Leaf? then 7 else t.keybit
  }

  /** The bits shared by all elements of t. */
  function Prefix(t: Trie): BitString
    requires IsPosition(t.key, KeyBit(t))
  {
    PrefixBits(t.key, KeyBit(t))
  }

  ghost predicate Valid(t: Trie)
    ensures Valid(t) ==> IsPosition(t.key, KeyBit(t))
  {
    match t
    case Leaf(_) => true
    case Branch(key, keybit, left, right) =>
      && IsPosition(key, keybit)
      && Valid(left) && Valid(right)
      && Prefix(t) + [false] <= Prefix(left)
      && Prefix(t) + [true] <= Prefix(right)
  }

  ghost function Elements(t: Trie): set<bytes> {
    match t
    case Leaf(key) => {key}
    case Branch(_, _, left, right) => Elements(left) + Elements(right)
  }

  ghost predicate PrefixFree(s: set<bytes>) {
    forall x, y :: x in s && y in s && x <= y ==> x == y
  }

  lemma {:induction false} ElementsSharePrefix(t: Trie, x: bytes)
    requires Valid(t) && x in Elements(t)
    ensures Prefix(t) <= ToBits(x)
  {
    if t.Branch? {
      if x in Elements(t.left) {
        ElementsSharePrefix(t.left, x);
      } else {
        ElementsSharePrefix(t.right, x);
      }
    } else {
      assert Prefix(t) == ToBits(x);
    }
  }

  lemma {:induction false} HasElement(t: Trie) returns (x: bytes)
    ensures x in Elements(t)
  {
    if t.Leaf? {
      x := t.key;
    } else {
      x := HasElement(t.left);
    }
  }

  /** Elements under different children differ in the bit after the prefix. */
  lemma ChildrenDiverge(t: Trie, x: bytes, y: bytes)
    requires Valid(t) && t.Branch? && x in Elements(t.left) && y in Elements(t.right)
    ensures Prefix(t) + [false] <= ToBits(x) && Prefix(t) + [true] <= ToBits(y)
    ensures !(x <= y) && !(y <= x)
  {
    ElementsSharePrefix(t.left, x);
    ElementsSharePrefix(t.right, y);
    var n := |Prefix(t)|;
    assert !ToBits(x)[n] && ToBits(y)[n];
    PrefixByBits(x, y);
    PrefixByBits(y, x);
  }

  /** No element is a prefix of another. */
  lemma {:induction false} ElementsArePrefixFree(t: Trie)
    requires Valid(t)
    ensures PrefixFree(Elements(t))
  {
    if t.Branch? {
      ElementsArePrefixFree(t.left);
      ElementsArePrefixFree(t.right);
      forall x, y | x in Elements(t) && y in Elements(t) && x <= y ensures x == y {
        if x in Elements(t.left) && y in Elements(t.right) {
          ChildrenDiverge(t, x, y);
        } else if x in Elements(t.right) && y in Elements(t.left) {
          ChildrenDiverge(t, y, x);
        }
      }
    }
  }

  /** key is a proper prefix or a proper extension of some element. */
  ghost predicate Conflicts(s: set<bytes>, key: bytes) {
    exists x <- s :: x != key && (x <= key || key <= x)
  }

  /** key is a proper extension of some element. */
  ghost predicate Extends(s: set<bytes>, key: bytes) {
    exists x <- s :: x != key && x <= key
  }

  /** Among keys of one length, as the state package uses, no search fails and no insertion conflicts. */
  lemma EqualLengthsNeverConflict(s: set<bytes>, key: bytes)
    requires forall x <- s :: |x| == |key|
    ensures PrefixFree(s) && !Conflicts(s, key) && !Extends(s, key)
  {
    forall x <- s ensures x <= key ==> x == key {
    }
    forall x <- s ensures key <= x ==> x == key {
    }
    forall x, y | x in s && y in s ensures x <= y ==> x == y {
    }
  }

  // --- lookup

  /** The search a key takes through t: at a leaf that key properly extends, it runs into a missing child. */
  function Lookup(t: Trie, key: bytes): Option<bool>
    requires Valid(t)
  {
    if t.key == key && KeyBit(t) == 7 then Some(t.Leaf?)
    else if !HasPrefix(key, t.key, KeyBit(t)) then Some(false)
    else if t.Leaf? then None
    else
      GoesOn(t, key);
      Lookup(t.Child(ChildIdx(key, |t.key|, t.keybit)), key)
  }

  /** A key that has t's prefix and is not that prefix goes on to the child that its next bit selects. */
  lemma GoesOn(t: Trie, key: bytes)
    requires Valid(t) && HasPrefix(key, t.key, KeyBit(t)) && !(t.key == key && KeyBit(t) == 7)
    ensures Prefix(t) <= ToBits(key) && |Prefix(t)| < 8 * |key|
    ensures
      var bit := KeyBit(t);
      && (if bit == 7 then |t.key| < |key| else 0 < |t.key| <= |key|)
      && ChildIdx(key, |t.key|, bit) == ToBits(key)[|Prefix(t)|]
  {
    var bit := KeyBit(t);
    HasPrefixIsBitPrefix(key, t.key, bit);
    if |Prefix(t)| == 8 * |key| {
      assert bit == 7 && |t.key| == |key|;
      assert ToBits(t.key) == Prefix(t) == ToBits(key);
      ToBitsIsInjective(t.key, key);
    }
    ChildIdxIsNextBit(key, t.key, bit);
  }

  /** An element of t goes the way its next bit says. */
  lemma ElementIsUnderItsBit(t: Trie, x: bytes)
    requires Valid(t) && t.Branch? && x in Elements(t)
    ensures |Prefix(t)| < 8 * |x| && x in Elements(t.Child(ToBits(x)[|Prefix(t)|]))
  {
    if x in Elements(t.left) {
      ElementsSharePrefix(t.left, x);
    } else {
      ElementsSharePrefix(t.right, x);
    }
  }

  /** Lookup answers membership, except that it fails exactly on proper extensions of an element. */
  lemma {:induction false} LookupIsMembership(t: Trie, key: bytes)
    requires Valid(t)
    ensures Lookup(t, key) == if Extends(Elements(t), key) then None else Some(key in Elements(t))
  {
    var bit := KeyBit(t);
    HasPrefixIsBitPrefix(key, t.key, bit);
    forall x <- Elements(t) ensures Prefix(t) <= ToBits(x) { ElementsSharePrefix(t, x); }
    if t.key == key && bit == 7 {
      assert Prefix(t) == ToBits(key);
      forall x <- Elements(t) ensures key <= x { PrefixByBits(key, x); }
      if t.Branch? && key in Elements(t) {
        ElementIsUnderItsBit(t, key);
      }
    } else if !HasPrefix(key, t.key, bit) {
      forall x <- Elements(t) ensures !(x <= key) { PrefixByBits(x, key); }
    } else if t.Leaf? {
      PrefixByBits(t.key, key);
      assert t.key in Elements(t) && t.key < key;
    } else {
      GoesOn(t, key);
      var child := t.Child(ToBits(key)[|Prefix(t)|]);
      LookupIsMembership(child, key);
      forall x <- Elements(t) | x <= key ensures x in Elements(child) {
        PrefixByBits(x, key);
        ElementIsUnderItsBit(t, x);
      }
    }
  }

  // --- insertion

  /** The length of the longest common prefix. */
  function CommonLen(x: BitString, y: BitString): (n: nat)
    ensures n <= |x| && n <= |y| && x[..n] == y[..n]
    ensures n < |x| && n < |y| ==> x[n] != y[n]
  {
    if x == [] || y == [] || x[0] != y[0] then 0 else 1 + CommonLen(x[1..], y[1..])
  }

  lemma CommonLenCovers(x: BitString, y: BitString, k: nat)
    requires k <= |x|
    ensures k <= CommonLen(x, y) <==> x[..k] <= y
  {
    var n := CommonLen(x, y);
    if k <= n {
      assert x[..k] == x[..n][..k] == y[..k];
    }
  }

  /** The branch above a leaf for key and the subtree n, splitting where their bits part. */
  function Fork(n: Trie, key: bytes): Trie
    requires CommonLen(ToBits(n.key), ToBits(key)) < 8 * |key|
  {
    var m := CommonLen(ToBits(n.key), ToBits(key));
    var common, bit := (m + 7) / 8, (m + 7) % 8;
    if ToBits(key)[m] then Branch(key[..common], bit, n, Leaf(key)) else Branch(key[..common], bit, Leaf(key), n)
  }

  /** None is the error of a key that is a prefix of an element or has one as a prefix. */
  function Insert(t: Trie, key: bytes): Option<Trie>
    requires Valid(t)
  {
    if t.key == key && KeyBit(t) == 7 then
      if t.Leaf? then Some(t) else None
    else if HasPrefix(key, t.key, KeyBit(t)) then
      if t.Leaf? then None
      else
        GoesOn(t, key);
        var bit := ChildIdx(key, |t.key|, t.keybit);
        match Insert(t.Child(bit), key)
        case None => None
        case Some(child) => Some(if bit then t.(right := child) else t.(left := child))
    else if HasPrefix(t.key, key, 7) then None
    else
      PartsWithin(t, key);
      Some(Fork(t, key))
  }

  /** A key that neither has t's prefix nor is a prefix of t's key parts from it inside that prefix. */
  lemma PartsWithin(t: Trie, key: bytes)
    requires Valid(t) && !HasPrefix(key, t.key, KeyBit(t)) && !HasPrefix(t.key, key, 7)
    ensures
      var m := CommonLen(ToBits(t.key), ToBits(key));
      m < 8 * |key| && m < |Prefix(t)|
  {
    var x, y := ToBits(t.key), ToBits(key);
    HasPrefixIsBitPrefix(key, t.key, KeyBit(t));
    HasPrefixIsBitPrefix(t.key, key, 7);
    CommonLenCovers(x, y, |Prefix(t)|);
    assert y[..8 * |key|] == y == PrefixBits(key, 7);
    CommonLenCovers(y, x, 8 * |key|);
    CommonLenIsSymmetric(x, y);
  }

  lemma {:induction false} CommonLenIsSymmetric(x: BitString, y: BitString)
    ensures CommonLen(x, y) == CommonLen(y, x)
  {
    if !(x == [] || y == [] || x[0] != y[0]) {
      CommonLenIsSymmetric(x[1..], y[1..]);
    }
  }

  lemma PrefixOfLeaf(key: bytes)
    ensures Prefix(Leaf(key)) == ToBits(key)
  {
  }

  lemma PrefixIsOfKey(t: Trie)
    requires Valid(t)
    ensures Prefix(t) <= ToBits(t.key)
  {
  }

  lemma ForkIsValid(t: Trie, key: bytes, p: BitString)
    requires Valid(t) && !HasPrefix(key, t.key, KeyBit(t)) && !HasPrefix(t.key, key, 7)
    requires p <= Prefix(t) && p <= ToBits(key)
    ensures CommonLen(ToBits(t.key), ToBits(key)) < 8 * |key|
    ensures Valid(Fork(t, key)) && Elements(Fork(t, key)) == Elements(t) + {key} && p <= Prefix(Fork(t, key))
  {
    hide HasPrefix, ToBits, CommonLen;
    hide PrefixBits, IsPosition;
    PartsWithin(t, key);
    var x, y := ToBits(t.key), ToBits(key);
    var m := CommonLen(x, y);
    var f := Fork(t, key);
    PositionOf(key, m);
    assert Prefix(f) == y[..m] == x[..m];
    PrefixOfLeaf(key);
    PrefixIsOfKey(t);
    assert y[..m] + [y[m]] <= y;
    assert x[..m] + [x[m]] <= Prefix(t);
    assert |p| <= m by {
      assert x[..|p|] == p;
      CommonLenCovers(x, y, |p|);
    }
  }

  lemma ForkHasNoConflict(t: Trie, key: bytes)
    requires Valid(t) && !HasPrefix(key, t.key, KeyBit(t)) && !HasPrefix(t.key, key, 7)
    ensures !Conflicts(Elements(t), key)
  {
    hide HasPrefix;
    PartsWithin(t, key);
    var x, y := ToBits(t.key), ToBits(key);
    var m := CommonLen(x, y);
    forall e <- Elements(t) ensures !(e <= key) && !(key <= e) {
      ElementsSharePrefix(t, e);
      assert ToBits(e)[m] == Prefix(t)[m] == x[m];
      PrefixByBits(e, key);
      PrefixByBits(key, e);
    }
  }

  /** Insertion fails exactly on a proper prefix or a proper extension of an element; else it adds the key. */
  lemma {:induction false} InsertAddsKey(t: Trie, key: bytes, p: BitString)
    requires Valid(t) && p <= Prefix(t) && p <= ToBits(key)
    ensures Insert(t, key).None? <==> Conflicts(Elements(t), key)
    ensures Insert(t, key).Some? ==>
      var u := Insert(t, key).value;
      Valid(u) && Elements(u) == Elements(t) + {key} && p <= Prefix(u)
    decreases t, 1
  {
    hide HasPrefix;
    var bit := KeyBit(t);
    HasPrefixIsBitPrefix(key, t.key, bit);
    if t.key == key && bit == 7 {
      if t.Branch? {
        var x := HasElement(t);
        ElementsSharePrefix(t, x);
        assert Prefix(t) == ToBits(key);
        PrefixByBits(key, x);
        ElementIsUnderItsBit(t, x);
      }
    } else if HasPrefix(key, t.key, bit) {
      if t.Leaf? {
        assert Prefix(t) == ToBits(t.key);
        PrefixByBits(t.key, key);
        assert t.key in Elements(t) && t.key != key && t.key <= key;
      } else {
        InsertBelow(t, key);
      }
    } else if HasPrefix(t.key, key, 7) {
      HasPrefixIsBitPrefix(t.key, key, 7);
      var x := HasElement(t);
      ElementsSharePrefix(t, x);
      assert PrefixBits(key, 7) == ToBits(key);
      CommonLenCovers(ToBits(t.key), ToBits(key), |Prefix(t)|);
      assert ToBits(key) <= Prefix(t);
      PrefixByBits(key, x);
      assert x != key;
    } else {
      ForkIsValid(t, key, p);
      ForkHasNoConflict(t, key);
    }
  }

  /** Whatever is comparable to a key lies under the child the key goes to. */
  lemma ComparableIsUnderBit(t: Trie, key: bytes, x: bytes)
    requires Valid(t) && t.Branch? && x in Elements(t) && (x <= key || key <= x)
    requires |Prefix(t)| < 8 * |key|
    ensures x in Elements(t.Child(ToBits(key)[|Prefix(t)|]))
  {
    PrefixByBits(x, key);
    PrefixByBits(key, x);
    ElementIsUnderItsBit(t, x);
  }

  lemma {:induction false} InsertBelow(t: Trie, key: bytes)
    requires Valid(t) && t.Branch? && HasPrefix(key, t.key, t.keybit) && !(t.key == key && t.keybit == 7)
    ensures Insert(t, key).None? <==> Conflicts(Elements(t), key)
    ensures Insert(t, key).Some? ==>
      var u := Insert(t, key).value;
      Valid(u) && Elements(u) == Elements(t) + {key} && Prefix(u) == Prefix(t)
    decreases t, 0
  {
    hide HasPrefix, ToBits, ChildIdx;
    GoesOn(t, key);
    var next := ToBits(key)[|Prefix(t)|];
    var child := t.Child(next);
    var p := Prefix(t) + [next];
    assert p <= ToBits(key) && p <= Prefix(child);
    InsertAddsKey(child, key, p);
    forall x <- Elements(t) | x <= key || key <= x ensures x in Elements(child) {
      ComparableIsUnderBit(t, key, x);
    }
    assert Elements(child) <= Elements(t);
  }

  // --- deletion

  /** Some(None) is the empty tree; None is the missing child that a proper extension of an element runs into. */
  function Delete(t: Trie, key: bytes): Option<Option<Trie>>
    requires Valid(t)
  {
    if t.key == key && KeyBit(t) == 7 then Some(if t.Leaf? then None else Some(t))
    else if !HasPrefix(key, t.key, KeyBit(t)) then Some(Some(t))
    else if t.Leaf? then None
    else
      GoesOn(t, key);
      var bit := ChildIdx(key, |t.key|, t.keybit);
      match Delete(t.Child(bit), key)
      case None => None
      case Some(None) => Some(Some(t.Child(!bit)))
      case Some(Some(child)) => Some(Some(WithChild(t, bit, child)))
  }

  /** A changed child also gives its parent the slice of key it keeps. */
  function WithChild(t: Trie, bit: bool, child: Trie): Trie
    requires t.Branch?
  {
    if child == t.Child(bit) then t
    else
      var key := if |t.key| <= |child.key| then child.key[..|t.key|] else child.key;
      if bit then Branch(key, t.keybit, t.left, child) else Branch(key, t.keybit, child, t.right)
  }

  lemma WithChildElements(t: Trie, bit: bool, child: Trie)
    requires t.Branch?
    ensures Elements(WithChild(t, bit, child)) == Elements(t.Child(!bit)) + Elements(child)
  {
  }

  /** The slice that a branch takes from its new child's key has the bits it had. */
  lemma SliceKeepsPrefix(t: Trie, child: Trie)
    requires Valid(t) && t.Branch? && Valid(child) && Prefix(t) < Prefix(child)
    ensures |t.key| <= |child.key| && IsPosition(child.key[..|t.key|], t.keybit)
    ensures PrefixBits(child.key[..|t.key|], t.keybit) == Prefix(t)
  {
    hide ToBits, Valid;
    var n, m := |t.key|, |Prefix(t)|;
    PrefixIsOfKey(child);
    ToBitsTake(child.key, n);
    assert Prefix(t) == Prefix(child)[..m] == ToBits(child.key)[..m];
  }

  lemma WithChildKeepsPrefix(t: Trie, bit: bool, child: Trie)
    requires Valid(t) && t.Branch? && Valid(child) && Prefix(t) + [bit] <= Prefix(child)
    ensures Valid(WithChild(t, bit, child)) && Prefix(WithChild(t, bit, child)) == Prefix(t)
  {
    hide ToBits, PrefixBits;
    SliceKeepsPrefix(t, child);
  }

  /** Deletion removes exactly the key, and fails exactly on proper extensions of an element. */
  lemma {:induction false} DeleteRemovesKey(t: Trie, key: bytes)
    requires Valid(t)
    ensures Delete(t, key).None? <==> Extends(Elements(t), key)
    ensures Delete(t, key) == Some(None) ==> Elements(t) == {key}
    ensures Delete(t, key).Some? && Delete(t, key).value.Some? ==>
      var u := Delete(t, key).value.value;
      Valid(u) && Elements(u) == Elements(t) - {key} && Prefix(t) <= Prefix(u)
    decreases t, 1
  {
    hide HasPrefix, ToBits, ChildIdx;
    var bit := KeyBit(t);
    LookupIsMembership(t, key);
    if t.key == key && bit == 7 {
      assert Lookup(t, key) == Some(t.Leaf?);
    } else if !HasPrefix(key, t.key, bit) {
      assert Lookup(t, key) == Some(false);
    } else if t.Leaf? {
    } else {
      GoesOn(t, key);
      DeleteBelow(t, key);
    }
  }

  lemma NotUnderOtherBit(t: Trie, key: bytes)
    requires Valid(t) && t.Branch? && |Prefix(t)| < 8 * |key|
    ensures key !in Elements(t.Child(!ToBits(key)[|Prefix(t)|]))
  {
    if key in Elements(t.Child(!ToBits(key)[|Prefix(t)|])) {
      ElementsSharePrefix(t.Child(!ToBits(key)[|Prefix(t)|]), key);
    }
  }

  lemma {:induction false} DeleteBelow(t: Trie, key: bytes)
    requires Valid(t) && t.Branch? && HasPrefix(key, t.key, t.keybit) && !(t.key == key && t.keybit == 7)
    ensures Delete(t, key).None? <==> Extends(Elements(t), key)
    ensures Delete(t, key) != Some(None)
    ensures Delete(t, key).Some? ==>
      var u := Delete(t, key).value.value;
      Valid(u) && Elements(u) == Elements(t) - {key} && Prefix(t) <= Prefix(u)
    decreases t, 0
  {
    hide HasPrefix, ToBits, ChildIdx, WithChild;
    hide Prefix;
    GoesOn(t, key);
    var next := ToBits(key)[|Prefix(t)|];
    var child, other := t.Child(next), t.Child(!next);
    DeleteRemovesKey(child, key);
    forall x <- Elements(t) | x <= key ensures x in Elements(child) {
      ComparableIsUnderBit(t, key, x);
    }
    NotUnderOtherBit(t, key);
    var r := Delete(child, key);
    if r.Some? && r.value.Some? {
      WithChildKeepsPrefix(t, next, r.value.value);
      WithChildElements(t, next, r.value.value);
    }
  }

  // --- walking

  /** The order in which Walk visits the elements. */
  function Walk(t: Trie): seq<bytes> {
    match t
    case Leaf(key) => [key]
    case Branch(_, _, left, right) => Walk(left) + Walk(right)
  }

  predicate LexLess(x: bytes, y: bytes) {
    y != [] && (x == [] || x[0] < y[0] || (x[0] == y[0] && LexLess(x[1..], y[1..])))
  }

  /** The first differing bit decides the lexicographic order of the bytes. */
  lemma {:induction false} FirstBitDecides(x: bytes, y: bytes, n: nat)
    requires n < 8 * |x| && n < 8 * |y| && ToBits(x)[..n] == ToBits(y)[..n] && !ToBits(x)[n] && ToBits(y)[n]
    ensures LexLess(x, y)
  {
    hide BitAt;
    forall i: nat | i < n ensures ToBits(x)[i] == ToBits(y)[i] {
      assert ToBits(x)[..n][i] == ToBits(y)[..n][i];
    }
    if n < 8 {
      BitsOfFirst(x, y, n);
      FirstDifferenceOrders(x[0], y[0], n);
    } else {
      BitsOfFirst(x, y, 8);
      AgreeingBytesAreEqual(x[0], y[0]);
      BitsOfRest(x);
      BitsOfRest(y);
      FirstBitDecides(x[1..], y[1..], n - 8);
    }
  }

  lemma BitsOfFirst(x: bytes, y: bytes, n: nat)
    requires x != [] && y != [] && n <= 8 && forall i: nat | i < n :: ToBits(x)[i] == ToBits(y)[i]
    ensures AgreeUpTo(x[0], y[0], n)
    ensures n < 8 ==> BitAt(x[0], n) == ToBits(x)[n] && BitAt(y[0], n) == ToBits(y)[n]
  {
    hide BitAt;
    forall i: nat | i < n ensures BitAt(x[0], i) == BitAt(y[0], i) {
      assert ToBits(x)[i] == BitAt(x[0], i) && ToBits(y)[i] == BitAt(y[0], i);
    }
  }

  lemma BitsOfRest(x: bytes)
    requires x != []
    ensures ToBits(x[1..]) == ToBits(x)[8..]
  {
    hide BitAt;
  }

  /** Walk lists every element once, in strictly ascending lexicographic order. */
  lemma {:induction false} WalkIsSorted(t: Trie)
    requires Valid(t)
    ensures (set x <- Walk(t)) == Elements(t)
    ensures forall i, j :: 0 <= i < j < |Walk(t)| ==> LexLess(Walk(t)[i], Walk(t)[j])
  {
    hide ToBits, LexLess;
    if t.Branch? {
      var l, r := Walk(t.left), Walk(t.right);
      WalkIsSorted(t.left);
      WalkIsSorted(t.right);
      assert Walk(t) == l + r;
      forall x, y | x in l && y in r ensures LexLess(x, y) {
        assert x in (set z <- l) && y in (set z <- r);
        ChildrenDiverge(t, x, y);
        FirstBitDecides(x, y, |Prefix(t)|);
      }
    }
  }

  // --- rebuilding from the listed keys (state/serialize.go)

  /** The trees a list of insertions goes through, from the empty one. */
  function InsertInto(root: Option<Trie>, key: bytes): Option<Trie>
    requires root.Some? ==> Valid(root.value)
  {
    match root
    case None => Some(Leaf(key))
    case Some(t) => Insert(t, key)
  }

  ghost predicate ValidRoot(root: Option<Trie>) {
    root.Some? ==> Valid(root.value)
  }

  ghost function Contents(root: Option<Trie>): set<bytes> {
    match root
    case None => {}
    case Some(t) => Elements(t)
  }

  lemma InsertIntoAddsKey(root: Option<Trie>, key: bytes)
    requires ValidRoot(root)
    ensures InsertInto(root, key).None? <==> Conflicts(Contents(root), key)
    ensures InsertInto(root, key).Some? ==>
      ValidRoot(InsertInto(root, key)) && Contents(InsertInto(root, key)) == Contents(root) + {key}
  {
    if root.Some? {
      InsertAddsKey(root.value, key, []);
    }
  }

  /** treeFromBytes: None is a failed insertion. */
  function FromKeys(keys: seq<bytes>): (r: Option<Option<Trie>>)
    ensures r.Some? ==> ValidRoot(r.value)
  {
    if keys == [] then Some(None)
    else
      match FromKeys(keys[..|keys| - 1])
      case None => None
      case Some(root) =>
        InsertIntoAddsKey(root, keys[|keys| - 1]);
        match InsertInto(root, keys[|keys| - 1])
        case None => None
        case Some(t) => Some(Some(t))
  }

  lemma {:induction false} FromKeysHasKeys(keys: seq<bytes>)
    requires PrefixFree(set x <- keys)
    ensures FromKeys(keys).Some? && Contents(FromKeys(keys).value) == set x <- keys
  {
    if keys != [] {
      var front, last := keys[..|keys| - 1], keys[|keys| - 1];
      assert keys == front + [last];
      assert (set x <- keys) == (set x <- front) + {last};
      FromKeysHasKeys(front);
      InsertIntoAddsKey(FromKeys(front).value, last);
    }
  }
}
