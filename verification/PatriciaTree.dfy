/**
 The patricia tree as the source builds it: nodes that never change except to remember their hash,
 shared freely between trees, and a Tree whose root is replaced (patricia.go).
 */
module PatriciaTree {
  import opened Prelude
  import opened Bits
  import opened Patricia
  import opened PatriciaHash

  lemma CommonLenIs(x: BitString, y: BitString, m: nat)
    requires m <= |x| && m <= |y| && x[..m] == y[..m] && (m < |x| && m < |y| ==> x[m] != y[m])
    ensures CommonLen(x, y) == m
  {
    CommonLenCovers(x, y, m);
    if m < |x| {
      CommonLenCovers(x, y, m + 1);
    }
  }

  /** Two strings that part in byte i, after j of its bits. */
  lemma PartingBits(a: bytes, b: bytes, i: nat, j: nat)
    requires i < |a| && i < |b| && a[..i] == b[..i] && j < 8
    requires AgreeUpTo(a[i], b[i], j) && BitAt(a[i], j) != BitAt(b[i], j)
    ensures CommonLen(ToBits(a), ToBits(b)) == 8 * i + j
  {
    hide BitAt;
    var x, y, m := ToBits(a), ToBits(b), 8 * i + j;
    ToBitsTake(a, i);
    ToBitsTake(b, i);
    forall k: nat | k < m ensures x[k] == y[k] {
      if k < 8 * i {
        assert x[..8 * i][k] == y[..8 * i][k];
      } else {
        BitOfByte(a, i, k - 8 * i);
        BitOfByte(b, i, k - 8 * i);
      }
    }
    BitOfByte(a, i, j);
    BitOfByte(b, i, j);
    CommonLenIs(x, y, m);
  }

  /** One string ends inside the other, or both are the same. */
  lemma NoPartingBits(a: bytes, b: bytes, i: nat)
    requires i <= |a| && i <= |b| && a[..i] == b[..i] && (i == |a| || i == |b|)
    ensures CommonLen(ToBits(a), ToBits(b)) == 8 * i
  {
    hide BitAt;
    ToBitsTake(a, i);
    ToBitsTake(b, i);
    CommonLenIs(ToBits(a), ToBits(b), 8 * i);
  }

  /** The number of bits two differing bytes share. */
  method CommonBits(x: byte, y: byte) returns (n: nat)
    requires x != y
    ensures n < 8 && AgreeUpTo(x, y, n) && BitAt(x, n) != BitAt(y, n)
  {
    hide Mask, BitAt;
    n := 0;
    while n < 8
      invariant n <= 8 && AgreeUpTo(x, y, n)
    {
      MaskAgrees(x, y, n);
      if Mask(x, n) != Mask(y, n) {
        return;
      }
      n := n + 1;
    }
    AgreeingBytesAreEqual(x, y);
  }

  /** commonPrefix finds where the longest common bit prefix of two byte strings ends. */
  method CommonPrefix(a: bytes, b: bytes) returns (common: nat, bit: nat)
    ensures
      var m := CommonLen(ToBits(a), ToBits(b));
      common == (m + 7) / 8 && bit == (m + 7) % 8
  {
    hide CommonLen, ToBits;
    common, bit := 0, 7;
    var i := 0;
    while i < |a| && i < |b|
      invariant i <= |a| && i <= |b| && a[..i] == b[..i] && common == i && bit == 7
    {
      if a[i] != b[i] {
        var commonBits := CommonBits(a[i], b[i]);
        PartingBits(a, b, i, commonBits);
        if commonBits > 0 {
          common := common + 1;
          bit := commonBits - 1;
        }
        return;
      }
      common := common + 1;
      i := i + 1;
    }
    NoPartingBits(a, b, i);
  }

  class Node {
    const key: bytes
    const keybit: nat
    const isLeaf: bool
    const left: Node?
    const right: Node?
    var hash: Option<Hash>

    /** The trie rooted here, and every node of it. Neither can change. */
    ghost const trie: Trie
    ghost const nodes: set<Node>

    constructor Leaf(key: bytes, hash: Hash)
      ensures Wf() && trie == Trie.Leaf(key) && nodes == {this} && this.hash == Some(hash)
    {
      this.key, keybit, isLeaf, left, right := key, 7, true, null, null;
      this.hash := Some(hash);
      trie, nodes := Trie.Leaf(key), {this};
    }

    constructor Branch(key: bytes, keybit: nat, left: Node, right: Node)
      requires left.Wf() && right.Wf()
      ensures Wf() && trie == Trie.Branch(key, keybit, left.trie, right.trie)
      ensures nodes == {this} + left.nodes + right.nodes && hash == None
    {
      this.key, this.keybit, isLeaf, this.left, this.right := key, keybit, false, left, right;
      hash := None;
      trie, nodes := Trie.Branch(key, keybit, left.trie, right.trie), {this} + left.nodes + right.nodes;
    }

    /** The constant fields spell out the trie; this depends on no state. */
    ghost predicate Wf()
      decreases trie
    {
      && this in nodes
      && key == trie.key && keybit == KeyBit(trie) && isLeaf == trie.Leaf?
      && (trie.Branch? ==>
            && left != null && right != null
            && left.trie == trie.left && right.trie == trie.right
            && left.nodes <= nodes && right.nodes <= nodes
            && nodes == {this} + left.nodes + right.nodes
            && left.Wf() && right.Wf())
      && (trie.Leaf? ==> nodes == {this})
    }

    /** Every remembered hash is what recomputing it would give. */
    ghost predicate MemoOk(sha3: bytes -> Hash)
      reads nodes
    {
      forall n <- nodes ::
        && (n.hash.Some? ==> n.hash.value == HashOf(sha3, n.trie))
        && (n.isLeaf ==> n.hash.Some?)
    }

    /** calcHash fills in the hashes that are missing below this node and keeps those that are there. */
    method CalcHash(sha3: bytes -> Hash) returns (h: Hash)
      requires Wf() && MemoOk(sha3)
      modifies nodes`hash
      ensures MemoOk(sha3) && hash == Some(h) && h == HashOf(sha3, trie)
      ensures forall n <- nodes :: old(n.hash).Some? ==> n.hash == old(n.hash)
      decreases trie
    {
      if hash.Some? {
        return hash.value;
      }
      var l := left.CalcHash(sha3);
      var r := right.CalcHash(sha3);
      h := sha3([0x01] + l + r);
      hash := Some(h);
    }
  }

  // --- recursion over nodes

  method LookupNode(n: Node, key: bytes) returns (found: bool)
    requires n.Wf() && Valid(n.trie) && Patricia.Lookup(n.trie, key).Some?
    ensures Patricia.Lookup(n.trie, key) == Some(found)
    decreases n.trie
  {
    hide Valid, HasPrefix, ChildIdx;
    if n.key == key && n.keybit == 7 {
      return n.isLeaf;
    }
    ValidParts(n.trie);
    if !HasPrefix(key, n.key, n.keybit) {
      return false;
    }
    GoesOn(n.trie, key);
    var bit := ChildIdx(key, |n.key|, n.keybit);
    found := LookupNode(if bit then n.right else n.left, key);
  }

  lemma ValidParts(t: Trie)
    requires Valid(t)
    ensures IsPosition(t.key, KeyBit(t))
    ensures t.Branch? ==> Valid(t.left) && Valid(t.right)
  {
  }

  /** insert copies the path to the new leaf and shares everything else. */
  method InsertNode(sha3: bytes -> Hash, n: Node, key: bytes, hash: Hash) returns (r: Option<Node>)
    requires n.Wf() && Valid(n.trie) && n.MemoOk(sha3) && hash == sha3([0x00] + key)
    ensures match Patricia.Insert(n.trie, key)
      case None => r == None
      case Some(t) => r.Some? && r.value.Wf() && r.value.trie == t && r.value.MemoOk(sha3) && fresh(r.value.nodes - n.nodes)
    decreases n.trie
  {
    hide Valid, HasPrefix, ChildIdx, Elements;
    if n.key == key && n.keybit == 7 {
      return if n.isLeaf then Some(n) else None;
    }
    ValidParts(n.trie);
    if HasPrefix(key, n.key, n.keybit) {
      if n.isLeaf {
        return None;
      }
      GoesOn(n.trie, key);
      var bit := ChildIdx(key, |n.key|, n.keybit);
      var child := InsertNode(sha3, if bit then n.right else n.left, key, hash);
      if child == None {
        return None;
      }
      var copy := WithNewChild(sha3, n, bit, child.value);
      return Some(copy);
    }
    if HasPrefix(n.key, key, 7) {
      return None;
    }
    PartsWithin(n.trie, key);
    var fork := ForkAt(sha3, n, key, hash);
    return Some(fork);
  }

  method NewLeaf(sha3: bytes -> Hash, key: bytes, hash: Hash) returns (n: Node)
    requires hash == sha3([0x00] + key)
    ensures n.Wf() && n.MemoOk(sha3) && fresh(n) && n.nodes == {n} && n.trie == Trie.Leaf(key)
  {
    n := new Node.Leaf(key, hash);
    assert HashOf(sha3, n.trie) == hash;
  }

  /** A new branch remembers nothing, so what its children remember is all there is to check. */
  method NewBranch(sha3: bytes -> Hash, key: bytes, keybit: nat, left: Node, right: Node) returns (n: Node)
    requires left.Wf() && right.Wf() && left.MemoOk(sha3) && right.MemoOk(sha3)
    ensures n.Wf() && n.MemoOk(sha3) && fresh(n) && n.nodes == {n} + left.nodes + right.nodes
    ensures n.trie == Trie.Branch(key, keybit, left.trie, right.trie)
  {
    hide HashOf;
    n := new Node.Branch(key, keybit, left, right);
  }

  /** A copy of n with one child replaced and its hash forgotten. */
  method WithNewChild(sha3: bytes -> Hash, n: Node, bit: bool, child: Node) returns (copy: Node)
    requires n.Wf() && !n.isLeaf && n.MemoOk(sha3) && child.Wf() && child.MemoOk(sha3)
    ensures copy.Wf() && copy.MemoOk(sha3) && fresh(copy) && copy.nodes <= {copy} + n.nodes + child.nodes
    ensures copy.trie == if bit then n.trie.(right := child.trie) else n.trie.(left := child.trie)
  {
    hide HashOf;
    if bit {
      copy := NewBranch(sha3, n.key, n.keybit, n.left, child);
    } else {
      copy := NewBranch(sha3, n.key, n.keybit, child, n.right);
    }
  }

  lemma ForkByChildIdx(t: Trie, key: bytes, common: nat, bit: nat)
    requires CommonLen(ToBits(t.key), ToBits(key)) < 8 * |key|
    requires var m := CommonLen(ToBits(t.key), ToBits(key)); common == (m + 7) / 8 && bit == (m + 7) % 8
    ensures common <= |key| && IsPosition(key[..common], bit) && (bit == 7 ==> common < |key|)
    ensures Fork(t, key) ==
      if ChildIdx(key, common, bit) then Trie.Branch(key[..common], bit, t, Trie.Leaf(key))
      else Trie.Branch(key[..common], bit, Trie.Leaf(key), t)
  {
    hide CommonLen, ToBits, ChildIdx;
    PositionOf(key, CommonLen(ToBits(t.key), ToBits(key)));
    ChildIdxIsNextBit(key, key[..common], bit);
  }

  method ForkAt(sha3: bytes -> Hash, n: Node, key: bytes, hash: Hash) returns (fork: Node)
    requires n.Wf() && n.MemoOk(sha3) && hash == sha3([0x00] + key)
    requires CommonLen(ToBits(n.key), ToBits(key)) < 8 * |key|
    ensures fork.Wf() && fork.MemoOk(sha3) && fresh(fork.nodes - n.nodes)
    ensures fork.trie == Fork(n.trie, key)
  {
    hide CommonLen, ToBits, ChildIdx, HashOf, Fork;
    var common, bit := CommonPrefix(n.key, key);
    ForkByChildIdx(n.trie, key, common, bit);
    var leaf := NewLeaf(sha3, key, hash);
    if ChildIdx(key, common, bit) {
      fork := NewBranch(sha3, key[..common], bit, n, leaf);
    } else {
      fork := NewBranch(sha3, key[..common], bit, leaf, n);
    }
  }

  /** delete returns None for an emptied subtree, and the same node where nothing was deleted. */
  method DeleteNode(sha3: bytes -> Hash, n: Node, key: bytes) returns (r: Option<Node>)
    requires n.Wf() && Valid(n.trie) && n.MemoOk(sha3) && Patricia.Delete(n.trie, key).Some?
    ensures r.Some? && r.value.trie == n.trie ==> r.value == n
    ensures match Patricia.Delete(n.trie, key).value
      case None => r == None
      case Some(t) => r.Some? && r.value.Wf() && r.value.trie == t && r.value.MemoOk(sha3) && fresh(r.value.nodes - n.nodes)
    decreases n.trie
  {
    hide Valid, HasPrefix, ChildIdx, Elements, ToBits, WithChild;
    if n.key == key && n.keybit == 7 {
      return if n.isLeaf then None else Some(n);
    }
    ValidParts(n.trie);
    if !HasPrefix(key, n.key, n.keybit) {
      return Some(n);
    }
    GoesOn(n.trie, key);
    var bit := ChildIdx(key, |n.key|, n.keybit);
    var child, other := if bit then n.right else n.left, if bit then n.left else n.right;
    var newChild := DeleteNode(sha3, child, key);
    if newChild == None {
      return Some(other);
    }
    var copy := WithChangedChild(sha3, n, bit, newChild.value);
    return Some(copy);
  }

  method WithChangedChild(sha3: bytes -> Hash, n: Node, bit: bool, child: Node) returns (copy: Node)
    requires n.Wf() && !n.isLeaf && n.MemoOk(sha3) && child.Wf() && child.MemoOk(sha3)
    requires child.trie == n.trie.Child(bit) ==> child == if bit then n.right else n.left
    ensures copy.Wf() && copy.MemoOk(sha3) && fresh(copy.nodes - n.nodes - child.nodes)
    ensures copy.trie == n.trie ==> copy == n
    ensures copy.trie == WithChild(n.trie, bit, child.trie)
  {
    hide HashOf;
    if child == (if bit then n.right else n.left) {
      return n;
    }
    var key := if |n.key| <= |child.key| then child.key[..|n.key|] else child.key;
    if bit {
      copy := NewBranch(sha3, key, n.keybit, n.left, child);
    } else {
      copy := NewBranch(sha3, key, n.keybit, child, n.right);
    }
  }

  method WalkNode(n: Node) returns (items: seq<bytes>)
    requires n.Wf()
    ensures items == Walk(n.trie)
    decreases n.trie
  {
    if n.isLeaf {
      return [n.key];
    }
    var l := WalkNode(n.left);
    var r := WalkNode(n.right);
    return l + r;
  }

  class Tree {
    const sha3: bytes -> Hash
    var root: Node?

    ghost predicate Valid()
      reads this, if root == null then {} else root.nodes
    {
      root != null ==> root.Wf() && Patricia.Valid(root.trie) && root.MemoOk(sha3)
    }

    ghost function Set(): set<bytes>
      reads this
    {
      if root == null then {} else Elements(root.trie)
    }

    constructor (sha3: bytes -> Hash)
      ensures Valid() && Set() == {} && root == null && this.sha3 == sha3
    {
      this.sha3, root := sha3, null;
    }

    /** Copying a Tree struct shares the nodes. */
    constructor CopyOf(t: Tree)
      requires t.Valid()
      ensures Valid() && Set() == t.Set() && sha3 == t.sha3 && root == t.root
    {
      sha3, root := t.sha3, t.root;
    }

    method Contains(item: bytes) returns (found: bool)
      requires Valid() && !Extends(Set(), item)
      ensures found <==> item in Set()
    {
      if root == null {
        return false;
      }
      LookupIsMembership(root.trie, item);
      found := LookupNode(root, item);
    }

    /** Insert changes no existing node, so every other tree, an earlier copy included, keeps what it holds. */
    method Insert(item: bytes) returns (ok: bool)
      requires Valid()
      modifies this`root
      ensures Valid()
      ensures ok <==> !Conflicts(old(Set()), item)
      ensures ok ==> Set() == old(Set()) + {item}
      ensures !ok ==> root == old(root)
      ensures forall t: Tree :: t != this && old(allocated(t)) && old(t.Valid()) ==> t.Valid() && t.Set() == old(t.Set())
      ensures root != null && fresh(root.nodes - (if old(root) == null then {} else old(root).nodes))
    {
      hide Patricia.Valid, Elements, Patricia.Insert;
      var hash := sha3([0x00] + item);
      if root == null {
        EmptyInsert(item);
        root := new Node.Leaf(item, hash);
        assert HashOf(sha3, root.trie) == hash;
        return true;
      }
      InsertAddsKey(root.trie, item, []);
      var r := InsertNode(sha3, root, item, hash);
      if r == None {
        return false;
      }
      root := r.value;
      return true;
    }

    method Delete(item: bytes)
      requires Valid() && !Extends(Set(), item)
      modifies this`root
      ensures Valid() && Set() == old(Set()) - {item}
      ensures forall t: Tree :: t != this && old(allocated(t)) && old(t.Valid()) ==> t.Valid() && t.Set() == old(t.Set())
      ensures root != null ==> old(root) != null && fresh(root.nodes - old(root).nodes)
    {
      hide Patricia.Valid, Elements, Patricia.Delete;
      if root != null {
        DeleteRemovesKey(root.trie, item);
        var r := DeleteNode(sha3, root, item);
        root := if r == None then null else r.value;
      }
    }

    /**
     RootHash depends on the set alone, whatever was inserted and deleted on the way. The hashes it fills
     in are right for every tree that shares the nodes.
     */
    method RootHash() returns (h: Hash)
      requires Valid()
      modifies if root == null then {} else root.nodes`hash
      ensures Valid() && PrefixFree(Set()) && h == Mpth(sha3, Set())
      ensures root != null ==> root.hash == Some(h)
      ensures Set() == old(Set())
      ensures forall t: Tree :: t.sha3 == sha3 && old(allocated(t)) && old(t.Valid()) ==> t.Valid() && t.Set() == old(t.Set())
    {
      hide Patricia.Valid, Elements, Mpth;
      if root == null {
        EmptyRoot(sha3);
        return ZeroHash();
      }
      HashIsMpth(sha3, root.trie);
      h := root.CalcHash(sha3);
    }

    /** Walk visits the elements in lexicographic order. */
    method Walk() returns (items: seq<bytes>)
      requires Valid()
      ensures (set x <- items) == Set()
      ensures forall i, j :: 0 <= i < j < |items| ==> LexLess(items[i], items[j])
    {
      if root == null {
        return [];
      }
      WalkIsSorted(root.trie);
      items := WalkNode(root);
    }
  }

  lemma EmptyInsert(key: bytes)
    ensures Patricia.Valid(Trie.Leaf(key)) && Elements(Trie.Leaf(key)) == {key}
  {
  }

  lemma EmptyRoot(sha3: bytes -> Hash)
    ensures PrefixFree({}) && Mpth(sha3, {}) == ZeroHash()
  {
  }

  /** treeFromBytes undoes treeToBytes: the same set, hence the same root (serialize.go). */
  method TreeFromBytes(sha3: bytes -> Hash, keys: seq<bytes>) returns (t: Option<Tree>)
    ensures PrefixFree(set x <- keys) ==> t.Some?
    ensures t.Some? ==> t.value.Valid() && t.value.Set() == (set x <- keys) && t.value.sha3 == sha3
  {
    var tree := new Tree(sha3);
    for i := 0 to |keys|
      invariant fresh(tree) && tree.Valid() && tree.sha3 == sha3 && tree.Set() == (set x <- keys[..i])
      invariant tree.root != null ==> fresh(tree.root.nodes)
    {
      assert keys[..i + 1] == keys[..i] + [keys[i]];
      var ok := tree.Insert(keys[i]);
      if !ok {
        PrefixFreeHasNoConflict(keys, i);
        return None;
      }
    }
    assert keys[..|keys|] == keys;
    return Some(tree);
  }

  lemma PrefixFreeHasNoConflict(keys: seq<bytes>, i: nat)
    requires i < |keys|
    ensures PrefixFree(set x <- keys) ==> !Conflicts((set x <- keys[..i]), keys[i])
  {
    var s := set x <- keys;
    assert keys[i] in s;
    forall y <- keys[..i] ensures y in s {}
  }
}
