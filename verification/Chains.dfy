/** The chain, its snapshots and its store as objects (state/snapshot.go, block.go, protocol.go, recover.go, memstore.go). */
module Chains {
  import opened Prelude
  import opened Blocks
  import opened Generation
  import opened PatriciaTree
  import Commits
  import Patricia
  import PatriciaHash

  ghost function NodesOf(t: Tree): set<Node>
    reads t
  {
    if t.root == null then {} else t.root.nodes
  }

  const ID_LENGTH := 32
  const COMMITMENT_LENGTH := 40

  /** A tree whose elements all have the same length, so that no key ever conflicts with another. */
  ghost predicate ValidTree(t: Tree, c: Crypto, length: nat)
    reads t, NodesOf(t)
  {
    t.sha3 == c.sha3 && t.Valid() && forall x <- t.Set() :: |x| == length
  }

  method Has(t: Tree, c: Crypto, ghost length: nat, key: bytes) returns (found: bool)
    requires ValidTree(t, c, length) && |key| == length
    ensures found <==> key in t.Set()
  {
    Patricia.EqualLengthsNeverConflict(t.Set(), key);
    found := t.Contains(key);
  }

  /** Inserting a key of the same length as the others does not fail. */
  method Add(t: Tree, c: Crypto, ghost length: nat, key: bytes)
    requires ValidTree(t, c, length) && |key| == length
    modifies t`root
    ensures ValidTree(t, c, length) && t.Set() == old(t.Set()) + {key} && fresh(NodesOf(t) - old(NodesOf(t)))
  {
    Patricia.EqualLengthsNeverConflict(t.Set(), key);
    var ok := t.Insert(key);
    assert ok;
  }

  method Remove(t: Tree, c: Crypto, ghost length: nat, key: bytes)
    requires ValidTree(t, c, length) && |key| == length
    modifies t`root
    ensures ValidTree(t, c, length) && t.Set() == old(t.Set()) - {key} && fresh(NodesOf(t) - old(NodesOf(t)))
  {
    Patricia.EqualLengthsNeverConflict(t.Set(), key);
    t.Delete(key);
  }

  /** The root hash of a tree object is the root of its set. */
  method RootOf(t: Tree, c: Crypto, ghost length: nat) returns (h: Hash)
    requires ValidTree(t, c, length)
    modifies NodesOf(t)`hash
    ensures h == TreeRoot(c, t.Set()) && t.Set() == old(t.Set())
    ensures forall u: Tree :: u.sha3 == c.sha3 && old(allocated(u)) && old(u.Valid()) ==> u.Valid() && u.Set() == old(u.Set())
  {
    hide PatriciaHash.Mpth;
    h := t.RootHash();
  }

  ghost predicate Expired(timestampMs: uint64, x: bytes) {
    |x| >= 32 && timestampMs > NonceTime(x)
  }

  /** Walks the tree and deletes the expired commitments from a copy of it. */
  method PrunedTree(t: Tree, c: Crypto, timestampMs: uint64) returns (newTree: Tree)
    requires ValidTree(t, c, COMMITMENT_LENGTH)
    ensures fresh(newTree) && ValidTree(newTree, c, COMMITMENT_LENGTH) && fresh(NodesOf(newTree) - NodesOf(t))
    ensures newTree.Set() == (set x <- t.Set() | !Expired(timestampMs, x))
  {
    hide NonceTime, Tree.Valid, Tree.Set, Patricia.Extends;
    newTree := new Tree.CopyOf(t);
    var items := t.Walk();
    for i := 0 to |items|
      invariant fresh(newTree) && ValidTree(newTree, c, COMMITMENT_LENGTH) && ValidTree(t, c, COMMITMENT_LENGTH)
      invariant newTree.Set() == t.Set() - (set x <- items[..i] | Expired(timestampMs, x))
      invariant fresh(NodesOf(newTree) - NodesOf(t))
    {
      assert items[i] in t.Set();
      assert items[..i + 1] == items[..i] + [items[i]];
      if timestampMs > NonceTime(items[i]) {
        Remove(newTree, c, COMMITMENT_LENGTH, items[i]);
      }
    }
    assert items[..|items|] == items;
  }

  class Snapshot {
    var contracts: Tree
    var nonces: Tree
    var header: Option<Header>
    var initialBlockID: Hash
    var refIDs: seq<Hash>

    ghost function View(): Snap
      reads this, contracts, nonces
    {
      Snap(contracts.Set(), nonces.Set(), header, initialBlockID, refIDs)
    }

    ghost function Nodes(): set<Node>
      reads this, contracts, nonces
    {
      NodesOf(contracts) + NodesOf(nonces)
    }

    ghost predicate Valid(c: Crypto)
      reads this, contracts, nonces, Nodes()
    {
      ValidTree(contracts, c, ID_LENGTH) && ValidTree(nonces, c, COMMITMENT_LENGTH)
    }

    constructor Empty(c: Crypto)
      ensures Valid(c) && View() == Blocks.Empty() && fresh(contracts) && fresh(nonces) && Nodes() == {}
    {
      contracts := new Tree(c.sha3);
      nonces := new Tree(c.sha3);
      header, initialBlockID, refIDs := None, ZeroHash(), [];
    }

    /** The trees are copied by sharing their nodes. */
    constructor Copy(c: Crypto, original: Snapshot)
      requires original.Valid(c)
      ensures Valid(c) && View() == original.View() && fresh(contracts) && fresh(nonces) && Nodes() == original.Nodes()
    {
      hide Tree.Valid, Tree.Set;
      contracts := new Tree.CopyOf(original.contracts);
      nonces := new Tree.CopyOf(original.nonces);
      header, initialBlockID, refIDs := original.header, original.initialBlockID, original.refIDs;
    }

    method PruneNonces(c: Crypto, timestampMs: uint64)
      requires Valid(c)
      modifies this`nonces
      ensures Valid(c) && View() == Blocks.PruneNonces(old(View()), timestampMs)
      ensures fresh(nonces) && fresh(Nodes() - old(Nodes()))
    {
      hide NonceTime, Tree.Valid, Tree.Set;
      nonces := PrunedTree(nonces, c, timestampMs);
    }

    ghost predicate Did(r: Result<(), StateError>, spec: Applied)
      reads this, contracts, nonces
    {
      match spec
      case Ok(s) => r.Ok? && View() == s
      case Err(e) => r == Err(e)
    }

    method ApplyBlockHeader(c: Crypto, h: Header) returns (r: Result<(), StateError>)
      requires Valid(c)
      modifies this`header, this`initialBlockID, this`refIDs
      ensures Valid(c) && Nodes() == old(Nodes())
      ensures Did(r, Blocks.ApplyBlockHeader(c, old(View()), h))
      ensures r.Err? ==> View() == old(View())
    {
      var id := BlockID(c, h);
      if initialBlockID == ZeroHash() {
        if h.height != 1 {
          return Err(ErrNotInitial);
        }
        initialBlockID := id;
      } else if h.height == 1 {
        return Err(ErrInitialized);
      }
      header := Some(h);
      refIDs := refIDs + [id];
      return Ok(());
    }

    method KnowsBlock(id: Hash) returns (found: bool)
      ensures found <==> id in refIDs
    {
      for i := 0 to |refIDs|
        invariant id !in refIDs[..i]
      {
        if refIDs[i] == id {
          return true;
        }
      }
      return false;
    }

    /** The nonce tree that a transaction's nonces lead to; the snapshot itself is not touched. */
    method CheckNonces(c: Crypto, ns: seq<Nonce>) returns (r: Result<Tree, StateError>)
      requires Valid(c)
      ensures match AddNonces(View(), ns)
        case Ok(s) => r.Ok? && ValidTree(r.value, c, COMMITMENT_LENGTH) && s == View().(nonces := r.value.Set())
        case Err(e) => r == Err(e)
      ensures r.Ok? ==> fresh(r.value) && fresh(NodesOf(r.value) - NodesOf(nonces))
    {
      hide NonceCommitment, Tree.Valid, Tree.Set;
      ghost var view, shared := View(), NodesOf(nonces);
      var tree := new Tree.CopyOf(nonces);
      for i := 0 to |ns|
        invariant fresh(tree) && ValidTree(tree, c, COMMITMENT_LENGTH) && fresh(NodesOf(tree) - shared)
        invariant AddNonces(view, ns) == AddNonces(view.(nonces := tree.Set()), ns[i..])
      {
        var n := ns[i];
        var nc := Commitment(n);
        NonceTimeOfCommitment(n.id, n.expMS);
        var conflict := Has(tree, c, COMMITMENT_LENGTH, nc);
        if conflict {
          return Err(ErrNonceConflict);
        }
        if n.blockID != ZeroHash() && n.blockID != initialBlockID {
          var found := KnowsBlock(n.blockID);
          if !found {
            return Err(ErrNonceBlock);
          }
        }
        Add(tree, c, COMMITMENT_LENGTH, nc);
        assert ns[i..][1..] == ns[i + 1..];
      }
      return Ok(tree);
    }

    method CheckContracts(c: Crypto, refs: seq<ContractRef>) returns (r: Result<Tree, StateError>)
      requires Valid(c)
      ensures match MoveContracts(View(), refs)
        case Ok(s) => r.Ok? && ValidTree(r.value, c, ID_LENGTH) && s == View().(contracts := r.value.Set())
        case Err(e) => r == Err(e)
      ensures r.Ok? ==> fresh(r.value) && fresh(NodesOf(r.value) - NodesOf(contracts))
    {
      hide Tree.Valid, Tree.Set;
      ghost var view, shared := View(), NodesOf(contracts);
      var tree := new Tree.CopyOf(contracts);
      for i := 0 to |refs|
        invariant fresh(tree) && ValidTree(tree, c, ID_LENGTH) && fresh(NodesOf(tree) - shared)
        invariant MoveContracts(view, refs) == MoveContracts(view.(contracts := tree.Set()), refs[i..])
      {
        assert refs[i..][1..] == refs[i + 1..];
        match refs[i]
        case Input(id) =>
          var found := Has(tree, c, ID_LENGTH, id);
          if !found {
            return Err(ErrPrevout);
          }
          Remove(tree, c, ID_LENGTH, id);
        case Output(id) =>
          Add(tree, c, ID_LENGTH, id);
      }
      return Ok(tree);
    }

    /** A transaction that fails leaves both trees as they were. */
    method ApplyTx(c: Crypto, tx: BcTx) returns (r: Result<(), StateError>)
      requires Valid(c)
      modifies this`contracts, this`nonces
      ensures Valid(c) && Did(r, Blocks.ApplyTx(old(View()), tx))
      ensures r.Err? ==> View() == old(View()) && contracts == old(contracts) && nonces == old(nonces)
      ensures r.Ok? ==> fresh(contracts) && fresh(nonces)
      ensures fresh(Nodes() - old(Nodes()))
    {
      hide AddNonces, MoveContracts, Tree.Valid, Tree.Set;
      if initialBlockID == ZeroHash() {
        return Err(ErrEmptyState);
      }
      var newNonces :- CheckNonces(c, tx.nonces);
      var newContracts := CheckContracts(c, tx.contracts);
      NoncesDoNotMatter(View(), newNonces.Set(), tx.contracts);
      if newContracts.Err? {
        return Err(newContracts.error);
      }
      nonces, contracts := newNonces, newContracts.value;
      return Ok(());
    }

    method ApplyTxs(c: Crypto, txs: seq<BcTx>) returns (r: Result<(), StateError>)
      requires Valid(c)
      modifies this`contracts, this`nonces
      ensures Valid(c) && Did(r, Blocks.ApplyTxs(old(View()), txs))
      ensures fresh(Nodes() - old(Nodes()))
    {
      hide Blocks.ApplyTx, ValidTree, Valid, View;
      ghost var spec := Blocks.ApplyTxs(View(), txs);
      for i := 0 to |txs|
        invariant Valid(c) && fresh(Nodes() - old(Nodes()))
        invariant spec == Blocks.ApplyTxs(View(), txs[i..])
      {
        var _ :- ApplyTx(c, txs[i]);
        assert txs[i..][1..] == txs[i + 1..];
      }
      return Ok(());
    }

    method ApplyBlock(c: Crypto, b: Block) returns (r: Result<(), StateError>)
      requires Valid(c)
      modifies this
      ensures Valid(c) && Did(r, Blocks.ApplyBlock(c, old(View()), b))
      ensures fresh(Nodes() - old(Nodes()))
    {
      hide Blocks.ApplyTxs, Blocks.ApplyBlockHeader, Blocks.PruneNonces, ValidTree, Valid, View;
      PruneNonces(c, b.header.timestampMs);
      var _ :- ApplyBlockHeader(c, b.header);
      r := ApplyTxs(c, b.transactions);
    }
  }

  lemma {:induction false} NoncesDoNotMatter(s: Snap, nonces: set<bytes>, refs: seq<ContractRef>)
    ensures MoveContracts(s.(nonces := nonces), refs)
         == match MoveContracts(s, refs) case Ok(t) => Ok(t.(nonces := nonces)) case Err(e) => Err(e)
    decreases |refs|
  {
    if refs != [] {
      NoncesDoNotMatter(s.(contracts := s.contracts - {refs[0].id}), nonces, refs[1..]);
      NoncesDoNotMatter(s.(contracts := s.contracts + {refs[0].id}), nonces, refs[1..]);
    }
  }

  /** The root checks only fill in hashes: every snapshot that shares the nodes stays as it was. */
  method ContractsRoot(s: Snapshot, c: Crypto) returns (h: Hash)
    requires s.Valid(c)
    modifies s.Nodes()`hash
    ensures h == TreeRoot(c, s.View().contracts)
    ensures forall u: Snapshot :: old(allocated(u)) && old(u.Valid(c)) ==> u.Valid(c) && u.View() == old(u.View())
  {
    hide TreeRoot, Tree.Valid, Tree.Set;
    h := RootOf(s.contracts, c, ID_LENGTH);
  }

  method NoncesRoot(s: Snapshot, c: Crypto) returns (h: Hash)
    requires s.Valid(c)
    modifies s.Nodes()`hash
    ensures h == TreeRoot(c, s.View().nonces)
    ensures forall u: Snapshot :: old(allocated(u)) && old(u.Valid(c)) ==> u.Valid(c) && u.View() == old(u.View())
  {
    hide TreeRoot, Tree.Valid, Tree.Set;
    h := RootOf(s.nonces, c, COMMITMENT_LENGTH);
  }

  /** The in-memory store. */
  class MemStore {
    var blocks: map<nat, Block>
    var state: Snapshot?

    constructor ()
      ensures blocks == map[] && state == null
    {
      blocks, state := map[], null;
    }

    method SaveBlock(c: Crypto, b: Block) returns (ok: bool)
      modifies this`blocks
      ensures match Commits.SaveBlock(c, old(blocks), b)
        case Some(saved) => ok && blocks == saved
        case None => !ok && blocks == old(blocks)
    {
      var h := b.header.height;
      if h in blocks && BlockID(c, blocks[h].header) != BlockID(c, b.header) {
        return false;
      }
      blocks := blocks[h := b];
      return true;
    }

    /** Blocks are filed under their own heights. */
    ghost predicate Filed()
      reads this
    {
      FiledIn(blocks)
    }

    method SaveSnapshot(c: Crypto, s: Snapshot)
      requires s.Valid(c)
      modifies this`state
      ensures state != null && fresh(state) && state.Valid(c) && state.View() == s.View()
    {
      state := new Snapshot.Copy(c, s);
    }

    method LatestSnapshot(c: Crypto) returns (s: Snapshot)
      requires state != null ==> state.Valid(c)
      modifies this`state
      ensures fresh(s) && s.Valid(c) && state != null && state != s && state.Valid(c) && s.View() == state.View()
      ensures s.Nodes() == if old(state) == null then {} else old(state.Nodes())
      ensures state.View() == if old(state) == null then Blocks.Empty() else old(state.View())
      ensures forall u: Snapshot :: old(allocated(u)) && old(u.Valid(c)) ==> u.Valid(c) && u.View() == old(u.View())
    {
      hide Tree.Valid, Tree.Set;
      if state == null {
        state := new Snapshot.Empty(c);
      }
      s := new Snapshot.Copy(c, state);
    }
  }

  /** Milliseconds between saved snapshots. */
  const SAVE_SNAPSHOT_FREQUENCY: nat := 3600000

  ghost function ViewOf(s: Snapshot?): Option<Snap>
    reads s, if s == null then {} else {s.contracts, s.nonces}
  {
    if s == null then None else Some(s.View())
  }

  /** Adds a transaction to a draft if it is in time, fits and applies. */
  method TryTx(rules: Rules, copy: Snapshot, runlimit: int64, chosen: seq<BcTx>, tx: BcTx, t: uint64)
    returns (runlimit': int64, chosen': seq<BcTx>)
    requires copy.Valid(rules.crypto)
    modifies copy`contracts, copy`nonces
    ensures copy.Valid(rules.crypto) && fresh(copy.Nodes() - old(copy.Nodes()))
    ensures Draft(copy.View(), runlimit', chosen') == Consider(rules, Draft(old(copy.View()), runlimit, chosen), tx, t)
  {
    hide Blocks.ApplyTx, TimeOk, Tree.Valid, Tree.Set;
    runlimit', chosen' := runlimit, chosen;
    if TimeOk(rules, tx, t) && FitsInt64(runlimit + tx.runlimit) {
      var applied := copy.ApplyTx(rules.crypto, tx);
      if applied.Ok? {
        runlimit', chosen' := runlimit + tx.runlimit, chosen + [tx];
      }
    }
  }

  /** Tries the transactions one by one on a copy of the current state. */
  method ChooseTxs(rules: Rules, current: Snapshot, t: uint64, txs: seq<BcTx>)
    returns (copy: Snapshot, runlimit: int64, chosen: seq<BcTx>)
    requires current.Valid(rules.crypto)
    ensures fresh(copy) && copy.Valid(rules.crypto) && fresh(copy.Nodes() - current.Nodes())
    ensures Draft(copy.View(), runlimit, chosen)
         == Choose(rules, Draft(PruneNonces(current.View(), t), 0, []), txs, t)
  {
    hide Blocks.PruneNonces, Consider, ValidTree, Snapshot.Valid, Snapshot.View;
    ghost var shared, view := current.Nodes(), current.View();
    copy := new Snapshot.Copy(rules.crypto, current);
    copy.PruneNonces(rules.crypto, t);
    runlimit, chosen := 0, [];
    ghost var start := Draft(PruneNonces(view, t), 0, []);
    for i := 0 to |txs|
      invariant fresh(copy) && copy.Valid(rules.crypto) && fresh(copy.Nodes() - shared)
      invariant Choose(rules, start, txs, t) == Choose(rules, Draft(copy.View(), runlimit, chosen), txs[i..], t)
    {
      if |chosen| >= MAX_BLOCK_TXS {
        break;
      }
      assert txs[i..][1..] == txs[i + 1..];
      runlimit, chosen := TryTx(rules, copy, runlimit, chosen, txs[i], t);
    }
  }

  /** The block for a draft, with the roots of the draft's own trees. */
  method MakeBlock(rules: Rules, prev: Header, t: uint64, copy: Snapshot, runlimit: int64, chosen: seq<BcTx>)
    returns (r: Result<(Block, Snapshot), GenerateError>)
    requires copy.Valid(rules.crypto)
    modifies copy, copy.Nodes()`hash
    ensures copy.Valid(rules.crypto) && (r.Ok? ==> r.value.1 == copy)
    ensures forall u: Snapshot :: u != copy && old(allocated(u)) && old(u.Valid(rules.crypto)) ==>
      u.Valid(rules.crypto) && u.View() == old(u.View())
    ensures
      var b := NewBlock(rules, prev, t, Draft(old(copy.View()), runlimit, chosen));
      match Blocks.ApplyBlockHeader(rules.crypto, old(copy.View()), b.header)
      case Ok(s) => r.Ok? && r.value.0 == b && copy.View() == s
      case Err(e) => r == Err(ErrApply(e))
  {
    hide BlockID, TxMerkleRoot, TreeRoot, Blocks.ApplyBlockHeader, Tree.Valid, Tree.Set;
    var c := rules.crypto;
    var contractsRoot := ContractsRoot(copy, c);
    var noncesRoot := NoncesRoot(copy, c);
    var b := Block(
      Header(3, (prev.height + 1) % TWO_TO_THE_64, BlockID(c, prev), t, Generation.RefsCount(rules, prev),
             runlimit, TxMerkleRoot(c, chosen), contractsRoot, noncesRoot, prev.nextPredicate, []),
      chosen);
    var applied := copy.ApplyBlockHeader(c, b.header);
    if applied.Err? {
      return Err(ErrApply(applied.error));
    }
    return Ok((b, copy));
  }

  ghost predicate Generated(r: Result<(Block, Snapshot), GenerateError>, spec: Result<(Block, Snap), GenerateError>, c: Crypto)
    reads if r.Ok? then {r.value.1, r.value.1.contracts, r.value.1.nonces} + r.value.1.Nodes() else {}
  {
    match spec
    case Ok((b, s)) => r.Ok? && r.value.0 == b && r.value.1.Valid(c) && r.value.1.View() == s
    case Err(e) => r == Err(e)
  }

  /** The block after prev with the transactions that fit the current state. */
  method GenerateFrom(rules: Rules, prev: Header, current: Snapshot, t: uint64, txs: seq<BcTx>)
    returns (r: Result<(Block, Snapshot), GenerateError>)
    requires current.Valid(rules.crypto)
    modifies current.Nodes()`hash
    ensures forall u: Snapshot :: old(allocated(u)) && old(u.Valid(rules.crypto)) ==>
      u.Valid(rules.crypto) && u.View() == old(u.View())
    ensures Generated(r, GenerateOn(rules, prev, old(current.View()), t, txs), rules.crypto)
    ensures r.Ok? ==> fresh(r.value.1)
  {
    hide Choose, NewBlock, Tree.Valid, Tree.Set, Blocks.ApplyBlockHeader;
    if t <= prev.timestampMs {
      return Err(ErrTimestamp);
    }
    var copy, runlimit, chosen := ChooseTxs(rules, current, t, txs);
    r := MakeBlock(rules, prev, t, copy, runlimit, chosen);
  }

  method CheckRoots(s: Snapshot, c: Crypto, h: Header) returns (ok: bool)
    requires s.Valid(c)
    modifies s.Nodes()`hash
    ensures ok == (h.contractsRoot == TreeRoot(c, s.View().contracts) && h.noncesRoot == TreeRoot(c, s.View().nonces))
    ensures forall u: Snapshot :: old(allocated(u)) && old(u.Valid(c)) ==> u.Valid(c) && u.View() == old(u.View())
  {
    hide TreeRoot, ValidTree, Snapshot.Valid, Snapshot.View;
    var contractsRoot := ContractsRoot(s, c);
    if h.contractsRoot != contractsRoot {
      return false;
    }
    var noncesRoot := NoncesRoot(s, c);
    return h.noncesRoot == noncesRoot;
  }

  method AppliedCopy(c: Crypto, current: Snapshot, b: Block) returns (copy: Snapshot, r: Result<(), StateError>)
    requires current.Valid(c)
    ensures fresh(copy) && copy.Valid(c) && fresh(copy.Nodes() - current.Nodes())
    ensures copy.Did(r, Blocks.ApplyBlock(c, current.View(), b))
  {
    hide Blocks.ApplyBlock, Tree.Valid, Tree.Set;
    copy := new Snapshot.Copy(c, current);
    r := copy.ApplyBlock(c, b);
  }

  /** Applies a block to a copy of the current state and compares the roots it declares with those of the trees. */
  method ApplyToCopy(rules: Rules, current: Snapshot, b: Block) returns (s: Snapshot?)
    requires current.Valid(rules.crypto)
    modifies current.Nodes()`hash
    ensures forall u: Snapshot :: old(allocated(u)) && old(u.Valid(rules.crypto)) ==>
      u.Valid(rules.crypto) && u.View() == old(u.View())
    ensures s != null ==> fresh(s) && s.Valid(rules.crypto)
    ensures ViewOf(s) == Commits.Apply(rules, old(current.View()), b)
  {
    hide Blocks.ApplyBlock, TreeRoot, Tree.Valid, Tree.Set;
    var copy, applied := AppliedCopy(rules.crypto, current, b);
    if applied.Err? {
      return null;
    }
    var ok := CheckRoots(copy, rules.crypto, b.header);
    return if ok then copy else null;
  }

  function TimeOf(s: Snapshot): (t: uint64)
    reads s, s.contracts, s.nonces
    ensures t == if s.View().header.None? then 0 else s.View().header.value.timestampMs
  {
    if s.header.None? then 0 else s.header.value.timestampMs
  }

  function SnapshotHeight(s: Snapshot): (h: uint64)
    reads s, s.contracts, s.nonces
    ensures h == Height(s.View())
  {
    if s.header.None? then 0 else s.header.value.height
  }

  /** The last block that a snapshot took in is on file; none means that it is empty. */
  ghost predicate LastApplied(last: Option<Block>, blocks: map<nat, Block>, s: Snap) {
    && (last == None ==> Height(s) == 0)
    && (last.Some? ==>
          last.value.header.height == Height(s) && Height(s) in blocks && blocks[Height(s)] == last.value)
  }

  ghost predicate FiledIn(blocks: map<nat, Block>) {
    forall h <- blocks :: blocks[h].header.height == h
  }

  /** Applies one block from the store and compares the contracts root. */
  method ReplayOne(rules: Rules, s: Snapshot, b: Block) returns (ok: bool)
    requires s.Valid(rules.crypto)
    modifies s, s.Nodes()`hash
    ensures s.Valid(rules.crypto) && fresh(s.Nodes() - old(s.Nodes()))
    ensures forall u: Snapshot :: u != s && old(allocated(u)) && old(u.Valid(rules.crypto)) ==>
      u.Valid(rules.crypto) && u.View() == old(u.View())
    ensures
      var spec := Blocks.ApplyBlock(rules.crypto, old(s.View()), b);
      && ok == (spec.Ok? && b.header.contractsRoot == TreeRoot(rules.crypto, spec.value.contracts))
      && (ok ==> s.View() == spec.value && s.View().header == Some(b.header))
  {
    hide Blocks.ApplyBlock, BlockID, TreeRoot, Tree.Valid, Tree.Set;
    var c := rules.crypto;
    ghost var before := s.View();
    var applied := s.ApplyBlock(c, b);
    if applied.Err? {
      return false;
    }
    Commits.ApplyingSetsHeader(c, before, b);
    var contractsRoot := ContractsRoot(s, c);
    return b.header.contractsRoot == contractsRoot;
  }

  /** Brings s up to date with all blocks on file, and returns the last one applied. */
  method ReplayBlocks(rules: Rules, blocks: map<nat, Block>, s: Snapshot, first: Option<Block>)
    returns (r: Option<Option<Block>>)
    requires s.Valid(rules.crypto) && FiledIn(blocks) && LastApplied(first, blocks, s.View())
    modifies s, s.Nodes()`hash
    ensures s.Valid(rules.crypto)
    ensures forall u: Snapshot :: u != s && old(allocated(u)) && old(u.Valid(rules.crypto)) ==>
      u.Valid(rules.crypto) && u.View() == old(u.View())
    ensures match Commits.Replay(rules, blocks, old(s.View()), Height(old(s.View())) + 1, |blocks|)
      case None => r == None
      case Some(t) => r.Some? && s.View() == t && LastApplied(r.value, blocks, t)
  {
    hide Blocks.ApplyBlock, TreeRoot, ValidTree, Snapshot.Valid, Snapshot.View;
    var c, last, n := rules.crypto, first, |blocks|;
    var h := SnapshotHeight(s) + 1;
    ghost var spec := Commits.Replay(rules, blocks, s.View(), h, n);
    while h <= n
      invariant s.Valid(c) && fresh(s.Nodes() - old(s.Nodes()))
      invariant forall u: Snapshot :: u != s && old(allocated(u)) && old(u.Valid(c)) ==> u.Valid(c) && u.View() == old(u.View())
      invariant spec == Commits.Replay(rules, blocks, s.View(), h, n)
      invariant LastApplied(last, blocks, s.View())
      decreases n + 1 - h
    {
      if h !in blocks {
        return None;
      }
      var ok := ReplayOne(rules, s, blocks[h]);
      if !ok {
        return None;
      }
      last := Some(blocks[h]);
      h := h + 1;
    }
    return Some(last);
  }

  /** When a stored state was made, if the block it ends with is on file. */
  ghost function TimeOnFile(blocks: map<nat, Block>, s: Snap): Option<uint64> {
    if Height(s) > 0 && Height(s) in blocks then Some(s.header.value.timestampMs) else None
  }

  /** The stored snapshot, if the block it ends with is on file, brought up to date. */
  method RestoreAndReplay(rules: Rules, store: MemStore) returns (s: Snapshot, r: Option<Option<Block>>, ms: Option<uint64>)
    requires (store.state != null ==> store.state.Valid(rules.crypto)) && store.Filed()
    modifies store`state, (if store.state == null then {} else store.state.Nodes())`hash
    ensures s.Valid(rules.crypto) && store.state != null && store.state.Valid(rules.crypto)
    ensures forall u: Snapshot :: old(allocated(u)) && old(u.Valid(rules.crypto)) ==>
      u.Valid(rules.crypto) && u.View() == old(u.View())
    ensures
      var start := if old(store.state) == null then Blocks.Empty() else old(store.state.View());
      && store.state.View() == start
      && match Commits.RecoveredFrom(rules, store.blocks, start)
         case None => r == None
         case Some(t) => r.Some? && s.View() == t && LastApplied(r.value, store.blocks, t)
    ensures ms == TimeOnFile(store.blocks, store.state.View())
  {
    hide Commits.Replay, ValidTree, Snapshot.Valid, Snapshot.Nodes;
    s := store.LatestSnapshot(rules.crypto);
    var start := SnapshotHeight(s);
    var last: Option<Block> := None;
    ms := None;
    if start > 0 {
      if start !in store.blocks {
        return s, None, None;
      }
      last, ms := Some(store.blocks[start]), Some(s.header.value.timestampMs);
    }
    r := ReplayBlocks(rules, store.blocks, s, last);
  }

  class Chain {
    const rules: Rules
    const store: MemStore
    var snapshot: Snapshot
    var height: nat
    var lastQueuedMs: uint64
    var pending: Snapshot?

    constructor (rules: Rules, store: MemStore)
      requires store.state != null ==> store.state.Valid(rules.crypto)
      ensures Valid() && this.rules == rules && this.store == store && fresh(snapshot)
      ensures snapshot.View() == Blocks.Empty() && height == |store.blocks| && pending == null
    {
      this.rules, this.store, height, lastQueuedMs, pending := rules, store, |store.blocks|, 0, null;
      snapshot := new Snapshot.Empty(rules.crypto);
    }

    /** Every snapshot the chain or its store holds on to is valid. */
    ghost predicate Valid()
      reads *
    {
      && snapshot.Valid(rules.crypto)
      && (store.state != null ==> store.state.Valid(rules.crypto))
      && (pending != null ==> pending.Valid(rules.crypto))
    }

    /** The object as a system state without threads. */
    ghost function Sys(): Commits.System
      reads *
    {
      Commits.System(store.blocks, ViewOf(store.state), ViewOf(pending), snapshot.View(), height, map[])
    }

    method GenerateBlock(base: Snapshot, timestampMs: uint64, txs: seq<BcTx>)
      returns (r: Result<(Block, Snapshot), GenerateError>)
      requires Valid() && base.header.Some?
      modifies snapshot.Nodes()`hash
      ensures Valid() && Sys() == old(Sys())
      ensures Generated(r, GenerateOn(rules, base.header.value, old(snapshot.View()), timestampMs, txs), rules.crypto)
      ensures r.Ok? ==> fresh(r.value.1)
    {
      hide GenerateOn, ValidTree, Snapshot.Valid, Snapshot.View, Generated, Snapshot.Nodes;
      r := GenerateFrom(rules, base.header.value, snapshot, timestampMs, txs);
    }

    /** An older state than the current one is ignored. */
    method SetState(s: Snapshot)
      requires Valid() && s.Valid(rules.crypto)
      modifies this`snapshot, this`height
      ensures Valid() && Sys() == Commits.SetState(old(Sys()), s.View())
      ensures snapshot in {s, old(snapshot)}
    {
      hide Tree.Valid, Tree.Set;
      var h := SnapshotHeight(s);
      if h <= SnapshotHeight(snapshot) {
        return;
      }
      snapshot := s;
      if h > height {
        height := h;
      }
    }

    method SetHeight(h: nat)
      modifies this`height
      ensures height == if h <= old(height) then old(height) else h
    {
      if h <= height {
        return;
      }
      height := h;
    }

    /** It is an hour since a state was queued, and that one has been taken. The sum wraps around. */
    ghost predicate IsDue(timestampMs: uint64)
      reads this
    {
      pending == null && timestampMs > (lastQueuedMs + 3600000) % TWO_TO_THE_64
    }

    /** Queues s for saving if the last one was long enough ago and no other is waiting. */
    method QueueSnapshot(s: Snapshot) returns (queued: bool)
      requires Valid() && s.Valid(rules.crypto)
      modifies this`pending, this`lastQueuedMs
      ensures Valid() && pending == if queued then s else old(pending)
      ensures queued == old(IsDue(TimeOf(s)))
      ensures lastQueuedMs == if queued then TimeOf(s) else old(lastQueuedMs)
    {
      hide Tree.Valid, Tree.Set;
      queued := false;
      var t := TimeOf(s);
      if t > (lastQueuedMs + SAVE_SNAPSHOT_FREQUENCY) % TWO_TO_THE_64 && pending == null {
        pending := s;
        lastQueuedMs := t;
        queued := true;
      }
    }

    /** The saving goroutine takes the waiting snapshot. */
    method SavePending()
      requires Valid()
      modifies this`pending, store`state
      ensures Valid()
      ensures Sys() == if old(pending) == null then old(Sys()) else old(Sys()).(stored := old(Sys()).pending, pending := None)
    {
      hide Tree.Valid, Tree.Set;
      if pending != null {
        store.SaveSnapshot(rules.crypto, pending);
        pending := null;
      }
    }

    /** finalizeCommitState. */
    method Finalize(s: Snapshot) returns (ghost queued: bool)
      requires Valid() && s.Valid(rules.crypto)
      modifies this`pending, this`lastQueuedMs, this`snapshot, this`height
      ensures Valid() && Sys() == Commits.Publish(old(Sys()), s.View(), queued)
      ensures queued == old(IsDue(TimeOf(s)))
    {
      hide Tree.Valid, Tree.Set;
      var q := QueueSnapshot(s);
      queued := q;
      SetState(s);
    }

    /** The block is on file. */
    ghost predicate Saved(b: Block)
      reads store
    {
      b.header.height in store.blocks && store.blocks[b.header.height] == b
    }

    /** No block on file has been replaced by one with another ID. */
    ghost predicate Keeps(blocks: map<nat, Block>)
      reads store
    {
      forall h <- blocks :: h in store.blocks && BlockID(rules.crypto, store.blocks[h].header) == BlockID(rules.crypto, blocks[h].header)
    }

    /** The published state ends with this header, and its roots are those that the header declares. */
    ghost predicate Declared(h: Header)
      reads *
    {
      && snapshot.View().header == Some(h)
      && h.contractsRoot == TreeRoot(rules.crypto, snapshot.View().contracts)
      && h.noncesRoot == TreeRoot(rules.crypto, snapshot.View().nonces)
    }

    /** The second half of CommitBlock: apply a new block to a copy of the state, check the roots and publish. */
    method Extend(b: Block) returns (ok: bool, ghost queued: bool)
      requires Valid() && b.header.height > Height(snapshot.View())
      modifies this`pending, this`lastQueuedMs, this`snapshot, this`height, snapshot.Nodes()`hash
      ensures Valid()
      ensures match Commits.Apply(rules, old(snapshot.View()), b)
        case None => !ok && Sys() == old(Sys())
        case Some(s) => ok && Sys() == Commits.Publish(old(Sys()), s, queued)
      ensures ok ==> Declared(b.header) && Height(snapshot.View()) == b.header.height
      ensures ok ==> queued == old(IsDue(b.header.timestampMs))
    {
      hide Commits.Apply, Tree.Valid, Tree.Set, Commits.Publish;
      if Commits.Apply(rules, snapshot.View(), b).Some? {
        forall queue { Commits.PublishesDeclaredRoots(rules, Sys(), b, queue); }
      }
      queued := false;
      var s := ApplyToCopy(rules, snapshot, b);
      if s == null {
        return false, queued;
      }
      queued := Finalize(s);
      return true, queued;
    }

    /** CommitBlock: save, compare heights, apply to a copy, check the roots, publish. */
    method CommitBlock(b: Block) returns (ok: bool, ghost queued: bool)
      requires Valid()
      modifies this, store`blocks, snapshot.Nodes()`hash
      ensures Valid()
      ensures match Commits.SaveBlock(rules.crypto, old(store.blocks), b)
        case None => !ok && Sys() == old(Sys())
        case Some(saved) =>
          var sys := old(Sys()).(blocks := saved);
          if b.header.height <= Height(old(snapshot.View())) then ok && Sys() == sys
          else
            match Commits.Apply(rules, old(snapshot.View()), b)
            case None => !ok && Sys() == sys
            case Some(s) => ok && Sys() == Commits.Publish(sys, s, queued)
      ensures ok ==> Saved(b) && b.header.height <= Height(snapshot.View())
      ensures Keeps(old(store.blocks))
      ensures snapshot.View() != old(snapshot.View()) ==>
        ok && Declared(b.header) && queued == old(IsDue(b.header.timestampMs))
    {
      hide BlockID, Commits.Apply, Tree.Valid, Tree.Set, Commits.Publish, Declared;
      queued := false;
      var stored := store.SaveBlock(rules.crypto, b);
      if !stored {
        return false, queued;
      }
      if b.header.height <= SnapshotHeight(snapshot) {
        return true, queued;
      }
      ok, queued := Extend(b);
    }

    /** CommitAppliedBlock: like CommitBlock, for a state the block has already been applied to. */
    method CommitAppliedBlock(b: Block, s: Snapshot) returns (ok: bool, ghost queued: bool)
      requires Valid() && s.Valid(rules.crypto)
      modifies this, store`blocks
      ensures Valid()
      ensures match Commits.SaveBlock(rules.crypto, old(store.blocks), b)
        case None => !ok && Sys() == old(Sys())
        case Some(saved) =>
          var sys := old(Sys()).(blocks := saved);
          ok && Sys() == if b.header.height <= Height(sys.snapshot) then sys else Commits.Publish(sys, s.View(), queued)
      ensures ok ==> Saved(b)
      ensures Keeps(old(store.blocks))
      ensures
        var newer := old(Height(snapshot.View()) < b.header.height && Height(snapshot.View()) < Height(s.View()));
        snapshot.View() == (if ok && newer then s.View() else old(snapshot.View()))
    {
      hide BlockID, Tree.Valid, Tree.Set;
      queued := false;
      var stored := store.SaveBlock(rules.crypto, b);
      if !stored {
        return false, queued;
      }
      if b.header.height <= SnapshotHeight(snapshot) {
        return true, queued;
      }
      queued := Finalize(s);
      return true, queued;
    }

    /** The time of the stored snapshot counts as the last time one was queued. */
    method NoteQueued(ms: Option<uint64>)
      modifies this`lastQueuedMs
      ensures lastQueuedMs == if ms.Some? then ms.value else old(lastQueuedMs)
      ensures forall u: Snapshot :: old(allocated(u)) && old(u.Valid(rules.crypto)) ==>
        u.Valid(rules.crypto) && u.View() == old(u.View())
    {
      if ms.Some? {
        lastQueuedMs := ms.value;
      }
    }

    /** The stored snapshot brought up to date, with the last block it took in. */
    method Rebuild() returns (s: Snapshot?, last: Option<Block>)
      requires Valid() && store.Filed()
      modifies this`lastQueuedMs, store`state, (if store.state == null then {} else store.state.Nodes())`hash
      ensures Valid() && Sys() == old(Sys()).(stored := Some(Commits.Latest(old(Sys()))))
      ensures ViewOf(s) == Commits.Recovered(rules, old(Sys()))
      ensures
        var ms := TimeOnFile(store.blocks, Commits.Latest(old(Sys())));
        lastQueuedMs == if ms.Some? then ms.value else old(lastQueuedMs)
      ensures s != null ==> s.Valid(rules.crypto) && LastApplied(last, store.blocks, s.View())
    {
      hide Commits.Replay, LastApplied, ValidTree, Snapshot.Valid, Snapshot.View, Snapshot.Nodes;
      var t, replayed, ms := RestoreAndReplay(rules, store);
      NoteQueued(ms);
      s, last := null, None;
      if replayed.Some? {
        s, last := t, replayed.value;
      }
    }

    /** Replays the saved blocks above the stored snapshot and publishes the result. */
    method Recover() returns (r: Snapshot?, ghost queued: bool)
      requires Valid() && store.Filed()
      modifies this, store, (if store.state == null then {} else store.state.Nodes())`hash
      ensures Valid()
      ensures ViewOf(r) == Commits.Recovered(rules, old(Sys()))
      ensures Sys() == Commits.RecoverStep(rules, old(Sys()), queued)
      ensures r != null ==> Height(r.View()) <= Height(snapshot.View())
      ensures old(Height(snapshot.View())) <= Height(snapshot.View())
    {
      hide BlockID, Tree.Valid, Tree.Set, Commits.Recovered, Commits.Publish;
      queued := false;
      var s, last := Rebuild();
      Commits.LatestIsEnough(rules, old(Sys()));
      if s != null && last.Some? {
        ghost var blocks := store.blocks;
        assert blocks[last.value.header.height := last.value] == blocks;
        var ok: bool;
        ok, queued := CommitAppliedBlock(last.value, s);
      }
      return s, queued;
    }
  }
}
