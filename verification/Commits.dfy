/**
 Concurrent commits, crashes and recovery (block.go, protocol.go, recover.go, memstore.go).

 Any number of threads commit blocks of one valid chain. A step is what one thread does under one lock:
 SaveBlock, State, or setState with the queueing before it; the application of a block in between is the
 thread's own. A crash may come at any point.
 */
module Commits {
  import opened Prelude
  import opened Blocks
  import opened Generation
  import opened History

  /** Where a thread is inside CommitBlock or CommitAppliedBlock. */
  datatype Stage = Start | Saved | Got(cur: Snap) | Ready(next: Snap) | Failed

  /**
   A thread committing the block of height h, having committed the ones before it. One that has applied
   the block already, as a generator has, commits the state it got then (CommitAppliedBlock).
   */
  datatype Thread = Thread(h: nat, stage: Stage, applied: Option<Snap>)

  /** What is on disk (blocks and the last saved snapshot) and what is in memory. */
  datatype System = System(
    blocks: map<nat, Block>,
    stored: Option<Snap>,
    pending: Option<Snap>,
    snapshot: Snap,
    height: nat,
    threads: map<nat, Thread>)

  datatype Action =
    | Begin(i: nat, h: nat)
    | BeginApplied(i: nat)
    | Advance(i: nat, queue: bool)
    | SavePending
    | SetHeight(h: nat)
    | Crash
    | Recover(queue: bool)

  // --- the steps

  /** SaveBlock: a block already there must have the same ID. */
  function SaveBlock(c: Crypto, blocks: map<nat, Block>, b: Block): Option<map<nat, Block>> {
    var h := b.header.height;
    if h in blocks && BlockID(c, blocks[h].header) != BlockID(c, b.header) then None else Some(blocks[h := b])
  }

  /** setState ignores a state that is not newer. */
  function SetState(sys: System, s: Snap): System {
    if Height(s) <= Height(sys.snapshot) then sys
    else sys.(snapshot := s, height := if Height(s) > sys.height then Height(s) else sys.height)
  }

  /** finalizeCommitState: the state is queued for saving if it is time and there is room, and published. */
  function Publish(sys: System, s: Snap, queue: bool): System {
    SetState(if queue && sys.pending.None? then sys.(pending := Some(s)) else sys, s)
  }

  /** What CommitBlock makes of the state it got: nothing if the block is already in, an error, or the next state. */
  ghost function Apply(rules: Rules, cur: Snap, b: Block): Option<Snap> {
    match ApplyBlock(rules.crypto, cur, b)
    case Err(_) => None
    case Ok(s) =>
      if b.header.contractsRoot == TreeRoot(rules.crypto, s.contracts) && b.header.noncesRoot == TreeRoot(rules.crypto, s.nonces)
      then Some(s) else None
  }

  ghost function Step(rules: Rules, sys: System, i: nat, t: Thread, b: Block, queue: bool): System {
    match t.stage
    case Start =>
      (match SaveBlock(rules.crypto, sys.blocks, b)
       case None => sys.(threads := sys.threads[i := t.(stage := Failed)])
       case Some(saved) => sys.(blocks := saved, threads := sys.threads[i := t.(stage := Saved)]))
    case Saved =>
      sys.(threads := sys.threads[i := t.(stage := Got(sys.snapshot))])
    case Got(cur) =>
      if b.header.height <= Height(cur) then sys.(threads := sys.threads[i := Thread(t.h + 1, Start, None)])
      else if t.applied.Some? then sys.(threads := sys.threads[i := t.(stage := Ready(t.applied.value))])
      else
        (match Apply(rules, cur, b)
         case None => sys.(threads := sys.threads[i := t.(stage := Failed)])
         case Some(s) => sys.(threads := sys.threads[i := t.(stage := Ready(s))]))
    case Ready(s) =>
      Publish(sys, s, queue).(threads := sys.threads[i := Thread(t.h + 1, Start, None)])
    case Failed => sys
  }

  /** Recover's loop: apply the saved blocks from h up to height, one by one. */
  ghost function Replay(rules: Rules, blocks: map<nat, Block>, s: Snap, h: nat, height: nat): Option<Snap>
    decreases height + 1 - h
  {
    if h > height then Some(s)
    else if h !in blocks then None
    else
      match ApplyBlock(rules.crypto, s, blocks[h])
      case Err(_) => None
      case Ok(s') =>
        if blocks[h].header.contractsRoot != TreeRoot(rules.crypto, s'.contracts) then None
        else Replay(rules, blocks, s', h + 1, height)
  }

  /** Recover, from a stored snapshot; None is an error. */
  ghost function RecoveredFrom(rules: Rules, blocks: map<nat, Block>, s: Snap): Option<Snap> {
    if Height(s) > 0 && Height(s) !in blocks then None
    else Replay(rules, blocks, s, Height(s) + 1, |blocks|)
  }

  ghost function Recovered(rules: Rules, sys: System): Option<Snap> {
    RecoveredFrom(rules, sys.blocks, Latest(sys))
  }

  /** LatestSnapshot stores the empty state where there is none. */
  function Latest(sys: System): Snap {
    if sys.stored.None? then Empty() else sys.stored.value
  }

  /** Recover as a step: what it recovers is committed like a block's state, unless it is already known. */
  ghost function RecoverStep(rules: Rules, sys: System, queue: bool): System {
    var sys := sys.(stored := Some(Latest(sys)));
    match Recovered(rules, sys)
    case None => sys
    case Some(s) => if Height(s) <= Height(sys.snapshot) then sys else Publish(sys, s, queue)
  }

  lemma LatestIsEnough(rules: Rules, sys: System)
    ensures Recovered(rules, sys.(stored := Some(Latest(sys)))) == Recovered(rules, sys)
  {
  }

  ghost function Act(rules: Rules, chain: seq<Block>, sys: System, a: Action): System {
    match a
    case Begin(i, h) =>
      if 1 <= h <= Height(sys.snapshot) + 1 then sys.(threads := sys.threads[i := Thread(h, Start, None)]) else sys
    case BeginApplied(i) =>
      var h := Height(sys.snapshot) + 1;
      if h > |chain| then sys
      else
        (match ApplyBlock(rules.crypto, sys.snapshot, chain[h - 1])
         case Err(_) => sys
         case Ok(s) => sys.(threads := sys.threads[i := Thread(h, Start, Some(s))]))
    case Advance(i, queue) =>
      if i in sys.threads && 1 <= sys.threads[i].h <= |chain|
      then Step(rules, sys, i, sys.threads[i], chain[sys.threads[i].h - 1], queue)
      else sys
    case SavePending =>
      if sys.pending.None? then sys else sys.(stored := sys.pending, pending := None)
    case SetHeight(h) =>
      if h <= sys.height then sys else sys.(height := h)
    case Crash =>
      sys.(pending := None, snapshot := Empty(), height := |sys.blocks|, threads := map[])
    case Recover(queue) =>
      RecoverStep(rules, sys, queue)
  }

  ghost function Run(rules: Rules, chain: seq<Block>, actions: seq<Action>): System {
    if actions == [] then System(map[], None, None, Empty(), 0, map[])
    else Act(rules, chain, Run(rules, chain, actions[..|actions| - 1]), actions[|actions| - 1])
  }

  // --- the invariant

  /** The blocks are numbered from one, apply in order, and declare the roots they lead to. */
  ghost predicate ValidChain(rules: Rules, chain: seq<Block>) {
    forall k :: 0 <= k < |chain| ==> ValidAt(rules, chain, k)
  }

  ghost predicate ValidAt(rules: Rules, chain: seq<Block>, k: nat)
    requires k < |chain|
  {
    var r := Fold(rules.crypto, chain[..k + 1]);
    && chain[k].header.height == k + 1
    && r.Ok? && Fold(rules.crypto, chain[..k]).Ok?
    && chain[k].header.contractsRoot == TreeRoot(rules.crypto, r.value.contracts)
    && chain[k].header.noncesRoot == TreeRoot(rules.crypto, r.value.nonces)
  }

  /** The state after the first k blocks. */
  ghost function After(rules: Rules, chain: seq<Block>, k: nat): Snap
    requires ValidChain(rules, chain) && k <= |chain|
  {
    if k == 0 then Empty() else
    assert ValidAt(rules, chain, k - 1);
    Fold(rules.crypto, chain[..k]).value
  }

  ghost predicate IsAfter(rules: Rules, chain: seq<Block>, s: Snap, low: nat, high: nat)
    requires ValidChain(rules, chain)
  {
    low <= Height(s) <= high && Height(s) <= |chain| && s == After(rules, chain, Height(s))
  }

  ghost predicate ThreadOk(rules: Rules, chain: seq<Block>, sys: System, t: Thread)
    requires ValidChain(rules, chain)
  {
    && 1 <= t.h <= Height(sys.snapshot) + 1
    && (t.applied.Some? ==> t.h <= |chain| && t.applied.value == After(rules, chain, t.h))
    && match t.stage
       case Start => true
       case Saved => t.h <= |sys.blocks|
       case Got(cur) => t.h <= |sys.blocks| && IsAfter(rules, chain, cur, t.h - 1, Height(sys.snapshot))
       case Ready(s) => t.h <= |sys.blocks| && Height(s) == t.h && IsAfter(rules, chain, s, 0, |sys.blocks|)
       case Failed => false
  }

  /** Saved blocks are the chain's first ones. */
  ghost predicate IsPrefix(chain: seq<Block>, blocks: map<nat, Block>) {
    && |blocks| <= |chain|
    && (forall h :: h in blocks <==> 1 <= h <= |blocks|)
    && (forall h :: 1 <= h <= |blocks| ==> h in blocks && blocks[h] == chain[h - 1])
  }

  ghost predicate StatesOk(rules: Rules, chain: seq<Block>, sys: System)
    requires ValidChain(rules, chain)
  {
    && IsAfter(rules, chain, sys.snapshot, 0, |sys.blocks|)
    && (sys.stored.Some? ==> IsAfter(rules, chain, sys.stored.value, 0, |sys.blocks|))
    && (sys.pending.Some? ==> IsAfter(rules, chain, sys.pending.value, 0, |sys.blocks|))
    && Height(sys.snapshot) <= sys.height
  }

  ghost predicate ThreadsOk(rules: Rules, chain: seq<Block>, sys: System)
    requires ValidChain(rules, chain)
  {
    forall i <- sys.threads :: ThreadOk(rules, chain, sys, sys.threads[i])
  }

  /** Every state anywhere is the fold of a prefix of the saved blocks, and no thread has failed. */
  ghost predicate Consistent(rules: Rules, chain: seq<Block>, sys: System)
    requires ValidChain(rules, chain)
  {
    IsPrefix(chain, sys.blocks) && StatesOk(rules, chain, sys) && ThreadsOk(rules, chain, sys)
  }

  lemma AfterHasHeight(rules: Rules, chain: seq<Block>, k: nat)
    requires ValidChain(rules, chain) && k <= |chain|
    ensures Height(After(rules, chain, k)) == k
  {
    if k > 0 {
      assert ValidAt(rules, chain, k - 1);
      assert chain[..k][..k - 1] == chain[..k - 1] && chain[..k][k - 1] == chain[k - 1];
      ApplyingSetsHeader(rules.crypto, Fold(rules.crypto, chain[..k - 1]).value, chain[k - 1]);
    }
  }

  lemma {:induction false} TransactionsKeepHeader(s: Snap, txs: seq<BcTx>)
    requires ApplyTxs(s, txs).Ok?
    ensures ApplyTxs(s, txs).value.header == s.header
    decreases |txs|
  {
    if txs != [] {
      ApplyTxCommutes(s, s, txs[0]);
      TransactionsKeepHeader(ApplyTx(s, txs[0]).value, txs[1..]);
    }
  }

  lemma ApplyingSetsHeader(c: Crypto, s: Snap, b: Block)
    requires ApplyBlock(c, s, b).Ok?
    ensures ApplyBlock(c, s, b).value.header == Some(b.header)
  {
    hide BlockID;
    var pruned := PruneNonces(s, b.header.timestampMs);
    TransactionsKeepHeader(ApplyBlockHeader(c, pruned, b.header).value, b.transactions);
  }

  /** A block that is applied and published, to a state it is above: the roots it declares are those of the new state. */
  lemma PublishesDeclaredRoots(rules: Rules, sys: System, b: Block, queue: bool)
    requires Apply(rules, sys.snapshot, b).Some? && b.header.height > Height(sys.snapshot)
    ensures
      var s := Apply(rules, sys.snapshot, b).value;
      && ApplyBlock(rules.crypto, sys.snapshot, b) == Ok(s)
      && Publish(sys, s, queue).snapshot == s && s.header == Some(b.header)
      && b.header.contractsRoot == TreeRoot(rules.crypto, s.contracts)
      && b.header.noncesRoot == TreeRoot(rules.crypto, s.nonces)
  {
    hide ApplyBlock, TreeRoot;
    ApplyingSetsHeader(rules.crypto, sys.snapshot, b);
  }

  /** Saving fails exactly if another block is saved at that height. Otherwise the block is saved and no other is lost. */
  lemma SavedBlocksStay(c: Crypto, blocks: map<nat, Block>, b: Block)
    ensures SaveBlock(c, blocks, b).None? <==>
      b.header.height in blocks && BlockID(c, blocks[b.header.height].header) != BlockID(c, b.header)
    ensures SaveBlock(c, blocks, b).Some? ==>
      var saved := SaveBlock(c, blocks, b).value;
      && saved.Keys == blocks.Keys + {b.header.height} && saved[b.header.height] == b
      && (forall h <- blocks :: BlockID(c, saved[h].header) == BlockID(c, blocks[h].header))
      && (forall h <- blocks :: h != b.header.height ==> saved[h] == blocks[h])
  {
    hide BlockID;
  }

  /** Whatever the threads do, on a valid chain or not, and through crashes: no saved block is replaced by another. */
  lemma BlocksAreNeverReplaced(rules: Rules, chain: seq<Block>, sys: System, a: Action)
    ensures
      var after := Act(rules, chain, sys, a);
      forall h <- sys.blocks :: h in after.blocks && BlockID(rules.crypto, after.blocks[h].header) == BlockID(rules.crypto, sys.blocks[h].header)
  {
    hide BlockID, ApplyBlock, Apply, Recovered, SaveBlock;
    if a.Advance? && a.i in sys.threads && 1 <= sys.threads[a.i].h <= |chain| {
      SavedBlocksStay(rules.crypto, sys.blocks, chain[sys.threads[a.i].h - 1]);
    }
  }

  /** Applying block k+1 to the state after k blocks succeeds and gives the state after k+1. */
  lemma NextApplies(rules: Rules, chain: seq<Block>, k: nat)
    requires ValidChain(rules, chain) && k < |chain|
    ensures ApplyBlock(rules.crypto, After(rules, chain, k), chain[k]) == Ok(After(rules, chain, k + 1))
    ensures Apply(rules, After(rules, chain, k), chain[k]) == Some(After(rules, chain, k + 1))
  {
    hide ApplyBlock;
    assert ValidAt(rules, chain, k);
    assert chain[..k + 1][..k] == chain[..k] && chain[..k + 1][k] == chain[k];
    assert k == 0 ==> chain[..k] == [];
  }

  /** Every block that recovery replays is on file, applies, and declares the contracts root it leads to. */
  lemma {:induction false} ReplayChecks(rules: Rules, blocks: map<nat, Block>, s: Snap, h: nat, height: nat, k: nat)
    requires Replay(rules, blocks, s, h, height).Some? && h <= k <= height
    ensures k in blocks && Replay(rules, blocks, s, h, k).Some?
    ensures
      var t := Replay(rules, blocks, s, h, k).value;
      t.header == Some(blocks[k].header) && blocks[k].header.contractsRoot == TreeRoot(rules.crypto, t.contracts)
    decreases k - h
  {
    hide ApplyBlock, TreeRoot;
    var next := ApplyBlock(rules.crypto, s, blocks[h]).value;
    ApplyingSetsHeader(rules.crypto, s, blocks[h]);
    if h < k {
      ReplayChecks(rules, blocks, next, h + 1, height, k);
    }
  }

  /** Recovery needs the block that the stored state ends with. */
  lemma RecoveryNeedsBlock(rules: Rules, blocks: map<nat, Block>, s: Snap)
    requires RecoveredFrom(rules, blocks, s).Some?
    ensures Height(s) == 0 || Height(s) in blocks
    ensures forall k :: Height(s) < k <= |blocks| ==> k in blocks
  {
    hide Replay;
    forall k | Height(s) < k <= |blocks| ensures k in blocks {
      ReplayChecks(rules, blocks, s, Height(s) + 1, |blocks|, k);
    }
  }

  // --- every step keeps it

  /** A thread that advances while blocks and published height only grow disturbs no other. */
  lemma OthersStayOk(rules: Rules, chain: seq<Block>, sys: System, after: System, i: nat, t: Thread)
    requires ValidChain(rules, chain) && ThreadsOk(rules, chain, sys) && ThreadOk(rules, chain, after, t)
    requires |sys.blocks| <= |after.blocks| && Height(sys.snapshot) <= Height(after.snapshot)
    requires after.threads == sys.threads[i := t]
    ensures ThreadsOk(rules, chain, after)
  {
    hide After;
    forall j <- after.threads ensures ThreadOk(rules, chain, after, after.threads[j]) {
      if j != i {
        assert ThreadOk(rules, chain, sys, sys.threads[j]);
      }
    }
  }

  /** The next block of a prefix, or one already there. */
  lemma SavingExtends(c: Crypto, chain: seq<Block>, blocks: map<nat, Block>, h: nat)
    requires IsPrefix(chain, blocks) && 1 <= h <= |blocks| + 1 && h <= |chain| && chain[h - 1].header.height == h
    ensures
      var saved := SaveBlock(c, blocks, chain[h - 1]);
      saved.Some? && IsPrefix(chain, saved.value) && |blocks| <= |saved.value| && h <= |saved.value|
  {
    hide BlockID;
    var saved := blocks[h := chain[h - 1]];
    if h in blocks {
      assert saved == blocks;
    } else {
      AddingOne(blocks, h, chain[h - 1]);
    }
  }

  lemma AddingOne(blocks: map<nat, Block>, h: nat, b: Block)
    requires h !in blocks
    ensures |blocks[h := b]| == |blocks| + 1
  {
    assert blocks[h := b].Keys == blocks.Keys + {h};
  }

  ghost predicate Advances(rules: Rules, chain: seq<Block>, sys: System, after: System)
    requires ValidChain(rules, chain)
  {
    && Consistent(rules, chain, after)
    && Height(sys.snapshot) <= Height(after.snapshot) && sys.height <= after.height
    && |sys.blocks| <= |after.blocks|
  }

  lemma PrefixIsShort(chain: seq<Block>, blocks: map<nat, Block>)
    requires IsPrefix(chain, blocks)
    ensures |blocks| <= |chain|
  {
  }

  lemma HeightOf(rules: Rules, chain: seq<Block>, k: nat)
    requires ValidChain(rules, chain) && k < |chain|
    ensures chain[k].header.height == k + 1
  {
    hide Fold, TreeRoot;
    assert ValidAt(rules, chain, k);
  }

  /** With more blocks saved, the states are still states after saved blocks. */
  lemma SavingKeepsStates(rules: Rules, chain: seq<Block>, sys: System, h: nat)
    requires ValidChain(rules, chain) && IsPrefix(chain, sys.blocks) && StatesOk(rules, chain, sys)
    requires 1 <= h <= Height(sys.snapshot) + 1 && h <= |chain| && chain[h - 1].header.height == h
    ensures
      var saved := SaveBlock(rules.crypto, sys.blocks, chain[h - 1]);
      && saved.Some? && IsPrefix(chain, saved.value) && |sys.blocks| <= |saved.value| && h <= |saved.value|
      && StatesOk(rules, chain, sys.(blocks := saved.value))
  {
    hide After, SaveBlock, IsPrefix, ValidAt, ValidChain;
    SavingExtends(rules.crypto, chain, sys.blocks, h);
  }

  lemma SaveAdvances(rules: Rules, chain: seq<Block>, sys: System, i: nat, t: Thread, queue: bool)
    requires ValidChain(rules, chain) && Consistent(rules, chain, sys) && i in sys.threads && t == sys.threads[i]
    requires 1 <= t.h <= |chain| && t.h <= Height(sys.snapshot) + 1 && t.stage.Start?
    ensures Advances(rules, chain, sys, Step(rules, sys, i, t, chain[t.h - 1], queue))
  {
    hide After, SaveBlock, Apply, IsPrefix, BlockID, ValidAt, IsAfter;
    HeightOf(rules, chain, t.h - 1);
    SavingKeepsStates(rules, chain, sys, t.h);
    var after := Step(rules, sys, i, t, chain[t.h - 1], queue);
    OthersStayOk(rules, chain, sys, after, i, t.(stage := Saved));
  }

  lemma GetAdvances(rules: Rules, chain: seq<Block>, sys: System, i: nat, t: Thread, queue: bool)
    requires ValidChain(rules, chain) && Consistent(rules, chain, sys) && i in sys.threads && t == sys.threads[i]
    requires 1 <= t.h <= |chain| && ThreadOk(rules, chain, sys, t) && t.stage.Saved?
    ensures Advances(rules, chain, sys, Step(rules, sys, i, t, chain[t.h - 1], queue))
  {
    hide After, SaveBlock, Apply, IsPrefix, Fold, BlockID;
    var after := Step(rules, sys, i, t, chain[t.h - 1], queue);
    OthersStayOk(rules, chain, sys, after, i, t.(stage := Got(sys.snapshot)));
  }

  lemma ApplyAdvances(rules: Rules, chain: seq<Block>, sys: System, i: nat, t: Thread, queue: bool)
    requires ValidChain(rules, chain) && Consistent(rules, chain, sys) && i in sys.threads && t == sys.threads[i]
    requires 1 <= t.h <= |chain| && ThreadOk(rules, chain, sys, t) && t.stage.Got?
    ensures Advances(rules, chain, sys, Step(rules, sys, i, t, chain[t.h - 1], queue))
  {
    hide After, SaveBlock, Apply, IsPrefix, Fold, BlockID, ApplyBlock;
    assert ValidAt(rules, chain, t.h - 1);
    var after := Step(rules, sys, i, t, chain[t.h - 1], queue);
    if t.h <= Height(t.stage.cur) {
      OthersStayOk(rules, chain, sys, after, i, Thread(t.h + 1, Start, None));
    } else {
      NextApplies(rules, chain, t.h - 1);
      AfterHasHeight(rules, chain, t.h);
      OthersStayOk(rules, chain, sys, after, i, t.(stage := Ready(After(rules, chain, t.h))));
    }
  }

  lemma PublishAdvances(rules: Rules, chain: seq<Block>, sys: System, i: nat, t: Thread, queue: bool)
    requires ValidChain(rules, chain) && Consistent(rules, chain, sys) && i in sys.threads && t == sys.threads[i]
    requires 1 <= t.h <= |chain| && ThreadOk(rules, chain, sys, t) && t.stage.Ready?
    ensures Advances(rules, chain, sys, Step(rules, sys, i, t, chain[t.h - 1], queue))
  {
    hide After, SaveBlock, Apply, IsPrefix, Fold, BlockID;
    var after := Step(rules, sys, i, t, chain[t.h - 1], queue);
    OthersStayOk(rules, chain, sys, after, i, Thread(t.h + 1, Start, None));
  }

  lemma StepAdvances(rules: Rules, chain: seq<Block>, sys: System, i: nat, queue: bool)
    requires ValidChain(rules, chain) && Consistent(rules, chain, sys)
    requires i in sys.threads && sys.threads[i].h <= |chain|
    ensures sys.threads[i].h >= 1
    ensures Advances(rules, chain, sys, Step(rules, sys, i, sys.threads[i], chain[sys.threads[i].h - 1], queue))
  {
    hide After, Step, IsPrefix, IsAfter, StatesOk, Advances, ValidChain;
    var t := sys.threads[i];
    assert ThreadOk(rules, chain, sys, t);
    match t.stage
    case Start => SaveAdvances(rules, chain, sys, i, t, queue);
    case Saved => GetAdvances(rules, chain, sys, i, t, queue);
    case Got(_) => ApplyAdvances(rules, chain, sys, i, t, queue);
    case Ready(_) => PublishAdvances(rules, chain, sys, i, t, queue);
  }

  lemma {:induction false} ReplayReaches(rules: Rules, chain: seq<Block>, sys: System, h: nat)
    requires ValidChain(rules, chain) && Consistent(rules, chain, sys) && 1 <= h <= |sys.blocks| + 1
    ensures Replay(rules, sys.blocks, After(rules, chain, h - 1), h, |sys.blocks|)
         == Some(After(rules, chain, |sys.blocks|))
    decreases |sys.blocks| + 1 - h
  {
    hide After, ApplyBlock, Fold, ThreadsOk, StatesOk, TreeRoot, ValidAt, Apply;
    if h <= |sys.blocks| {
      NextApplies(rules, chain, h - 1);
      RootMatches(rules, chain, h - 1);
      ReplayReaches(rules, chain, sys, h + 1);
    }
  }

  lemma RootMatches(rules: Rules, chain: seq<Block>, k: nat)
    requires ValidChain(rules, chain) && k < |chain|
    ensures chain[k].header.contractsRoot == TreeRoot(rules.crypto, After(rules, chain, k + 1).contracts)
  {
    hide Fold, TreeRoot;
    assert ValidAt(rules, chain, k);
  }

  /** Whatever was lost in a crash, Recover gives the fold of all saved blocks. */
  lemma RecoverRestoresAll(rules: Rules, chain: seq<Block>, sys: System)
    requires ValidChain(rules, chain) && Consistent(rules, chain, sys)
    ensures Recovered(rules, sys) == Some(After(rules, chain, |sys.blocks|))
  {
    hide After, Replay, ThreadsOk;
    var s := Latest(sys);
    EmptyIsAfterNone(rules, chain);
    ReplayReaches(rules, chain, sys, Height(s) + 1);
  }

  lemma EmptyIsAfterNone(rules: Rules, chain: seq<Block>)
    requires ValidChain(rules, chain)
    ensures After(rules, chain, 0) == Empty() && IsAfter(rules, chain, Empty(), 0, 0)
  {
  }

  lemma ActKeeps(rules: Rules, chain: seq<Block>, sys: System, a: Action)
    requires ValidChain(rules, chain) && Consistent(rules, chain, sys)
    ensures Consistent(rules, chain, Act(rules, chain, sys, a))
    ensures !a.Crash? ==> Advances(rules, chain, sys, Act(rules, chain, sys, a))
  {
    hide After, Recovered, Step, IsPrefix, ValidAt;
    match a
    case Advance(i, queue) =>
      if i in sys.threads && sys.threads[i].h <= |chain| {
        StepAdvances(rules, chain, sys, i, queue);
      }
    case Recover(queue) =>
      RecoveryAdvances(rules, chain, sys, queue);
    case Crash =>
      EmptyIsAfterNone(rules, chain);
    case BeginApplied(i) =>
      BeginningApplied(rules, chain, sys, i);
    case Begin(i, h) =>
      if 1 <= h <= Height(sys.snapshot) + 1 {
        OthersStayOk(rules, chain, sys, Act(rules, chain, sys, a), i, Thread(h, Start, None));
      }
    case _ =>
  }

  lemma BeginningApplied(rules: Rules, chain: seq<Block>, sys: System, i: nat)
    requires ValidChain(rules, chain) && Consistent(rules, chain, sys)
    ensures Advances(rules, chain, sys, Act(rules, chain, sys, BeginApplied(i)))
  {
    hide After, Recovered, Step, IsPrefix, ValidAt, ApplyBlock, Apply, RecoverStep;
    var k := Height(sys.snapshot);
    if k < |chain| {
      NextApplies(rules, chain, k);
      OthersStayOk(rules, chain, sys, Act(rules, chain, sys, BeginApplied(i)), i,
                   Thread(k + 1, Start, Some(After(rules, chain, k + 1))));
    }
  }

  lemma RecoveryAdvances(rules: Rules, chain: seq<Block>, sys: System, queue: bool)
    requires ValidChain(rules, chain) && Consistent(rules, chain, sys)
    ensures Advances(rules, chain, sys, RecoverStep(rules, sys, queue))
  {
    hide After, Recovered, IsPrefix, ValidAt;
    EmptyIsAfterNone(rules, chain);
    var stored := sys.(stored := Some(Latest(sys)));
    ThreadsSurvive(rules, chain, sys, stored);
    RecoverRestoresAll(rules, chain, stored);
    PrefixIsShort(chain, sys.blocks);
    AfterHasHeight(rules, chain, |sys.blocks|);
    ThreadsSurvive(rules, chain, sys, RecoverStep(rules, sys, queue));
  }

  /** Threads are not disturbed by a newer published state. */
  lemma ThreadsSurvive(rules: Rules, chain: seq<Block>, sys: System, after: System)
    requires ValidChain(rules, chain) && ThreadsOk(rules, chain, sys)
    requires after.threads == sys.threads && after.blocks == sys.blocks && Height(sys.snapshot) <= Height(after.snapshot)
    ensures ThreadsOk(rules, chain, after)
  {
    hide After;
    forall j <- after.threads ensures ThreadOk(rules, chain, after, after.threads[j]) {
      assert ThreadOk(rules, chain, sys, sys.threads[j]);
    }
  }

  /**
   In every interleaving of every number of threads, with crashes anywhere, no commit fails, the published
   state is the fold of the first blocks of the chain, and recovery gives the fold of all that were saved.
   */
  lemma {:induction false} EveryRunIsConsistent(rules: Rules, chain: seq<Block>, actions: seq<Action>)
    requires ValidChain(rules, chain)
    ensures
      var sys := Run(rules, chain, actions);
      && Consistent(rules, chain, sys)
      && (forall i <- sys.threads :: sys.threads[i].stage != Failed)
      && Height(sys.snapshot) <= |sys.blocks| <= |chain|
      && sys.snapshot == After(rules, chain, Height(sys.snapshot))
      && Recovered(rules, sys) == Some(After(rules, chain, |sys.blocks|))
    decreases |actions|
  {
    hide After, Act, Recovered;
    if actions == [] {
      EmptyIsAfterNone(rules, chain);
    } else {
      var before := actions[..|actions| - 1];
      EveryRunIsConsistent(rules, chain, before);
      ActKeeps(rules, chain, Run(rules, chain, before), actions[|actions| - 1]);
    }
    RecoverRestoresAll(rules, chain, Run(rules, chain, actions));
  }

  /** The machine after a thread has taken some steps without the others. */
  ghost function Alone(rules: Rules, chain: seq<Block>, sys: System, i: nat, queue: bool, n: nat): System {
    if n == 0 then sys else Act(rules, chain, Alone(rules, chain, sys, i, queue, n - 1), Advance(i, queue))
  }

  lemma {:induction false} AloneKeeps(rules: Rules, chain: seq<Block>, sys: System, i: nat, queue: bool, n: nat)
    requires ValidChain(rules, chain) && Consistent(rules, chain, sys)
    ensures Advances(rules, chain, sys, Alone(rules, chain, sys, i, queue, n))
  {
    hide Act, Consistent;
    if n > 0 {
      AloneKeeps(rules, chain, sys, i, queue, n - 1);
      ActKeeps(rules, chain, Alone(rules, chain, sys, i, queue, n - 1), Advance(i, queue));
    }
  }

  lemma AloneSaves(rules: Rules, chain: seq<Block>, sys: System, i: nat, queue: bool)
    requires ValidChain(rules, chain) && Consistent(rules, chain, sys)
    requires i in sys.threads && sys.threads[i].stage == Start && sys.threads[i].h <= |chain|
    ensures
      var t, s := sys.threads[i], Alone(rules, chain, sys, i, queue, 2);
      && i in s.threads && s.threads[i] == t.(stage := Got(sys.snapshot)) && s.snapshot == sys.snapshot
      && t.h in s.blocks && s.blocks[t.h] == chain[t.h - 1]
  {
    hide ApplyBlock, BlockID, Apply, After, Recovered;
    var t := sys.threads[i];
    assert ThreadOk(rules, chain, sys, t) && ValidAt(rules, chain, t.h - 1);
    SavingExtends(rules.crypto, chain, sys.blocks, t.h);
    OneAlone(rules, chain, sys, i, queue);
  }

  /** A thread that is not disturbed commits its block: after four steps it is saved, and the published state includes it. */
  lemma AloneCommits(rules: Rules, chain: seq<Block>, sys: System, i: nat, queue: bool)
    requires ValidChain(rules, chain) && Consistent(rules, chain, sys)
    requires i in sys.threads && sys.threads[i].stage == Start && sys.threads[i].h <= |chain|
    ensures
      var h, s := sys.threads[i].h, Alone(rules, chain, sys, i, queue, 4);
      h in s.blocks && s.blocks[h] == chain[h - 1] && h <= Height(s.snapshot)
  {
    hide *;
    var h, two := sys.threads[i].h, Alone(rules, chain, sys, i, queue, 2);
    AloneSaves(rules, chain, sys, i, queue);
    AloneKeeps(rules, chain, sys, i, queue, 2);
    AloneGoesOn(rules, chain, sys, i, queue);
    AdvancesKeeps(rules, chain, sys, two);
    AloneKeeps(rules, chain, two, i, queue, 2);
    AdvancesKeeps(rules, chain, two, Alone(rules, chain, two, i, queue, 2));
    if Height(two.snapshot) < h {
      AloneApplies(rules, chain, two, i, queue);
    }
    StaysSaved(rules, chain, two, Alone(rules, chain, sys, i, queue, 4), h);
  }

  lemma AdvancesKeeps(rules: Rules, chain: seq<Block>, sys: System, after: System)
    requires ValidChain(rules, chain) && Advances(rules, chain, sys, after)
    ensures Consistent(rules, chain, after) && Height(sys.snapshot) <= Height(after.snapshot)
  {
  }

  lemma AloneGoesOn(rules: Rules, chain: seq<Block>, sys: System, i: nat, queue: bool)
    ensures Alone(rules, chain, Alone(rules, chain, sys, i, queue, 2), i, queue, 2) == Alone(rules, chain, sys, i, queue, 4)
  {
    hide Act;
    var two := Alone(rules, chain, sys, i, queue, 2);
    OneAlone(rules, chain, two, i, queue);
    assert Alone(rules, chain, sys, i, queue, 3) == Act(rules, chain, two, Advance(i, queue));
  }

  lemma StaysSaved(rules: Rules, chain: seq<Block>, sys: System, after: System, h: nat)
    requires ValidChain(rules, chain) && Consistent(rules, chain, sys) && Advances(rules, chain, sys, after) && h in sys.blocks
    ensures h in after.blocks && after.blocks[h] == chain[h - 1]
  {
    hide StatesOk, ThreadsOk;
  }

  lemma OneAlone(rules: Rules, chain: seq<Block>, sys: System, i: nat, queue: bool)
    ensures
      var one := Act(rules, chain, sys, Advance(i, queue));
      Alone(rules, chain, sys, i, queue, 1) == one && Alone(rules, chain, sys, i, queue, 2) == Act(rules, chain, one, Advance(i, queue))
  {
    hide Act;
    assert Alone(rules, chain, sys, i, queue, 0) == sys;
  }

  lemma GetsReady(rules: Rules, chain: seq<Block>, sys: System, i: nat, queue: bool)
    requires ValidChain(rules, chain) && i in sys.threads && ThreadOk(rules, chain, sys, sys.threads[i])
    requires sys.threads[i].stage == Got(sys.snapshot) && Height(sys.snapshot) < sys.threads[i].h <= |chain|
    ensures
      var t := sys.threads[i];
      Act(rules, chain, sys, Advance(i, queue)) ==
        sys.(threads := sys.threads[i := t.(stage := Ready(After(rules, chain, t.h)))])
  {
    hide ApplyBlock, BlockID, Apply, Recovered, After, IsAfter, ValidChain, ValidAt, ThreadOk;
    var t := sys.threads[i];
    GotIsBefore(rules, chain, sys, t);
    NextApplies(rules, chain, t.h - 1);
  }

  lemma GotIsBefore(rules: Rules, chain: seq<Block>, sys: System, t: Thread)
    requires ValidChain(rules, chain) && ThreadOk(rules, chain, sys, t)
    requires t.stage == Got(sys.snapshot) && Height(sys.snapshot) < t.h <= |chain|
    ensures chain[t.h - 1].header.height == t.h && sys.snapshot == After(rules, chain, t.h - 1)
    ensures t.applied.Some? ==> t.applied.value == After(rules, chain, t.h)
  {
    hide After, ValidChain, Height;
    HeightAt(rules, chain, t.h - 1);
  }

  lemma HeightAt(rules: Rules, chain: seq<Block>, k: nat)
    requires ValidChain(rules, chain) && k < |chain|
    ensures chain[k].header.height == k + 1
  {
    hide Fold, TreeRoot;
    assert ValidAt(rules, chain, k);
  }

  lemma AloneApplies(rules: Rules, chain: seq<Block>, sys: System, i: nat, queue: bool)
    requires ValidChain(rules, chain) && Consistent(rules, chain, sys)
    requires i in sys.threads && sys.threads[i].stage == Got(sys.snapshot)
    requires Height(sys.snapshot) < sys.threads[i].h <= |chain|
    ensures Height(Alone(rules, chain, sys, i, queue, 2).snapshot) == sys.threads[i].h
  {
    assert ThreadOk(rules, chain, sys, sys.threads[i]);
    hide ApplyBlock, BlockID, Apply, Recovered, After, Consistent, ValidChain, ThreadOk, Alone;
    GetsReady(rules, chain, sys, i, queue);
    OneAlone(rules, chain, sys, i, queue);
    AfterHasHeight(rules, chain, sys.threads[i].h);
  }

  /** The block that the generator makes on the current state passes every check of CommitBlock. */
  lemma GeneratedBlockCommits(rules: Rules, s: Snap, t: uint64, txs: seq<BcTx>)
    requires s.header.Some? && s.initialBlockID != ZeroHash() && Generate(rules, s, t, txs).Ok?
    ensures
      var (b, s') := Generate(rules, s, t, txs).value;
      Apply(rules, s, b) == Some(s')
  {
    hide Generate, ApplyBlock, TreeRoot;
    GeneratedBlockApplies(rules, s, t, txs);
  }
}
