/**
 The supply of every asset over a whole chain: what live contracts hold, what was retired and what was
 lost to duplicate outputs is what was issued, unless two different contracts have one ID.
 */
module Supply {
  import opened Prelude
  import opened Items
  import opened Ledger
  import opened Machine
  import opened Interpreter
  import opened Blocks
  import opened History
  import opened TxLog
  import Generation
  import Runs

  /** A contract as it is recorded, inspected. */
  type Shot = seq<Data>

  /** A transaction by the program it runs. */
  datatype Program = Program(prog: bytes, version: int64, runlimit: int64, extension: bool, commitment: bytes)

  /** A block by its header and the programs of its transactions. */
  datatype Batch = Batch(header: Header, programs: seq<Program>)

  ghost predicate Accepted(c: Crypto, p: Program) {
    var r := Validate(c, p.prog, p.version, p.runlimit, p.extension);
    r.Ok? && r.value.tx.finalized
  }

  function Final(c: Crypto, p: Program): State
    requires Accepted(c, p)
  {
    Validate(c, p.prog, p.version, p.runlimit, p.extension).value
  }

  function TxOf(c: Crypto, p: Program): BcTx
    requires Accepted(c, p)
  {
    Describe(c, Final(c, p), p.runlimit, p.commitment)
  }

  // --- the moves of a run are the contracts of its transaction

  function RefsOf(c: Crypto, moves: seq<Move>): seq<ContractRef> {
    seq(|moves|, i requires 0 <= i < |moves| =>
      var id := SnapshotID(c, moves[i].snapshot);
      if moves[i].In? then ContractRef.Input(id) else ContractRef.Output(id))
  }

  function LoggedRefs(ms: seq<LoggedMove>): seq<ContractRef> {
    seq(|ms|, i requires 0 <= i < |ms| =>
      if ms[i].isInput then ContractRef.Input(HashFromBytes(ms[i].id)) else ContractRef.Output(HashFromBytes(ms[i].id)))
  }

  lemma {:induction false} LogListsMoves(log: seq<Entry>)
    ensures AllContractRefs(log) == LoggedRefs(LoggedMoves(log))
  {
    if log != [] {
      LogListsMoves(log[..|log| - 1]);
      var t := log[|log| - 1];
      assert ContractRefs(t) == LoggedRefs(EntryMove(t));
      assert LoggedRefs(LoggedMoves(log)) == LoggedRefs(LoggedMoves(log[..|log| - 1])) + LoggedRefs(EntryMove(t));
    }
  }

  lemma RefsOfRun(c: Crypto, p: Program)
    requires Accepted(c, p)
    ensures TxOf(c, p).contracts == RefsOf(c, Final(c, p).tx.moves)
  {
    hide Validate, SnapshotID;
    Runs.LogNamesContracts(c, p.prog, p.version, p.runlimit, p.extension);
    var tx := Final(c, p).tx;
    LogListsMoves(tx.log);
    var ms := MoveIDs(c, tx.moves);
    assert LoggedRefs(ms) == RefsOf(c, tx.moves) by {
      forall i | 0 <= i < |ms| ensures HashFromBytes(ms[i].id) == SnapshotID(c, tx.moves[i].snapshot) {
        WholeHash(SnapshotID(c, tx.moves[i].snapshot));
      }
    }
  }

  lemma WholeHash(h: Hash)
    ensures HashFromBytes(h) == h
  {
    assert h[..32] == h;
  }

  // --- amounts

  lemma {:induction false} AmountsConcat(x: seq<Move>, y: seq<Move>, a: bytes)
    ensures AmountIn(x + y, a) == AmountIn(x, a) + AmountIn(y, a)
    ensures AmountOut(x + y, a) == AmountOut(x, a) + AmountOut(y, a)
    decreases |y|
  {
    hide SnapshotAmount;
    if y == [] {
      assert x + y == x;
    } else {
      AmountsConcat(x, y[..|y| - 1], a);
      assert (x + y)[..|x + y| - 1] == x + y[..|y| - 1];
    }
  }

  lemma AmountsFirst(moves: seq<Move>, a: bytes)
    requires moves != []
    ensures
      var n, rest := SnapshotAmount(moves[0].snapshot, a), moves[1..];
      && AmountIn(moves, a) == (if moves[0].In? then n else 0) + AmountIn(rest, a)
      && AmountOut(moves, a) == (if moves[0].Out? then n else 0) + AmountOut(rest, a)
  {
    hide SnapshotAmount;
    var first := [moves[0]];
    assert moves == first + moves[1..];
    AmountsConcat(first, moves[1..], a);
    assert first[..0] == [];
    assert AmountIn(first, a) == AmountIn([], a) + if moves[0].In? then SnapshotAmount(moves[0].snapshot, a) else 0;
    assert AmountOut(first, a) == AmountOut([], a) + if moves[0].Out? then SnapshotAmount(moves[0].snapshot, a) else 0;
  }

  lemma {:induction false} NaturalStackAmount(s: seq<Item>, a: bytes)
    requires NaturalStack(s)
    ensures StackAmount(s, a) >= 0
    decreases s, 0
  {
    if s != [] {
      var x := s[|s| - 1];
      assert NaturalItem(x);
      NaturalStackAmount(s[..|s| - 1], a);
      NaturalItemAmount(x, a);
    }
  }

  lemma {:induction false} NaturalItemAmount(x: Item, a: bytes)
    requires NaturalItem(x)
    ensures Amount(x, a) >= 0
    decreases x, 0
  {
    if x.Con? {
      NaturalStackAmount(x.c.stack, a);
    }
  }

  lemma NaturalShotAmount(t: Shot, a: bytes)
    requires NaturalSnapshot(t)
    ensures SnapshotAmount(t, a) >= 0
  {
    match UninspectContract(t)
    case Ok(c) => NaturalStackAmount(c.stack, a);
    case Err(_) =>
  }

  /** The amount of asset a inside a set of contracts. */
  ghost function Held(shots: set<Shot>, a: bytes): int {
    if shots == {} then 0
    else
      var t :| t in shots;
      SnapshotAmount(t, a) + Held(shots - {t}, a)
  }

  lemma {:induction false} HeldWithout(shots: set<Shot>, t: Shot, a: bytes)
    requires t in shots
    ensures Held(shots, a) == SnapshotAmount(t, a) + Held(shots - {t}, a)
    decreases |shots|
  {
    hide SnapshotAmount;
    var u :| u in shots && Held(shots, a) == SnapshotAmount(u, a) + Held(shots - {u}, a);
    if u != t {
      HeldWithout(shots - {u}, t, a);
      HeldWithout(shots - {t}, u, a);
      assert shots - {u} - {t} == shots - {t} - {u};
    }
  }

  // --- contracts in the state

  ghost predicate Distinct(c: Crypto, shots: set<Shot>) {
    forall t, u :: t in shots && u in shots && SnapshotID(c, t) == SnapshotID(c, u) ==> t == u
  }

  /** Of the contracts put out so far, those that are in the state. */
  ghost function Live(c: Crypto, contracts: set<bytes>, out: set<Shot>): set<Shot> {
    set t <- out | SnapshotID(c, t) in contracts
  }

  /** Every contract in the state has been put out. */
  ghost predicate Backed(c: Crypto, contracts: set<bytes>, out: set<Shot>) {
    forall id <- contracts :: exists t :: t in out && SnapshotID(c, t) == id
  }

  function Outs(moves: seq<Move>): set<Shot> {
    set m <- moves | m.Out? :: m.snapshot
  }

  function Shots(moves: seq<Move>): set<Shot> {
    set m <- moves :: m.snapshot
  }

  /** The IDs in the state after some moves, or None where one is missing. */
  function Moved(c: Crypto, contracts: set<bytes>, moves: seq<Move>): Option<set<bytes>>
    decreases |moves|
  {
    if moves == [] then Some(contracts)
    else
      var id := SnapshotID(c, moves[0].snapshot);
      if moves[0].Out? then Moved(c, contracts + {id}, moves[1..])
      else if id in contracts then Moved(c, contracts - {id}, moves[1..])
      else None
  }

  lemma {:induction false} MovedIsMoveContracts(c: Crypto, s: Snap, moves: seq<Move>)
    requires MoveContracts(s, RefsOf(c, moves)).Ok?
    ensures Moved(c, s.contracts, moves) == Some(MoveContracts(s, RefsOf(c, moves)).value.contracts)
    decreases |moves|
  {
    hide SnapshotID;
    if moves != [] {
      var id := SnapshotID(c, moves[0].snapshot);
      assert RefsOf(c, moves)[1..] == RefsOf(c, moves[1..]);
      MovedIsMoveContracts(c, s.(contracts := if moves[0].Out? then s.contracts + {id} else s.contracts - {id}), moves[1..]);
    }
  }

  lemma {:induction false} MovedConcat(c: Crypto, contracts: set<bytes>, x: seq<Move>, y: seq<Move>)
    requires Moved(c, contracts, x).Some?
    ensures Moved(c, contracts, x + y) == Moved(c, Moved(c, contracts, x).value, y)
    decreases |x|
  {
    hide SnapshotID;
    if x == [] {
      assert x + y == y;
    } else {
      var id := SnapshotID(c, x[0].snapshot);
      assert (x + y)[1..] == x[1..] + y;
      MovedConcat(c, if x[0].Out? then contracts + {id} else contracts - {id}, x[1..], y);
    }
  }

  /** The amount of asset a put out in contracts that are in the state already, where it adds nothing. */
  function Lost(c: Crypto, contracts: set<bytes>, moves: seq<Move>, a: bytes): int
    decreases |moves|
  {
    if moves == [] then 0
    else
      var id := SnapshotID(c, moves[0].snapshot);
      if moves[0].In? then Lost(c, contracts - {id}, moves[1..], a)
      else (if id in contracts then SnapshotAmount(moves[0].snapshot, a) else 0) + Lost(c, contracts + {id}, moves[1..], a)
  }

  // --- conservation

  /** A contract taken in is one that was put out, and it leaves the live ones. */
  lemma TakingIn(c: Crypto, contracts: set<bytes>, out: set<Shot>, t: Shot, all: set<Shot>, a: bytes)
    requires Backed(c, contracts, out) && SnapshotID(c, t) in contracts
    requires Distinct(c, all) && out <= all && t in all
    ensures t in out && Backed(c, contracts - {SnapshotID(c, t)}, out)
    ensures Held(Live(c, contracts - {SnapshotID(c, t)}, out), a) + SnapshotAmount(t, a) == Held(Live(c, contracts, out), a)
  {
    hide SnapshotID, SnapshotAmount;
    var u :| u in out && SnapshotID(c, u) == SnapshotID(c, t);
    assert u == t;
    assert Live(c, contracts - {SnapshotID(c, t)}, out) == Live(c, contracts, out) - {t};
    HeldWithout(Live(c, contracts, out), t, a);
  }

  /** A contract put out joins the live ones, unless it is there already. */
  lemma PuttingOut(c: Crypto, contracts: set<bytes>, out: set<Shot>, t: Shot, all: set<Shot>, a: bytes)
    requires Backed(c, contracts, out) && Distinct(c, all) && out <= all && t in all
    ensures Backed(c, contracts + {SnapshotID(c, t)}, out + {t})
    ensures SnapshotID(c, t) in contracts ==> t in out
    ensures Held(Live(c, contracts + {SnapshotID(c, t)}, out + {t}), a)
         == Held(Live(c, contracts, out), a) + if SnapshotID(c, t) in contracts then 0 else SnapshotAmount(t, a)
  {
    hide SnapshotID, SnapshotAmount;
    var id := SnapshotID(c, t);
    var before, after := Live(c, contracts, out), Live(c, contracts + {id}, out + {t});
    forall i <- contracts + {id} ensures exists u :: u in out + {t} && SnapshotID(c, u) == i {
      if i in contracts {
        var u :| u in out && SnapshotID(c, u) == i;
        assert u in out + {t};
      } else {
        assert t in out + {t};
      }
    }
    if id in contracts {
      var u :| u in out && SnapshotID(c, u) == id;
      assert u == t;
      assert after == before;
    } else {
      assert after - {t} == before;
      HeldWithout(after, t, a);
    }
  }

  /** What the live contracts hold changes by what is put out, less what is taken in and what is lost. */
  lemma {:induction false} MovesConserve(c: Crypto, contracts: set<bytes>, out: set<Shot>, moves: seq<Move>, all: set<Shot>, a: bytes)
    requires Moved(c, contracts, moves).Some? && Backed(c, contracts, out)
    requires Distinct(c, all) && out <= all && Shots(moves) <= all
    ensures
      var contracts', out' := Moved(c, contracts, moves).value, out + Outs(moves);
      && Backed(c, contracts', out')
      && Held(Live(c, contracts', out'), a) + AmountIn(moves, a) + Lost(c, contracts, moves, a)
         == Held(Live(c, contracts, out), a) + AmountOut(moves, a)
    decreases |moves|
  {
    hide SnapshotID, SnapshotAmount, Live, Held, Backed, Distinct;
    if moves == [] {
      assert out + Outs(moves) == out;
    } else {
      var m, rest := moves[0], moves[1..];
      var id := SnapshotID(c, m.snapshot);
      assert m.snapshot in Shots(moves);
      assert Shots(rest) <= Shots(moves);
      AmountsFirst(moves, a);
      if m.In? {
        TakingIn(c, contracts, out, m.snapshot, all, a);
        assert Outs(moves) == Outs(rest);
        MovesConserve(c, contracts - {id}, out, rest, all, a);
      } else {
        PuttingOut(c, contracts, out, m.snapshot, all, a);
        assert out + Outs(moves) == out + {m.snapshot} + Outs(rest) by { OutsFirst(moves); }
        MovesConserve(c, contracts + {id}, out + {m.snapshot}, rest, all, a);
      }
    }
  }

  lemma OutsFirst(moves: seq<Move>)
    requires moves != [] && moves[0].Out?
    ensures Outs(moves) == {moves[0].snapshot} + Outs(moves[1..])
  {
    forall x <- Outs(moves) ensures x == moves[0].snapshot || x in Outs(moves[1..]) {
      var m :| m in moves && m.Out? && m.snapshot == x;
      if m != moves[0] {
        assert m in moves[1..];
      }
    }
  }

  // --- nothing negative

  lemma RestFollows(moves: seq<Move>)
    requires OutputsFollow(moves) && moves != [] && (moves[0].In? ==> NaturalSnapshot(moves[0].snapshot))
    ensures OutputsFollow(moves[1..])
    ensures moves[0].Out? ==> NaturalSnapshot(moves[0].snapshot)
  {
    hide NaturalSnapshot;
    assert moves[..0] == [];
    var rest := moves[1..];
    forall k | 0 <= k < |rest| && rest[k].Out? && InputsNatural(rest[..k]) ensures NaturalSnapshot(rest[k].snapshot) {
      assert moves[k + 1] == rest[k];
      forall m <- moves[..k + 1] ensures m.In? ==> NaturalSnapshot(m.snapshot) {
        if m != moves[0] {
          var i :| 0 <= i < k + 1 && moves[i] == m;
          assert rest[..k][i - 1] == m;
        }
      }
    }
  }

  lemma FollowsConcat(x: seq<Move>, y: seq<Move>)
    requires OutputsFollow(x) && OutputsFollow(y)
    ensures OutputsFollow(x + y)
  {
    hide NaturalSnapshot, InputsNatural;
    var all := x + y;
    forall k | 0 <= k < |all| && all[k].Out? && InputsNatural(all[..k]) ensures NaturalSnapshot(all[k].snapshot) {
      if k < |x| {
        assert all[..k] == x[..k];
      } else {
        assert all[..k] == x + y[..k - |x|];
        LaterInputsNatural(x, y[..k - |x|]);
      }
    }
  }

  lemma LaterInputsNatural(x: seq<Move>, y: seq<Move>)
    requires InputsNatural(x + y)
    ensures InputsNatural(y)
  {
    hide NaturalSnapshot;
    forall m <- y ensures m.In? ==> NaturalSnapshot(m.snapshot) {
      assert m in x + y;
    }
  }

  /** If nothing put out before is negative, nothing put out is, and so nothing lost. */
  lemma {:induction false} MovesAreNatural(c: Crypto, contracts: set<bytes>, out: set<Shot>, moves: seq<Move>, all: set<Shot>, a: bytes)
    requires Moved(c, contracts, moves).Some? && Backed(c, contracts, out) && OutputsFollow(moves)
    requires Distinct(c, all) && out <= all && Shots(moves) <= all && forall t <- out :: NaturalSnapshot(t)
    ensures (forall t <- out + Outs(moves) :: NaturalSnapshot(t)) && Lost(c, contracts, moves, a) >= 0
    decreases |moves|
  {
    hide SnapshotID, SnapshotAmount, NaturalSnapshot, OutputsFollow, Backed, Distinct, Live, Held;
    if moves != [] {
      var m, rest := moves[0], moves[1..];
      var id := SnapshotID(c, m.snapshot);
      assert m.snapshot in Shots(moves);
      assert Shots(rest) <= Shots(moves);
      if m.In? {
        TakingIn(c, contracts, out, m.snapshot, all, a);
        RestFollows(moves);
        assert Outs(moves) == Outs(rest);
        MovesAreNatural(c, contracts - {id}, out, rest, all, a);
      } else {
        PuttingOut(c, contracts, out, m.snapshot, all, a);
        RestFollows(moves);
        NaturalShotAmount(m.snapshot, a);
        OutsFirst(moves);
        MovesAreNatural(c, contracts + {id}, out + {m.snapshot}, rest, all, a);
        assert out + Outs(moves) == out + {m.snapshot} + Outs(rest);
      }
    }
  }

  lemma {:induction false} HeldIsNatural(shots: set<Shot>, a: bytes)
    requires forall t <- shots :: NaturalSnapshot(t)
    ensures Held(shots, a) >= 0
    decreases |shots|
  {
    hide NaturalSnapshot, SnapshotAmount;
    if shots != {} {
      var t :| t in shots;
      NaturalShotAmount(t, a);
      HeldIsNatural(shots - {t}, a);
      HeldWithout(shots, t, a);
    }
  }

  // --- nothing lost

  /** No contract is put out a second time. */
  ghost predicate NoRepeats(moves: seq<Move>) {
    forall i, j :: 0 <= i < j < |moves| && moves[i].Out? && moves[j].Out? ==> moves[i].snapshot != moves[j].snapshot
  }

  lemma {:induction false} NothingLost(c: Crypto, contracts: set<bytes>, out: set<Shot>, moves: seq<Move>, all: set<Shot>, a: bytes)
    requires Moved(c, contracts, moves).Some? && Backed(c, contracts, out) && NoRepeats(moves) && out !! Outs(moves)
    requires Distinct(c, all) && out <= all && Shots(moves) <= all
    ensures Lost(c, contracts, moves, a) == 0
    decreases |moves|
  {
    hide SnapshotID, SnapshotAmount, Backed, Distinct, Live, Held;
    if moves != [] {
      var m, rest := moves[0], moves[1..];
      var id := SnapshotID(c, m.snapshot);
      assert m.snapshot in Shots(moves);
      assert Shots(rest) <= Shots(moves);
      RestDoesNotRepeat(moves);
      if m.In? {
        TakingIn(c, contracts, out, m.snapshot, all, a);
        NothingLost(c, contracts - {id}, out, rest, all, a);
      } else {
        PuttingOut(c, contracts, out, m.snapshot, all, a);
        OutsFirst(moves);
        NothingLost(c, contracts + {id}, out + {m.snapshot}, rest, all, a);
      }
    }
  }

  lemma RestDoesNotRepeat(moves: seq<Move>)
    requires NoRepeats(moves) && moves != []
    ensures NoRepeats(moves[1..]) && Outs(moves[1..]) <= Outs(moves)
    ensures moves[0].Out? ==> moves[0].snapshot !in Outs(moves[1..])
  {
    var rest := moves[1..];
    forall i | 0 <= i < |rest| ensures rest[i] == moves[i + 1] {}
  }

  // --- programs, blocks, chains

  ghost predicate AllAccepted(c: Crypto, ps: seq<Program>) {
    forall p <- ps :: Accepted(c, p)
  }

  ghost function TxsOf(c: Crypto, ps: seq<Program>): (txs: seq<BcTx>)
    requires AllAccepted(c, ps)
    ensures |txs| == |ps| && (ps != [] ==> txs[0] == TxOf(c, ps[0]) && txs[1..] == TxsOf(c, ps[1..]))
  {
    if ps == [] then [] else [TxOf(c, ps[0])] + TxsOf(c, ps[1..])
  }

  /** All that the programs take in and put out, in order. */
  ghost function MovesOf(c: Crypto, ps: seq<Program>): seq<Move>
    requires AllAccepted(c, ps)
  {
    hide Accepted, Final;
    if ps == [] then [] else Final(c, ps[0]).tx.moves + MovesOf(c, ps[1..])
  }

  /** The total amount of asset a that the programs log under a code. */
  ghost function Booked(c: Crypto, ps: seq<Program>, code: byte, a: bytes): int
    requires AllAccepted(c, ps)
  {
    hide Accepted, Final;
    if ps == [] then 0 else Logged(Final(c, ps[0]).tx.log, code, a) + Booked(c, ps[1..], code, a)
  }

  lemma RunFacts(c: Crypto, p: Program, a: bytes)
    requires Accepted(c, p)
    ensures
      var tx := Final(c, p).tx;
      && TxOf(c, p).contracts == RefsOf(c, tx.moves) && OutputsFollow(tx.moves)
      && AmountOut(tx.moves, a) + Logged(tx.log, RETIRE_CODE, a) == AmountIn(tx.moves, a) + Logged(tx.log, ISSUE_CODE, a)
  {
    hide Validate, RefsOf, OutputsFollow;
    RefsOfRun(c, p);
    Runs.OutputsAreNatural(c, p.prog, p.version, p.runlimit, p.extension);
    Runs.NoUnbalancedTransaction(c, p.prog, p.version, p.runlimit, p.extension, a);
  }

  /** The moves of some transactions, as the log balances them and as the state follows them. */
  ghost predicate Account(c: Crypto, contracts: set<bytes>, moves: seq<Move>, contracts': set<bytes>, issued: int, retired: int, a: bytes) {
    && OutputsFollow(moves) && Moved(c, contracts, moves) == Some(contracts')
    && AmountOut(moves, a) + retired == AmountIn(moves, a) + issued
  }

  lemma AccountsConcat(c: Crypto, c0: set<bytes>, x: seq<Move>, c1: set<bytes>, y: seq<Move>, c2: set<bytes>,
                       i1: int, r1: int, i2: int, r2: int, a: bytes)
    requires Account(c, c0, x, c1, i1, r1, a) && Account(c, c1, y, c2, i2, r2, a)
    ensures Account(c, c0, x + y, c2, i1 + i2, r1 + r2, a)
  {
    hide Moved, OutputsFollow, AmountIn, AmountOut;
    FollowsConcat(x, y);
    MovedConcat(c, c0, x, y);
    AmountsConcat(x, y, a);
  }

  lemma TxAccount(c: Crypto, s: Snap, p: Program, a: bytes)
    requires Accepted(c, p) && ApplyTx(s, TxOf(c, p)).Ok?
    ensures
      var tx := Final(c, p).tx;
      Account(c, s.contracts, tx.moves, ApplyTx(s, TxOf(c, p)).value.contracts,
              Logged(tx.log, ISSUE_CODE, a), Logged(tx.log, RETIRE_CODE, a), a)
  {
    hide Validate, Final, RefsOf, AddNonces, MoveContracts, OutputsFollow, Moved, Logged;
    var tx := TxOf(c, p);
    RunFacts(c, p, a);
    AddNoncesKeepsContracts(s, tx.nonces);
    MovedIsMoveContracts(c, AddNonces(s, tx.nonces).value, Final(c, p).tx.moves);
  }

  lemma {:induction false} TxsAccount(c: Crypto, s: Snap, ps: seq<Program>, a: bytes)
    requires AllAccepted(c, ps) && ApplyTxs(s, TxsOf(c, ps)).Ok?
    ensures Account(c, s.contracts, MovesOf(c, ps), ApplyTxs(s, TxsOf(c, ps)).value.contracts,
                    Booked(c, ps, ISSUE_CODE, a), Booked(c, ps, RETIRE_CODE, a), a)
    decreases |ps|
  {
    hide Accepted, Final, TxOf, ApplyTx, Logged, Account;
    if ps == [] {
      NoAccount(c, s.contracts, a);
    } else {
      var p, rest := ps[0], ps[1..];
      assert Accepted(c, p);
      TxAccount(c, s, p, a);
      var s1, tx := ApplyTx(s, TxOf(c, p)).value, Final(c, p).tx;
      TxsAccount(c, s1, rest, a);
      AccountsConcat(c, s.contracts, tx.moves, s1.contracts, MovesOf(c, rest), ApplyTxs(s, TxsOf(c, ps)).value.contracts,
                     Logged(tx.log, ISSUE_CODE, a), Logged(tx.log, RETIRE_CODE, a),
                     Booked(c, rest, ISSUE_CODE, a), Booked(c, rest, RETIRE_CODE, a), a);
    }
  }

  lemma NoAccount(c: Crypto, contracts: set<bytes>, a: bytes)
    ensures Account(c, contracts, [], contracts, 0, 0, a)
  {
  }

  ghost predicate ChainAccepted(c: Crypto, chain: seq<Batch>) {
    forall b <- chain :: AllAccepted(c, b.programs)
  }

  ghost function BlocksOf(c: Crypto, chain: seq<Batch>): (blocks: seq<Block>)
    requires ChainAccepted(c, chain)
    ensures |blocks| == |chain|
  {
    hide AllAccepted;
    if chain == [] then []
    else
      var n := |chain| - 1;
      BlocksOf(c, chain[..n]) + [Block(chain[n].header, TxsOf(c, chain[n].programs))]
  }

  /** All that the transactions of the chain take in and put out, in order. */
  ghost function ChainMoves(c: Crypto, chain: seq<Batch>): seq<Move>
    requires ChainAccepted(c, chain)
  {
    hide AllAccepted;
    if chain == [] then [] else ChainMoves(c, chain[..|chain| - 1]) + MovesOf(c, chain[|chain| - 1].programs)
  }

  ghost function ChainBooked(c: Crypto, chain: seq<Batch>, code: byte, a: bytes): int
    requires ChainAccepted(c, chain)
  {
    hide AllAccepted;
    if chain == [] then 0
    else ChainBooked(c, chain[..|chain| - 1], code, a) + Booked(c, chain[|chain| - 1].programs, code, a)
  }

  lemma ChainParts(c: Crypto, chain: seq<Batch>, a: bytes)
    requires ChainAccepted(c, chain)
    ensures chain == [] ==>
      ChainMoves(c, chain) == [] && ChainBooked(c, chain, ISSUE_CODE, a) == ChainBooked(c, chain, RETIRE_CODE, a) == 0
    ensures chain != [] ==>
      var front, b := chain[..|chain| - 1], chain[|chain| - 1];
      && ChainAccepted(c, front) && AllAccepted(c, b.programs)
      && ChainMoves(c, chain) == ChainMoves(c, front) + MovesOf(c, b.programs)
      && ChainBooked(c, chain, ISSUE_CODE, a) == ChainBooked(c, front, ISSUE_CODE, a) + Booked(c, b.programs, ISSUE_CODE, a)
      && ChainBooked(c, chain, RETIRE_CODE, a) == ChainBooked(c, front, RETIRE_CODE, a) + Booked(c, b.programs, RETIRE_CODE, a)
  {
    hide AllAccepted, MovesOf, Booked, Validate, RunTo;
  }

  lemma AfterHeader(c: Crypto, s: Snap, b: Block) returns (s1: Snap)
    requires ApplyBlock(c, s, b).Ok?
    ensures s1.contracts == s.contracts && ApplyBlock(c, s, b) == ApplyTxs(s1, b.transactions)
  {
    hide ApplyTxs, BlockID, Validate, RunTo;
    s1 := ApplyBlockHeader(c, PruneNonces(s, b.header.timestampMs), b.header).value;
  }

  lemma FoldLast(c: Crypto, chain: seq<Batch>)
    requires ChainAccepted(c, chain) && chain != [] && Fold(c, BlocksOf(c, chain)).Ok?
    ensures
      var front, b := chain[..|chain| - 1], chain[|chain| - 1];
      && Fold(c, BlocksOf(c, front)).Ok?
      && Fold(c, BlocksOf(c, chain)) == ApplyBlock(c, Fold(c, BlocksOf(c, front)).value, Block(b.header, TxsOf(c, b.programs)))
  {
    hide AllAccepted, TxsOf, ApplyBlock, Validate, RunTo;
    var front := chain[..|chain| - 1];
    assert BlocksOf(c, chain)[..|chain| - 1] == BlocksOf(c, front);
  }

  lemma FoldNothing(c: Crypto, chain: seq<Batch>)
    requires ChainAccepted(c, chain) && chain == []
    ensures Fold(c, BlocksOf(c, chain)) == Ok(Empty())
  {
  }

  lemma {:induction false} ChainAccount(c: Crypto, chain: seq<Batch>, a: bytes)
    requires ChainAccepted(c, chain) && Fold(c, BlocksOf(c, chain)).Ok?
    ensures Account(c, {}, ChainMoves(c, chain), Fold(c, BlocksOf(c, chain)).value.contracts,
                    ChainBooked(c, chain, ISSUE_CODE, a), ChainBooked(c, chain, RETIRE_CODE, a), a)
    decreases |chain|
  {
    hide AllAccepted, ChainAccepted, TxsOf, MovesOf, Booked, Account, ApplyBlock, Validate, RunTo, BlocksOf, Fold, ChainMoves, ChainBooked;
    ChainParts(c, chain, a);
    if chain == [] {
      NoAccount(c, {}, a);
      FoldNothing(c, chain);
    } else {
      var front, b := chain[..|chain| - 1], chain[|chain| - 1];
      FoldLast(c, chain);
      ChainAccount(c, front, a);
      var s := Fold(c, BlocksOf(c, front)).value;
      var s1 := AfterHeader(c, s, Block(b.header, TxsOf(c, b.programs)));
      TxsAccount(c, s1, b.programs, a);
      AccountsConcat(c, {}, ChainMoves(c, front), s.contracts, MovesOf(c, b.programs), Fold(c, BlocksOf(c, chain)).value.contracts,
                     ChainBooked(c, front, ISSUE_CODE, a), ChainBooked(c, front, RETIRE_CODE, a),
                     Booked(c, b.programs, ISSUE_CODE, a), Booked(c, b.programs, RETIRE_CODE, a), a);
    }
  }

  /**
   On every chain of blocks made of valid transactions, for every asset: what the contracts in the state
   hold, what was retired and what was lost is what was issued. No part is negative, each contract in the
   state is one that was put out, and nothing is lost if no contract is put out twice. All this unless two
   different contracts of the chain have one ID.
   */
  lemma SupplyIsConserved(c: Crypto, chain: seq<Batch>, a: bytes)
    requires ChainAccepted(c, chain) && Fold(c, BlocksOf(c, chain)).Ok?
    ensures
      var moves := ChainMoves(c, chain);
      var contracts := Fold(c, BlocksOf(c, chain)).value.contracts;
      var live := Live(c, contracts, Outs(moves));
      || (exists t, u :: t in Shots(moves) && u in Shots(moves) && t != u && SnapshotID(c, t) == SnapshotID(c, u))
      || (&& Held(live, a) + ChainBooked(c, chain, RETIRE_CODE, a) + Lost(c, {}, moves, a) == ChainBooked(c, chain, ISSUE_CODE, a)
          && Held(live, a) >= 0 && Lost(c, {}, moves, a) >= 0
          && (NoRepeats(moves) ==> Lost(c, {}, moves, a) == 0)
          && (forall id <- contracts :: exists t :: t in live && SnapshotID(c, t) == id))
  {
    hide AllAccepted, ChainAccepted, BlocksOf, ChainMoves, ChainBooked, Fold, SnapshotID, NaturalSnapshot, SnapshotAmount,
      Moved, Lost, OutputsFollow, NoRepeats;
    var moves := ChainMoves(c, chain);
    var all := Shots(moves);
    if Distinct(c, all) {
      ChainAccount(c, chain, a);
      MovesConserve(c, {}, {}, moves, all, a);
      MovesAreNatural(c, {}, {}, moves, all, a);
      assert {} + Outs(moves) == Outs(moves);
      assert Live(c, {}, {}) == {};
      HeldIsNatural(Live(c, Fold(c, BlocksOf(c, chain)).value.contracts, Outs(moves)), a);
      if NoRepeats(moves) {
        NothingLost(c, {}, {}, moves, all, a);
      }
    }
  }
}
