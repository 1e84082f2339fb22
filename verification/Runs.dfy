/** Whole runs: conservation of value, the frozen log, and termination by runlimit. */
module Runs {
  import opened Prelude
  import opened Items
  import opened Ledger
  import opened Machine
  import opened Interpreter
  import Merkle

  lemma {:induction false} StepsKeep(c: Crypto, g: Config, n: nat)
    requires Steps(c, g, n).Ok?
    ensures KeptWhole(c, g, Steps(c, g, n).value)
    decreases n
  {
    hide Next, WellLogged, FormedLog, NoncesDated, Outflow;
    if n > 0 {
      StepsKeep(c, Next(c, g).value, n - 1);
    }
  }

  lemma InitialIsSound(c: Crypto, prog: bytes, version: int64, runlimit: int64, extension: bool)
    ensures
      var g := Initial(prog, version, runlimit, extension);
      (forall a :: Total(g, a) == 0) && WellLogged(c, g.s.tx) && FormedLog(g.s.tx.log) && InBounds(g) && NaturalWhole(g)
  {
  }

  /**
   At every moment of every run, for every asset, what the stacks, the waiting callers, the outputs
   and the retirements hold is what issuances and inputs brought in.
   */
  lemma BalancedAtEveryStep(c: Crypto, prog: bytes, version: int64, runlimit: int64, extension: bool,
                            n: nat, a: bytes)
    ensures
      var r := Steps(c, Initial(prog, version, runlimit, extension), n);
      r.Ok? ==>
        var s := r.value.s;
        StackAmount(s.argstack, a) + (if s.unwinding then 0 else StackAmount(s.contract.stack, a))
        + WaitingAmount(r.value.frames, a)
        + Logged(s.tx.log, RETIRE_CODE, a) + AmountOut(s.tx.moves, a)
        == Logged(s.tx.log, ISSUE_CODE, a) + AmountIn(s.tx.moves, a)
  {
    var g := Initial(prog, version, runlimit, extension);
    if Steps(c, g, n).Ok? {
      StepsKeep(c, g, n);
      InitialIsSound(c, prog, version, runlimit, extension);
      assert Total(Steps(c, g, n).value, a) == Total(g, a);
    }
  }

  /** No unbalanced transaction is ever a valid program. */
  lemma NoUnbalancedTransaction(c: Crypto, prog: bytes, version: int64, runlimit: int64, extension: bool, a: bytes)
    ensures
      var r := Validate(c, prog, version, runlimit, extension);
      r.Ok? ==>
        var tx := r.value.tx;
        Logged(tx.log, ISSUE_CODE, a) + AmountIn(tx.moves, a)
        == Logged(tx.log, RETIRE_CODE, a) + AmountOut(tx.moves, a)
  {
    hide RunTo, WellLogged, FormedLog, NoncesDated;
    var g := Initial(prog, version, runlimit, extension);
    if Validate(c, prog, version, runlimit, extension).Ok? {
      var h := RunTo(c, g, 0).value;
      InitialIsSound(c, prog, version, runlimit, extension);
      assert Total(h, a) == Total(g, a);
    }
  }

  /** A valid transaction that takes in nothing negative puts out nothing negative, up to any point of it. */
  lemma OutputsAreNatural(c: Crypto, prog: bytes, version: int64, runlimit: int64, extension: bool)
    ensures
      var r := Validate(c, prog, version, runlimit, extension);
      r.Ok? ==> OutputsFollow(r.value.tx.moves)
  {
    hide RunTo, Outflow, WellLogged, FormedLog, NoncesDated, OutputsFollow;
    InitialIsSound(c, prog, version, runlimit, extension);
  }

  /** The log of a valid transaction names exactly the contracts it consumed and produced, in order. */
  lemma LogNamesContracts(c: Crypto, prog: bytes, version: int64, runlimit: int64, extension: bool)
    ensures
      var r := Validate(c, prog, version, runlimit, extension);
      r.Ok? ==>
        LoggedMoves(r.value.tx.log) == MoveIDs(c, r.value.tx.moves)
  {
    hide RunTo, Outflow;
    InitialIsSound(c, prog, version, runlimit, extension);
  }

  /** Every entry of a log, at every moment of every run, has the fields that its type code calls for. */
  lemma LogIsFormed(c: Crypto, prog: bytes, version: int64, runlimit: int64, extension: bool, n: nat)
    ensures
      var r := Steps(c, Initial(prog, version, runlimit, extension), n);
      r.Ok? ==> FormedLog(r.value.s.tx.log)
    ensures
      var r := Validate(c, prog, version, runlimit, extension);
      r.Ok? ==> FormedLog(r.value.tx.log)
  {
    hide RunTo, Outflow, WellLogged, FormedLog, NoncesDated, NaturalWhole;
    var g := Initial(prog, version, runlimit, extension);
    InitialIsSound(c, prog, version, runlimit, extension);
    if Steps(c, g, n).Ok? {
      StepsKeep(c, g, n);
    }
  }

  /** The log only grows. From finalization on nothing recorded ever changes. */
  lemma LogOnlyGrows(c: Crypto, g: Config, n: nat)
    requires Steps(c, g, n).Ok?
    ensures
      var tx, tx' := g.s.tx, Steps(c, g, n).value.s.tx;
      tx.log <= tx'.log && (tx.finalized ==> tx' == tx)
  {
    StepsKeep(c, g, n);
  }

  /** A finalized log has its one finalize entry at its end, and TxID is its Merkle root. */
  lemma FinalizedLogIsSealed(c: Crypto, prog: bytes, version: int64, runlimit: int64, extension: bool, n: nat)
    ensures
      var r := Steps(c, Initial(prog, version, runlimit, extension), n);
      r.Ok? && r.value.s.tx.finalized ==>
        var tx := r.value.s.tx;
        && tx.log != []
        && HasCode(tx.log[|tx.log| - 1], FINALIZE_CODE)
        && (forall i :: 0 <= i < |tx.log| - 1 ==> !HasCode(tx.log[i], FINALIZE_CODE))
        && tx.txid == Merkle.TreeHash(c.sha3, EncodeEach(tx.log))
  {
    var g := Initial(prog, version, runlimit, extension);
    var r := Steps(c, g, n);
    if r.Ok? && r.value.s.tx.finalized {
      StepsKeep(c, g, n);
      InitialIsSound(c, prog, version, runlimit, extension);
      var log := r.value.s.tx.log;
      Merkle.RootIsTreeHash(c.sha3, EncodeEach(log));
      forall i | 0 <= i < |log| - 1 ensures !HasCode(log[i], FINALIZE_CODE) {
        assert log[i] == log[..|log| - 1][i];
      }
    }
  }

  lemma ValidIsSealed(c: Crypto, prog: bytes, version: int64, runlimit: int64, extension: bool)
    ensures
      var r := Validate(c, prog, version, runlimit, extension);
      r.Ok? && r.value.tx.finalized ==>
        r.value.tx.log != [] && HasCode(r.value.tx.log[|r.value.tx.log| - 1], FINALIZE_CODE)
  {
    hide RunTo, Outflow, FormedLog, NoncesDated, NaturalWhole;
    InitialIsSound(c, prog, version, runlimit, extension);
  }

  /** pc stays inside the program, in the running program and in every one waiting. */
  lemma PcStaysInBounds(c: Crypto, prog: bytes, version: int64, runlimit: int64, extension: bool, n: nat)
    ensures
      var r := Steps(c, Initial(prog, version, runlimit, extension), n);
      r.Ok? ==>
        && 0 <= r.value.s.run.pc <= |r.value.s.run.prog|
        && forall f <- r.value.frames :: f.run.pc <= |f.run.prog|
  {
    var g := Initial(prog, version, runlimit, extension);
    if Steps(c, g, n).Ok? {
      StepsKeep(c, g, n);
      InitialIsSound(c, prog, version, runlimit, extension);
    }
  }

  // --- termination

  /** How many of n steps perform an instruction. */
  function Instructions(c: Crypto, g: Config, n: nat): nat
    decreases n
  {
    hide Next;
    if n == 0 || Next(c, g).Err? then 0
    else (if AtEnd(g.s) then 0 else 1) + Instructions(c, Next(c, g).value, n - 1)
  }

  /** Every instruction pays at least one unit, so no run has more instructions than its runlimit. */
  lemma {:induction false} InstructionsArePaidFor(c: Crypto, g: Config, n: nat)
    requires 0 <= g.s.runlimit
    ensures Instructions(c, g, n) <= g.s.runlimit
    ensures Steps(c, g, n).Ok? ==> Instructions(c, g, n) <= g.s.runlimit - Steps(c, g, n).value.s.runlimit
    decreases n
  {
    hide Return, Instruct, WellLogged, FormedLog, NoncesDated, Outflow;
    if n > 0 && Next(c, g).Ok? {
      InstructionsArePaidFor(c, Next(c, g).value, n - 1);
    }
  }

  /** An upper bound on the steps, instructions and returns, that a machine can still take. */
  function Bound(g: Config): nat
    requires 0 <= g.s.runlimit
  {
    2 * g.s.runlimit + |g.frames| + 1
  }

  /** Whatever it jumps to and however it nests, the machine stops within Bound(g) steps, as RunTo does. */
  lemma {:induction false} EveryRunStops(c: Crypto, g: Config, n: nat)
    requires 0 <= g.s.runlimit && Bound(g) <= n
    ensures Steps(c, g, n) == RunTo(c, g, 0)
    ensures Steps(c, g, n).Ok? ==> Halted(Steps(c, g, n).value)
    decreases n
  {
    hide Return, Instruct, KeptWhole;
    if Halted(g) {
      HaltedStays(c, g, n);
    } else if Next(c, g).Ok? {
      var h := Next(c, g).value;
      assert 0 <= h.s.runlimit && Bound(h) < Bound(g) by { StepLowersBound(c, g); }
      EveryRunStops(c, h, n - 1);
    }
  }

  lemma {:induction false} HaltedStays(c: Crypto, g: Config, n: nat)
    requires Halted(g)
    ensures Steps(c, g, n) == Ok(g)
    decreases n
  {
    if n > 0 {
      HaltedStays(c, g, n - 1);
    }
  }

  lemma StepLowersBound(c: Crypto, g: Config)
    requires 0 <= g.s.runlimit && !Halted(g) && Next(c, g).Ok?
    ensures 0 <= Next(c, g).value.s.runlimit && Bound(Next(c, g).value) < Bound(g)
  {
    hide Instruct, WellLogged, FormedLog, NoncesDated, Outflow;
  }

  /** After n steps the machine has come to its end with nothing on its stacks. */
  ghost predicate EndsEmpty(c: Crypto, g: Config, n: nat) {
    var r := Steps(c, g, n);
    r.Ok? && Halted(r.value) && r.value.s.contract.stack == [] && r.value.s.argstack == []
  }

  lemma {:induction false} StepsGoOn(c: Crypto, g: Config, m: nat, n: nat)
    requires Steps(c, g, m).Ok? && Halted(Steps(c, g, m).value)
    ensures Steps(c, g, m + n) == Steps(c, g, m)
    decreases m
  {
    hide Next, KeptWhole;
    if m == 0 {
      HaltedStays(c, g, n);
    } else {
      StepsGoOn(c, Next(c, g).value, m - 1, n);
    }
  }

  /**
   A program is valid exactly if its version is one of this machine's, its runlimit is at least its length, and
   it runs to its end and leaves both stacks empty. The result is the state it ends in.
   */
  lemma ValidExactly(c: Crypto, prog: bytes, version: int64, runlimit: int64, extension: bool)
    ensures
      var g := Initial(prog, version, runlimit, extension);
      && (Validate(c, prog, version, runlimit, extension).Ok? <==>
            version >= 3 && |prog| <= runlimit && exists n: nat :: EndsEmpty(c, g, n))
      && (Validate(c, prog, version, runlimit, extension).Ok? ==>
            exists n: nat :: EndsEmpty(c, g, n) && Validate(c, prog, version, runlimit, extension).value == Steps(c, g, n).value.s)
  {
    hide Steps, RunTo, KeptWhole;
    var g := Initial(prog, version, runlimit, extension);
    if 0 <= runlimit {
      EveryRunStops(c, g, Bound(g));
      if n: nat :| EndsEmpty(c, g, n) {
        StepsGoOn(c, g, n, Bound(g));
        EveryRunStops(c, g, n + Bound(g));
      }
      if Validate(c, prog, version, runlimit, extension).Ok? {
        assert EndsEmpty(c, g, Bound(g));
      }
    }
  }
}
