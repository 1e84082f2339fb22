/**
 The whole machine: exec and call push frames, the end of a program or a suspension pops them
 (vm.go, control.go, contract.go).
 */
module Interpreter {
  import opened Prelude
  import opened Items
  import opened Ledger
  import opened Machine
  import opened Instructions
  import opened Opcodes

  /** What a program comes back to: a caller also has its contract and its own caller restored. */
  datatype Frame =
    | ExecFrame(run: Run)
    | CallFrame(run: Run, contract: Contract, caller: bytes)

  datatype Config = Config(s: State, frames: seq<Frame>)

  /** The amount of asset a held by the contracts waiting for a call to return. */
  function WaitingAmount(frames: seq<Frame>, a: bytes): int {
    if frames == [] then 0
    else
      var f := frames[|frames| - 1];
      WaitingAmount(frames[..|frames| - 1], a) + (if f.CallFrame? then StackAmount(f.contract.stack, a) else 0)
  }

  function Total(g: Config, a: bytes): int {
    Balance(g.s, a) + WaitingAmount(g.frames, a)
  }

  /** The callers waiting hold nothing negative either, as long as nothing negative was taken in. */
  ghost predicate NaturalWhole(g: Config) {
    Natural(g.s) &&
    (InputsNatural(g.s.tx.moves) ==> forall f <- g.frames :: f.CallFrame? ==> NaturalStack(f.contract.stack))
  }

  ghost predicate InBounds(g: Config) {
    && g.s.run.pc <= |g.s.run.prog|
    && forall f <- g.frames :: f.run.pc <= |f.run.prog|
  }

  /** What every step keeps of the whole machine. */
  ghost predicate KeptWhole(c: Crypto, g: Config, h: Config) {
    && h.s.version == g.s.version && h.s.extension == g.s.extension
    && h.s.runlimit <= g.s.runlimit && (0 <= g.s.runlimit ==> 0 <= h.s.runlimit)
    && Extends(g.s.tx, h.s.tx)
    && (forall a :: Total(h, a) == Total(g, a))
    && (NaturalWhole(g) ==> NaturalWhole(h))
    && (WellLogged(c, g.s.tx) ==> WellLogged(c, h.s.tx))
    && (FormedLog(g.s.tx.log) ==> FormedLog(h.s.tx.log))
    && (NoncesDated(g.s.tx.log) ==> NoncesDated(h.s.tx.log))
    && (InBounds(g) ==> InBounds(h))
  }

  lemma KeptInTurn(c: Crypto, g: Config, h: Config, k: Config)
    requires KeptWhole(c, g, h) && KeptWhole(c, h, k)
    ensures KeptWhole(c, g, k)
  {
    hide Total, NaturalWhole, InBounds, WellLogged, FormedLog, NoncesDated;
  }

  lemma NothingIsKept(c: Crypto, g: Config)
    ensures KeptWhole(c, g, g)
  {
    hide Total, NaturalWhole, InBounds, WellLogged, FormedLog, NoncesDated;
  }

  /** What one instruction keeps is kept of the machine with the callers waiting. */
  lemma WaitingIsKept(c: Crypto, s: State, t: State, frames: seq<Frame>)
    requires Kept(c, s, Ok(t)) && !s.unwinding
    ensures KeptWhole(c, Config(s, frames), Config(t, frames))
  {
    hide Balance, WaitingAmount, OutputsFollow, InputsNatural, NaturalStack, WellLogged, FormedLog, NoncesDated;
    EarlierInputsNatural(s.tx.moves, t.tx.moves);
  }

  predicate AtEnd(s: State) {
    s.unwinding || s.run.pc >= |s.run.prog|
  }

  predicate Halted(g: Config) {
    AtEnd(g.s) && g.frames == []
  }

  /** A contract that runs to its end must leave nothing behind; a suspended one has been moved away. */
  function Return(c: Crypto, g: Config): (r: Result<Config, Error>)
    requires AtEnd(g.s) && g.frames != []
    ensures r.Ok? ==> KeptWhole(c, g, r.value) && r.value.frames == g.frames[..|g.frames| - 1]
    ensures r.Ok? ==> r.value.s.runlimit == g.s.runlimit
  {
    hide OutputsFollow, InputsNatural, NaturalStack, WellLogged, FormedLog, NoncesDated, Outflow;
    var rest := g.frames[..|g.frames| - 1];
    match g.frames[|g.frames| - 1]
    case ExecFrame(run) => Ok(Config(g.s.(run := run), rest))
    case CallFrame(run, contract, caller) =>
      if !g.s.unwinding && g.s.contract.stack != [] then Err(ErrNonEmpty)
      else Ok(Config(g.s.(run := run, unwinding := false, contract := contract, caller := caller), rest))
  }

  function Exec(c: Crypto, s: State, frames: seq<Frame>): (r: Result<Config, Error>)
    requires !s.unwinding
    ensures r.Ok? ==> KeptWhole(c, Config(s, frames), r.value) && |r.value.frames| == |frames| + 1 && frames <= r.value.frames
  {
    hide OutputsFollow, InputsNatural, NaturalStack, WellLogged, FormedLog, NoncesDated, Outflow;
    var (prog, s) :- PopBytes(s);
    Ok(Config(s.(run := Run(0, prog)), frames + [ExecFrame(s.run)]))
  }

  function Call(c: Crypto, s: State, frames: seq<Frame>): (r: Result<Config, Error>)
    requires !s.unwinding
    ensures r.Ok? ==> KeptWhole(c, Config(s, frames), r.value) && |r.value.frames| == |frames| + 1 && frames <= r.value.frames
  {
    hide OutputsFollow, InputsNatural, NaturalStack, WellLogged, FormedLog, NoncesDated, Outflow;
    var (x, s) :- Pop(s);
    :- Need(x.Con?, ErrType);
    var callee := s.(run := Run(0, x.c.program), contract := x.c.(wrapped := false), caller := s.contract.seed);
    Ok(Config(callee, frames + [CallFrame(s.run, s.contract, s.caller)]))
  }

  /** Decodes the instruction at pc, charges one unit of runlimit for it and moves past it. */
  function Fetch(c: Crypto, s: State): (r: Result<(Inst, State), Error>)
    requires !AtEnd(s)
    ensures r.Ok? ==>
      && Kept(c, s, Ok(r.value.1))
      && 0 <= r.value.1.runlimit < s.runlimit
      && !r.value.1.unwinding
      && r.value.0.opcode <= MIN_PUSHDATA
  {
    hide OutputsFollow, InputsNatural, NaturalStack, WellLogged, FormedLog, NoncesDated, Outflow;
    match DecodeInst(s.run.prog[s.run.pc..])
    case None => Err(ErrDecode)
    case Some(inst) =>
      var s :- Charge(s, 1);
      Ok((inst, s.(run := s.run.(pc := s.run.pc + inst.size))))
  }

  /** Performs a fetched instruction. */
  function Dispatch(c: Crypto, g: Config, inst: Inst): (r: Result<Config, Error>)
    requires !g.s.unwinding && inst.opcode <= MIN_PUSHDATA
    ensures r.Ok? ==> KeptWhole(c, g, r.value) && g.frames <= r.value.frames && |r.value.frames| <= |g.frames| + 1
  {
    hide Kept, KeptWhole, Perform, Exec, Call;
    if inst.opcode == EXEC then Exec(c, g.s, g.frames)
    else if inst.opcode == CALL then Call(c, g.s, g.frames)
    else
      var s :- Perform(c, g.s, inst);
      WaitingIsKept(c, g.s, s, g.frames);
      Ok(Config(s, g.frames))
  }

  lemma LowerRunlimit(c: Crypto, g: Config, h: Config)
    requires KeptWhole(c, g, h) && 0 <= g.s.runlimit
    ensures 0 <= h.s.runlimit <= g.s.runlimit
  {
    hide Total, NaturalWhole, InBounds, WellLogged, FormedLog, NoncesDated;
  }

  function Instruct(c: Crypto, g: Config): (r: Result<Config, Error>)
    requires !AtEnd(g.s)
    ensures r.Ok? ==>
      && KeptWhole(c, g, r.value)
      && 0 <= r.value.s.runlimit < g.s.runlimit
      && g.frames <= r.value.frames && |r.value.frames| <= |g.frames| + 1
  {
    hide Kept, KeptWhole, Fetch, Dispatch;
    var (inst, s) :- Fetch(c, g.s);
    WaitingIsKept(c, g.s, s, g.frames);
    var h :- Dispatch(c, Config(s, g.frames), inst);
    KeptInTurn(c, g, Config(s, g.frames), h);
    LowerRunlimit(c, Config(s, g.frames), h);
    Ok(h)
  }

  /** One step of the machine. A halted machine stays as it is. */
  function Next(c: Crypto, g: Config): (r: Result<Config, Error>)
    ensures r.Ok? ==> KeptWhole(c, g, r.value)
  {
    hide KeptWhole, Return, Instruct;
    NothingIsKept(c, g);
    if Halted(g) then Ok(g) else if AtEnd(g.s) then Return(c, g) else Instruct(c, g)
  }

  /** n steps of the machine. */
  function Steps(c: Crypto, g: Config, n: nat): Result<Config, Error>
    decreases n
  {
    hide Next;
    if n == 0 then Ok(g)
    else
      var h :- Next(c, g);
      Steps(c, h, n - 1)
  }

  /** Runs until the program on top of the first base frames has come to its end. */
  function RunTo(c: Crypto, g: Config, base: nat): (r: Result<Config, Error>)
    requires base <= |g.frames|
    ensures r.Ok? ==> AtEnd(r.value.s) && r.value.frames == g.frames[..base] && KeptWhole(c, g, r.value)
    decreases g.s.runlimit, |g.frames|
  {
    hide KeptWhole, Instruct, Return;
    NothingIsKept(c, g);
    if AtEnd(g.s) then
      if |g.frames| == base then Ok(g)
      else
        var h :- Return(c, g);
        var k :- RunTo(c, h, base);
        KeptInTurn(c, g, h, k);
        Ok(k)
    else
      var h :- Instruct(c, g);
      var k :- RunTo(c, h, base);
      KeptInTurn(c, g, h, k);
      Ok(k)
  }

  function Initial(prog: bytes, version: int64, runlimit: int64, extension: bool): Config {
    Config(
      State(version, extension, runlimit, [], Run(0, prog), false,
            Contract(false, ZeroHash(), prog, []), ZeroHash(), Tx([], false, ZeroHash(), [])),
      [])
  }

  /** A valid transaction leaves both stacks empty. */
  function Validate(c: Crypto, prog: bytes, version: int64, runlimit: int64, extension: bool): Result<State, Error>
  {
    hide RunTo, KeptWhole;
    if version < 3 then Err(ErrVersion)
    else if |prog| > runlimit then Err(ErrRunlimit)
    else
      var g :- RunTo(c, Initial(prog, version, runlimit, extension), 0);
      :- Need(g.s.contract.stack == [] && g.s.argstack == [], ErrResidue);
      Ok(g.s)
  }
}
