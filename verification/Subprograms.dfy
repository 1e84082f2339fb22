/** What exec and call do over whole runs: the program runs, and its caller goes on behind it (control.go, contract.go). */
module Subprograms {
  import opened Prelude
  import opened Items
  import opened Ledger
  import opened Encoding
  import opened Machine
  import opened Instructions
  import opened Interpreter
  import opened Opcodes
  import opened Compilation

  // --- exec

  /** g behind the one-byte instruction at pc, with the items above rest gone. */
  function Behind(g: Config, rest: seq<Item>): State {
    WithStack(g.s, rest).(runlimit := g.s.runlimit - 1, run := g.s.run.(pc := g.s.run.pc + 1))
  }

  /** exec goes to the start of the program it pops, to come back behind itself. */
  lemma EntersExec(c: Crypto, g: Config, rest: seq<Item>, prog: bytes)
    requires About(g, [0x42]) && g.s.runlimit >= 1 && g.s.contract.stack == rest + [Plain(Bytes(prog))]
    ensures
      var s := Behind(g, rest);
      Steps(c, g, 1) == Ok(Config(s.(run := Run(0, prog)), g.frames + [ExecFrame(s.run)]))
  {
    hide Kept, KeptWhole, Pop;
    Splits(g, [0x42]);
    DecodesByte(g.s.run.prog[g.s.run.pc..]);
    PopsOne(Behind(g, rest + [Plain(Bytes(prog))]), rest, Plain(Bytes(prog)));
    assert Steps(c, g, 1) == match Next(c, g) case Ok(h) => Steps(c, h, 0) case Err(e) => Err(e);
  }

  /** A program that exec runs to its end without suspending: the caller goes on behind the exec, with what it leaves. */
  lemma ExecComesBack(c: Crypto, g: Config, rest: seq<Item>, prog: bytes, n: nat, t: State)
    requires About(g, [0x42]) && g.s.runlimit >= 1 && g.s.contract.stack == rest + [Plain(Bytes(prog))]
    requires
      var s := Behind(g, rest);
      var frames := g.frames + [ExecFrame(s.run)];
      Steps(c, Config(s.(run := Run(0, prog)), frames), n) == Ok(Config(t, frames))
    requires AtEnd(t)
    ensures Steps(c, g, n + 2) == Ok(Config(t.(run := Behind(g, rest).run), g.frames))
  {
    hide Next, Kept, KeptWhole, Steps;
    var s := Behind(g, rest);
    var h := Config(t, g.frames + [ExecFrame(s.run)]);
    EntersExec(c, g, rest, prog);
    StepsCompose(c, g, 1, n);
    assert h.frames[..|h.frames| - 1] == g.frames;
    ReturnsNext(c, h);
    StepsCompose(c, g, n + 1, 1);
  }

  lemma ReturnsNext(c: Crypto, g: Config)
    requires AtEnd(g.s) && g.frames != []
    ensures Steps(c, g, 1) == Return(c, g)
  {
    hide Return, KeptWhole;
    assert Steps(c, g, 1) == match Next(c, g) case Ok(h) => Steps(c, h, 0) case Err(e) => Err(e);
  }

  /** exec of the encoding of v: it is run, and the caller goes on behind the exec with v in its place. */
  lemma ExecRunsEncoding(c: Crypto, g: Config, rest: seq<Item>, v: Data)
    requires Sized(v) && About(g, [0x42]) && g.s.runlimit >= 1 + Cost(v)
    requires g.s.contract.stack == rest + [Plain(Bytes(Encode(v)))]
    ensures Steps(c, g, Count(v) + 2) == Ok(After(g.(s := WithStack(g.s, rest)), 1, [Plain(v)], 1 + Cost(v)))
  {
    hide Next, Kept, KeptWhole, Steps, Encode, Cost, Count;
    var s, prog := Behind(g, rest), Encode(v);
    var h := Config(s.(run := Run(0, prog)), g.frames + [ExecFrame(s.run)]);
    assert prog[0..|prog|] == prog;
    RunsEncode(c, h, v);
    ExecComesBack(c, g, rest, prog, Count(v), After(h, |prog|, [Plain(v)], Cost(v)).s);
  }

  // --- call

  /** call takes up the contract it pops, unwrapped and with the calling contract's seed as caller, at the start of its program. */
  lemma EntersCall(c: Crypto, g: Config, rest: seq<Item>, con: Contract)
    requires About(g, [0x43]) && g.s.runlimit >= 1 && g.s.contract.stack == rest + [Con(con)]
    ensures
      var s := Behind(g, rest);
      Steps(c, g, 1) ==
        Ok(Config(s.(run := Run(0, con.program), contract := Contract(false, con.seed, con.program, con.stack), caller := g.s.contract.seed),
                  g.frames + [CallFrame(s.run, s.contract, g.s.caller)]))
  {
    hide Kept, KeptWhole, Pop;
    Splits(g, [0x43]);
    DecodesByte(g.s.run.prog[g.s.run.pc..]);
    PopsOne(Behind(g, rest + [Con(con)]), rest, Con(con));
    assert Steps(c, g, 1) == match Next(c, g) case Ok(h) => Steps(c, h, 0) case Err(e) => Err(e);
  }

  /** The machine inside a contract that has just been called. */
  function Inside(g: Config, rest: seq<Item>, con: Contract): Config {
    var s := Behind(g, rest);
    Config(s.(run := Run(0, con.program), contract := con.(wrapped := false), caller := g.s.contract.seed),
           g.frames + [CallFrame(s.run, s.contract, g.s.caller)])
  }

  /**
   A called contract that comes to an end: if it has suspended itself, or leaves nothing on its stack, the
   caller goes on behind the call as it was, with the argument stack and the log of the contract.
   Otherwise the run fails.
   */
  lemma CallComesBack(c: Crypto, g: Config, rest: seq<Item>, con: Contract, n: nat, t: State)
    requires About(g, [0x43]) && g.s.runlimit >= 1 && g.s.contract.stack == rest + [Con(con)]
    requires Steps(c, Inside(g, rest, con), n) == Ok(Config(t, Inside(g, rest, con).frames)) && AtEnd(t)
    ensures Steps(c, g, n + 2) ==
      if !t.unwinding && t.contract.stack != [] then Err(ErrNonEmpty)
      else Ok(Config(t.(run := g.s.run.(pc := g.s.run.pc + 1), unwinding := false,
                        contract := g.s.contract.(stack := rest), caller := g.s.caller), g.frames))
  {
    hide Next, Kept, KeptWhole, Steps;
    var inside := Inside(g, rest, con);
    var h := Config(t, inside.frames);
    EntersCall(c, g, rest, con);
    StepsCompose(c, g, 1, n);
    assert h.frames[..|h.frames| - 1] == g.frames;
    ReturnsNext(c, h);
    StepsCompose(c, g, n + 1, 1);
  }

  lemma Puts(c: Crypto, g: Config, rest: seq<Item>, x: Item)
    requires About(g, [0x2e]) && g.s.runlimit >= 1 && g.s.contract.stack == rest + [x]
    ensures Steps(c, g, 1) == Ok(g.(s := Behind(g, rest).(argstack := g.s.argstack + [x])))
  {
    hide Next, Kept, KeptWhole;
    RunsOne(c, g, 0x2e);
    PopsOne(Behind(g, rest + [x]), rest, x);
  }

  /** A contract whose program is the encoding of v and a put hands v to its caller; without the put it fails. */
  lemma CallRunsEncoding(c: Crypto, g: Config, rest: seq<Item>, con: Contract, v: Data)
    requires Sized(v) && About(g, [0x43]) && g.s.runlimit >= 2 + Cost(v)
    requires g.s.contract.stack == rest + [Con(con)] && con.stack == []
    ensures con.program == Encode(v) + [0x2e] ==>
      Steps(c, g, Count(v) + 3)
      == Ok(g.(s := Behind(g, rest).(argstack := g.s.argstack + [Plain(v)], runlimit := g.s.runlimit - 2 - Cost(v))))
    ensures con.program == Encode(v) ==> Steps(c, g, Count(v) + 2) == Err(ErrNonEmpty)
  {
    hide Next, Kept, KeptWhole, Steps, Encode, Cost, Count;
    var h := Inside(g, rest, con);
    var k := After(h, |Encode(v)|, [Plain(v)], Cost(v));
    assert con.program[0..|con.program|] == con.program;
    if con.program == Encode(v) {
      RunsEncode(c, h, v);
      CallComesBack(c, g, rest, con, Count(v), k.s);
    } else if con.program == Encode(v) + [0x2e] {
      AboutParts(h, Encode(v), [0x2e], [Plain(v)], Cost(v));
      RunsEncode(c, h, v);
      Puts(c, k, [], Plain(v));
      StepsCompose(c, h, Count(v), 1);
      CallComesBack(c, g, rest, con, Count(v) + 1, Behind(k, []).(argstack := g.s.argstack + [Plain(v)]));
    }
  }
}
