/** A contract put out by one transaction and taken in by another is the same contract (contract.go, entries.go). */
module Transfers {
  import opened Prelude
  import opened Items
  import opened Ledger
  import opened Encoding
  import opened Machine
  import opened Instructions
  import opened Interpreter
  import opened Compilation
  import Runs

  /** A machine about to run prog, with no frame to return to. */
  function Fresh(prog: bytes, runlimit: int): Config {
    Config(
      State(3, false, runlimit, [], Run(0, prog), false, Contract(false, [], prog, []), [],
            Tx([], false, ZeroHash(), [])),
      [])
  }

  function SomeCrypto(): Crypto {
    Crypto((f, x) => ZeroHash(), x => ZeroHash(), x => ZeroHash(), (k, m, s) => false)
  }

  lemma EndsHalted(c: Crypto, v: Data, runlimit: int, n: nat)
    requires Sized(v) && Cost(v) <= runlimit && Count(v) <= n
    ensures Steps(c, Fresh(Encode(v), runlimit), n)
         == Ok(After(Fresh(Encode(v), runlimit), |Encode(v)|, [Plain(v)], Cost(v)))
  {
    hide Next, Kept, KeptWhole;
    var g := Fresh(Encode(v), runlimit);
    RunsEncode(c, g, v);
    var h := After(g, |Encode(v)|, [Plain(v)], Cost(v));
    Runs.HaltedStays(c, h, n - Count(v));
    StepsCompose(c, g, Count(v), n - Count(v));
  }

  /** Different data have different encodings: one program cannot push two things. */
  lemma EncodeIsInjective(u: Data, v: Data)
    requires Sized(u) && Sized(v) && Encode(u) == Encode(v)
    ensures u == v
  {
    hide Steps;
    var c, runlimit, n := SomeCrypto(), Cost(u) + Cost(v), Count(u) + Count(v);
    EndsHalted(c, u, runlimit, n);
    EndsHalted(c, v, runlimit, n);
    var g := Fresh(Encode(u), runlimit);
    var h := Steps(c, g, n).value;
    assert h.s.contract.stack == [] + [Plain(u)] && h.s.contract.stack == [] + [Plain(v)];
    assert h.s.contract.stack[0] == Plain(u);
  }

  /** A tuple with the encoding of a contract's snapshot describes that very contract. */
  lemma SnapshotDeterminesContract(t: seq<Data>, con: Contract)
    requires Sized(Tuple(t)) && Sized(Tuple(InspectContract(con)))
    requires Encode(Tuple(t)) == Encode(Tuple(InspectContract(con)))
    ensures UninspectContract(t) == Ok(con)
  {
    EncodeIsInjective(Tuple(t), Tuple(InspectContract(con)));
    UninspectInspectContract(con);
  }

  /**
   If the ID logged by an input is the ID logged by an output, then either the input restores exactly
   the seed, program and stack that were put out, and with them the amount of every asset, or the two
   snapshots are a hash collision.
   */
  lemma InputRestoresOutput(c: Crypto, s: State, t: State, taken: seq<Data>)
    requires OpOutput(c, s).Ok? && OpInput(c, t).Ok? && PopTuple(t).value.0 == taken
    requires Sized(Tuple(taken)) && Sized(Tuple(InspectContract(OpOutput(c, s).value.contract)))
    ensures
      var out, into := OpOutput(c, s).value, OpInput(c, t).value;
      var given := InspectContract(out.contract);
      && out.tx.moves == s.tx.moves + [Out(given)] && into.tx.moves == t.tx.moves + [In(taken)]
      && (SnapshotID(c, given) == SnapshotID(c, taken) ==>
            || into.contract.stack == PopTuple(t).value.1.contract.stack + [Con(out.contract)]
            || (Encode(Tuple(given)) != Encode(Tuple(taken))
                && c.vmHash("SnapshotID", Encode(Tuple(given))) == c.vmHash("SnapshotID", Encode(Tuple(taken)))))
  {
    hide Kept, RecordedMove, Encode;
    var con := OpOutput(c, s).value.contract;
    if Encode(Tuple(taken)) == Encode(Tuple(InspectContract(con))) {
      SnapshotDeterminesContract(taken, con);
    }
  }
}
