/** What a transaction log and the list of contracts taken in and put out say about amounts. */
module Ledger {
  import opened Prelude
  import opened Items

  const INPUT_CODE: byte := 0x49  // 'I'
  const OUTPUT_CODE: byte := 0x4f  // 'O'
  const LOG_CODE: byte := 0x4c  // 'L'
  const TIMERANGE_CODE: byte := 0x52  // 'R'
  const NONCE_CODE: byte := 0x4e  // 'N'
  const ISSUE_CODE: byte := 0x41  // 'A'
  const RETIRE_CODE: byte := 0x58  // 'X'
  const FINALIZE_CODE: byte := 0x46  // 'F'

  type Entry = seq<Data>

  predicate HasCode(t: Entry, code: byte) {
    t != [] && t[0].Bytes? && |t[0].b| == 1 && t[0].b[0] == code
  }

  /** The amount of asset a that entry t records under the given type code. */
  function EntryAmount(t: Entry, code: byte, a: bytes): int {
    if |t| >= 4 && HasCode(t, code) && t[2].Int? && t[3] == Bytes(a) then t[2].i else 0
  }

  /** The total amount of asset a logged under a type code. */
  function Logged(log: seq<Entry>, code: byte, a: bytes): int {
    if log == [] then 0
    else Logged(log[..|log| - 1], code, a) + EntryAmount(log[|log| - 1], code, a)
  }

  /** A contract, by its inspected form, taken in or put out. */
  datatype Move = In(snapshot: seq<Data>) | Out(snapshot: seq<Data>)

  /** What the log says of a move: its direction and the contract's ID. */
  datatype LoggedMove = LoggedMove(isInput: bool, id: bytes)

  function EntryMove(t: Entry): seq<LoggedMove> {
    if !(|t| >= 3 && t[2].Bytes?) then []
    else if HasCode(t, INPUT_CODE) then [LoggedMove(true, t[2].b)]
    else if HasCode(t, OUTPUT_CODE) then [LoggedMove(false, t[2].b)]
    else []
  }

  /** The moves that a log names, in order. */
  function LoggedMoves(log: seq<Entry>): seq<LoggedMove> {
    if log == [] then [] else LoggedMoves(log[..|log| - 1]) + EntryMove(log[|log| - 1])
  }

  predicate NoneHasCode(log: seq<Entry>, code: byte) {
    forall t <- log :: !HasCode(t, code)
  }

  /** An entry that starts with a one-byte code and has the fields that go with it. */
  predicate FormedEntry(t: Entry) {
    && t != [] && t[0].Bytes? && |t[0].b| == 1
    && (HasCode(t, INPUT_CODE) || HasCode(t, OUTPUT_CODE) ==> |t| == 3 && t[2].Bytes? && |t[2].b| == 32)
    && (HasCode(t, ISSUE_CODE) ==> IsBooking(t) && |t[3].b| == 32)
    && (HasCode(t, RETIRE_CODE) ==> IsBooking(t))
    && (HasCode(t, TIMERANGE_CODE) ==> |t| == 4 && t[2].Int? && t[3].Int?)
    && (HasCode(t, NONCE_CODE) ==> |t| == 5 && t[3].Bytes? && t[4].Int?)
    && (HasCode(t, FINALIZE_CODE) ==> |t| == 4 && t[3].Bytes?)
  }

  predicate IsBooking(t: Entry) {
    |t| == 5 && t[2].Int? && t[3].Bytes? && t[4].Bytes?
  }

  predicate FormedLog(log: seq<Entry>) {
    forall t <- log :: FormedEntry(t)
  }

  /** t is the time range from zero to the expiry of the nonce entry n. */
  predicate IsRangeOf(n: Entry, t: Entry) {
    |n| == 5 && n[4].Int? && |t| == 4 && HasCode(t, TIMERANGE_CODE) && t[2] == Int(0) && t[3] == n[4]
  }

  /** Every nonce entry is followed at once by its time range. */
  ghost predicate NoncesDated(log: seq<Entry>) {
    forall i :: 0 <= i < |log| && HasCode(log[i], NONCE_CODE) ==> i + 1 < |log| && IsRangeOf(log[i], log[i + 1])
  }

  /** The amount of asset a inside the contract that an inspected tuple describes. */
  function SnapshotAmount(t: seq<Data>, a: bytes): int {
    match UninspectContract(t)
    case Ok(c) => StackAmount(c.stack, a)
    case Err(_) => 0
  }

  /** The amount of asset a inside all contracts taken in. */
  function AmountIn(moves: seq<Move>, a: bytes): int {
    if moves == [] then 0
    else
      var m := moves[|moves| - 1];
      AmountIn(moves[..|moves| - 1], a) + if m.In? then SnapshotAmount(m.snapshot, a) else 0
  }

  /** The amount of asset a inside all contracts put out. */
  function AmountOut(moves: seq<Move>, a: bytes): int {
    if moves == [] then 0
    else
      var m := moves[|moves| - 1];
      AmountOut(moves[..|moves| - 1], a) + if m.Out? then SnapshotAmount(m.snapshot, a) else 0
  }

  // --- natural amounts

  /** No value inside the item, however deeply nested, is negative. */
  predicate NaturalItem(x: Item) {
    match x
    case Plain(_) => true
    case Val(v) => v.amount >= 0
    case Con(c) => forall y <- c.stack :: NaturalItem(y)
  }

  predicate NaturalStack(s: seq<Item>) {
    forall x <- s :: NaturalItem(x)
  }

  predicate NaturalSnapshot(t: seq<Data>) {
    match UninspectContract(t)
    case Ok(c) => NaturalStack(c.stack)
    case Err(_) => true
  }

  predicate InputsNatural(moves: seq<Move>) {
    forall m <- moves :: m.In? ==> NaturalSnapshot(m.snapshot)
  }

  /** What is put out is natural if all that was taken in before is. */
  predicate OutputsFollow(moves: seq<Move>) {
    forall k :: 0 <= k < |moves| && moves[k].Out? && InputsNatural(moves[..k]) ==> NaturalSnapshot(moves[k].snapshot)
  }

  lemma EarlierInputsNatural(moves: seq<Move>, moves': seq<Move>)
    requires moves <= moves'
    ensures InputsNatural(moves') ==> InputsNatural(moves)
  {
    hide NaturalSnapshot;
    if InputsNatural(moves') {
      forall m <- moves ensures m.In? ==> NaturalSnapshot(m.snapshot) {
        assert m in moves';
      }
    }
  }

  lemma MovesGrow(moves: seq<Move>, m: Move)
    ensures InputsNatural(moves + [m]) <==> InputsNatural(moves) && (m.In? ==> NaturalSnapshot(m.snapshot))
    ensures OutputsFollow(moves + [m]) <==>
      OutputsFollow(moves) && (m.Out? && InputsNatural(moves) ==> NaturalSnapshot(m.snapshot))
  {
    hide NaturalSnapshot;
    var all := moves + [m];
    assert all[|moves|] == m && all[..|moves|] == moves;
    forall k | 0 <= k < |moves| ensures all[k] == moves[k] && all[..k] == moves[..k] {}
    if InputsNatural(all) {
      forall x <- moves ensures x.In? ==> NaturalSnapshot(x.snapshot) {
        assert x in all;
      }
      assert m in all;
    }
  }
}
