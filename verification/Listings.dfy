/** What a transaction lists for each instruction that logs (the instructions, and entryHook in bc/tx.go). */
module Listings {
  import opened Prelude
  import opened Items
  import opened Ledger
  import opened Encoding
  import opened Machine
  import opened Instructions
  import opened Compilation
  import opened Blocks
  import opened TxLog
  import Effects
  import Laws

  lemma ListsOneMore(c: Crypto, log: seq<Entry>, e: Entry, code: byte)
    ensures AllLocated(log + [e], code) == AllLocated(log, code) + LocatedAt(e, code, |log|)
    ensures AllBooked(log + [e], code) == AllBooked(log, code) + BookedAt(e, code, |log|)
    ensures LastAnchor(log + [e]) == if |e| >= 4 && HasCode(e, FINALIZE_CODE) && e[3].Bytes? then e[3].b else LastAnchor(log)
  {
    assert (log + [e])[..|log + [e]| - 1] == log;
  }

  /** A nonce is listed with the anchor it leaves as its ID, the block it names and its expiry, and so is its time range. */
  lemma NonceIsListed(c: Crypto, s: State, rest: seq<Item>, block: Hash, exp: int64)
    requires s.contract.stack == rest + [Plain(Bytes(block)), Plain(Int(exp))] && !s.tx.finalized && s.runlimit >= 139
    ensures
      var r := OpNonce(c, s);
      && r.Ok? && |r.value.contract.stack| == |rest| + 1 && r.value.contract.stack[|rest|].Val?
      && (var before, after := AllNonces(c, s.tx.log), AllNonces(c, r.value.tx.log);
          && |after| == |before| + 1 && after[..|before|] == before
          && after[|before|].id == r.value.contract.stack[|rest|].v.anchor
          && after[|before|].blockID == block && after[|before|].expMS == ToUint64(exp))
      && AllTimeranges(r.value.tx.log) == AllTimeranges(s.tx.log) + [Timerange(0, exp)]
      && AllContractRefs(r.value.tx.log) == AllContractRefs(s.tx.log)
  {
    hide OpNonce, Encode, AllNonces, AllTimeranges, AllContractRefs;
    Effects.MakesNonce(c, s, rest, block, exp);
    ListsNonce(c, s.tx.log, s.caller, s.contract.seed, block, exp);
  }

  lemma ListsNonce(c: Crypto, log: seq<Entry>, caller: bytes, seed: bytes, block: Hash, exp: int64)
    ensures
      var nonce := [Bytes([0x4e]), Bytes(caller), Bytes(seed), Bytes(block), Int(exp)];
      var after := log + [nonce] + [[Bytes([0x52]), Bytes(seed), Int(0), Int(exp)]];
      && AllNonces(c, after) == AllNonces(c, log) + [Nonce(c.vmHash("Nonce", Encode(Tuple(nonce))), block, ToUint64(exp))]
      && AllTimeranges(after) == AllTimeranges(log) + [Timerange(0, exp)] && AllContractRefs(after) == AllContractRefs(log)
  {
    hide Encode, AllNonces, AllTimeranges, AllContractRefs;
    var nonce := [Bytes([0x4e]), Bytes(caller), Bytes(seed), Bytes(block), Int(exp)];
    AppendEntry(c, log, nonce);
    AppendEntry(c, log + [nonce], [Bytes([0x52]), Bytes(seed), Int(0), Int(exp)]);
    assert block[..32] == block;
  }

  lemma TimeRangeIsListed(c: Crypto, s: State, rest: seq<Item>, min: int64, max: int64)
    requires s.contract.stack == rest + [Plain(Int(min)), Plain(Int(max))] && !s.tx.finalized && s.runlimit >= 5
    ensures
      var r := OpTimeRange(c, s);
      && r.Ok? && AllTimeranges(r.value.tx.log) == AllTimeranges(s.tx.log) + [Timerange(min, max)]
      && AllNonces(c, r.value.tx.log) == AllNonces(c, s.tx.log) && AllContractRefs(r.value.tx.log) == AllContractRefs(s.tx.log)
  {
    hide OpTimeRange, Encode;
    Effects.LogsTimeRange(c, s, rest, min, max);
    AppendEntry(c, s.tx.log, [Bytes([0x52]), Bytes(s.contract.seed), Int(min), Int(max)]);
  }

  /** A contract taken in is listed under the hash of the tuple that described it, with the position of its entry. */
  lemma InputIsListed(c: Crypto, s: State, rest: seq<Item>, t: seq<Data>)
    requires s.contract.stack == rest + [Plain(Tuple(t))] && !s.tx.finalized && s.runlimit >= 132 && UninspectContract(t).Ok?
    ensures
      var r := OpInput(c, s);
      var id := c.vmHash("SnapshotID", Encode(Tuple(t)));
      && r.Ok? && AllContractRefs(r.value.tx.log) == AllContractRefs(s.tx.log) + [ContractRef.Input(id)]
      && AllLocated(r.value.tx.log, 0x49) == AllLocated(s.tx.log, 0x49) + [Located(id, |s.tx.log|)]
      && AllLocated(r.value.tx.log, 0x4f) == AllLocated(s.tx.log, 0x4f)
  {
    hide OpInput, Encode, UninspectContract, AllContractRefs, AllLocated;
    Effects.TakesIn(c, s, rest, t);
    var id := c.vmHash("SnapshotID", Encode(Tuple(t)));
    var e := [Bytes([0x49]), Bytes(s.contract.seed), Bytes(id)];
    AppendEntry(c, s.tx.log, e);
    ListsOneMore(c, s.tx.log, e, 0x49);
    ListsOneMore(c, s.tx.log, e, 0x4f);
    assert id[..32] == id;
  }

  /** A contract put out is listed under the hash of its inspected form, with the position of its entry. */
  lemma OutputIsListed(c: Crypto, s: State, rest: seq<Item>, prog: bytes)
    requires s.contract.stack == rest + [Plain(Bytes(prog))] && !s.tx.finalized && !exists x <- rest :: x.Con? && !x.c.wrapped
    requires s.runlimit >= 5 + |Encode(Tuple(InspectContract(Contract(s.contract.wrapped, s.contract.seed, prog, rest))))|
    ensures
      var r := OpOutput(c, s);
      var id := c.vmHash("SnapshotID", Encode(Tuple(InspectContract(Contract(s.contract.wrapped, s.contract.seed, prog, rest)))));
      && r.Ok? && AllContractRefs(r.value.tx.log) == AllContractRefs(s.tx.log) + [ContractRef.Output(id)]
      && AllLocated(r.value.tx.log, 0x4f) == AllLocated(s.tx.log, 0x4f) + [Located(id, |s.tx.log|)]
      && AllLocated(r.value.tx.log, 0x49) == AllLocated(s.tx.log, 0x49)
  {
    hide OpOutput, Encode, InspectContract, AllContractRefs, AllLocated;
    Effects.PutsOut(c, s, rest, prog);
    var id := c.vmHash("SnapshotID", Encode(Tuple(InspectContract(Contract(s.contract.wrapped, s.contract.seed, prog, rest)))));
    var e := [Bytes([0x4f]), Bytes(s.caller), Bytes(id)];
    AppendEntry(c, s.tx.log, e);
    ListsOneMore(c, s.tx.log, e, 0x49);
    ListsOneMore(c, s.tx.log, e, 0x4f);
    assert id[..32] == id;
  }

  /** What is issued is listed with the amount, asset and anchor of the value it leaves. */
  lemma IssuanceIsListed(c: Crypto, s: State, rest: seq<Item>, v: Value, n: int64, tag: bytes)
    requires s.contract.stack == rest + [Val(v), Plain(Int(n)), Plain(Bytes(tag))]
    requires v.amount == 0 && n >= 0 && !s.tx.finalized && s.runlimit >= 134
    ensures
      var r := OpIssue(c, s);
      && r.Ok? && |r.value.contract.stack| == |rest| + 1 && r.value.contract.stack[|rest|].Val?
      && var w := r.value.contract.stack[|rest|].v;
      && w.amount == n && w.anchor == v.anchor && |w.assetID| == 32
      && AllBooked(r.value.tx.log, 0x41) == AllBooked(s.tx.log, 0x41) + [Booking(w.amount, w.assetID, w.anchor, |s.tx.log|)]
      && AllBooked(r.value.tx.log, 0x58) == AllBooked(s.tx.log, 0x58)
  {
    hide OpIssue;
    Laws.Issues(c, s, rest, v, n, tag);
    var e := Laws.IssueEntry(c, s, tag, n, v.anchor);
    ListsOneMore(c, s.tx.log, e, 0x41);
    ListsOneMore(c, s.tx.log, e, 0x58);
    var id := AssetID(c, s.contract.seed, tag);
    assert id[..32] == id;
  }

  lemma RetirementIsListed(c: Crypto, s: State, rest: seq<Item>, v: Value)
    requires s.contract.stack == rest + [Val(v)] && |v.assetID| == 32 && !s.tx.finalized && s.runlimit >= 6
    ensures
      var r := OpRetire(c, s);
      && r.Ok? && r.value.contract.stack == rest
      && AllBooked(r.value.tx.log, 0x58) == AllBooked(s.tx.log, 0x58) + [Booking(v.amount, v.assetID, v.anchor, |s.tx.log|)]
      && AllBooked(r.value.tx.log, 0x41) == AllBooked(s.tx.log, 0x41)
  {
    hide OpRetire;
    Laws.Retires(c, s, rest, v);
    var e := Laws.RetireEntry(s, v);
    ListsOneMore(c, s.tx.log, e, 0x58);
    ListsOneMore(c, s.tx.log, e, 0x41);
    assert v.assetID[..32] == v.assetID;
  }

  /** The anchor of a transaction is that of the value it was finalized with. */
  lemma AnchorIsListed(c: Crypto, s: State, rest: seq<Item>, v: Value)
    requires s.contract.stack == rest + [Val(v)] && v.amount == 0 && !s.tx.finalized && s.runlimit >= 38
    ensures OpFinalize(c, s).Ok? && LastAnchor(OpFinalize(c, s).value.tx.log) == v.anchor
  {
    hide OpFinalize;
    Effects.FinalizesThenIdentifies(c, s, rest, v);
    ListsOneMore(c, s.tx.log, [Bytes([0x46]), Bytes(s.contract.seed), Int(s.version), Bytes(v.anchor)], 0x46);
  }
}
