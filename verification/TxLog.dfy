/** Reading a transaction's effects off its log (bc/tx.go). */
module TxLog {
  import opened Prelude
  import opened Items
  import opened Ledger
  import opened Encoding
  import opened Machine
  import opened Interpreter
  import opened Blocks
  import opened Generation
  import Runs
  import History

  /** A hash from a byte slice, truncated or padded with zeros if it has another length. */
  function HashFromBytes(b: bytes): (h: Hash)
    ensures forall i :: 0 <= i < 32 ==> h[i] == if i < |b| then b[i] else 0
  {
    if |b| >= 32 then b[..32] else b + seq(32 - |b|, _ => 0)
  }

  function ContractRefs(t: Entry): seq<ContractRef> {
    if !(|t| >= 3 && t[2].Bytes?) then []
    else if HasCode(t, INPUT_CODE) then [ContractRef.Input(HashFromBytes(t[2].b))]
    else if HasCode(t, OUTPUT_CODE) then [ContractRef.Output(HashFromBytes(t[2].b))]
    else []
  }

  function Timeranges(t: Entry): seq<Timerange> {
    if |t| >= 4 && HasCode(t, TIMERANGE_CODE) && t[2].Int? && t[3].Int? then [Timerange(t[2].i, t[3].i)] else []
  }

  function Nonces(c: Crypto, t: Entry): seq<Nonce> {
    if |t| >= 5 && HasCode(t, NONCE_CODE) && t[3].Bytes? && t[4].Int?
    then [Nonce(c.vmHash("Nonce", Encode(Tuple(t))), HashFromBytes(t[3].b), ToUint64(t[4].i))]
    else []
  }

  function AllContractRefs(log: seq<Entry>): seq<ContractRef> {
    if log == [] then [] else AllContractRefs(log[..|log| - 1]) + ContractRefs(log[|log| - 1])
  }

  function AllTimeranges(log: seq<Entry>): seq<Timerange> {
    if log == [] then [] else AllTimeranges(log[..|log| - 1]) + Timeranges(log[|log| - 1])
  }

  function AllNonces(c: Crypto, log: seq<Entry>): seq<Nonce> {
    if log == [] then [] else AllNonces(c, log[..|log| - 1]) + Nonces(c, log[|log| - 1])
  }

  lemma AppendEntry(c: Crypto, log: seq<Entry>, e: Entry)
    ensures AllContractRefs(log + [e]) == AllContractRefs(log) + ContractRefs(e)
    ensures AllTimeranges(log + [e]) == AllTimeranges(log) + Timeranges(e)
    ensures AllNonces(c, log + [e]) == AllNonces(c, log) + Nonces(c, e)
  {
    assert (log + [e])[..|log + [e]| - 1] == log;
  }

  /** The transaction that a finalized machine state describes. */
  function Describe(c: Crypto, s: State, runlimit: int64, commitment: bytes): BcTx {
    BcTx(s.version, runlimit, commitment, AllContractRefs(s.tx.log), AllTimeranges(s.tx.log), AllNonces(c, s.tx.log))
  }

  // --- what else a transaction lists

  /** A contract taken in or put out, and where in the log. */
  datatype Located = Located(id: Hash, logPos: nat)

  /** An issuance or a retirement, and where in the log. */
  datatype Booking = Booking(amount: int64, assetID: Hash, anchor: bytes, logPos: nat)

  function LocatedAt(t: Entry, code: byte, i: nat): seq<Located> {
    if |t| >= 3 && t[2].Bytes? && HasCode(t, code) then [Located(HashFromBytes(t[2].b), i)] else []
  }

  function AllLocated(log: seq<Entry>, code: byte): seq<Located> {
    if log == [] then []
    else AllLocated(log[..|log| - 1], code) + LocatedAt(log[|log| - 1], code, |log| - 1)
  }

  function BookedAt(t: Entry, code: byte, i: nat): seq<Booking> {
    if |t| >= 5 && HasCode(t, code) && t[2].Int? && t[3].Bytes? && t[4].Bytes?
    then [Booking(t[2].i, HashFromBytes(t[3].b), t[4].b, i)] else []
  }

  function AllBooked(log: seq<Entry>, code: byte): seq<Booking> {
    if log == [] then []
    else AllBooked(log[..|log| - 1], code) + BookedAt(log[|log| - 1], code, |log| - 1)
  }

  /** The anchor of the last finalize entry. */
  function LastAnchor(log: seq<Entry>): bytes {
    if log == [] then []
    else
      var t := log[|log| - 1];
      if |t| >= 4 && HasCode(t, FINALIZE_CODE) && t[3].Bytes? then t[3].b else LastAnchor(log[..|log| - 1])
  }

  /** entryHook walks the log once. */
  method EntryHook(c: Crypto, log: seq<Entry>)
    returns (contracts: seq<ContractRef>, timeranges: seq<Timerange>, nonces: seq<Nonce>,
             inputs: seq<Located>, outputs: seq<Located>, issuances: seq<Booking>, retirements: seq<Booking>,
             anchor: bytes)
    ensures contracts == AllContractRefs(log) && timeranges == AllTimeranges(log) && nonces == AllNonces(c, log)
    ensures inputs == AllLocated(log, INPUT_CODE) && outputs == AllLocated(log, OUTPUT_CODE)
    ensures issuances == AllBooked(log, ISSUE_CODE) && retirements == AllBooked(log, RETIRE_CODE)
    ensures anchor == LastAnchor(log)
  {
    hide ContractRefs, Timeranges, Nonces, LocatedAt, BookedAt;
    contracts, timeranges, nonces := [], [], [];
    inputs, outputs, issuances, retirements, anchor := [], [], [], [], [];
    for i := 0 to |log|
      invariant contracts == AllContractRefs(log[..i]) && timeranges == AllTimeranges(log[..i])
      invariant nonces == AllNonces(c, log[..i])
      invariant inputs == AllLocated(log[..i], INPUT_CODE) && outputs == AllLocated(log[..i], OUTPUT_CODE)
      invariant issuances == AllBooked(log[..i], ISSUE_CODE) && retirements == AllBooked(log[..i], RETIRE_CODE)
      invariant anchor == LastAnchor(log[..i])
    {
      assert log[..i + 1][..i] == log[..i];
      var t := log[i];
      contracts, timeranges, nonces := contracts + ContractRefs(t), timeranges + Timeranges(t), nonces + Nonces(c, t);
      inputs, outputs := inputs + LocatedAt(t, INPUT_CODE, i), outputs + LocatedAt(t, OUTPUT_CODE, i);
      issuances, retirements := issuances + BookedAt(t, ISSUE_CODE, i), retirements + BookedAt(t, RETIRE_CODE, i);
      if |t| >= 4 && HasCode(t, FINALIZE_CODE) && t[3].Bytes? {
        anchor := t[3].b;
      }
    }
    assert log[..|log|] == log;
  }

  /** The amount of asset a that the bookings name. */
  function BookedAmount(bs: seq<Booking>, a: Hash): int {
    if bs == [] then 0
    else BookedAmount(bs[..|bs| - 1], a) + if bs[|bs| - 1].assetID == a then bs[|bs| - 1].amount else 0
  }

  /** Where all entries of a kind name assets by 32 bytes, the list of them adds up to what the log says of each asset. */
  lemma {:induction false} BookingsAddUp(log: seq<Entry>, code: byte, a: Hash)
    requires forall t: Entry :: t in log && HasCode(t, code) ==> IsBooking(t) && |t[3].b| == 32
    ensures BookedAmount(AllBooked(log, code), a) == Logged(log, code, a)
    ensures |AllBooked(log, code)| == CountCode(log, code)
    decreases |log|
  {
    hide HasCode;
    if log != [] {
      var t := log[|log| - 1];
      BookingsAddUp(log[..|log| - 1], code, a);
      if HasCode(t, code) {
        assert t in log;
        assert t[3].b[..32] == t[3].b;
        var b := Booking(t[2].i, t[3].b, t[4].b, |log| - 1);
        assert AllBooked(log, code) == AllBooked(log[..|log| - 1], code) + [b];
        assert AllBooked(log, code)[..|AllBooked(log, code)| - 1] == AllBooked(log[..|log| - 1], code);
      } else {
        assert AllBooked(log, code) == AllBooked(log[..|log| - 1], code) + [] == AllBooked(log[..|log| - 1], code);
      }
    }
  }

  /** How many entries have the code. */
  function CountCode(log: seq<Entry>, code: byte): nat {
    if log == [] then 0 else CountCode(log[..|log| - 1], code) + if HasCode(log[|log| - 1], code) then 1 else 0
  }

  /** No entry is skipped: each input, output, time range and nonce entry gives exactly one item of its list. */
  lemma {:induction false} ListsAreComplete(c: Crypto, log: seq<Entry>)
    requires FormedLog(log)
    ensures |AllLocated(log, INPUT_CODE)| == CountCode(log, INPUT_CODE)
    ensures |AllLocated(log, OUTPUT_CODE)| == CountCode(log, OUTPUT_CODE)
    ensures |AllContractRefs(log)| == CountCode(log, INPUT_CODE) + CountCode(log, OUTPUT_CODE)
    ensures |AllTimeranges(log)| == CountCode(log, TIMERANGE_CODE) && |AllNonces(c, log)| == CountCode(log, NONCE_CODE)
    decreases |log|
  {
    hide Encode;
    if log != [] {
      var t := log[|log| - 1];
      assert FormedEntry(t);
      ListsAreComplete(c, log[..|log| - 1]);
    }
  }

  /**
   For every valid run, what entryHook lists is complete: the issuances add up to what the log says was
   issued of each asset, its type assertions all hold, and the anchor is that of the last entry.
   */
  lemma ValidListsAddUp(c: Crypto, prog: bytes, version: int64, runlimit: int64, extension: bool, a: Hash)
    ensures
      var r := Validate(c, prog, version, runlimit, extension);
      r.Ok? ==>
        var log := r.value.tx.log;
        && BookedAmount(AllBooked(log, ISSUE_CODE), a) == Logged(log, ISSUE_CODE, a)
        && |AllBooked(log, ISSUE_CODE)| == CountCode(log, ISSUE_CODE)
        && |AllContractRefs(log)| == CountCode(log, INPUT_CODE) + CountCode(log, OUTPUT_CODE)
        && |AllTimeranges(log)| == CountCode(log, TIMERANGE_CODE) && |AllNonces(c, log)| == CountCode(log, NONCE_CODE)
        && (r.value.tx.finalized ==>
              log != [] && |log[|log| - 1]| == 4 && log[|log| - 1][3] == Bytes(LastAnchor(log)))
  {
    hide Validate, AllBooked, AllContractRefs, AllTimeranges, AllNonces, CountCode, Logged, BookedAmount;
    Runs.LogIsFormed(c, prog, version, runlimit, extension, 0);
    var r := Validate(c, prog, version, runlimit, extension);
    if r.Ok? {
      var log := r.value.tx.log;
      BookingsAddUp(log, ISSUE_CODE, a);
      ListsAreComplete(c, log);
      Runs.ValidIsSealed(c, prog, version, runlimit, extension);
      assert r.value.tx.finalized ==> FormedEntry(log[|log| - 1]);
    }
  }

  lemma {:induction false} TimerangeIsListed(log: seq<Entry>, i: nat)
    requires i < |log|
    ensures forall r <- Timeranges(log[i]) :: r in AllTimeranges(log)
  {
    if i < |log| - 1 {
      TimerangeIsListed(log[..|log| - 1], i);
    }
  }

  lemma {:induction false} NonceComesFromEntry(c: Crypto, log: seq<Entry>, n: Nonce) returns (i: nat)
    requires n in AllNonces(c, log)
    ensures i < |log| && n in Nonces(c, log[i])
  {
    if n in Nonces(c, log[|log| - 1]) {
      i := |log| - 1;
    } else {
      i := NonceComesFromEntry(c, log[..|log| - 1], n);
    }
  }

  lemma DatedLogLists(c: Crypto, log: seq<Entry>, n: Nonce)
    requires NoncesDated(log) && n in AllNonces(c, log)
    ensures Timerange(0, ToInt64(n.expMS)) in AllTimeranges(log)
  {
    hide Encode;
    var i := NonceComesFromEntry(c, log, n);
    assert IsRangeOf(log[i], log[i + 1]);
    TimerangeIsListed(log, i + 1);
    assert Timeranges(log[i + 1]) == [Timerange(0, ToInt64(n.expMS))];
  }

  /** Every nonce of a valid transaction comes with the time range that keeps it from being replayed. */
  lemma ValidTransactionsAreDated(c: Crypto, prog: bytes, version: int64, runlimit: int64, extension: bool, commitment: bytes)
    ensures
      var r := Validate(c, prog, version, runlimit, extension);
      r.Ok? ==> History.Dated(Describe(c, r.value, runlimit, commitment))
  {
    hide RunTo, WellLogged, Outflow, FormedLog, NaturalWhole, AllNonces, AllTimeranges, AllContractRefs;
    var r := Validate(c, prog, version, runlimit, extension);
    if r.Ok? {
      Runs.InitialIsSound(c, prog, version, runlimit, extension);
      var log := r.value.tx.log;
      forall n <- AllNonces(c, log) ensures Timerange(0, ToInt64(n.expMS)) in AllTimeranges(log) {
        DatedLogLists(c, log, n);
      }
    }
  }

  /** NewTx rejects negative runlimits and old versions before it runs anything. */
  lemma ValidRunlimitIsNatural(c: Crypto, prog: bytes, version: int64, runlimit: int64, extension: bool)
    ensures Validate(c, prog, version, runlimit, extension).Ok? ==> 0 <= |prog| <= runlimit && version >= 3
  {
    hide RunTo, KeptWhole;
  }

  /** A transaction read off the finalized log of a valid run. */
  ghost predicate IsValidTx(c: Crypto, tx: BcTx) {
    exists prog: bytes, version: int64, runlimit: int64, extension: bool, commitment: bytes ::
      ComesFrom(c, tx, prog, version, runlimit, extension, commitment)
  }

  ghost predicate ComesFrom(c: Crypto, tx: BcTx, prog: bytes, version: int64, runlimit: int64, extension: bool, commitment: bytes) {
    var r := Validate(c, prog, version, runlimit, extension);
    r.Ok? && r.value.tx.finalized && tx == Describe(c, r.value, runlimit, commitment)
  }

  /** For transactions from valid runs nothing but their version is left to ask for. */
  lemma GeneratorAndValidatorAgreeOnValid(rules: Rules, s: Snap, t: uint64, txs: seq<BcTx>)
    requires s.header.Some? && s.initialBlockID != ZeroHash() && Generate(rules, s, t, txs).Ok?
    requires s.header.value.version <= 3 && s.header.value.refsCount < MAX_INT64
    requires forall tx <- txs :: IsValidTx(rules.crypto, tx) && tx.version == 3
    ensures
      var (b, s') := Generate(rules, s, t, txs).value;
      && BlockPrev(rules.crypto, b.header, s.header.value)
      && BlockOnly(rules.crypto, b)
      && ApplyBlock(rules.crypto, s, b) == Ok(s')
      && b.header.contractsRoot == TreeRoot(rules.crypto, s'.contracts)
      && b.header.noncesRoot == TreeRoot(rules.crypto, s'.nonces)
  {
    hide Generate, Validate, ApplyBlock, TreeRoot, BlockOnly, BlockPrev;
    forall tx <- txs ensures Standard(tx) {
      assert IsValidTx(rules.crypto, tx);
      var prog, version, runlimit, extension, commitment :|
        ComesFrom(rules.crypto, tx, prog, version, runlimit, extension, commitment);
      ValidRunlimitIsNatural(rules.crypto, prog, version, runlimit, extension);
    }
    GeneratorAndValidatorAgree(rules, s, t, txs);
  }
}
