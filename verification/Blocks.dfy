/** Blocks, transactions as the chain sees them, and state snapshots (bc, state/snapshot.go). */
module Blocks {
  import opened Prelude
  import opened Items
  import opened Encoding
  import Merkle
  import Patricia
  import PatriciaHash

  datatype Header = Header(
    version: uint64,
    height: uint64,
    previousBlockID: Hash,
    timestampMs: uint64,
    refsCount: int64,
    runlimit: int64,
    transactionsRoot: Hash,
    contractsRoot: Hash,
    noncesRoot: Hash,
    nextPredicate: seq<Data>,
    extraFields: seq<Data>)

  datatype ContractRef = Input(id: Hash) | Output(id: Hash)
  datatype Timerange = Timerange(minMS: int64, maxMS: int64)
  datatype Nonce = Nonce(id: Hash, blockID: Hash, expMS: uint64)

  /** A transaction: its witness commitment and what its log says. */
  datatype BcTx = BcTx(
    version: int64,
    runlimit: int64,
    commitment: bytes,
    contracts: seq<ContractRef>,
    timeranges: seq<Timerange>,
    nonces: seq<Nonce>)

  datatype Block = Block(header: Header, transactions: seq<BcTx>)

  function HeaderTuple(h: Header): seq<Data> {
    [Int(ToInt64(h.version)), Int(ToInt64(h.height)), Bytes(h.previousBlockID), Int(ToInt64(h.timestampMs)),
     Int(h.refsCount), Int(h.runlimit), Bytes(h.transactionsRoot), Bytes(h.contractsRoot), Bytes(h.noncesRoot),
     Tuple(h.nextPredicate)] + h.extraFields
  }

  function BlockID(c: Crypto, h: Header): Hash {
    c.vmHash("BlockID", Encode(Tuple(HeaderTuple(h))))
  }

  function Commitments(txs: seq<BcTx>): (r: seq<bytes>)
    ensures |r| == |txs| && forall i :: 0 <= i < |txs| ==> r[i] == txs[i].commitment
  {
    seq(|txs|, i requires 0 <= i < |txs| => txs[i].commitment)
  }

  function TxMerkleRoot(c: Crypto, txs: seq<BcTx>): Hash {
    Merkle.Root(c.sha3, Commitments(txs))
  }

  /** The root of a patricia tree with these elements. Elements of one length are always prefix-free. */
  ghost function TreeRoot(c: Crypto, s: set<bytes>): Hash {
    if Patricia.PrefixFree(s) then PatriciaHash.Mpth(c.sha3, s) else ZeroHash()
  }

  // --- nonce commitments: 32 bytes of ID, then the expiry, little-endian

  function LittleEndian(x: nat, n: nat): (b: bytes)
    ensures |b| == n
  {
    if n == 0 then [] else [x % 0x100] + LittleEndian(x / 0x100, n - 1)
  }

  function FromLittleEndian(b: bytes): nat {
    if b == [] then 0 else b[0] + 0x100 * FromLittleEndian(b[1..])
  }

  function ByteRange(n: nat): nat {
    if n == 0 then 1 else 0x100 * ByteRange(n - 1)
  }

  lemma {:induction false} LittleEndianRoundTrip(x: nat, n: nat)
    requires x < ByteRange(n)
    ensures FromLittleEndian(LittleEndian(x, n)) == x
  {
    if n > 0 {
      LittleEndianRoundTrip(x / 0x100, n - 1);
    }
  }

  function NonceCommitment(id: Hash, expMS: uint64): bytes {
    id + LittleEndian(expMS, 8)
  }

  function NonceTime(b: bytes): nat
    requires |b| >= 32
  {
    FromLittleEndian(b[32..])
  }

  /** idTime recovers the expiry that a commitment was made with. */
  lemma NonceTimeOfCommitment(id: Hash, expMS: uint64)
    ensures |NonceCommitment(id, expMS)| == 40 && NonceTime(NonceCommitment(id, expMS)) == expMS
  {
    assert ByteRange(8) == TWO_TO_THE_64 by {
      assert ByteRange(4) == 0x1_0000_0000;
      assert ByteRange(6) == 0x100 * (0x100 * ByteRange(4));
    }
    LittleEndianRoundTrip(expMS, 8);
    assert NonceCommitment(id, expMS)[32..] == LittleEndian(expMS, 8);
  }

  function Commitment(n: Nonce): bytes {
    NonceCommitment(n.id, n.expMS)
  }

  // --- snapshots

  /** A state; each patricia tree is given by its set of elements. */
  datatype Snap = Snap(
    contracts: set<bytes>,
    nonces: set<bytes>,
    header: Option<Header>,
    initialBlockID: Hash,
    refIDs: seq<Hash>)

  function Empty(): Snap {
    Snap({}, {}, None, ZeroHash(), [])
  }

  function Height(s: Snap): uint64 {
    if s.header.None? then 0 else s.header.value.height
  }

  datatype StateError =
    | ErrNotInitial | ErrInitialized | ErrEmptyState | ErrNonceConflict | ErrNonceBlock | ErrPrevout

  type Applied = Result<Snap, StateError>

  /** Commitments are 40 bytes long; PruneNonces drops those whose expiry has passed. */
  function PruneNonces(s: Snap, timestampMs: uint64): Snap {
    s.(nonces := set n <- s.nonces | !(|n| >= 32 && timestampMs > NonceTime(n)))
  }

  function ApplyBlockHeader(c: Crypto, s: Snap, h: Header): Applied {
    var id := BlockID(c, h);
    if s.initialBlockID == ZeroHash() && h.height != 1 then Err(ErrNotInitial)
    else if s.initialBlockID != ZeroHash() && h.height == 1 then Err(ErrInitialized)
    else
      Ok(s.(initialBlockID := if s.initialBlockID == ZeroHash() then id else s.initialBlockID,
            header := Some(h),
            refIDs := s.refIDs + [id]))
  }

  function AddNonces(s: Snap, nonces: seq<Nonce>): Applied
    decreases |nonces|
  {
    if nonces == [] then Ok(s)
    else
      var n := nonces[0];
      :- Need(Commitment(n) !in s.nonces, ErrNonceConflict);
      :- Need(n.blockID == ZeroHash() || n.blockID == s.initialBlockID || n.blockID in s.refIDs, ErrNonceBlock);
      AddNonces(s.(nonces := s.nonces + {Commitment(n)}), nonces[1..])
  }

  function MoveContracts(s: Snap, refs: seq<ContractRef>): Applied
    decreases |refs|
  {
    if refs == [] then Ok(s)
    else
      match refs[0]
      case Input(id) =>
        :- Need(id in s.contracts, ErrPrevout);
        MoveContracts(s.(contracts := s.contracts - {id}), refs[1..])
      case Output(id) =>
        MoveContracts(s.(contracts := s.contracts + {id}), refs[1..])
  }

  function ApplyTx(s: Snap, tx: BcTx): Applied {
    if s.initialBlockID == ZeroHash() then Err(ErrEmptyState)
    else
      var s :- AddNonces(s, tx.nonces);
      MoveContracts(s, tx.contracts)
  }

  function ApplyTxs(s: Snap, txs: seq<BcTx>): Applied
    decreases |txs|
  {
    if txs == [] then Ok(s)
    else
      var s :- ApplyTx(s, txs[0]);
      ApplyTxs(s, txs[1..])
  }

  function ApplyBlock(c: Crypto, s: Snap, b: Block): Applied {
    var s := PruneNonces(s, b.header.timestampMs);
    var s :- ApplyBlockHeader(c, s, b.header);
    ApplyTxs(s, b.transactions)
  }

  // --- what a transaction needs of the state, and does to it

  /** The nonce names no block, the first one, or one that is still known. */
  ghost predicate NamesKnownBlock(s: Snap, n: Nonce) {
    n.blockID == ZeroHash() || n.blockID == s.initialBlockID || n.blockID in s.refIDs
  }

  ghost predicate AllDiffer(nonces: seq<Nonce>) {
    forall i, j :: 0 <= i < j < |nonces| ==> Commitment(nonces[i]) != Commitment(nonces[j])
  }

  ghost predicate AllNew(s: Snap, nonces: seq<Nonce>) {
    forall n <- nonces :: NamesKnownBlock(s, n) && Commitment(n) !in s.nonces
  }

  lemma DifferFromFirst(nonces: seq<Nonce>)
    requires nonces != []
    ensures AllDiffer(nonces) <==>
      AllDiffer(nonces[1..]) && forall n <- nonces[1..] :: Commitment(n) != Commitment(nonces[0])
  {
    hide Commitment;
    var rest := nonces[1..];
    if AllDiffer(nonces) {
      forall n <- rest ensures Commitment(n) != Commitment(nonces[0]) {
        var j :| 0 <= j < |rest| && rest[j] == n;
        assert nonces[j + 1] == n;
      }
      forall i, j | 0 <= i < j < |rest| ensures Commitment(rest[i]) != Commitment(rest[j]) {
        assert nonces[i + 1] == rest[i] && nonces[j + 1] == rest[j];
      }
    }
    if AllDiffer(rest) && forall n <- rest :: Commitment(n) != Commitment(nonces[0]) {
      forall i, j | 0 <= i < j < |nonces| ensures Commitment(nonces[i]) != Commitment(nonces[j]) {
        assert rest[j - 1] in rest;
        assert i > 0 ==> Commitment(rest[i - 1]) != Commitment(rest[j - 1]);
      }
    }
  }

  lemma NewAfterFirst(s: Snap, nonces: seq<Nonce>)
    requires nonces != []
    ensures AllNew(s, nonces) && AllDiffer(nonces) <==>
      && AllNew(s, nonces[..1]) && AllNew(s.(nonces := s.nonces + {Commitment(nonces[0])}), nonces[1..])
      && AllDiffer(nonces[1..])
  {
    hide Commitment, AllDiffer;
    DifferFromFirst(nonces);
    assert nonces == nonces[..1] + nonces[1..];
    forall n <- nonces[1..] ensures n in nonces {}
    assert nonces[0] in nonces[..1] && nonces[0] in nonces;
  }

  /** Nonces are added exactly if they are new, to the state and to one another, and name known blocks. */
  lemma {:induction false} AddsExactly(s: Snap, nonces: seq<Nonce>)
    ensures AddNonces(s, nonces).Ok? <==> AllNew(s, nonces) && AllDiffer(nonces)
    ensures AddNonces(s, nonces).Ok? ==>
      AddNonces(s, nonces).value == s.(nonces := s.nonces + set n <- nonces :: Commitment(n))
    decreases |nonces|
  {
    hide Commitment, AllDiffer;
    if nonces == [] {
      assert s.nonces + (set n <- nonces :: Commitment(n)) == s.nonces;
      assert AllDiffer([]) by { NoneDiffer(); }
    } else {
      var first, rest := nonces[0], nonces[1..];
      var t := s.(nonces := s.nonces + {Commitment(first)});
      AddsExactly(t, rest);
      NewAfterFirst(s, nonces);
      assert AllNew(s, nonces[..1]) <==> NamesKnownBlock(s, first) && Commitment(first) !in s.nonces;
      assert nonces == [first] + rest;
      assert s.nonces + (set n <- nonces :: Commitment(n)) == t.nonces + (set n <- rest :: Commitment(n));
    }
  }

  lemma NoneDiffer()
    ensures AllDiffer([])
  {
  }

  /** The contract is there before reference k: put out last, or there from the start and not taken in since. */
  ghost predicate PresentBefore(contracts: set<bytes>, refs: seq<ContractRef>, k: nat, id: bytes)
    requires k <= |refs|
  {
    || (id in contracts && forall i :: 0 <= i < k ==> !(refs[i].Input? && refs[i].id == id))
    || exists j :: 0 <= j < k && refs[j].Output? && refs[j].id == id
                   && forall i :: j < i < k ==> !(refs[i].Input? && refs[i].id == id)
  }

  /** One reference later. */
  lemma PresentAfterFirst(contracts: set<bytes>, refs: seq<ContractRef>, k: nat, id: bytes)
    requires k < |refs|
    ensures
      var moved := if refs[0].Input? then contracts - {refs[0].id} else contracts + {refs[0].id};
      PresentBefore(contracts, refs, k + 1, id) <==> PresentBefore(moved, refs[1..], k, id)
  {
    var rest := refs[1..];
    forall i | 0 <= i < k ensures refs[i + 1] == rest[i] {}
    var moved := if refs[0].Input? then contracts - {refs[0].id} else contracts + {refs[0].id};
    if PresentBefore(contracts, refs, k + 1, id) && !(id in contracts && forall i :: 0 <= i < k + 1 ==> !(refs[i].Input? && refs[i].id == id)) {
      var j :| 0 <= j < k + 1 && refs[j].Output? && refs[j].id == id && forall i :: j < i < k + 1 ==> !(refs[i].Input? && refs[i].id == id);
      if j > 0 {
        assert rest[j - 1] == refs[j];
      }
    }
    if PresentBefore(moved, rest, k, id) {
      if id in moved && forall i :: 0 <= i < k ==> !(rest[i].Input? && rest[i].id == id) {
        forall i | 1 <= i < k + 1 ensures !(refs[i].Input? && refs[i].id == id) {
          assert refs[i] == rest[i - 1];
        }
      } else {
        var j :| 0 <= j < k && rest[j].Output? && rest[j].id == id && forall i :: j < i < k ==> !(rest[i].Input? && rest[i].id == id);
        forall i | j + 1 < i < k + 1 ensures !(refs[i].Input? && refs[i].id == id) {
          assert refs[i] == rest[i - 1];
        }
        assert refs[j + 1].Output? && refs[j + 1].id == id;
      }
    }
  }

  /** Contracts move exactly if each one taken in is there at its turn; those that are there afterwards remain. */
  lemma {:induction false} MovesExactly(s: Snap, refs: seq<ContractRef>)
    ensures MoveContracts(s, refs).Ok? <==>
      forall k :: 0 <= k < |refs| && refs[k].Input? ==> PresentBefore(s.contracts, refs, k, refs[k].id)
    ensures MoveContracts(s, refs).Ok? ==>
      var t := MoveContracts(s, refs).value;
      t == s.(contracts := t.contracts) && forall id :: id in t.contracts <==> PresentBefore(s.contracts, refs, |refs|, id)
    decreases |refs|
  {
    if refs != [] {
      var rest, first := refs[1..], refs[0];
      var moved := if first.Input? then s.contracts - {first.id} else s.contracts + {first.id};
      MovesExactly(s.(contracts := moved), rest);
      forall k, id | 0 <= k < |refs| ensures PresentBefore(s.contracts, refs, k + 1, id) <==> PresentBefore(moved, rest, k, id) {
        PresentAfterFirst(s.contracts, refs, k, id);
      }
      assert first.Input? ==> (PresentBefore(s.contracts, refs, 0, first.id) <==> first.id in s.contracts);
      if MoveContracts(s, refs).Ok? {
        forall k | 0 < k < |refs| && refs[k].Input? ensures PresentBefore(s.contracts, refs, k, refs[k].id) {
          assert rest[k - 1] == refs[k] && PresentBefore(moved, rest, k - 1, rest[k - 1].id);
        }
      }
      if forall k :: 0 <= k < |refs| && refs[k].Input? ==> PresentBefore(s.contracts, refs, k, refs[k].id) {
        forall k | 0 <= k < |rest| && rest[k].Input? ensures PresentBefore(moved, rest, k, rest[k].id) {
          assert refs[k + 1] == rest[k] && PresentBefore(s.contracts, refs, k + 1, refs[k + 1].id);
        }
      }
    }
  }

  /** Pruning keeps exactly the nonces whose expiry is not past. */
  lemma PrunesExactly(s: Snap, id: Hash, expMS: uint64, t: uint64)
    ensures NonceCommitment(id, expMS) in PruneNonces(s, t).nonces <==> NonceCommitment(id, expMS) in s.nonces && t <= expMS
    ensures PruneNonces(s, t).contracts == s.contracts
  {
    hide NonceCommitment, NonceTime;
    NonceTimeOfCommitment(id, expMS);
  }

  /** A first block needs an empty state, and gives the chain its name; a later block needs one that has it. */
  lemma HeaderAppliesExactly(c: Crypto, s: Snap, h: Header)
    ensures ApplyBlockHeader(c, s, h).Ok? <==> (h.height == 1 <==> s.initialBlockID == ZeroHash())
    ensures ApplyBlockHeader(c, s, h).Ok? ==>
      var t := ApplyBlockHeader(c, s, h).value;
      && t.header == Some(h) && t.refIDs == s.refIDs + [BlockID(c, h)]
      && t.initialBlockID == (if h.height == 1 then BlockID(c, h) else s.initialBlockID)
      && t.contracts == s.contracts && t.nonces == s.nonces
  {
  }

  /** What a transaction needs: nonces that are new and name known blocks, and contracts that are there at their turn. */
  lemma AppliesExactly(s: Snap, tx: BcTx)
    requires s.initialBlockID != ZeroHash()
    ensures ApplyTx(s, tx).Ok? <==>
      && AllNew(s, tx.nonces) && AllDiffer(tx.nonces)
      && (forall k :: 0 <= k < |tx.contracts| && tx.contracts[k].Input? ==>
            PresentBefore(s.contracts, tx.contracts, k, tx.contracts[k].id))
    ensures ApplyTx(s, tx).Ok? ==>
      var t := ApplyTx(s, tx).value;
      && t == s.(contracts := t.contracts, nonces := s.nonces + set n <- tx.nonces :: Commitment(n))
      && forall id :: id in t.contracts <==> PresentBefore(s.contracts, tx.contracts, |tx.contracts|, id)
  {
    hide Commitment, PresentBefore, AddNonces, MoveContracts, AllNew, AllDiffer;
    AddsExactly(s, tx.nonces);
    if AddNonces(s, tx.nonces).Ok? {
      MovesExactly(AddNonces(s, tx.nonces).value, tx.contracts);
    }
  }
}
