/** The sponge construction of sections 4 and 5.1 of FIPS 202, on a state of 200 bytes. */
module SpongeConstruction {
  import Primes

  type bytes = seq<bv8>
  type State = s: bytes | |s| == 200 witness seq(200, _ => 0)
  type Permutation = State -> State

  function Zeros(): State {
    seq(200, _ => 0)
  }

  function XorByte(x: bv8, y: bv8): bv8 {
    x ^ y
  }

  function Xor(s: State, block: bytes): State
    requires |block| <= 200
  {
    seq(200, i requires 0 <= i < 200 => if i < |block| then XorByte(s[i], block[i]) else s[i])
  }

  /** The state after all complete blocks of the message. */
  function Absorb(p: Permutation, rate: nat, s: State, message: bytes): State
    requires 0 < rate <= 200
    decreases |message|
  {
    if |message| < rate then s else Absorb(p, rate, p(Xor(s, message[..rate])), message[rate..])
  }

  /** The bytes after all complete blocks. */
  function Rest(rate: nat, message: bytes): (r: bytes)
    requires 0 < rate
    ensures |r| < rate
    decreases |message|
  {
    if |message| < rate then message else Rest(rate, message[rate..])
  }

  /** Domain separation bits and pad10*1 to fill n bytes, where the domain byte carries the first one bit. */
  function Padding(n: nat, domain: bv8): bytes
    requires 0 < n
  {
    if n == 1 then [XorByte(domain, 0x80)] else [domain] + seq(n - 2, _ => 0) + [0x80]
  }

  /** A message filled up to whole blocks. */
  function Padded(rate: nat, domain: bv8, message: bytes): (r: bytes)
    requires 0 < rate
  {
    message + Padding(rate - |Rest(rate, message)|, domain)
  }

  /** The first n bytes of output. */
  function Squeeze(p: Permutation, rate: nat, s: State, n: nat): (out: bytes)
    requires 0 < rate <= 200
    ensures |out| == n
    decreases n
  {
    if n <= rate then s[..n] else s[..rate] + Squeeze(p, rate, p(s), n - rate)
  }

  /** The whole function: n bytes of output for a message. */
  function Sponge(p: Permutation, rate: nat, domain: bv8, message: bytes, n: nat): (out: bytes)
    requires 0 < rate <= 200
    ensures |out| == n
  {
    Squeeze(p, rate, Absorb(p, rate, Zeros(), Padded(rate, domain, message)), n)
  }

  /** The domain byte comes first, its first bit set for the padding; the last bit of the last byte is flipped; zeros are between. */
  lemma PaddingBytes(n: nat, domain: bv8)
    requires 0 < n
    ensures
      var p := Padding(n, domain);
      && |p| == n
      && (n == 1 ==> p[0] == domain ^ 0x80)
      && (n > 1 ==> p[0] == domain && p[n - 1] == 0x80 && forall i :: 0 < i < n - 1 ==> p[i] == 0)
  {
  }

  lemma {:induction false} RestOfBlocks(rate: nat, message: bytes)
    requires 0 < rate
    ensures |Rest(rate, message)| == |message| % rate
    decreases |message|
  {
    if |message| >= rate {
      RestOfBlocks(rate, message[rate..]);
      BlockLess(|message|, rate);
    }
  }

  lemma BlockLess(n: nat, rate: nat)
    requires 0 < rate <= n
    ensures (n - rate) % rate == n % rate
  {
    Primes.AddMultiple(n - rate, 1, rate);
  }

  /** Padding fills whole blocks, and no two messages are padded to one string: the padding can be taken off. */
  lemma PaddingIsInjective(rate: nat, domain: bv8, m: bytes, m': bytes)
    requires 0 < rate && domain & 0x80 == 0 && domain != 0
    ensures |Padded(rate, domain, m)| % rate == 0 && |m| < |Padded(rate, domain, m)| <= |m| + rate
    ensures Padded(rate, domain, m) == Padded(rate, domain, m') ==> m == m'
  {
    hide Padding, Rest;
    PadsToBlocks(rate, domain, m);
    var p, p' := Padded(rate, domain, m), Padded(rate, domain, m');
    PaddingBytes(rate - |Rest(rate, m)|, domain);
    PaddingBytes(rate - |Rest(rate, m')|, domain);
    if p == p' {
      if |m| < |m'| {
        LongerDiffers(rate, domain, m, m');
      } else if |m'| < |m| {
        LongerDiffers(rate, domain, m', m);
      }
      assert m == p[..|m|] && m' == p'[..|m'|];
    }
  }

  lemma PadsToBlocks(rate: nat, domain: bv8, m: bytes)
    requires 0 < rate
    ensures |Padded(rate, domain, m)| % rate == 0 && |m| < |Padded(rate, domain, m)| <= |m| + rate
  {
    hide Padding, Rest;
    RestOfBlocks(rate, m);
    PaddingBytes(rate - |Rest(rate, m)|, domain);
    FillsUp(|m|, rate);
  }

  lemma FillsUp(n: nat, rate: nat)
    requires 0 < rate
    ensures (n + (rate - n % rate)) % rate == 0 && n % rate < rate
  {
    var q := n / rate;
    assert rate * q + rate == rate * (q + 1);
    assert n + (rate - n % rate) == 0 + rate * (q + 1);
    Primes.AddMultiple(0, q + 1, rate);
  }

  /** The first byte of the padding is not one that padding has further on. */
  lemma LongerDiffers(rate: nat, domain: bv8, m: bytes, m': bytes)
    requires 0 < rate && domain & 0x80 == 0 && domain != 0 && |m| < |m'|
    ensures Padded(rate, domain, m) != Padded(rate, domain, m')
  {
    hide Padding, Rest;
    var p, p', n, n' := Padded(rate, domain, m), Padded(rate, domain, m'), rate - |Rest(rate, m)|, rate - |Rest(rate, m')|;
    PaddingBytes(n, domain);
    PaddingBytes(n', domain);
    PadsToBlocks(rate, domain, m);
    assert p'[|m'|] == Padding(n', domain)[0];
    assert |p| == |p'| ==> p[|m'|] == Padding(n, domain)[|m'| - |m|];
    NotDomain(domain);
  }

  lemma NotDomain(domain: bv8)
    requires domain & 0x80 == 0 && domain != 0
    ensures domain != 0x80 && domain ^ 0x80 != 0 && domain ^ 0x80 != 0x80
  {
  }

  /** Absorbing can be interrupted anywhere, if the incomplete block is kept. */
  lemma {:induction false} AbsorbInParts(p: Permutation, rate: nat, s: State, m: bytes, x: bytes)
    requires 0 < rate <= 200
    ensures Absorb(p, rate, s, m + x) == Absorb(p, rate, Absorb(p, rate, s, m), Rest(rate, m) + x)
    ensures Rest(rate, m + x) == Rest(rate, Rest(rate, m) + x)
    decreases |m|
  {
    if |m| >= rate {
      assert (m + x)[..rate] == m[..rate] && (m + x)[rate..] == m[rate..] + x;
      AbsorbInParts(p, rate, p(Xor(s, m[..rate])), m[rate..], x);
    }
  }

  /** Taking more output does not change what comes first. */
  lemma {:induction false} SqueezePrefix(p: Permutation, rate: nat, s: State, m: nat, n: nat)
    requires 0 < rate <= 200 && m <= n
    ensures Squeeze(p, rate, s, n)[..m] == Squeeze(p, rate, s, m)
    decreases n
  {
    if m > rate {
      SqueezePrefix(p, rate, p(s), m - rate, n - rate);
    }
  }

  function Iterate(p: Permutation, s: State, n: nat): State {
    if n == 0 then s else p(Iterate(p, s, n - 1))
  }

  lemma {:induction false} IterateFirst(p: Permutation, s: State, n: nat)
    ensures Iterate(p, s, n + 1) == Iterate(p, p(s), n)
  {
    if n > 0 {
      IterateFirst(p, s, n - 1);
    }
  }

  /** Byte k of block j of the output, however many bytes are taken. */
  lemma {:induction false} SqueezedByte(p: Permutation, rate: nat, s: State, n: nat, j: nat, k: nat)
    requires 0 < rate <= 200 && k < rate && j * rate + k < n
    ensures Squeeze(p, rate, s, n)[j * rate + k] == Iterate(p, s, j)[k]
    decreases j
  {
    if j > 0 {
      hide Iterate, Squeeze;
      var i := (j - 1) * rate + k;
      OneBlockFurther(rate, j);
      SqueezedByte(p, rate, p(s), n - rate, j - 1, k);
      SqueezeFirst(p, rate, s, n, i);
      IterateFirst(p, s, j - 1);
    }
  }

  lemma OneBlockFurther(rate: nat, j: nat)
    requires j > 0
    ensures j * rate == (j - 1) * rate + rate >= rate
  {
    assert (j - 1) * rate >= 0;
  }

  lemma SqueezeFirst(p: Permutation, rate: nat, s: State, n: nat, i: nat)
    requires 0 < rate <= 200 && rate + i < n
    ensures Squeeze(p, rate, s, n)[rate + i] == Squeeze(p, rate, p(s), n - rate)[i]
  {
  }
}

/** Little-endian lanes (xor_generic.go). */
module Lanes {
  import opened SpongeConstruction

  type Lanes = a: seq<bv64> | |a| == 25 witness seq(25, _ => 0)

  /** binary.LittleEndian.Uint64 */
  function LaneOf(b: bytes): bv64
    requires |b| == 8
  {
    Join(b[0], b[1], b[2], b[3], b[4], b[5], b[6], b[7])
  }

  function Join(b0: bv8, b1: bv8, b2: bv8, b3: bv8, b4: bv8, b5: bv8, b6: bv8, b7: bv8): bv64 {
    (b0 as bv64) | ((b1 as bv64) << 8) | ((b2 as bv64) << 16) | ((b3 as bv64) << 24)
      | ((b4 as bv64) << 32) | ((b5 as bv64) << 40) | ((b6 as bv64) << 48) | ((b7 as bv64) << 56)
  }

  function XorLanes(x: bv64, y: bv64): bv64 {
    x ^ y
  }

  function ByteAt(x: bv64, shift: bv7): bv8
    requires shift <= 56
  {
    ((x >> shift) & 0xff) as bv8
  }

  /** binary.LittleEndian.PutUint64 */
  function BytesOfLane(x: bv64): (b: bytes)
    ensures |b| == 8
  {
    [ByteAt(x, 0), ByteAt(x, 8), ByteAt(x, 16), ByteAt(x, 24), ByteAt(x, 32), ByteAt(x, 40), ByteAt(x, 48), ByteAt(x, 56)]
  }

  lemma JoinSplit(x: bv64)
    ensures Join(ByteAt(x, 0), ByteAt(x, 8), ByteAt(x, 16), ByteAt(x, 24), ByteAt(x, 32), ByteAt(x, 40), ByteAt(x, 48), ByteAt(x, 56)) == x
  {
  }

  lemma SplitJoin(b0: bv8, b1: bv8, b2: bv8, b3: bv8, b4: bv8, b5: bv8, b6: bv8, b7: bv8)
    ensures
      var x := Join(b0, b1, b2, b3, b4, b5, b6, b7);
      && ByteAt(x, 0) == b0 && ByteAt(x, 8) == b1 && ByteAt(x, 16) == b2 && ByteAt(x, 24) == b3
      && ByteAt(x, 32) == b4 && ByteAt(x, 40) == b5 && ByteAt(x, 48) == b6 && ByteAt(x, 56) == b7
  {
  }

  lemma XorJoin(a0: bv8, a1: bv8, a2: bv8, a3: bv8, a4: bv8, a5: bv8, a6: bv8, a7: bv8,
                b0: bv8, b1: bv8, b2: bv8, b3: bv8, b4: bv8, b5: bv8, b6: bv8, b7: bv8)
    ensures XorLanes(Join(a0, a1, a2, a3, a4, a5, a6, a7), Join(b0, b1, b2, b3, b4, b5, b6, b7)) ==
      Join(XorByte(a0, b0), XorByte(a1, b1), XorByte(a2, b2), XorByte(a3, b3), XorByte(a4, b4), XorByte(a5, b5), XorByte(a6, b6), XorByte(a7, b7))
  {
  }

  lemma LaneRoundTrip(x: bv64)
    ensures LaneOf(BytesOfLane(x)) == x
  {
    JoinSplit(x);
  }

  lemma XorLane(x: bv64, b: bytes)
    requires |b| == 8
    ensures forall k :: 0 <= k < 8 ==> BytesOfLane(XorLanes(x, LaneOf(b)))[k] == XorByte(BytesOfLane(x)[k], b[k])
  {
    hide Join, ByteAt, XorByte, XorLanes;
    var a := BytesOfLane(x);
    JoinSplit(x);
    XorJoin(a[0], a[1], a[2], a[3], a[4], a[5], a[6], a[7], b[0], b[1], b[2], b[3], b[4], b[5], b[6], b[7]);
    SplitJoin(XorByte(a[0], b[0]), XorByte(a[1], b[1]), XorByte(a[2], b[2]), XorByte(a[3], b[3]), XorByte(a[4], b[4]), XorByte(a[5], b[5]), XorByte(a[6], b[6]), XorByte(a[7], b[7]));
  }

  function BytesOf(a: Lanes): State {
    seq(200, i requires 0 <= i < 200 => BytesOfLane(a[i / 8])[i % 8])
  }

  function LanesOf(s: State): Lanes {
    seq(25, i requires 0 <= i < 25 => LaneOf(s[8 * i..8 * i + 8]))
  }

  lemma LaneIsSlice(a: Lanes, i: nat)
    requires i < 25
    ensures BytesOf(a)[8 * i..8 * i + 8] == BytesOfLane(a[i])
    ensures BytesOf(a)[..8 * i + 8] == BytesOf(a)[..8 * i] + BytesOfLane(a[i])
  {
    hide BytesOfLane;
    var s := BytesOf(a);
    assert s[8 * i..8 * i + 8] == BytesOfLane(a[i]);
    assert s[..8 * i + 8] == s[..8 * i] + s[8 * i..8 * i + 8];
  }

  lemma LanesRoundTrip(a: Lanes)
    ensures LanesOf(BytesOf(a)) == a
  {
    hide LaneOf, BytesOfLane;
    forall i | 0 <= i < 25 ensures LanesOf(BytesOf(a))[i] == a[i] {
      LaneIsSlice(a, i);
      LaneRoundTrip(a[i]);
    }
  }

  /** Xoring one lane is xoring its eight bytes. */
  lemma XorOneLane(a: Lanes, i: nat, b: bytes, start: State)
    requires 8 * i + 8 <= |b| <= 200 && BytesOf(a) == Xor(start, b[..8 * i])
    ensures BytesOf(a[i := XorLanes(a[i], LaneOf(b[8 * i..8 * i + 8]))]) == Xor(start, b[..8 * i + 8])
  {
    hide LaneOf, BytesOfLane, XorByte, XorLanes;
    var lane := b[8 * i..8 * i + 8];
    XorLane(a[i], lane);
    var a' := a[i := XorLanes(a[i], LaneOf(lane))];
    forall k | 0 <= k < 200 ensures BytesOf(a')[k] == Xor(start, b[..8 * i + 8])[k] {
      assert BytesOf(a)[k] == Xor(start, b[..8 * i])[k];
      if k / 8 == i {
        assert BytesOf(a')[k] == XorByte(BytesOfLane(a[i])[k % 8], lane[k % 8]);
      } else {
        assert BytesOf(a')[k] == BytesOf(a)[k];
      }
    }
  }
}

/** The buffered sponge (sha3.go). */
module Sha3 {
  import opened SpongeConstruction
  import opened Lanes
  import Prelude

  lemma OneBlock(p: Permutation, rate: nat, s: State, block: bytes)
    requires 0 < rate <= 200 && |block| == rate
    ensures Absorb(p, rate, s, block) == p(Xor(s, block)) && Rest(rate, block) == []
  {
    assert block[..rate] == block && block[rate..] == [];
  }

  /** A permutation of lanes, on the bytes they are stored in. */
  ghost function OnBytes(keccak: Lanes -> Lanes): Permutation {
    (s: State) => BytesOf(keccak(LanesOf(s)))
  }

  /** Up to a block more of the message, after what has been buffered. */
  lemma AbsorbChunk(p: Permutation, rate: nat, s: State, message: bytes, chunk: bytes)
    requires 0 < rate <= 200 && |Rest(rate, message)| + |chunk| <= rate
    ensures
      var buf := Rest(rate, message) + chunk;
      var s1, s2 := Absorb(p, rate, s, message), Absorb(p, rate, s, message + chunk);
      if |buf| < rate then s2 == s1 && Rest(rate, message + chunk) == buf
      else s2 == p(Xor(s1, buf)) && Rest(rate, message + chunk) == []
  {
    hide Xor;
    AbsorbInParts(p, rate, s, message, chunk);
    var buf := Rest(rate, message) + chunk;
    if |buf| == rate {
      OneBlock(p, rate, Absorb(p, rate, s, message), buf);
    }
  }

  class Hash {
    const keccak: Lanes -> Lanes
    const rate: nat
    const domain: bv8
    const outputLen: nat
    const a: array<bv64>
    var buf: bytes
    var squeezing: bool
    /** All that has been written since the last reset, and the number of the output block in buf. */
    ghost var message: bytes
    ghost var block: nat

    ghost predicate Shaped() {
      a.Length == 25 && 0 < rate <= 168 && rate % 8 == 0
    }

    ghost function Keccak(): Permutation {
      OnBytes(keccak)
    }

    ghost function Bytes(): State
      requires Shaped()
      reads a
    {
      BytesOf(a[..])
    }

    /** The state after the padded message. */
    ghost function Seed(): State
      requires Shaped()
      reads this`message
    {
      Absorb(Keccak(), rate, Zeros(), Padded(rate, domain, message))
    }

    /** The number of bytes read. */
    ghost function Taken(): nat
      reads this
    {
      if squeezing && |buf| <= rate then block * rate + (rate - |buf|) else 0
    }

    ghost predicate Valid()
      reads this, a
    {
      && Shaped()
      && if squeezing then
           0 < |buf| <= rate && Bytes() == Iterate(Keccak(), Seed(), block) && buf == Bytes()[rate - |buf|..rate]
         else
           buf == Rest(rate, message) && Bytes() == Absorb(Keccak(), rate, Zeros(), message)
    }

    /** n bytes of output for the message, from the first. */
    ghost function Output(n: nat): (out: bytes)
      requires Shaped()
      reads this`message
      ensures |out| == n
    {
      Sponge(Keccak(), rate, domain, message, n)
    }

    constructor (keccak: Lanes -> Lanes, rate: nat, domain: bv8, outputLen: nat)
      requires 0 < rate <= 168 && rate % 8 == 0
      ensures Valid() && fresh(a) && !squeezing && message == []
      ensures this.keccak == keccak && this.rate == rate && this.domain == domain && this.outputLen == outputLen
    {
      this.keccak, this.rate, this.domain, this.outputLen := keccak, rate, domain, outputLen;
      a := new bv64[25](_ => 0);
      buf, squeezing, message, block := [], false, [], 0;
      new;
      ZeroLanes(a[..]);
    }

    method Reset()
      requires Shaped()
      modifies this, a
      ensures Valid() && !squeezing && message == []
    {
      for i := 0 to a.Length
        invariant forall k :: 0 <= k < i ==> a[k] == 0
      {
        a[i] := 0;
      }
      squeezing := false;
      buf, message, block := [], [], 0;
      ZeroLanes(a[..]);
    }

    method XorIn(b: bytes)
      requires Shaped() && |b| % 8 == 0 && |b| <= 200
      modifies a
      ensures Bytes() == Xor(old(Bytes()), b)
    {
      hide LaneOf, BytesOf, Xor, XorLanes;
      ghost var start := Bytes();
      XorNothing(start);
      assert b[..0] == [];
      for i := 0 to |b| / 8
        invariant Bytes() == Xor(start, b[..8 * i])
      {
        ghost var was := a[..];
        XorOneLane(was, i, b, start);
        a[i] := XorLanes(a[i], LaneOf(b[8 * i..8 * i + 8]));
        assert a[..] == was[i := XorLanes(was[i], LaneOf(b[8 * i..8 * i + 8]))];
      }
      assert b[..8 * (|b| / 8)] == b;
    }

    method CopyOut() returns (b: bytes)
      requires Shaped()
      ensures b == Bytes()[..rate]
    {
      hide BytesOf, BytesOfLane;
      b := [];
      for i := 0 to rate / 8
        invariant b == Bytes()[..8 * i]
      {
        LaneIsSlice(a[..], i);
        b := b + BytesOfLane(a[i]);
      }
    }

    method KeccakF()
      requires Shaped()
      modifies a
      ensures Bytes() == Keccak()(old(Bytes()))
    {
      hide BytesOf, LanesOf;
      LanesRoundTrip(a[..]);
      var next := keccak(a[..]);
      forall i | 0 <= i < 25 {
        a[i] := next[i];
      }
      assert a[..] == next;
    }

    /** Absorbing, the buffer is xored in first; squeezing, a new block is copied out after. */
    method Permute()
      requires Shaped() && (!squeezing ==> |buf| % 8 == 0 && |buf| <= 200)
      modifies this`buf, this`block, a
      ensures Bytes() == Keccak()(old(if squeezing then Bytes() else Xor(Bytes(), buf)))
      ensures buf == if squeezing then Bytes()[..rate] else []
      ensures block == old(block) + if squeezing then 1 else 0
    {
      hide BytesOf, Xor;
      if squeezing {
        KeccakF();
        buf := CopyOut();
        block := block + 1;
      } else {
        XorIn(buf);
        buf := [];
        KeccakF();
      }
    }

    method PadAndPermute()
      requires Valid() && !squeezing
      modifies this`buf, this`block, this`squeezing, a
      ensures Valid() && squeezing && Taken() == 0
    {
      hide BytesOf, Xor, XorByte, Iterate, Absorb, Rest, Padding;
      ghost var used := buf;
      buf := buf + [domain];
      var zerosStart := |buf|;
      buf := buf + seq(rate - zerosStart, _ => 0);
      buf := buf[rate - 1 := XorByte(buf[rate - 1], 0x80)];
      PaddingFills(used, rate, domain, buf);
      ghost var padding := Padding(rate - |used|, domain);
      AbsorbChunk(Keccak(), rate, Zeros(), message, padding);
      Permute();
      squeezing := true;
      block := 0;
      IterateNone(Keccak(), Bytes());
      buf := CopyOut();
    }

    /** Refused once output has been read. */
    method Write(p: bytes) returns (ok: bool)
      requires Valid()
      modifies this`buf, this`message, this`block, a
      ensures Valid()
      ensures ok == !squeezing
      ensures message == if ok then old(message) + p else old(message)
      ensures !ok ==> buf == old(buf) && a[..] == old(a[..])
    {
      hide BytesOf, Xor, XorByte, Iterate, Absorb, Rest;
      if squeezing {
        return false;
      }
      ok := true;
      var rest := p;
      while |rest| > 0
        invariant Valid()
        invariant message + rest == old(message) + p
      {
        ghost var chunk;
        if |buf| == 0 && |rest| >= rate {
          chunk := rest[..rate];
          AbsorbChunk(Keccak(), rate, Zeros(), message, chunk);
          assert buf + chunk == chunk;
          XorIn(rest[..rate]);
          KeccakF();
          rest := rest[rate..];
        } else {
          var todo := if rate - |buf| > |rest| then |rest| else rate - |buf|;
          chunk := rest[..todo];
          AbsorbChunk(Keccak(), rate, Zeros(), message, chunk);
          buf := buf + rest[..todo];
          rest := rest[todo..];
          if |buf| == rate {
            Permute();
          }
        }
        message := message + chunk;
      }
    }

    /** What is buffered is the next part of the output. */
    lemma BufferIsNext(n: nat)
      requires Valid() && squeezing && Taken() <= n
      ensures forall k :: 0 <= k < |buf| && Taken() + k < n ==> buf[k] == Output(n)[Taken() + k]
    {
      hide BytesOf, Iterate, Absorb, Squeeze;
      forall k | 0 <= k < |buf| && Taken() + k < n ensures buf[k] == Output(n)[Taken() + k] {
        SqueezedByte(Keccak(), rate, Seed(), n, block, rate - |buf| + k);
      }
    }

    /** Drops n buffered bytes, and refills a buffer that has run dry. */
    method Advance(n: nat)
      requires Valid() && squeezing && n <= |buf|
      modifies this`buf, this`block, a
      ensures Valid() && Taken() == old(Taken()) + n
    {
      hide BytesOf, Xor, Iterate, Absorb, Rest, Padding;
      buf := buf[n..];
      if |buf| == 0 {
        IterateMore(Keccak(), Seed(), block);
        Permute();
        assert block * rate == old(block) * rate + rate;
      }
    }

    lemma Shape()
      requires Valid()
      ensures Shaped() && |buf| <= rate && (squeezing ==> |buf| > 0) && (!squeezing ==> Taken() == 0)
    {
    }

    /** Fills out with the next bytes of output. */
    method Read(out: array<bv8>)
      requires Valid()
      modifies this`buf, this`block, this`squeezing, a, out
      ensures Valid() && squeezing && Taken() == old(Taken()) + out.Length
      ensures out[..] == Output(Taken())[old(Taken())..]
    {
      hide Taken, Valid, Output;
      Shape();
      if !squeezing {
        PadAndPermute();
      }
      ghost var start := Taken();
      ghost var all := Output(start + out.Length);
      var done := 0;
      while done < out.Length
        invariant done <= out.Length && Valid() && squeezing && Taken() == start + done
        invariant forall k :: 0 <= k < done ==> out[k] == all[start + k]
      {
        Shape();
        var n := if |buf| < out.Length - done then |buf| else out.Length - done;
        BufferIsNext(start + out.Length);
        forall k | 0 <= k < n {
          out[done + k] := buf[k];
        }
        Advance(n);
        done := done + n;
      }
      assert out[..] == all[start..];
    }

    /** Where a copy made while squeezing starts to read: the source measures from the end of its storage. */
    ghost function CloneStart(): int
      reads this
    {
      Taken() - (MAX_RATE - rate)
    }

    /** The source cuts a slice with a negative bound, and panics. */
    ghost predicate CloneFails()
      reads this
    {
      squeezing && rate - |buf| < MAX_RATE - rate
    }

    /** Null stands for the panic. While squeezing, the copy is in step with the original only at the largest rate. */
    method Clone() returns (h: Hash?)
      requires Valid()
      ensures h == null <==> CloneFails()
      ensures h != null ==>
        && fresh(h) && fresh(h.a) && h.Valid() && h.squeezing == squeezing && h.message == message
        && h.keccak == keccak && h.rate == rate && h.domain == domain && h.outputLen == outputLen
        && h.Taken() == if squeezing then CloneStart() else 0
    {
      hide BytesOf, Absorb, Rest, Padding, Iterate;
      if squeezing && rate - |buf| < MAX_RATE - rate {
        return null;
      }
      h := new Hash(keccak, rate, domain, outputLen);
      forall i | 0 <= i < 25 {
        h.a[i] := a[i];
      }
      assert h.a[..] == a[..];
      assert h.Keccak() == Keccak() && h.Bytes() == Bytes();
      if squeezing {
        var storage := CopyOut();
        h.buf := storage[rate - |buf| - (MAX_RATE - rate)..];
      } else {
        h.buf := buf;
      }
      h.squeezing, h.message, h.block := squeezing, message, block;
      assert h.Seed() == Seed();
    }

    /** The digest of what has been written, appended to prefix; the sponge itself is left as it was. */
    method Sum(prefix: bytes) returns (r: Prelude.Option<bytes>)
      requires Valid()
      ensures r == Prelude.None <==> CloneFails()
      ensures r.Some? ==>
        var start := if squeezing then CloneStart() else 0;
        0 <= start && r.value == prefix + Output(start + outputLen)[start..]
    {
      hide Valid, Sponge, Taken, CloneStart, CloneFails;
      Shape();
      var dup := Clone();
      if dup == null {
        return Prelude.None;
      }
      dup.Shape();
      var hash := new bv8[outputLen];
      ghost var start := dup.Taken();
      dup.Read(hash);
      dup.Shape();
      assert dup.Output(start + outputLen) == Output(start + outputLen);
      r := Prelude.Some(prefix + hash[..]);
    }
  }

  /** The size of the storage, which is the largest rate. */
  const MAX_RATE := 168

  lemma IterateNone(p: Permutation, s: State)
    ensures Iterate(p, s, 0) == s
  {
  }

  lemma IterateMore(p: Permutation, s: State, n: nat)
    ensures Iterate(p, s, n + 1) == p(Iterate(p, s, n))
  {
  }

  /** The buffer with the domain byte, zeros and the last bit is the incomplete block with its padding. */
  lemma PaddingFills(used: bytes, rate: nat, domain: bv8, filled: bytes)
    requires |used| < rate
    requires
      var zeroed := used + [domain] + seq(rate - |used| - 1, _ => 0);
      filled == zeroed[rate - 1 := XorByte(zeroed[rate - 1], 0x80)]
    ensures filled == used + Padding(rate - |used|, domain)
  {
    assert XorByte(0, 0x80) == 0x80;
  }

  lemma XorNothing(s: State)
    ensures Xor(s, []) == s
  {
  }

  lemma ZeroLanes(a: Lanes)
    requires forall k :: 0 <= k < 25 ==> a[k] == 0
    ensures BytesOf(a) == Zeros()
  {
    forall k | 0 <= k < 200 ensures BytesOf(a)[k] == 0 {
      ZeroLane(a[k / 8]);
    }
  }

  lemma ZeroLane(x: bv64)
    requires x == 0
    ensures forall k :: 0 <= k < 8 ==> BytesOfLane(x)[k] == 0
  {
  }

  function Concat(parts: seq<bytes>): bytes {
    if parts == [] then [] else Concat(parts[..|parts| - 1]) + parts[|parts| - 1]
  }

  function Total(sizes: seq<nat>): nat {
    if sizes == [] then 0 else Total(sizes[..|sizes| - 1]) + sizes[|sizes| - 1]
  }

  /** Two reads in a row are one. */
  lemma OutputInParts(p: Permutation, rate: nat, domain: bv8, message: bytes, m: nat, n: nat)
    requires 0 < rate <= 200 && m <= n
    ensures Sponge(p, rate, domain, message, m) + Sponge(p, rate, domain, message, n)[m..]
         == Sponge(p, rate, domain, message, n)
  {
    hide Absorb, Squeeze, Padding, Rest;
    var s := Absorb(p, rate, Zeros(), Padded(rate, domain, message));
    SqueezePrefix(p, rate, s, m, n);
  }

  method WriteAll(h: Hash, writes: seq<bytes>)
    requires h.Valid() && !h.squeezing && h.message == []
    modifies h`buf, h`message, h`block, h.a
    ensures h.Valid() && !h.squeezing && h.message == Concat(writes)
  {
    hide Hash.Valid;
    for i := 0 to |writes|
      invariant h.Valid() && !h.squeezing && h.message == Concat(writes[..i])
    {
      assert writes[..i + 1][..i] == writes[..i];
      var ok := h.Write(writes[i]);
    }
    assert writes[..|writes|] == writes;
  }

  /** For every way of splitting the input over writes and the output over reads, the bytes are those of one sponge. */
  method HashInParts(keccak: Lanes -> Lanes, rate: nat, domain: bv8, writes: seq<bytes>, sizes: seq<nat>) returns (out: bytes)
    requires 0 < rate <= 168 && rate % 8 == 0
    ensures out == Sponge(OnBytes(keccak), rate, domain, Concat(writes), Total(sizes))
  {
    hide Hash.Valid, Sponge, Hash.Taken;
    var h := new Hash(keccak, rate, domain, 0);
    WriteAll(h, writes);
    ghost var message := h.message;
    h.Shape();
    out := [];
    for i := 0 to |sizes|
      invariant h.Valid() && fresh(h) && fresh(h.a) && h.message == message && h.Taken() == Total(sizes[..i])
      invariant out == Sponge(OnBytes(keccak), rate, domain, message, Total(sizes[..i]))
    {
      assert sizes[..i + 1][..i] == sizes[..i];
      var part := new bv8[sizes[i]];
      h.Read(part);
      h.Shape();
      OutputInParts(OnBytes(keccak), rate, domain, message, Total(sizes[..i]), Total(sizes[..i + 1]));
      out := out + part[..];
    }
    assert sizes[..|sizes|] == sizes;
  }

  /** A copy of a squeezing sponge goes on where the original is exactly if the rate is the largest one. */
  lemma CloneInStep(h: Hash)
    requires h.Valid() && h.squeezing
    ensures !h.CloneFails() && h.CloneStart() == h.Taken() <==> h.rate == MAX_RATE
  {
    h.Shape();
  }
}
