/** Go's unsigned base-128 integers (encoding/binary): little-endian, high bit set on all but the last byte. */
module Varint {
  import opened Prelude

  function PutUvarint(x: nat): (b: bytes)
    ensures |b| > 0
  {
    if x < 0x80 then [x] else [x % 0x80 + 0x80] + PutUvarint(x / 0x80)
  }

  /** The decoded integer and the number of bytes it took, or None where Go reports n <= 0. */
  function Uvarint(b: bytes): Option<(nat, nat)> {
    UvarintFrom(b, 0)
  }

  /** The rest of a decoding whose first i bytes have been read. The tenth byte carries only one bit. */
  function UvarintFrom(b: bytes, i: nat): (r: Option<(nat, nat)>)
    ensures r.Some? ==> 0 < r.value.1 <= |b|
  {
    if |b| == 0 then None
    else if b[0] < 0x80 then
      if i > 9 || (i == 9 && b[0] > 1) then None else Some((b[0], 1))
    else
      match UvarintFrom(b[1..], i + 1)
      case None => None
      case Some((v, n)) => Some((b[0] - 0x80 + 0x80 * v, n + 1))
  }

  /** The integers that still fit once i bytes have been read: those below 2^(64-7i). */
  function Room(i: nat): nat
    requires i <= 9
    decreases 9 - i
  {
    if i == 9 then 2 else 0x80 * Room(i + 1)
  }

  lemma {:induction false} UvarintFromPut(x: nat, i: nat, rest: bytes)
    requires i <= 9 && x < Room(i)
    ensures UvarintFrom(PutUvarint(x) + rest, i) == Some((x, |PutUvarint(x)|))
    decreases 9 - i
  {
    var b := PutUvarint(x) + rest;
    if x >= 0x80 {
      assert b[1..] == PutUvarint(x / 0x80) + rest;
      UvarintFromPut(x / 0x80, i + 1, rest);
    }
  }

  lemma RoomAtStart()
    ensures Room(0) == TWO_TO_THE_64
  {
    assert Room(6) == 0x80 * (0x80 * (0x80 * 2));
    assert Room(3) == 0x80 * (0x80 * (0x80 * Room(6)));
  }

  /** Decoding undoes encoding for every uint64, whatever follows. */
  lemma UvarintRoundTrip(x: uint64, rest: bytes)
    ensures Uvarint(PutUvarint(x) + rest) == Some((x, |PutUvarint(x)|))
  {
    RoomAtStart();
    UvarintFromPut(x, 0, rest);
  }

  /** The decoder never yields more than 64 bits. */
  lemma UvarintFits(b: bytes)
    requires Uvarint(b).Some?
    ensures Uvarint(b).value.0 < TWO_TO_THE_64
  {
    RoomAtStart();
    UvarintFromBounded(b, 0);
  }

  lemma {:induction false} UvarintFromBounded(b: bytes, i: nat)
    requires UvarintFrom(b, i).Some?
    ensures i <= 9 && UvarintFrom(b, i).value.0 < Room(i)
    decreases |b|
  {
    if b[0] < 0x80 {
      RoomAtLeast(i, b[0]);
    } else {
      UvarintFromBounded(b[1..], i + 1);
    }
  }

  lemma {:induction false} RoomAtLeast(i: nat, x: byte)
    requires i <= 9 && x < 0x80 && (i == 9 ==> x <= 1)
    ensures x < Room(i)
  {
    if i < 9 {
      RoomPositive(i + 1);
    }
  }

  lemma RoomPositive(i: nat)
    requires i <= 9
    ensures Room(i) >= 2
    decreases 9 - i
  {
  }

  // --- all inputs, well-formed or not

  /** The low seven bits of the first n bytes, least significant first. */
  function LowBits(b: bytes, n: nat): nat
    requires n <= |b|
  {
    if n == 0 then 0 else b[0] % 0x80 + 0x80 * LowBits(b[1..], n - 1)
  }

  /** Byte n - 1 is the first with its high bit clear. */
  ghost predicate EndsAt(b: bytes, n: nat) {
    0 < n <= |b| && b[n - 1] < 0x80 && forall k :: 0 <= k < n - 1 ==> b[k] >= 0x80
  }

  lemma {:induction false} DecodesFrom(b: bytes, i: nat, n: nat)
    requires EndsAt(b, n)
    ensures UvarintFrom(b, i) == if i + n > 10 || (i + n == 10 && b[n - 1] > 1) then None else Some((LowBits(b, n), n))
    decreases n
  {
    if n > 1 {
      assert b[1..][n - 2] == b[n - 1];
      DecodesFrom(b[1..], i + 1, n - 1);
    } else {
      assert LowBits(b, 1) == b[0] + 0x80 * LowBits(b[1..], 0);
    }
  }

  lemma {:induction false} NeverEnds(b: bytes, i: nat)
    requires forall k :: 0 <= k < |b| ==> b[k] >= 0x80
    ensures UvarintFrom(b, i) == None
    decreases |b|
  {
    if b != [] {
      NeverEnds(b[1..], i + 1);
    }
  }

  /** Decoding takes the bytes up to the first short one, and their low bits, if those make at most 64. */
  lemma UvarintExactly(b: bytes)
    ensures forall n: nat :: EndsAt(b, n) ==>
      Uvarint(b) == if n > 10 || (n == 10 && b[9] > 1) then None else Some((LowBits(b, n), n))
    ensures Uvarint(b).Some? ==> exists n: nat :: EndsAt(b, n)
  {
    forall n: nat | EndsAt(b, n)
      ensures Uvarint(b) == if n > 10 || (n == 10 && b[9] > 1) then None else Some((LowBits(b, n), n))
    {
      DecodesFrom(b, 0, n);
    }
    if exists k :: 0 <= k < |b| && b[k] < 0x80 {
      var k := FirstShort(b, 0);
      assert EndsAt(b, k + 1);
    } else {
      NeverEnds(b, 0);
    }
  }

  lemma FirstShort(b: bytes, i: nat) returns (k: nat)
    requires (forall j :: 0 <= j < i && j < |b| ==> b[j] >= 0x80) && exists j :: i <= j < |b| && b[j] < 0x80
    ensures k < |b| && b[k] < 0x80 && forall j :: 0 <= j < k ==> b[j] >= 0x80
    decreases |b| - i
  {
    if b[i] < 0x80 {
      k := i;
    } else {
      k := FirstShort(b, i + 1);
    }
  }

  lemma {:induction false} LowBitsOfPrefix(a: bytes, b: bytes, n: nat)
    requires n <= |a| && n <= |b| && a[..n] == b[..n]
    ensures LowBits(a, n) == LowBits(b, n)
    decreases n
  {
    if n > 0 {
      assert a[0] == a[..n][0] == b[0];
      assert a[1..][..n - 1] == a[..n][1..] == b[1..][..n - 1];
      LowBitsOfPrefix(a[1..], b[1..], n - 1);
    }
  }

  /** What is decoded depends on the bytes it takes alone, and fewer bytes decode to nothing. */
  lemma UvarintIsLocal(b: bytes, rest: bytes, k: nat)
    requires Uvarint(b).Some?
    ensures
      var n := Uvarint(b).value.1;
      && n <= |b| && Uvarint(b[..n] + rest) == Uvarint(b)
      && (k < n ==> Uvarint(b[..k]) == None)
  {
    hide UvarintFrom, LowBits;
    UvarintExactly(b);
    var n: nat :| EndsAt(b, n);
    var a := b[..n] + rest;
    UvarintExactly(a);
    assert EndsAt(a, n) && a[..n] == b[..n];
    assert a[n - 1] == b[n - 1];
    LowBitsOfPrefix(a, b, n);
    if k < n {
      NeverEnds(b[..k], 0);
    }
  }
}
