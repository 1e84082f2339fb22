/** Byte strings as bit strings, most significant bit first (the bit helpers of patricia.go). */
module Bits {
  import opened Prelude

  type BitString = seq<bool>

  /** b >> (7-i): the bits of b up to bit i. */
  function High(b: byte, i: nat): nat
    requires i < 8
    decreases 8 - i
  {
    if i == 7 then b else High(b, i + 1) / 2
  }

  function BitAt(b: byte, i: nat): bool
    requires i < 8
  {
    High(b, i) % 2 == 1
  }

  function ShiftLeft(x: nat, n: nat): nat {
    if n == 0 then x else 2 * ShiftLeft(x, n - 1)
  }

  /** b >> (7-i) << (7-i): b with the bits after bit i cleared. */
  function Mask(b: byte, i: nat): nat
    requires i < 8
  {
    ShiftLeft(High(b, i), 7 - i)
  }

  lemma HighHalves(b: byte, i: nat)
    requires 0 < i < 8
    ensures High(b, i) == 2 * High(b, i - 1) + if BitAt(b, i) then 1 else 0
  {
  }

  lemma HighOfFirst(b: byte)
    ensures High(b, 0) == if BitAt(b, 0) then 1 else 0
  {
    assert High(b, 4) == b / 2 / 2 / 2;
    assert High(b, 2) == High(b, 4) / 2 / 2;
  }

  lemma {:induction false} HighIsMonotone(x: byte, y: byte, i: nat)
    requires i < 8 && x <= y
    ensures High(x, i) <= High(y, i)
    decreases 8 - i
  {
    if i < 7 {
      HighIsMonotone(x, y, i + 1);
    }
  }

  lemma {:induction false} ShiftLeftIsInjective(x: nat, y: nat, n: nat)
    requires ShiftLeft(x, n) == ShiftLeft(y, n)
    ensures x == y
  {
    if n > 0 {
      ShiftLeftIsInjective(x, y, n - 1);
    }
  }

  ghost predicate AgreeUpTo(x: byte, y: byte, i: nat)
    requires i <= 8
  {
    forall j: nat :: j < i ==> BitAt(x, j) == BitAt(y, j)
  }

  lemma {:induction false} HighAgrees(x: byte, y: byte, i: nat)
    requires i < 8
    ensures High(x, i) == High(y, i) <==> AgreeUpTo(x, y, i + 1)
  {
    hide High, BitAt;
    if i == 0 {
      HighOfFirst(x);
      HighOfFirst(y);
    } else {
      HighAgrees(x, y, i - 1);
      HighHalves(x, i);
      HighHalves(y, i);
    }
  }

  /** Two bytes have equal masks exactly when they agree on the bits kept. */
  lemma MaskAgrees(x: byte, y: byte, i: nat)
    requires i < 8
    ensures Mask(x, i) == Mask(y, i) <==> AgreeUpTo(x, y, i + 1)
  {
    HighAgrees(x, y, i);
    if Mask(x, i) == Mask(y, i) {
      ShiftLeftIsInjective(High(x, i), High(y, i), 7 - i);
    }
  }

  lemma AgreeingBytesAreEqual(x: byte, y: byte)
    requires AgreeUpTo(x, y, 8)
    ensures x == y
  {
    HighAgrees(x, y, 7);
  }

  /** The first bit in which two bytes differ orders them. */
  lemma FirstDifferenceOrders(x: byte, y: byte, i: nat)
    requires i < 8 && AgreeUpTo(x, y, i) && !BitAt(x, i) && BitAt(y, i)
    ensures x < y
  {
    assert High(x, i) < High(y, i) by {
      hide High, BitAt;
      if i == 0 {
        HighOfFirst(x);
        HighOfFirst(y);
      } else {
        HighAgrees(x, y, i - 1);
        HighHalves(x, i);
        HighHalves(y, i);
      }
    }
    if y <= x {
      HighIsMonotone(y, x, i);
    }
  }

  // --- strings

  function ToBits(k: bytes): (b: BitString)
    ensures |b| == 8 * |k|
  {
    seq(8 * |k|, j requires 0 <= j < 8 * |k| => BitAt(k[j / 8], j % 8))
  }

  lemma BitOfByte(k: bytes, i: nat, j: nat)
    requires i < |k| && j < 8
    ensures ToBits(k)[8 * i + j] == BitAt(k[i], j)
  {
  }

  lemma ToBitsTake(k: bytes, n: nat)
    requires n <= |k|
    ensures ToBits(k[..n]) == ToBits(k)[..8 * n]
  {
  }

  lemma ToBitsIsInjective(k: bytes, l: bytes)
    requires ToBits(k) == ToBits(l)
    ensures k == l
  {
    assert 8 * |k| == 8 * |l|;
    forall i | 0 <= i < |k| ensures k[i] == l[i] {
      forall j: nat | j < 8 ensures BitAt(k[i], j) == BitAt(l[i], j) {
        BitOfByte(k, i, j);
        BitOfByte(l, i, j);
      }
      AgreeingBytesAreEqual(k[i], l[i]);
    }
  }

  /** A byte string is a prefix of another exactly when its bits are. */
  lemma PrefixByBits(k: bytes, l: bytes)
    ensures k <= l <==> ToBits(k) <= ToBits(l)
  {
    if k <= l {
      ToBitsTake(l, |k|);
      assert l[..|k|] == k;
    }
    if ToBits(k) <= ToBits(l) {
      ToBitsTake(l, |k|);
      ToBitsIsInjective(l[..|k|], k);
    }
  }

  /** A proper prefix goes on with exactly one bit. */
  lemma NextBit(p: BitString, b: BitString)
    requires p < b
    ensures forall bit :: p + [bit] <= b <==> bit == b[|p|]
  {
    assert b[..|p| + 1] == p + [b[|p|]];
  }

  // --- prefixes that end inside a byte

  /** The number of bits in a prefix of so many bytes whose last byte counts up to keybit. */
  function PrefixLen(key: bytes, keybit: nat): int {
    8 * (|key| - 1) + keybit + 1
  }

  predicate IsPosition(key: bytes, keybit: nat) {
    keybit < 8 && (key == [] ==> keybit == 7)
  }

  function PrefixBits(key: bytes, keybit: nat): BitString
    requires IsPosition(key, keybit)
  {
    ToBits(key)[..PrefixLen(key, keybit)]
  }

  /** Where a prefix of m bits ends. */
  lemma PositionOf(key: bytes, m: nat)
    requires m <= 8 * |key|
    ensures
      var common, bit := (m + 7) / 8, (m + 7) % 8;
      && common <= |key|
      && IsPosition(key[..common], bit)
      && PrefixBits(key[..common], bit) == ToBits(key)[..m]
  {
    ToBitsTake(key, (m + 7) / 8);
  }

  /** hasPrefix: s starts with the first PrefixLen(prefix, bit) bits of prefix. */
  predicate HasPrefix(s: bytes, prefix: bytes, bit: nat)
    requires IsPosition(prefix, bit)
  {
    var n := |prefix|;
    n == 0 || (n <= |s| && s[..n - 1] == prefix[..n - 1] && Mask(s[n - 1], bit) == Mask(prefix[n - 1], bit))
  }

  lemma HasPrefixIsBitPrefix(s: bytes, prefix: bytes, bit: nat)
    requires IsPosition(prefix, bit)
    ensures HasPrefix(s, prefix, bit) <==> PrefixBits(prefix, bit) <= ToBits(s)
  {
    hide BitAt, Mask;
    var n, m := |prefix|, PrefixLen(prefix, bit);
    if 0 < n <= |s| {
      var x, y, base := ToBits(s), ToBits(prefix), 8 * (n - 1);
      MaskAgrees(s[n - 1], prefix[n - 1], bit);
      LastByteBits(s[..n]);
      LastByteBits(prefix);
      ToBitsTake(s, n);
      ToBitsTake(s, n - 1);
      ToBitsTake(prefix, n - 1);
      if s[..n - 1] == prefix[..n - 1] && AgreeUpTo(s[n - 1], prefix[n - 1], bit + 1) {
        forall i: nat | i < m ensures x[i] == y[i] {
          if i < base {
            assert x[i] == x[..base][i] && y[i] == y[..base][i];
          }
        }
      }
      if y[..m] <= x {
        assert x[..base] == y[..base];
        ToBitsIsInjective(s[..n - 1], prefix[..n - 1]);
        var u, v := s[n - 1], prefix[n - 1];
        forall j: nat | j < bit + 1 ensures BitAt(u, j) == BitAt(v, j) {
          BitOfByte(s, n - 1, j);
          BitOfByte(prefix, n - 1, j);
        }
      }
    }
  }

  lemma LastByteBits(k: bytes)
    requires k != []
    ensures forall i :: 8 * (|k| - 1) <= i < 8 * |k| ==> ToBits(k)[i] == BitAt(k[|k| - 1], i - 8 * (|k| - 1))
  {
  }

  /** childIdx: the bit of key just after the prefix. */
  function ChildIdx(key: bytes, len: nat, bit: nat): bool
    requires bit < 8 && if bit == 7 then len < |key| else 0 < len <= |key|
  {
    if bit == 7 then BitAt(key[len], 0) else BitAt(key[len - 1], bit + 1)
  }

  lemma ChildIdxIsNextBit(key: bytes, prefix: bytes, bit: nat)
    requires IsPosition(prefix, bit) && PrefixLen(prefix, bit) < 8 * |key|
    ensures if bit == 7 then |prefix| < |key| else 0 < |prefix| <= |key|
    ensures ChildIdx(key, |prefix|, bit) == ToBits(key)[PrefixLen(prefix, bit)]
  {
    if bit == 7 {
      BitOfByte(key, |prefix|, 0);
    } else {
      BitOfByte(key, |prefix| - 1, bit + 1);
    }
  }
}
