/** Encoders from data to programs (item.go, asm/asm.go, txvmutil/builder.go). */
module Encoding {
  import opened Prelude
  import opened Varint
  import opened Items
  import Op = Opcodes

  /** writePushdata, which asm.go and builder.go repeat. */
  function Pushdata(data: bytes): bytes {
    PutUvarint(|data| + Op.MIN_PUSHDATA) + data
  }

  function EncodeInt(i: int64): bytes {
    if Op.IsSmallInt(i) then [i]
    else Pushdata(PutUvarint(ToUint64(i))) + [Op.INT]
  }

  function Encode(v: Data): bytes
    decreases v, 0
  {
    match v
    case Int(i) => EncodeInt(i)
    case Bytes(b) => Pushdata(b)
    case Tuple(t) => EncodeAll(t) + EncodeInt(Length(|t|)) + [Op.TUPLE]
  }

  function EncodeAll(t: seq<Data>): bytes
    decreases t, 0
  {
    if t == [] then [] else Encode(t[0]) + EncodeAll(t[1..])
  }

  /** A length as the int64 it always is in the source. */
  function Length(n: nat): int64 {
    if n <= MAX_INT64 then n else MAX_INT64
  }

  /** pushint64 in asm.go and writePushint64 in builder.go: negative numbers are negated at run time. */
  function PushInt64(n: int64): bytes
    decreases n < 0
  {
    if Op.IsSmallInt(n) then [n]
    else if n < 0 && n != MIN_INT64 then PushInt64(-n) + [Op.NEG]
    else Pushdata(PutUvarint(ToUint64(n))) + [Op.INT]
  }
}
