/** Opcode numbers and instruction decoding (op/op.go). */
module Opcodes {
  import opened Prelude
  import opened Varint

  const INT: byte := 0x20
  const ADD: byte := 0x21
  const NEG: byte := 0x22
  const MUL: byte := 0x23
  const DIV: byte := 0x24
  const MOD: byte := 0x25
  const GT: byte := 0x26
  const NOT: byte := 0x27
  const AND: byte := 0x28
  const OR: byte := 0x29
  const ROLL: byte := 0x2a
  const BURY: byte := 0x2b
  const REVERSE: byte := 0x2c
  const GET: byte := 0x2d
  const PUT: byte := 0x2e
  const DEPTH: byte := 0x2f
  const NONCE: byte := 0x30
  const MERGE: byte := 0x31
  const SPLIT: byte := 0x32
  const ISSUE: byte := 0x33
  const RETIRE: byte := 0x34
  const AMOUNT: byte := 0x35
  const ASSET_ID: byte := 0x36
  const ANCHOR: byte := 0x37
  const VM_HASH: byte := 0x38
  const SHA256: byte := 0x39
  const SHA3: byte := 0x3a
  const CHECK_SIG: byte := 0x3b
  const LOG: byte := 0x3c
  const PEEK_LOG: byte := 0x3d
  const TX_ID: byte := 0x3e
  const FINALIZE: byte := 0x3f
  const VERIFY: byte := 0x40
  const JUMP_IF: byte := 0x41
  const EXEC: byte := 0x42
  const CALL: byte := 0x43
  const YIELD: byte := 0x44
  const WRAP: byte := 0x45
  const INPUT: byte := 0x46
  const OUTPUT: byte := 0x47
  const CONTRACT: byte := 0x48
  const SEED: byte := 0x49
  const SELF: byte := 0x4a
  const CALLER: byte := 0x4b
  const CONTRACT_PROGRAM: byte := 0x4c
  const TIME_RANGE: byte := 0x4d
  const PRV: byte := 0x4e
  const EXT: byte := 0x4f
  const EQ: byte := 0x50
  const DUP: byte := 0x51
  const DROP: byte := 0x52
  const PEEK: byte := 0x53
  const TUPLE: byte := 0x54
  const UNTUPLE: byte := 0x55
  const LEN: byte := 0x56
  const FIELD: byte := 0x57
  const ENCODE: byte := 0x58
  const CAT: byte := 0x59
  const SLICE: byte := 0x5a
  const BIT_NOT: byte := 0x5b
  const BIT_AND: byte := 0x5c
  const BIT_OR: byte := 0x5d
  const BIT_XOR: byte := 0x5e

  const MAX_SMALL_INT: byte := 0x1f
  const MIN_PUSHDATA: byte := 0x5f

  predicate IsSmallInt(n: int) {
    0 <= n <= MAX_SMALL_INT
  }

  /** An instruction: its opcode, its immediate data, and the number of program bytes it takes. */
  datatype Inst = Inst(opcode: byte, data: bytes, size: nat)

  /** Opcodes above MIN_PUSHDATA all decode to MIN_PUSHDATA with their immediate data. */
  function DecodeInst(prog: bytes): (r: Option<Inst>)
    ensures r.Some? ==> 0 < r.value.size <= |prog| && r.value.opcode <= MIN_PUSHDATA
  {
    match Uvarint(prog)
    case None => None
    case Some((opcode, n)) =>
      if opcode < MIN_PUSHDATA then Some(Inst(opcode, [], n))
      else
        var r := n + opcode - MIN_PUSHDATA;
        if |prog| < r then None else Some(Inst(MIN_PUSHDATA, prog[n..r], r))
  }

  /**
   An instruction is decoded from its own bytes alone, and from no fewer: what follows them is immaterial. Its
   data are as long as its opcode says.
   */
  lemma DecodesLocally(prog: bytes, rest: bytes, k: nat)
    requires DecodeInst(prog).Some?
    ensures
      var inst := DecodeInst(prog).value;
      && DecodeInst(prog[..inst.size] + rest) == Some(inst)
      && (k < inst.size ==> DecodeInst(prog[..k]) == None)
      && Uvarint(prog).Some?
      && (if Uvarint(prog).value.0 < 0x5f then inst.opcode == Uvarint(prog).value.0 && inst.data == []
          else inst.opcode == 0x5f && |inst.data| == Uvarint(prog).value.0 - 0x5f)
      && prog[..inst.size] == prog[..Uvarint(prog).value.1] + inst.data
  {
    hide Uvarint;
    var (v, n) := Uvarint(prog).value;
    var inst := DecodeInst(prog).value;
    var own := prog[..inst.size] + rest;
    UvarintIsLocal(prog, prog[n..inst.size] + rest, k);
    assert prog[..n] + (prog[n..inst.size] + rest) == own;
    assert v >= 0x5f ==> own[n..inst.size] == prog[n..inst.size];
    if n <= k < inst.size {
      UvarintIsLocal(prog, prog[n..k], k);
      assert prog[..n] + prog[n..k] == prog[..k];
    }
  }
}
