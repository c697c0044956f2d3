/** Instruction encoding of the Universal Machine, shared by the interpreter
    (src/cpu.rs) and the disassembler (src/bin/disassembler.rs).

    The top four bits of a word select the operator. The standard operators
    name three registers a, b, c in the 3-bit fields at bits 6, 3 and 0; the
    immediate-load operator instead holds a register number at bit 25 and a
    25-bit value in the low bits.
 */
module Instruction {
  import opened Words

  /** The fourteen operators, plus the two codes that name none. */
  datatype Op =
    | CMOVE | RMEM | WMEM | ADD | MUL | DIV | NAND | HALT
    | ALLOC | FREE | OUT | IN | JUMP | IMM
    | INVALID(code: nat)

  /** The operator number of each operator (src/cpu.rs:3-9). */
  function Code(op: Op): nat {
    match op
    case CMOVE => 0
    case RMEM => 1
    case WMEM => 2
    case ADD => 3
    case MUL => 4
    case DIV => 5
    case NAND => 6
    case HALT => 7
    case ALLOC => 8
    case FREE => 9
    case OUT => 10
    case IN => 11
    case JUMP => 12
    case IMM => 13
    case INVALID(c) => c
  }

  /** `w >> 28` */
  function Opcode(w: u32): (n: nat)
    ensures n < 16
  {
    w / 0x1000_0000
  }

  /** The operator a word selects. */
  function OpOf(w: u32): (op: Op)
    ensures Code(op) == Opcode(w)
    ensures op.INVALID? <==> Opcode(w) >= 14
  {
    match Opcode(w)
    case 0 => CMOVE
    case 1 => RMEM
    case 2 => WMEM
    case 3 => ADD
    case 4 => MUL
    case 5 => DIV
    case 6 => NAND
    case 7 => HALT
    case 8 => ALLOC
    case 9 => FREE
    case 10 => OUT
    case 11 => IN
    case 12 => JUMP
    case 13 => IMM
    case n => INVALID(n)
  }

  /** A word whose operator number is the code of an operator selects it. */
  lemma OpOfCode(op: Op, w: u32)
    requires !op.INVALID? && Opcode(w) == Code(op)
    ensures OpOf(w) == op
  {
  }

  /** `(w >> 6) & 7` */
  function FieldA(w: u32): RegIndex { w / 64 % 8 }

  /** `(w >> 3) & 7` */
  function FieldB(w: u32): RegIndex { w / 8 % 8 }

  /** `w & 7` */
  function FieldC(w: u32): RegIndex { w % 8 }

  /** `(w >> 25) & 7`, the destination of the immediate load. */
  function ImmReg(w: u32): RegIndex { w / 0x200_0000 % 8 }

  /** `w & 0x1FF_FFFF`, the 25-bit value of the immediate load. */
  function ImmValue(w: u32): (v: u32)
    ensures v < 0x200_0000
  {
    w % 0x200_0000
  }

  /** The word with operator number `op` and register fields a, b, c, all
      other bits clear. */
  function EncodeABC(op: nat, a: RegIndex, b: RegIndex, c: RegIndex): u32
    requires op < 16
  {
    op * 0x1000_0000 + a * 64 + b * 8 + c
  }

  /** The immediate-load word for register r and value v. */
  function EncodeImm(r: RegIndex, v: nat): u32
    requires v < 0x200_0000
  {
    13 * 0x1000_0000 + r * 0x200_0000 + v
  }

  /** Bits 9..27: ignored by every operator that uses the a, b, c layout. */
  function SpareBits(w: u32): nat { w / 512 % 0x8_0000 }

  /** Decoding recovers the fields an encoding was built from. */
  lemma DecodeEncodeABC(op: nat, a: RegIndex, b: RegIndex, c: RegIndex)
    requires op < 16
    ensures Opcode(EncodeABC(op, a, b, c)) == op
    ensures FieldA(EncodeABC(op, a, b, c)) == a
    ensures FieldB(EncodeABC(op, a, b, c)) == b
    ensures FieldC(EncodeABC(op, a, b, c)) == c
    ensures SpareBits(EncodeABC(op, a, b, c)) == 0
  {
    var w := EncodeABC(op, a, b, c);
    DivModUnique(w, 0x1000_0000, op, a * 64 + b * 8 + c);
    DivModUnique(w, 64, op * 0x40_0000 + a, b * 8 + c);
    DivModUnique(op * 0x40_0000 + a, 8, op * 0x8_0000, a);
    DivModUnique(w, 8, op * 0x200_0000 + a * 8 + b, c);
    DivModUnique(op * 0x200_0000 + a * 8 + b, 8, op * 0x40_0000 + a, b);
    DivModUnique(w, 512, op * 0x8_0000, a * 64 + b * 8 + c);
    DivModUnique(op * 0x8_0000, 0x8_0000, op, 0);
  }

  /** Re-encoding the decoded fields gives back the word exactly when the
      bits the fields do not cover are clear. */
  lemma EncodeDecodeABC(w: u32)
    ensures EncodeABC(Opcode(w), FieldA(w), FieldB(w), FieldC(w)) == w <==> SpareBits(w) == 0
  {
    Decompose(w);
  }

  /** Every word is the sum of its operator, spare and register fields. */
  lemma Decompose(w: u32)
    ensures w == Opcode(w) * 0x1000_0000 + SpareBits(w) * 512 + FieldA(w) * 64 + FieldB(w) * 8 + FieldC(w)
  {
    var x1, c := w / 8, w % 8;
    var x2, b := x1 / 8, x1 % 8;
    var x3, a := x2 / 8, x2 % 8;
    var x4, sp := x3 / 0x8_0000, x3 % 0x8_0000;
    DivModUnique(w, 64, x2, b * 8 + c);
    DivModUnique(w, 512, x3, a * 64 + b * 8 + c);
    DivModUnique(w, 0x1000_0000, x4, sp * 512 + a * 64 + b * 8 + c);
  }

  /** An immediate load loses nothing: 4 + 3 + 25 bits cover the word. */
  lemma ImmRoundTrip(w: u32)
    requires Opcode(w) == 13
    ensures EncodeImm(ImmReg(w), ImmValue(w)) == w
  {
  }

  lemma DecodeEncodeImm(r: RegIndex, v: nat)
    requires v < 0x200_0000
    ensures OpOf(EncodeImm(r, v)) == IMM
    ensures ImmReg(EncodeImm(r, v)) == r
    ensures ImmValue(EncodeImm(r, v)) == v
  {
  }
}
