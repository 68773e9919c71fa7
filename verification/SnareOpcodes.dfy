/**
 The opcode maps by instruction families, from appendix A of volume 2 of the Intel Software Developer's
 Manual, and the bytes that count as prefixes. What the decoder's tables say is judged against this.
 */
module SnareOpcodes {
  import opened Bytes

  /** Which operand bytes follow an opcode. */
  datatype Form =
    | Bare         // no operand bytes
    | Modrm
    | ModrmImm8
    | ModrmImm     // operand-size immediate
    | Imm8
    | Imm
    | Rel8
    | Rel32
    | Special      // A0-A3, C2, CA, C8
    | Group3       // F6, F7
    | Escape       // 0F
    | Invalid

  /** Lock and repeat, segment overrides, operand size and address size. */
  const LEGACY: set<byte> := {0xF0, 0xF2, 0xF3, 0x2E, 0x36, 0x3E, 0x26, 0x64, 0x65, 0x66, 0x67}

  predicate Rex(c: byte) { 0x40 <= c <= 0x4F }

  /** A REX prefix with its W bit. */
  predicate Wide(c: byte) { 0x48 <= c <= 0x4F }

  // ---------------------------------------------------------------------------------------------
  // The one-byte map
  // ---------------------------------------------------------------------------------------------

  /** ADD, OR, ADC, SBB, AND, SUB, XOR, CMP: four forms with ModR/M, then AL and eAX with an immediate. */
  predicate Arithmetic(b: byte) { b < 0x40 && b % 8 < 6 }

  /** The same operations, and moves, shifts, multiplication and exchange, with an explicit immediate. */
  predicate WithImm(b: byte) { b == 0x69 || b == 0x81 || b == 0xC7 }
  predicate WithImm8(b: byte) {
    b == 0x6B || b == 0x80 || b == 0x82 || b == 0x83 || b == 0xC0 || b == 0xC1 || b == 0xC6
  }

  /** MOVSXD; TEST to POP; shifts by one and by CL; x87; INC, DEC and group 5. */
  predicate WithModrm(b: byte) {
    b == 0x63 || 0x84 <= b <= 0x8F || 0xD0 <= b <= 0xD3 || 0xD8 <= b <= 0xDF || b == 0xFE || b == 0xFF
  }

  /** PUSH, TEST and MOV of a byte, INT, AAM and AAD, IN and OUT by port number. */
  predicate TakesImm8(b: byte) {
    b == 0x6A || b == 0xA8 || 0xB0 <= b <= 0xB7 || b == 0xCD || b == 0xD4 || b == 0xD5 || 0xE4 <= b <= 0xE7
  }

  /** PUSH, TEST and MOV of an operand-size immediate. */
  predicate TakesImm(b: byte) { b == 0x68 || b == 0xA9 || 0xB8 <= b <= 0xBF }

  /** Jcc, LOOPcc, LOOP, JRCXZ and short JMP. */
  predicate ShortBranch(b: byte) { 0x70 <= b <= 0x7F || 0xE0 <= b <= 0xE3 || b == 0xEB }

  predicate CallOrJump(b: byte) { b == 0xE8 || b == 0xE9 }

  /** MOV by absolute address, RET and RETF with a count, ENTER. */
  predicate Peculiar(b: byte) { 0xA0 <= b <= 0xA3 || b == 0xC2 || b == 0xC8 || b == 0xCA }

  /** EVEX, VEX and the far transfers that 64-bit mode does not have. */
  predicate NotTaken(b: byte) { b == 0x62 || b == 0x9A || b == 0xC4 || b == 0xC5 || b == 0xEA }

  function OneByte(b: byte): Form {
    if b == 0x0F then Escape
    else if Arithmetic(b) then (if b % 8 == 4 then Imm8 else if b % 8 == 5 then Imm else Modrm)
    else if WithImm(b) then ModrmImm
    else if WithImm8(b) then ModrmImm8
    else if WithModrm(b) then Modrm
    else if TakesImm8(b) then Imm8
    else if TakesImm(b) then Imm
    else if ShortBranch(b) then Rel8
    else if CallOrJump(b) then Rel32
    else if Peculiar(b) then Special
    else if b == 0xF6 || b == 0xF7 then Group3
    else if NotTaken(b) then Invalid
    else Bare
  }

  // ---------------------------------------------------------------------------------------------
  // The map behind 0F
  // ---------------------------------------------------------------------------------------------

  /** System instructions, UD2, counters and SYSENTER, EMMS, PUSH and POP of FS and GS, CPUID, RSM, BSWAP. */
  predicate Alone(b: byte) {
    || 0x05 <= b <= 0x09 || b == 0x0B || b == 0x0E || 0x30 <= b <= 0x35 || b == 0x77
    || 0xA0 <= b <= 0xA2 || 0xA8 <= b <= 0xAA || 0xC8 <= b <= 0xCF
  }

  /** 3DNow, PSHUF and vector shifts, double shifts, bit tests, compares, inserts and shuffles. */
  predicate WithSelector(b: byte) {
    b == 0x0F || 0x70 <= b <= 0x73 || b == 0xA4 || b == 0xAC || b == 0xBA || b == 0xC2 || 0xC4 <= b <= 0xC6
  }

  predicate Unassigned(b: byte) {
    || b == 0x04 || b == 0x0A || b == 0x0C || 0x24 <= b <= 0x27 || 0x36 <= b <= 0x3F
    || b == 0x7A || b == 0x7B || b == 0xA6 || b == 0xA7
  }

  function TwoByte(b: byte): Form {
    if Alone(b) then Bare
    else if WithSelector(b) then ModrmImm8
    else if Unassigned(b) then Invalid
    else if 0x80 <= b <= 0x8F then Rel32
    else Modrm
  }

  // ---------------------------------------------------------------------------------------------
  // ModR/M
  // ---------------------------------------------------------------------------------------------

  predicate HasModrm(f: Form) {
    f.Modrm? || f.ModrmImm8? || f.ModrmImm?
  }

  /** The bytes whose mode is 00 and whose operand is relative to the next instruction. */
  const RIP_FORMS: set<byte> := {0x05, 0x0D, 0x15, 0x1D, 0x25, 0x2D, 0x35, 0x3D}
}
