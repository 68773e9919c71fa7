/**
 The table-driven instruction-length decoder of the inline-hook library (x86-64 build):
 `snare_op1`, `snare_op2` and `snare_disasm`.
 */
module SnareDecoder {
  import opened Bytes
  import opened SnareOpcodes

  predicate IsLegacyPrefix(c: byte) {
    c == 0xF0 || c == 0xF2 || c == 0xF3 || c == 0x2E || c == 0x36 || c == 0x3E || c == 0x26 ||
    c == 0x64 || c == 0x65 || c == 0x66 || c == 0x67
  }

  predicate IsRex(c: byte) {
    c / 16 == 4
  }

  predicate RexW(c: byte) {
    IsRex(c) && c / 8 % 2 == 1
  }

  function Op1(b: byte): Form {
    if b < 0x40 then
      if b == 0x0F then Escape
      else if b % 8 < 4 then Modrm
      else if b % 8 == 4 then Imm8
      else if b % 8 == 5 then Imm
      else Bare
    else if b < 0x60 then Bare
    else if b < 0x70 then
      if b == 0x62 then Invalid
      else if b == 0x63 then Modrm
      else if b == 0x68 then Imm
      else if b == 0x69 then ModrmImm
      else if b == 0x6A then Imm8
      else if b == 0x6B then ModrmImm8
      else Bare
    else if b < 0x80 then Rel8
    else if b < 0x90 then
      if b == 0x81 then ModrmImm else if b < 0x84 then ModrmImm8 else Modrm
    else if b < 0xA0 then
      if b == 0x9A then Invalid else Bare
    else if b < 0xB0 then
      if b < 0xA4 then Special
      else if b == 0xA8 then Imm8
      else if b == 0xA9 then Imm
      else Bare
    else if b < 0xC0 then
      if b < 0xB8 then Imm8 else Imm
    else if b < 0xD0 then
      if b == 0xC0 || b == 0xC1 || b == 0xC6 then ModrmImm8
      else if b == 0xC7 then ModrmImm
      else if b == 0xC2 || b == 0xC8 || b == 0xCA then Special
      else if b == 0xC4 || b == 0xC5 then Invalid
      else if b == 0xCD then Imm8
      else Bare
    else if b < 0xE0 then
      if b == 0xD4 || b == 0xD5 then Imm8 else if b == 0xD6 || b == 0xD7 then Bare else Modrm
    else if b < 0xF0 then
      if b < 0xE4 || b == 0xEB then Rel8
      else if b < 0xE8 then Imm8
      else if b < 0xEA then Rel32
      else if b == 0xEA then Invalid
      else Bare
    else
      if b == 0xF6 || b == 0xF7 then Group3 else if b >= 0xFE then Modrm else Bare
  }

  function Op2(b: byte): Form {
    if b < 0x10 then
      if b < 0x04 || b == 0x0D then Modrm
      else if b == 0x04 || b == 0x0A || b == 0x0C then Invalid
      else if b == 0x0F then ModrmImm8
      else Bare
    else if b < 0x20 then Modrm
    else if b < 0x30 then
      if 0x24 <= b < 0x28 then Invalid else Modrm
    else if b < 0x40 then
      if b < 0x36 then Bare else Invalid
    else if b < 0x70 then Modrm
    else if b < 0x80 then
      if b < 0x74 then ModrmImm8
      else if b == 0x77 then Bare
      else if b == 0x7A || b == 0x7B then Invalid
      else Modrm
    else if b < 0x90 then Rel32
    else if b < 0xA0 then Modrm
    else if b < 0xB0 then
      if b < 0xA3 || 0xA8 <= b <= 0xAA then Bare
      else if b == 0xA4 || b == 0xAC then ModrmImm8
      else if b == 0xA6 || b == 0xA7 then Invalid
      else Modrm
    else if b < 0xC0 then
      if b == 0xBA then ModrmImm8 else Modrm
    else if b < 0xD0 then
      if b == 0xC2 || 0xC4 <= b <= 0xC6 then ModrmImm8
      else if b >= 0xC8 then Bare
      else Modrm
    else Modrm
  }

  /**
   Outcome of decoding one instruction. `reloc` is the offset of a displacement that has to be
   adjusted when the instruction moves, 0 when there is none. `Truncated` stands for a read past
   the last readable byte.
   */
  datatype Decoded = Insn(len: nat, reloc: nat) | Unsupported | Truncated

  /** What the prefixes say: 16-bit operands, REX.W, and 32-bit addresses. */
  datatype Prefixes = Prefixes(op16: bool, rexW: bool, addr32: bool)

  function LegacyEnd(code: seq<byte>, at: nat): (end: nat)
    requires at <= |code|
    ensures at <= end <= |code|
    decreases |code| - at
  {
    if at < |code| && IsLegacyPrefix(code[at]) then LegacyEnd(code, at + 1) else at
  }

  function Mod(m: byte): nat { m / 64 }
  function Reg(m: byte): nat { m / 8 % 8 }
  function Rm(m: byte): nat { m % 8 }

  predicate RipRelative(m: byte) {
    Mod(m) == 0 && Rm(m) == 5
  }

  /** SIB plus displacement bytes after a ModR/M byte, as the decoder counts them. */
  function ModrmTail(m: byte): nat {
    (if Mod(m) != 3 && Rm(m) == 4 then 1 else 0) +
    (if Mod(m) == 1 then 1 else if Mod(m) == 2 || RipRelative(m) then 4 else 0)
  }

  function ImmSize(p: Prefixes): nat {
    if p.op16 then 2 else 4
  }

  function Decode(code: seq<byte>): Decoded {
    var n := LegacyEnd(code, 0);
    var p := Prefixes(0x66 in code[..n], false, 0x67 in code[..n]);
    if n == |code| then Truncated
    else if IsRex(code[n]) then
      var w := RexW(code[n]);
      DecodeOpcode(code, n + 1, p.(rexW := w, op16 := p.op16 && !w))
    else DecodeOpcode(code, n, p)
  }

  function DecodeOpcode(code: seq<byte>, at: nat, p: Prefixes): Decoded
    requires at <= |code|
  {
    if at == |code| then Truncated
    else if !Op1(code[at]).Escape? then DecodeOperands(code, at + 1, code[at], Op1(code[at]), p)
    else if at + 1 == |code| then Truncated
    else if code[at + 1] == 0x38 then DecodeOperands(code, at + 3, 0x0F, Modrm, p)
    else if code[at + 1] == 0x3A then DecodeOperands(code, at + 3, 0x0F, ModrmImm8, p)
    else DecodeOperands(code, at + 2, 0x0F, Op2(code[at + 1]), p)
  }

  function DecodeOperands(code: seq<byte>, at: nat, op: byte, f: Form, p: Prefixes): Decoded {
    match f
    case Invalid | Escape => Unsupported
    case Special =>
      if 0xA0 <= op <= 0xA3 then Insn(at + if p.addr32 then 4 else 8, 0)
      else if op == 0xC2 || op == 0xCA then Insn(at + 2, 0)
      else if op == 0xC8 then Insn(at + 3, 0)
      else Unsupported
    case Group3 =>
      if at >= |code| then Truncated
      else
        var m := code[at];
        var imm := if Reg(m) > 1 then 0 else if op == 0xF6 then 1 else ImmSize(p);
        Insn(at + 1 + ModrmTail(m) + imm, 0)
    case Modrm | ModrmImm8 | ModrmImm =>
      if at >= |code| then Truncated
      else
        var m := code[at];
        var imm := if f.Modrm? then 0 else if f.ModrmImm8? then 1 else ImmSize(p);
        Insn(at + 1 + ModrmTail(m) + imm, if RipRelative(m) then at + 1 else 0)
    case Bare => Insn(at, 0)
    case Imm8 | Rel8 => Insn(at + 1, 0)
    case Imm => Insn(at + if p.rexW && op / 8 == 0xB8 / 8 then 8 else ImmSize(p), 0)
    case Rel32 => Insn(at + ImmSize(p), at)
  }

  /** `snare_disasm`: one pass over the bytes, advancing `len`; first the prefixes. */
  method Disasm(code: seq<byte>) returns (d: Decoded)
    ensures d == Decode(code)
  {
    var len, op16, addr32, rexW := 0, false, false, false;
    while len < |code| && IsLegacyPrefix(code[len])
      invariant len <= |code|
      invariant LegacyEnd(code, len) == LegacyEnd(code, 0)
      invariant op16 == (0x66 in code[..len]) && addr32 == (0x67 in code[..len])
    {
      assert code[..len + 1] == code[..len] + [code[len]];
      if code[len] == 0x66 { op16 := true; }
      if code[len] == 0x67 { addr32 := true; }
      len := len + 1;
    }
    if len == |code| { return Truncated; }
    if IsRex(code[len]) {
      if RexW(code[len]) { rexW, op16 := true, false; }
      len := len + 1;
    }
    d := DisasmOpcode(code, len, Prefixes(op16, rexW, addr32));
  }

  /** The middle of `snare_disasm`: the opcode bytes and their table entry. */
  method DisasmOpcode(code: seq<byte>, at: nat, p: Prefixes) returns (d: Decoded)
    requires at <= |code|
    ensures d == DecodeOpcode(code, at, p)
  {
    if at == |code| { return Truncated; }
    var op, form, len := code[at], Op1(code[at]), at + 1;
    if form.Escape? {
      if len == |code| { return Truncated; }
      var b := code[len];
      len := len + 1;
      if b == 0x38 {
        len, form := len + 1, Modrm;
      } else if b == 0x3A {
        len, form := len + 1, ModrmImm8;
      } else {
        form := Op2(b);
      }
    }
    d := DisasmOperands(code, len, op, form, p);
  }

  /** The rest of `snare_disasm`: operand bytes after the opcode. */
  method DisasmOperands(code: seq<byte>, at: nat, op: byte, form: Form, p: Prefixes) returns (d: Decoded)
    requires form.Special? ==> 0xA0 <= op <= 0xA3 || op == 0xC2 || op == 0xCA || op == 0xC8
    ensures d == DecodeOperands(code, at, op, form, p)
  {
    var len, reloc := at, 0;
    var immSize := if p.op16 then 2 else 4;
    if form.Invalid? || form.Escape? { return Unsupported; }
    if form.Special? {
      if 0xA0 <= op <= 0xA3 { return Insn(len + if p.addr32 then 4 else 8, 0); }
      if op == 0xC2 || op == 0xCA { return Insn(len + 2, 0); }
      return Insn(len + 3, 0);
    }
    if HasModrm(form) || form.Group3? {
      if len >= |code| { return Truncated; }
      var m := code[len];
      len := len + 1;
      if Mod(m) != 3 && Rm(m) == 4 { len := len + 1; }
      if RipRelative(m) && !form.Group3? { reloc := len; }
      if Mod(m) == 1 {
        len := len + 1;
      } else if Mod(m) == 2 || RipRelative(m) {
        len := len + 4;
      }
      if form.Group3? {
        return Insn(if Reg(m) > 1 then len else len + if op == 0xF6 then 1 else immSize, 0);
      }
    }
    if form.ModrmImm8? || form.Imm8? || form.Rel8? { len := len + 1; }
    if form.ModrmImm? || form.Imm? {
      len := len + if form.Imm? && p.rexW && op / 8 == 0xB8 / 8 then 8 else immSize;
    }
    if form.Rel32? { reloc, len := len, len + immSize; }
    return Insn(len, reloc);
  }
}
