/**
 Reference view of x86-64 instructions, written from the field layout of the Intel SDM, volume 2,
 section 2.1 (prefixes, opcode, ModR/M, SIB, displacement, immediate) and section 2.2.1.6
 (RIP-relative addressing). It is stated on fields, not by scanning bytes, so the decoder and the
 trampoline builder can be judged against it.
 */
module SnareIsa {
  import opened Bytes
  import opened SnareDecoder
  import opened SnareOpcodes

  /** Fields that may be absent are sequences of length 0 or 1. */
  datatype Instr = Instr(legacy: seq<byte>, rex: seq<byte>, opcode: seq<byte>, modrm: seq<byte>, sib: seq<byte>,
                         disp: seq<byte>, imm: seq<byte>)
  {
    function Layout(): (s: seq<byte>)
      ensures |s| == Length()
    {
      legacy + rex + opcode + modrm + sib + disp + imm
    }

    function Length(): nat {
      |legacy| + |rex| + |opcode| + |modrm| + |sib| + |disp| + |imm|
    }

    function PrefixLength(): nat { |legacy| + |rex| }

    function Prefix(): Prefixes {
      var w := |rex| == 1 && Wide(rex[0]);
      Prefixes(0x66 in legacy && !w, w, 0x67 in legacy)
    }

    predicate OpcodeOk() {
      if |opcode| == 1 then
        && opcode[0] !in LEGACY && !Rex(opcode[0])
        && !OneByte(opcode[0]).Escape? && !OneByte(opcode[0]).Invalid?
      else if |opcode| == 2 then
        && opcode[0] == 0x0F && opcode[1] != 0x38 && opcode[1] != 0x3A
        && !TwoByte(opcode[1]).Invalid?
      else
        |opcode| == 3 && opcode[0] == 0x0F && (opcode[1] == 0x38 || opcode[1] == 0x3A)
    }

    function Form(): Form
      requires OpcodeOk()
    {
      if |opcode| == 1 then OneByte(opcode[0])
      else if |opcode| == 2 then TwoByte(opcode[1])
      else if opcode[1] == 0x38 then Modrm
      else ModrmImm8
    }

    predicate UsesModrm()
      requires OpcodeOk()
    {
      HasModrm(Form()) || Form().Group3?
    }

    /** ModR/M mod=00, r/m=100 with SIB base=101: a displacement without a base register. */
    predicate BaselessSib() {
      |modrm| == 1 && |sib| == 1 && Mod(modrm[0]) == 0 && sib[0] % 8 == 5
    }

    /** ModR/M with the SIB byte and displacement that tables 2-2 and 2-3 of the manual call for. */
    predicate ModrmOk() {
      && |modrm| == 1
      && var m := modrm[0];
      && |sib| == (if Mod(m) != 3 && Rm(m) == 4 then 1 else 0)
      && |disp| == (if Mod(m) == 1 then 1
                    else if Mod(m) == 2 || m in RIP_FORMS || BaselessSib() then 4
                    else 0)
    }

    /** Immediates and distances take two bytes with an operand-size prefix that no REX.W overrides, else four. */
    function OperandSize(): nat { if Prefix().op16 then 2 else 4 }

    function ImmLength(): nat
      requires OpcodeOk()
      requires UsesModrm() ==> |modrm| == 1
    {
      match Form()
      case Special =>
        if opcode[0] <= 0xA3 then (if Prefix().addr32 then 4 else 8)
        else if opcode[0] == 0xC8 then 3
        else 2
      case Group3 =>
        if Reg(modrm[0]) > 1 then 0 else if opcode[0] == 0xF6 then 1 else OperandSize()
      case ModrmImm8 | Imm8 | Rel8 => 1
      case ModrmImm | Rel32 => OperandSize()
      case Imm => if Prefix().rexW && 0xB8 <= opcode[0] <= 0xBF then 8 else OperandSize()
      case _ => 0
    }

    predicate Valid() {
      && (forall k | 0 <= k < |legacy| :: legacy[k] in LEGACY)
      && |rex| <= 1 && (|rex| == 1 ==> Rex(rex[0]))
      && OpcodeOk()
      && (if UsesModrm() then ModrmOk() else modrm == [] && sib == [] && disp == [])
      && |imm| == ImmLength()
    }

    predicate RipOperand() {
      |modrm| == 1 && modrm[0] in RIP_FORMS
    }

    /** LOOPcc, LOOP and JRCXZ: rel8 branches that have no rel32 form. */
    predicate CounterBranch() {
      |opcode| == 1 && 0xE0 <= opcode[0] <= 0xE3
    }

    /** XBEGIN: `C7 F8` and the distance to the address where an aborted transaction goes on. */
    predicate BeginsTransaction() {
      opcode == [0xC7] && modrm == [0xF8]
    }

    /** `FF 25` without prefixes: a jump to the address that is stored at a RIP-relative place. */
    predicate JumpsThroughMemory() {
      legacy == [] && rex == [] && opcode == [0xFF] && modrm == [0x25]
    }

    /**
     A near branch whose displacement the operand-size prefix shortens to two bytes, as the decoder reads it and AMD
     processors do; Intel processors ignore the prefix there, as `Meaning` does on short branches.
     */
    predicate NarrowBranch()
      requires OpcodeOk()
    {
      Form().Rel32? && Prefix().op16
    }

    /** The decoder sees the whole instruction and the displacement to adjust is four bytes long. */
    predicate Decodable()
      requires OpcodeOk()
    {
      !BaselessSib() && !NarrowBranch()
    }

    /** Position-dependent fields that the builder copies without adjusting them. */
    predicate CopiedBlindly()
      requires OpcodeOk()
    {
      CounterBranch() || BeginsTransaction() || (Form().Group3? && RipOperand())
    }

    predicate Supported()
      requires OpcodeOk()
    {
      Decodable() && !CopiedBlindly() && Length() <= 15
    }

    function Condition(): Condition
      requires OpcodeOk()
    {
      if |opcode| == 2 then OnFlags(opcode[1] % 16)
      else if opcode[0] == 0xE8 then Call
      else if opcode[0] / 16 == 7 then OnFlags(opcode[0] % 16)
      else if CounterBranch() then OnCounter(opcode[0], Prefix().addr32)
      else Always
    }

    /** What the instruction does when it sits at address `at`. */
    function Meaning(at: int): Meaning
      requires Valid() && Decodable()
    {
      var next := at + Length();
      if Form().Rel8? then Transfer(Condition(), next + Signed8(imm[0]))
      else if Form().Rel32? then Transfer(Condition(), next + Signed32(FromLe32(imm)))
      else if BeginsTransaction() then
        Transaction(next + if |imm| == 4 then Signed32(FromLe32(imm)) else Signed16(imm[0], imm[1]))
      else if JumpsThroughMemory() then JumpThrough(next + Signed32(FromLe32(disp)))
      else if RipOperand() then
        var a := next + Signed32(FromLe32(disp));
        Operation(this.(disp := []), Address(if Prefix().addr32 then a % TWO32 else a))
      else Operation(this, NoAddress)
    }

    /** Offset of the field the decoder reports for relocation. */
    function RelocOffset(): nat
      requires OpcodeOk()
    {
      if Form().Rel32? then PrefixLength() + |opcode|
      else if HasModrm(Form()) && RipOperand() then PrefixLength() + |opcode| + 1
      else 0
    }
  }

  datatype Condition = Always | Call | OnFlags(cc: nat) | OnCounter(op: byte, addr32: bool)

  datatype Operand = NoAddress | Address(a: int)

  /**
   A transfer of control to an absolute address, a jump to the address stored at one, a transaction
   with its absolute fallback address, or an operation with the absolute address of its RIP-relative
   operand. The displacement bytes of such an operand are not part of the meaning.
   */
  datatype Meaning =
    | Transfer(cond: Condition, target: int)
    | JumpThrough(slot: int)
    | Transaction(fallback: int)
    | Operation(what: Instr, operand: Operand)

  // ---------------------------------------------------------------------------------------------
  // The decoder's tables
  // ---------------------------------------------------------------------------------------------

  lemma FirstRowsAgree(b: byte)
    requires b < 0x40
    ensures Op1(b) == OneByte(b)
  {
  }

  lemma MiddleRowsAgree(b: byte)
    requires 0x40 <= b < 0xA0
    ensures Op1(b) == OneByte(b)
  {
  }

  lemma LastRowsAgree(b: byte)
    requires 0xA0 <= b
    ensures Op1(b) == OneByte(b)
  {
  }

  lemma EscapedRowsAgree(b: byte)
    ensures Op2(b) == TwoByte(b)
  {
  }

  /** The entries of both tables are those of the opcode maps. */
  lemma TablesAgree(b: byte)
    ensures Op1(b) == OneByte(b) && Op2(b) == TwoByte(b)
  {
    hide Op1, Op2, OneByte, TwoByte;
    EscapedRowsAgree(b);
    if b < 0x40 {
      FirstRowsAgree(b);
    } else if b < 0xA0 {
      MiddleRowsAgree(b);
    } else {
      LastRowsAgree(b);
    }
  }

  /** So are the bytes that count as prefixes. */
  lemma PrefixesAgree(c: byte)
    ensures (IsLegacyPrefix(c) <==> c in LEGACY) && (IsRex(c) <==> Rex(c)) && (RexW(c) <==> Wide(c))
    ensures Rex(c) ==> c !in LEGACY
  {
  }

  lemma EscapeAgrees(b: byte)
    ensures OneByte(b).Escape? <==> b == 0x0F
    ensures 0x0F !in LEGACY && !Rex(0x0F)
  {
  }

  /** The three fields of a ModR/M byte make it up. */
  lemma ModrmFields(m: byte)
    ensures m as int == 64 * Mod(m) + 8 * Reg(m) + Rm(m) && Mod(m) < 4 && Reg(m) < 8 && Rm(m) < 8
  {
    var q := m as int / 8;
    assert m as int == 8 * q + Rm(m) && q == 8 * (q / 8) + q % 8;
    Quotient(m as int, 64, q / 8, 8 * (q % 8) + Rm(m));
  }

  /** The RIP-relative ones are those of the manual. */
  lemma RipAgrees(m: byte)
    ensures RipRelative(m) <==> m in RIP_FORMS
  {
    ModrmFields(m);
    hide Mod, Reg, Rm;
    if RipRelative(m) {
      assert m as int == 8 * Reg(m) + 5;
    }
    if m in RIP_FORMS { ModrmOf(m, 0, (m as int - 5) / 8, 5); }
  }

  /** Only these fields make up the byte. */
  lemma ModrmOf(m: byte, mod: nat, reg: nat, rm: nat)
    requires m as int == 64 * mod + 8 * reg + rm && mod < 4 && reg < 8 && rm < 8
    ensures Mod(m) == mod && Reg(m) == reg && Rm(m) == rm
  {
    Quotient(m as int, 64, mod, 8 * reg + rm);
    Quotient(m as int, 8, 8 * mod + reg, rm);
    Quotient(8 * mod + reg, 8, mod, reg);
  }

  lemma {:induction false} LegacyEndOf(code: seq<byte>, n: nat, at: nat)
    requires at <= n < |code|
    requires forall k | 0 <= k < n :: IsLegacyPrefix(code[k])
    requires !IsLegacyPrefix(code[n])
    ensures LegacyEnd(code, at) == n
    decreases n - at
  {
    if at < n { LegacyEndOf(code, n, at + 1); }
  }

  /** `code` starts with the instruction `i`, read off field by field. */
  predicate StartsWith(code: seq<byte>, i: Instr) {
    var o := i.PrefixLength();
    && i.Length() <= |code|
    && (forall k | 0 <= k < |i.legacy| :: code[k] == i.legacy[k])
    && (|i.rex| == 1 ==> code[|i.legacy|] == i.rex[0])
    && (forall k | 0 <= k < |i.opcode| :: code[o + k] == i.opcode[k])
    && (|i.modrm| == 1 ==> code[o + |i.opcode|] == i.modrm[0])
  }

  lemma LayoutStartsWith(i: Instr, rest: seq<byte>)
    ensures StartsWith(i.Layout() + rest, i)
  {
    hide Instr.Layout;
    PrefixesAt(i, rest);
    OpcodeAt(i, rest);
    ModrmAt(i, rest);
  }

  lemma Inside(a: seq<byte>, b: seq<byte>, c: seq<byte>)
    ensures forall k | 0 <= k < |b| :: (a + b + c)[|a| + k] == b[k]
    ensures forall k | 0 <= k < |a| :: (a + b + c)[k] == a[k]
  {
  }

  lemma PrefixesAt(i: Instr, rest: seq<byte>)
    ensures var code := i.Layout() + rest;
            && (forall k | 0 <= k < |i.legacy| :: code[k] == i.legacy[k])
            && (forall k | 0 <= k < |i.rex| :: code[|i.legacy| + k] == i.rex[k])
  {
    var after := i.opcode + i.modrm + i.sib + i.disp + i.imm + rest;
    assert i.Layout() + rest == i.legacy + i.rex + after;
    Inside(i.legacy, i.rex, after);
  }

  lemma OpcodeAt(i: Instr, rest: seq<byte>)
    ensures forall k | 0 <= k < |i.opcode| :: (i.Layout() + rest)[i.PrefixLength() + k] == i.opcode[k]
  {
    var front := i.legacy + i.rex;
    var after := i.modrm + i.sib + i.disp + i.imm + rest;
    SplitBehind(front + i.opcode, i.modrm, i.sib, i.disp, i.imm, rest);
    Inside(front, i.opcode, after);
  }

  lemma SplitBehind(front: seq<byte>, a: seq<byte>, b: seq<byte>, c: seq<byte>, d: seq<byte>, rest: seq<byte>)
    ensures front + a + b + c + d + rest == front + (a + b + c + d + rest)
  {
    assert a + b + c + d + rest == a + (b + (c + (d + rest)));
    assert front + a + b + c + d + rest == front + (a + (b + (c + (d + rest))));
  }

  lemma ModrmAt(i: Instr, rest: seq<byte>)
    ensures forall k | 0 <= k < |i.modrm| :: (i.Layout() + rest)[i.PrefixLength() + |i.opcode| + k] == i.modrm[k]
  {
    var after := i.sib + i.disp + i.imm + rest;
    assert i.Layout() + rest == i.legacy + i.rex + i.opcode + i.modrm + after;
    Inside(i.legacy + i.rex + i.opcode, i.modrm, after);
  }

  /** What the decoder makes of a valid instruction, whatever bytes follow it. */
  function DecodedAs(i: Instr): Decoded
    requires i.Valid()
  {
    Insn(i.Length() - (if i.BaselessSib() then 4 else 0), i.RelocOffset())
  }

  /**
   The decoder finds the length and the relocated field of a valid instruction exactly when no SIB
   byte without base register hides a displacement; otherwise it comes out four bytes short.
   */
  lemma DecodeLayout(i: Instr, rest: seq<byte>)
    requires i.Valid()
    ensures Decode(i.Layout() + rest) == DecodedAs(i)
    ensures Decode(i.Layout() + rest) == Insn(i.Length(), i.RelocOffset()) <==> !i.BaselessSib()
  {
    LayoutStartsWith(i, rest);
    DecodeStart(i, i.Layout() + rest);
  }

  lemma DecodeStart(i: Instr, code: seq<byte>)
    requires i.Valid() && StartsWith(code, i)
    ensures Decode(code) == DecodedAs(i)
  {
    hide Op1, Op2, OneByte, TwoByte, IsLegacyPrefix, IsRex, RexW, Rex, Wide, LEGACY;
    var n := |i.legacy|;
    assert code[i.PrefixLength() + 0] == i.opcode[0];
    forall c ensures (IsLegacyPrefix(c) <==> c in LEGACY) && (IsRex(c) <==> Rex(c)) && (RexW(c) <==> Wide(c)) {
      PrefixesAgree(c);
    }
    EscapeAgrees(i.opcode[0]);
    if |i.rex| == 1 { PrefixesAgree(i.rex[0]); }
    LegacyEndOf(code, n, 0);
    assert code[..n] == i.legacy;
    DecodeOpcodeStart(i, code);
  }

  lemma DecodeOpcodeStart(i: Instr, code: seq<byte>)
    requires i.Valid() && StartsWith(code, i)
    ensures DecodeOpcode(code, i.PrefixLength(), i.Prefix()) == DecodedAs(i)
  {
    hide Op1, Op2, OneByte, TwoByte;
    var o := i.PrefixLength();
    TablesAgree(i.opcode[0]);
    EscapeAgrees(i.opcode[0]);
    if |i.opcode| > 1 { TablesAgree(i.opcode[1]); }
    assert code[o + 0] == i.opcode[0];
    assert |i.opcode| > 1 ==> code[o + 1] == i.opcode[1];
    assert DecodeOpcode(code, o, i.Prefix()) ==
           DecodeOperands(code, o + |i.opcode|, i.opcode[0], i.Form(), i.Prefix());
    DecodeOperandsStart(i, code, o + |i.opcode|);
  }

  lemma DecodeOperandsStart(i: Instr, code: seq<byte>, at: nat)
    requires i.Valid()
    requires at == i.PrefixLength() + |i.opcode|
    requires |i.modrm| == 1 ==> at < |code| && code[at] == i.modrm[0]
    ensures DecodeOperands(code, at, i.opcode[0], i.Form(), i.Prefix()) == DecodedAs(i)
  {
    hide OneByte, TwoByte, RIP_FORMS;
    if |i.modrm| == 1 { RipAgrees(i.modrm[0]); }
    OpcodeOfForm(i);
  }

  /** What the forms with a rule of their own say about the opcode. */
  lemma OpcodeOfForm(i: Instr)
    requires i.Valid()
    ensures !i.Form().Escape? && !i.Form().Invalid?
    ensures i.Form().Special? ==> |i.opcode| == 1 && Peculiar(i.opcode[0])
    ensures i.Form().Group3? ==> |i.opcode| == 1 && (i.opcode[0] == 0xF6 || i.opcode[0] == 0xF7)
    ensures i.Form().Imm? ==> |i.opcode| == 1 && (i.opcode[0] / 8 == 0xB8 / 8 <==> 0xB8 <= i.opcode[0] <= 0xBF)
  {
  }

  // ---------------------------------------------------------------------------------------------
  // What is refused
  // ---------------------------------------------------------------------------------------------

  /** Prefixes, and an opcode behind them. */
  predicate StartsAfter(code: seq<byte>, legacy: nat, rex: nat) {
    && rex <= 1 && legacy + rex + 1 < |code|
    && (forall k | 0 <= k < legacy :: code[k] in LEGACY)
    && (rex == 1 ==> Rex(code[legacy])) && code[legacy + rex] !in LEGACY && (rex == 0 ==> !Rex(code[legacy]))
  }

  /** Operand bytes are refused by their form alone. */
  lemma OperandsRefuseIff(code: seq<byte>, at: nat, op: byte, f: Form, p: Prefixes)
    requires f.Special? ==> Peculiar(op)
    ensures DecodeOperands(code, at, op, f, p).Unsupported? <==> f.Invalid? || f.Escape?
  {
  }

  lemma InvalidForms(b: byte)
    ensures (OneByte(b).Invalid? <==> NotTaken(b)) && (OneByte(b).Special? ==> Peculiar(b))
    ensures (TwoByte(b).Invalid? <==> Unassigned(b)) && !TwoByte(b).Special? && !TwoByte(b).Escape?
  {
  }

  predicate Refused(a: byte, b: byte) {
    if a == 0x0F then b != 0x38 && b != 0x3A && Unassigned(b) else NotTaken(a)
  }

  lemma OpcodeRefusesIff(code: seq<byte>, at: nat, p: Prefixes)
    requires at + 1 < |code|
    ensures DecodeOpcode(code, at, p).Unsupported? <==> Refused(code[at], code[at + 1])
  {
    hide Op1, Op2, OneByte, TwoByte, DecodeOperands, NotTaken, Unassigned, Peculiar;
    var (a, b) := (code[at], code[at + 1]);
    TablesAgree(a);
    TablesAgree(b);
    EscapeAgrees(a);
    InvalidForms(a);
    InvalidForms(b);
    if a != 0x0F {
      OperandsRefuseIff(code, at + 1, a, OneByte(a), p);
    } else if b == 0x38 {
      OperandsRefuseIff(code, at + 3, 0x0F, Modrm, p);
    } else if b == 0x3A {
      OperandsRefuseIff(code, at + 3, 0x0F, ModrmImm8, p);
    } else {
      OperandsRefuseIff(code, at + 2, 0x0F, TwoByte(b), p);
    }
  }

  /** Behind any prefixes, the decoder refuses exactly the opcodes that the maps do not take. */
  lemma RefusesIff(code: seq<byte>, legacy: nat, rex: nat)
    requires StartsAfter(code, legacy, rex)
    ensures Decode(code).Unsupported? <==> Refused(code[legacy + rex], code[legacy + rex + 1])
  {
    hide DecodeOpcode, Refused, IsLegacyPrefix, IsRex, RexW, Rex, Wide, LEGACY;
    forall c ensures (IsLegacyPrefix(c) <==> c in LEGACY) && (IsRex(c) <==> Rex(c)) && (Rex(c) ==> c !in LEGACY) {
      PrefixesAgree(c);
    }
    LegacyEndOf(code, legacy, 0);
    var p := Prefixes(0x66 in code[..legacy], false, 0x67 in code[..legacy]);
    var w := RexW(code[legacy]);
    OpcodeRefusesIff(code, legacy + rex, if rex == 0 then p else p.(rexW := w, op16 := p.op16 && !w));
  }
}
