/**
 `snare_make_trampoline` (x86-64 build): copying whole instructions from `src` until at least the
 five bytes of a near jump are covered, expanding short branches, adjusting displacements, and
 recording where every instruction went.
 */
module SnareTrampoline {
  import opened Bytes
  import opened Options
  import opened SnareDecoder
  import opened SnareOpcodes
  import opened SnareIsa

  const JMP_INSN_LEN: nat := 5
  const ABS_JMP_LEN: nat := 14
  const MAX_INSN_LEN: nat := 15
  const MAX_TRAMPOLINE_LEN: nat := MAX_INSN_LEN * 3 + ABS_JMP_LEN
  const SNARE_MAX_IPS: nat := 8

  /**
   One round of the copy loop: the bytes written to the trampoline and the source bytes consumed,
   a refusal, or an access outside the instruction or the readable source.
   */
  datatype Step = Emit(bytes: seq<byte>, consumed: nat) | Refuse | StepOutOfBounds

  datatype Outcome =
    | Built(bytes: seq<byte>, origSize: nat, origIps: seq<nat>, trampIps: seq<nat>)
    | Refused
    | OutOfBounds

  function SkipPrefixes(insn: seq<byte>, len: nat, at: nat): (p: nat)
    requires at <= len <= |insn|
    ensures at <= p <= len
    decreases len - at
  {
    if at < len && (IsLegacyPrefix(insn[at]) || IsRex(insn[at])) then SkipPrefixes(insn, len, at + 1) else at
  }

  /** `E9` with the 32-bit distance from the end of the jump, truncated as the cast does. */
  function RelJmp(at: int, target: int): (s: seq<byte>)
    ensures |s| == JMP_INSN_LEN
  {
    [0xE9] + Le32(target - (at + JMP_INSN_LEN))
  }

  function Le64(v: int): (s: seq<byte>)
    ensures |s| == 8
  {
    Le32(v) + Le32(v / TWO32)
  }

  /** `FF 25 00000000` followed by the address itself. */
  function AbsJmp(target: int): (s: seq<byte>)
    ensures |s| == ABS_JMP_LEN
  {
    [0xFF, 0x25, 0, 0, 0, 0] + Le64(target)
  }

  /** `snare_in_rel32_range`. */
  predicate InRel32Range(a: int, b: int) {
    -0x7FFF_FF00 <= b - a <= 0x7FFF_FF00
  }

  /** `code` is the source from the current instruction on, at address `from`; the copy goes to `to`. */
  function CopyStep(code: seq<byte>, from: int, to: int): Step {
    match Decode(code)
    case Unsupported => Refuse
    case Truncated => StepOutOfBounds
    case Insn(len, reloc) =>
      if len > |code| then StepOutOfBounds
      else CopyDecoded(code, len, reloc, SkipPrefixes(code, len, 0), from, to)
  }

  function CopyDecoded(code: seq<byte>, len: nat, reloc: nat, pfx: nat, from: int, to: int): Step
    requires pfx <= len <= |code|
  {
    if pfx == |code| then StepOutOfBounds
    else if code[pfx] == 0xEB && pfx + 2 == len then
      var diff := from + len + Signed8(code[pfx + 1]) - (to + 5);
      if FitsInt32(diff) then Emit([0xE9] + Le32(diff), len) else Refuse
    else if 0x70 <= code[pfx] <= 0x7F && pfx + 2 == len then
      var diff := from + len + Signed8(code[pfx + 1]) - (to + 6);
      if FitsInt32(diff) then Emit([0x0F, 0x80 + code[pfx] % 16] + Le32(diff), len) else Refuse
    else if reloc == 0 then Emit(code[..len], len)
    else if reloc + 4 > len then StepOutOfBounds
    else
      var disp := Signed32(FromLe32(code[reloc..reloc + 4])) + (from - to);
      if FitsInt32(disp) then Emit(code[..reloc] + Le32(disp) + code[reloc + 4..len], len) else Refuse
  }

  function PushIp(ips: seq<nat>, ip: nat): (r: seq<nat>) {
    if |ips| < SNARE_MAX_IPS then ips + [ip % 256] else ips
  }

  /** Where the source and the trampoline are, and whether a near jump leads back. */
  datatype Site = Site(src: int, tramp: int, near: bool)

  /** The loop's variables: source bytes consumed, bytes written, and the recorded boundaries. */
  datatype Loop = Loop(orig: nat, out: seq<byte>, origIps: seq<nat>, trampIps: seq<nat>) {
    function Push(bytes: seq<byte>, consumed: nat): Loop {
      Loop(orig + consumed, out + bytes, PushIp(origIps, orig), PushIp(trampIps, |out|))
    }
  }

  function Tail(site: Site, orig: nat, out: nat): (s: seq<byte>)
    ensures |s| == if site.near then JMP_INSN_LEN else ABS_JMP_LEN
  {
    if site.near then RelJmp(site.tramp + out, site.src + orig) else AbsJmp(site.src + orig)
  }

  function Close(site: Site, l: Loop): Outcome {
    var bytes := l.out + Tail(site, l.orig, |l.out|);
    if |bytes| > MAX_TRAMPOLINE_LEN then OutOfBounds
    else Built(bytes, l.orig, PushIp(l.origIps, l.orig), PushIp(l.trampIps, |l.out|))
  }

  function BuildFrom(code: seq<byte>, site: Site, l: Loop): Outcome
    requires l.orig <= |code|
    decreases |code| - l.orig
  {
    if l.orig >= JMP_INSN_LEN then Close(site, l)
    else
      match CopyStep(code[l.orig..], site.src + l.orig, site.tramp + |l.out|)
      case Refuse => Refused
      case StepOutOfBounds => OutOfBounds
      case Emit(bytes, n) =>
        if |l.out| + |bytes| > MAX_TRAMPOLINE_LEN || n == 0 || n > |code| - l.orig then OutOfBounds
        else BuildFrom(code, site, l.Push(bytes, n))
  }

  function Build(code: seq<byte>, site: Site): Outcome {
    BuildFrom(code, site, Loop(0, [], [], []))
  }

  // ---------------------------------------------------------------------------------------------
  // One instruction
  // ---------------------------------------------------------------------------------------------

  /** What the copy of instruction `i` from `from` to `to` has to be, in terms of its fields. */
  function Relocate(i: Instr, from: int, to: int): Option<Instr>
    requires i.Valid() && i.Decodable()
  {
    if i.opcode[0] == 0xEB && |i.opcode| == 1 then
      var diff := i.Meaning(from).target - (to + 5);
      if FitsInt32(diff) then Some(Instr([], [], [0xE9], [], [], [], Le32(diff))) else None
    else if i.Form().Rel8? && !i.CounterBranch() then
      var diff := i.Meaning(from).target - (to + 6);
      if FitsInt32(diff) then Some(Instr([], [], [0x0F, 0x80 + i.opcode[0] % 16], [], [], [], Le32(diff))) else None
    else if i.Form().Rel32? then
      var disp := Signed32(FromLe32(i.imm)) + (from - to);
      if FitsInt32(disp) then Some(i.(imm := Le32(disp))) else None
    else if HasModrm(i.Form()) && i.RipOperand() then
      var disp := Signed32(FromLe32(i.disp)) + (from - to);
      if FitsInt32(disp) then Some(i.(disp := Le32(disp))) else None
    else Some(i)
  }

  lemma {:induction false} SkipPrefixesOf(i: Instr, code: seq<byte>, at: nat)
    requires i.Valid() && StartsWith(code, i)
    requires at <= i.PrefixLength()
    ensures SkipPrefixes(code, i.Length(), at) == i.PrefixLength()
    decreases i.PrefixLength() - at
  {
    if at < i.PrefixLength() {
      SkipPrefixesOf(i, code, at + 1);
    } else {
      assert code[at + 0] == i.opcode[0];
    }
  }

  /** The short branches the builder expands are `EB` and `70`-`7F`. */
  lemma ShortForms(i: Instr)
    requires i.OpcodeOk() && i.Form().Rel8? && !i.CounterBranch()
    ensures |i.opcode| == 1 && (i.opcode[0] == 0xEB || 0x70 <= i.opcode[0] <= 0x7F)
  {
  }

  lemma OtherForms(i: Instr)
    requires i.OpcodeOk() && (!i.Form().Rel8? || i.CounterBranch())
    ensures i.opcode[0] != 0xEB && !(0x70 <= i.opcode[0] <= 0x7F)
  {
  }

  function StepOf(i: Instr, j: Option<Instr>): Step {
    match j
    case None => Refuse
    case Some(r) => Emit(r.Layout(), i.Length())
  }

  predicate Copies(i: Instr, code: seq<byte>, from: int, to: int)
    requires i.Valid() && i.Decodable() && i.Length() <= |code|
  {
    CopyDecoded(code, i.Length(), i.RelocOffset(), i.PrefixLength(), from, to) == StepOf(i, Relocate(i, from, to))
  }

  /** On a laid-out instruction the byte-level step writes exactly the relocated instruction. */
  lemma CopyStepRelocates(i: Instr, rest: seq<byte>, from: int, to: int)
    requires i.Valid() && i.Decodable()
    ensures CopyStep(i.Layout() + rest, from, to) == StepOf(i, Relocate(i, from, to))
  {
    var code := i.Layout() + rest;
    DecodeLayout(i, rest);
    LayoutStartsWith(i, rest);
    SkipPrefixesOf(i, code, 0);
    assert code[..i.Length()] == i.Layout();
    if i.Form().Rel8? && !i.CounterBranch() {
      CopyShort(i, code, from, to);
    } else if i.RelocOffset() > 0 {
      CopyAdjusted(i, rest, from, to);
    } else {
      CopyVerbatim(i, code, from, to);
    }
  }

  predicate Decodes(i: Instr, code: seq<byte>)
    requires i.Valid() && i.Decodable()
  {
    && StartsWith(code, i)
    && code[..i.Length()] == i.Layout()
  }

  lemma ShortLayout(i: Instr)
    requires i.Valid() && i.Form().Rel8? && |i.opcode| == 1
    ensures |i.imm| == 1 && i.Length() == i.PrefixLength() + 2 && i.RelocOffset() == 0
    ensures var o := i.PrefixLength(); i.Layout()[o] == i.opcode[0] && i.Layout()[o + 1] == i.imm[0]
  {
    hide OneByte, TwoByte;
    assert i.Layout() == i.legacy + i.rex + (i.opcode + i.imm);
  }

  lemma PlainLayout(opcode: seq<byte>, imm: seq<byte>)
    ensures Instr([], [], opcode, [], [], [], imm).Layout() == opcode + imm
  {
  }

  lemma CopyShort(i: Instr, code: seq<byte>, from: int, to: int)
    requires i.Valid() && i.Decodable() && Decodes(i, code)
    requires i.Form().Rel8? && !i.CounterBranch()
    ensures Copies(i, code, from, to)
  {
    hide OneByte, TwoByte, Instr.Layout, Le32;
    ShortForms(i);
    ShortLayout(i);
    var o := i.PrefixLength();
    assert code[o] == code[..o + 2][o] && code[o + 1] == code[..o + 2][o + 1];
    PlainLayout([0xE9], Le32(i.Meaning(from).target - (to + 5)));
    if i.opcode[0] != 0xEB { PlainLayout([0x0F, 0x80 + i.opcode[0] % 16], Le32(i.Meaning(from).target - (to + 6))); }
  }

  lemma CopyVerbatim(i: Instr, code: seq<byte>, from: int, to: int)
    requires i.Valid() && i.Decodable() && Decodes(i, code)
    requires (!i.Form().Rel8? || i.CounterBranch()) && i.RelocOffset() == 0
    ensures Copies(i, code, from, to)
  {
    OtherForms(i);
    assert code[i.PrefixLength() + 0] == i.opcode[0];
  }

  function WithField(i: Instr, v: int): Instr
    requires i.OpcodeOk()
  {
    if i.Form().Rel32? then i.(imm := Le32(v)) else i.(disp := Le32(v))
  }

  function Field(i: Instr): seq<byte>
    requires i.OpcodeOk()
  {
    if i.Form().Rel32? then i.imm else i.disp
  }

  /** The field the decoder reports is the one that `WithField` replaces. */
  lemma RelocField(i: Instr, rest: seq<byte>, v: int)
    requires i.Valid() && i.Decodable() && i.RelocOffset() > 0
    ensures var code, r := i.Layout() + rest, i.RelocOffset();
            && r + 4 <= i.Length()
            && code[r..r + 4] == Field(i)
            && code[..r] + Le32(v) + code[r + 4..i.Length()] == WithField(i, v).Layout()
  {
    hide OneByte, TwoByte, Instr.Layout, Le32;
    RelocShape(i);
    var (head, last) := (Head(i), Last(i));
    FieldLayout(i);
    FieldLayout(WithField(i, v));
    ReplaceMiddle(head, Field(i), last, rest, Le32(v));
  }

  function Head(i: Instr): seq<byte> {
    i.legacy + i.rex + i.opcode + i.modrm
  }

  function Last(i: Instr): seq<byte>
    requires i.OpcodeOk()
  {
    if i.Form().Rel32? then [] else i.imm
  }

  lemma RelocShape(i: Instr)
    requires i.Valid() && i.Decodable() && i.RelocOffset() > 0
    ensures i.sib == [] && |Field(i)| == 4 && i.RelocOffset() == |Head(i)|
    ensures i.Form().Rel32? ==> i.modrm == [] && i.disp == []
  {
    hide OneByte, TwoByte;
  }

  lemma FieldLayout(i: Instr)
    requires i.OpcodeOk() && i.sib == [] && (i.Form().Rel32? ==> i.modrm == [] && i.disp == [])
    ensures i.Layout() == Head(i) + Field(i) + Last(i)
  {
    hide OneByte, TwoByte;
  }

  lemma ReplaceMiddle(head: seq<byte>, mid: seq<byte>, last: seq<byte>, rest: seq<byte>, with: seq<byte>)
    requires |mid| == 4
    ensures var code, r, n := head + mid + last + rest, |head|, |head| + 4 + |last|;
            code[r..r + 4] == mid && code[..r] + with + code[r + 4..n] == head + with + last
  {
    var code, r, n := head + mid + last + rest, |head|, |head| + 4 + |last|;
    assert code[r + 4..n] == last;
  }

  lemma RelocateField(i: Instr, from: int, to: int)
    requires i.Valid() && i.Decodable() && !i.Form().Rel8? && i.RelocOffset() > 0
    ensures |Field(i)| == 4
    ensures var v := Signed32(FromLe32(Field(i))) + (from - to);
            Relocate(i, from, to) == if FitsInt32(v) then Some(WithField(i, v)) else None
  {
    OtherForms(i);
  }

  lemma CopyAdjusted(i: Instr, rest: seq<byte>, from: int, to: int)
    requires i.Valid() && i.Decodable() && Decodes(i, i.Layout() + rest)
    requires !i.Form().Rel8? && i.RelocOffset() > 0
    ensures Copies(i, i.Layout() + rest, from, to)
  {
    hide OneByte, TwoByte, Instr.Layout, Relocate, Le32, FromLe32;
    var code := i.Layout() + rest;
    OtherForms(i);
    RelocateField(i, from, to);
    RelocField(i, rest, Signed32(FromLe32(Field(i))) + (from - to));
    assert code[i.PrefixLength() + 0] == i.opcode[0];
  }

  /** The relocated instruction means at `to` what the original means at `from`. */
  ghost predicate KeepsMeaning(i: Instr, j: Instr, from: int, to: int)
    requires i.Valid() && i.Decodable()
  {
    j.Valid() && j.Decodable() && j.Meaning(to) == i.Meaning(from)
  }

  /**
   For a copy at a different place within 2^32 bytes: the copied instruction keeps its meaning exactly
   when it is not one of those that are copied blindly (LOOPcc, JRCXZ, XBEGIN, and F6/F7 with a
   RIP-relative operand).
   */
  lemma CopyKeepsMeaningIff(i: Instr, from: int, to: int)
    requires i.Valid() && i.Decodable() && Relocate(i, from, to).Some?
    requires from != to && -TWO32 < from - to < TWO32
    ensures KeepsMeaning(i, Relocate(i, from, to).value, from, to) <==> !i.CopiedBlindly()
  {
    if i.CopiedBlindly() {
      BlindCopyMoves(i, from, to);
    } else {
      RelocateKeepsMeaning(i, from, to);
    }
  }

  lemma BlindCopyMoves(i: Instr, from: int, to: int)
    requires i.Valid() && i.Decodable() && i.CopiedBlindly()
    requires from != to && -TWO32 < from - to < TWO32
    ensures Relocate(i, from, to) == Some(i) && i.Meaning(to) != i.Meaning(from)
  {
    if i.CounterBranch() {
      assert i.Form() == Rel8;
    } else if i.BeginsTransaction() {
      assert i.Form() == ModrmImm;
    } else {
      assert i.opcode[0] == 0xF6 || i.opcode[0] == 0xF7;
      ModShift(from, to, i.Length() + Signed32(FromLe32(i.disp)));
    }
  }

  const LOOP_SELF := Instr([], [], [0xE2], [], [], [], [0xFE])
  const XBEGIN := Instr([], [], [0xC7], [0xF8], [], [], [0x10, 0, 0, 0])

  /** `E2 FE`, a LOOP to itself, is copied byte for byte, so that the copy leads to the copy. */
  lemma LoopCopiedBlindly(rest: seq<byte>, from: int, to: int)
    requires from != to && -TWO32 < from - to < TWO32
    ensures CopyStep([0xE2, 0xFE] + rest, from, to) == Emit([0xE2, 0xFE], 2)
    ensures LOOP_SELF.Valid() && LOOP_SELF.Decodable() && LOOP_SELF.Layout() == [0xE2, 0xFE]
    ensures LOOP_SELF.Meaning(from).target == from && LOOP_SELF.Meaning(to).target == to
  {
    hide CopyStep, Relocate;
    assert LOOP_SELF.Layout() == [0xE2, 0xFE];
    CopyStepRelocates(LOOP_SELF, rest, from, to);
    BlindCopyMoves(LOOP_SELF, from, to);
  }

  /** XBEGIN likewise: an aborted transaction of the copy goes on elsewhere. */
  lemma TransactionCopiedBlindly(rest: seq<byte>, from: int, to: int)
    requires from != to && -TWO32 < from - to < TWO32
    ensures CopyStep([0xC7, 0xF8, 0x10, 0, 0, 0] + rest, from, to) == Emit([0xC7, 0xF8, 0x10, 0, 0, 0], 6)
    ensures XBEGIN.Valid() && XBEGIN.Decodable() && XBEGIN.Layout() == [0xC7, 0xF8, 0x10, 0, 0, 0]
    ensures XBEGIN.Meaning(from) == Transaction(from + 0x16) && XBEGIN.Meaning(to) == Transaction(to + 0x16)
  {
    hide CopyStep, Relocate;
    TransactionLayout();
    CopyStepRelocates(XBEGIN, rest, from, to);
    BlindCopyMoves(XBEGIN, from, to);
  }

  lemma TransactionLayout()
    ensures XBEGIN.Valid() && XBEGIN.Decodable() && XBEGIN.BeginsTransaction()
    ensures XBEGIN.Layout() == [0xC7, 0xF8, 0x10, 0, 0, 0] && Signed32(FromLe32(XBEGIN.imm)) == 0x10
  {
    assert XBEGIN.Layout() == [] + [] + [0xC7] + [0xF8] + [] + [] + [0x10, 0, 0, 0];
  }

  lemma ModShift(x: int, y: int, a: int)
    requires x != y && -TWO32 < x - y < TWO32
    ensures (x + a) % TWO32 != (y + a) % TWO32
  {
  }

  /** How long the copy of an instruction is: short branches become near ones without prefixes. */
  function CopyLength(i: Instr): nat {
    if |i.opcode| == 1 && i.opcode[0] == 0xEB then 5
    else if |i.opcode| == 1 && 0x70 <= i.opcode[0] <= 0x7F then 6
    else i.Length()
  }

  /** What an instruction refers to, with its distance taken from where the copy ends. */
  function NewDistance(i: Instr, from: int, to: int): int
    requires i.Valid() && i.Decodable()
  {
    var end := to + CopyLength(i);
    match i.Meaning(from)
    case Transfer(_, target) => target - end
    case JumpThrough(slot) => slot - end
    case Transaction(fallback) => fallback - end
    case Operation(_, _) => if i.RipOperand() then from + i.Length() + Signed32(FromLe32(i.disp)) - end else 0
  }

  lemma GroupForms(i: Instr)
    requires i.OpcodeOk()
    ensures OneByte(0xFF) == Modrm && OneByte(0xC7) == ModrmImm && (i.CounterBranch() ==> i.Form().Rel8?)
  {
  }

  /** An instruction is refused exactly when it is not copied blindly and the new distance does not fit in 32 bits. */
  lemma RelocatesIff(i: Instr, from: int, to: int)
    requires i.Valid() && i.Decodable()
    ensures Relocate(i, from, to).Some? <==> i.CopiedBlindly() || FitsInt32(NewDistance(i, from, to))
    ensures Relocate(i, from, to).Some? ==> Relocate(i, from, to).value.Length() == CopyLength(i)
  {
    hide OneByte, TwoByte, Le32, FromLe32, Signed32, Signed8;
    GroupForms(i);
    if i.Form().Rel8? && !i.CounterBranch() { ShortForms(i); } else { OtherForms(i); }
  }

  /** `EB`-`7x` expansion and displacement adjustment keep the meaning at any pair of addresses. */
  lemma RelocateKeepsMeaning(i: Instr, from: int, to: int)
    requires i.Valid() && i.Decodable() && !i.CopiedBlindly() && Relocate(i, from, to).Some?
    ensures KeepsMeaning(i, Relocate(i, from, to).value, from, to)
  {
    if i.Form().Rel8? {
      ShortForms(i);
      ExpandedMeaning(i, from, to);
    } else if i.RelocOffset() > 0 {
      AdjustedMeaning(i, from, to);
    }
  }

  lemma ExpandedMeaning(i: Instr, from: int, to: int)
    requires i.Valid() && i.Decodable() && Relocate(i, from, to).Some?
    requires i.Form().Rel8? && (i.opcode[0] == 0xEB || 0x70 <= i.opcode[0] <= 0x7F) && |i.opcode| == 1
    ensures KeepsMeaning(i, Relocate(i, from, to).value, from, to)
  {
    var j := Relocate(i, from, to).value;
    NearBranchMeaning(j.opcode, i.Meaning(from).target, to);
  }

  function NearBranch(opcode: seq<byte>, target: int, at: int): Instr {
    Instr([], [], opcode, [], [], [], Le32(target - (at + |opcode| + 4)))
  }

  /** A near branch assembled for `target` goes there. */
  lemma NearBranchMeaning(opcode: seq<byte>, target: int, at: int)
    requires opcode == [0xE9] || (|opcode| == 2 && opcode[0] == 0x0F && opcode[1] / 16 == 8)
    requires FitsInt32(target - (at + |opcode| + 4))
    ensures var j := NearBranch(opcode, target, at);
            && j.Valid() && j.Supported()
            && j.Meaning(at) == Transfer(if |opcode| == 1 then Always else OnFlags(opcode[1] % 16), target)
  {
    Le32SignedRoundTrip(target - (at + |opcode| + 4));
    assert NearBranch(opcode, target, at).Form() == Rel32;
  }

  lemma AdjustedMeaning(i: Instr, from: int, to: int)
    requires i.Valid() && i.Decodable() && Relocate(i, from, to).Some?
    requires !i.Form().Rel8? && i.RelocOffset() > 0
    ensures KeepsMeaning(i, Relocate(i, from, to).value, from, to)
  {
    RelocateField(i, from, to);
    Le32SignedRoundTrip(Signed32(FromLe32(Field(i))) + (from - to));
  }
}
