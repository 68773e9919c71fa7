/**
 Building a trampoline into its buffer with the boundary tables, reading a jump's target back, and
 moving suspended threads between a source and its trampoline.
 */
module SnareHooks {
  import opened Bytes
  import opened Options
  import opened SnareDecoder
  import opened SnareOpcodes
  import opened SnareIsa
  import opened SnareTrampoline
  import opened SnareProgram
  import opened SnareRuns

  // ---------------------------------------------------------------------------------------------
  // The builder's loop
  // ---------------------------------------------------------------------------------------------

  /** The rest of a round of the loop in `snare_make_trampoline`, up to the bytes to be written. */
  method CopyInstruction(code: seq<byte>, d: Decoded, from: int, to: int) returns (s: Step)
    requires d == Decode(code) && !d.Unsupported?
    ensures s == CopyStep(code, from, to)
  {
    hide Decode, Le32, FromLe32, Signed32, Signed8;
    if d.Truncated? || d.len > |code| { return StepOutOfBounds; }
    var len, p := d.len, 0;
    while p < len && (IsLegacyPrefix(code[p]) || IsRex(code[p]))
      invariant p <= len && SkipPrefixes(code, len, p) == SkipPrefixes(code, len, 0)
    {
      p := p + 1;
    }
    if p == |code| { return StepOutOfBounds; }
    var op := code[p];
    if op == 0xEB && p + 2 == len {
      var target := from + len + Signed8(code[p + 1]);
      var newIp := to + 5;
      var diff := target - newIp;
      if diff > 0x7FFF_FFFF || diff < -0x8000_0000 { return Refuse; }
      return Emit([0xE9] + Le32(diff), len);
    }
    if 0x70 <= op <= 0x7F && p + 2 == len {
      var target := from + len + Signed8(code[p + 1]);
      var newIp := to + 6;
      var diff := target - newIp;
      if diff > 0x7FFF_FFFF || diff < -0x8000_0000 { return Refuse; }
      return Emit([0x0F, 0x80 + op % 16] + Le32(diff), len);
    }
    s := CopyRegular(code, len, d.reloc, from, to);
  }

  /** The regular copy: `memcpy`, and the displacement replaced in the copy. */
  method CopyRegular(code: seq<byte>, len: nat, reloc: nat, from: int, to: int) returns (s: Step)
    requires len <= |code|
    ensures s == if reloc == 0 then Emit(code[..len], len)
                 else if reloc + 4 > len then StepOutOfBounds
                 else
                   var disp := Signed32(FromLe32(code[reloc..reloc + 4])) + (from - to);
                   if FitsInt32(disp) then Emit(code[..reloc] + Le32(disp) + code[reloc + 4..len], len) else Refuse
  {
    hide Le32, FromLe32, Signed32;
    var copy := new byte[len](k requires 0 <= k < len => code[k]);
    assert copy[..] == code[..len];
    if reloc > 0 {
      if reloc + 4 > len { return StepOutOfBounds; }
      assert copy[reloc..reloc + 4] == code[reloc..reloc + 4];
      var disp := Signed32(FromLe32(copy[reloc..reloc + 4]));
      var adj := from - to;
      var newDisp := disp + adj;
      if newDisp > 0x7FFF_FFFF || newDisp < -0x8000_0000 { return Refuse; }
      WriteBytes(copy, reloc, Le32(newDisp));
      assert copy[..] == code[..reloc] + Le32(newDisp) + code[reloc + 4..len];
    }
    s := Emit(copy[..], len);
  }

  /** Recorded boundaries of the source and of the trampoline. */
  datatype Ips = Ips(orig: seq<nat>, tramp: seq<nat>)

  /**
   The boundaries that a refused source leaves behind: the one of the instruction that does not fit is
   already among them, the one of an unsupported opcode is not.
   */
  function LeftBehind(code: seq<byte>, site: Site, l: Loop): Ips
    requires l.orig <= |code|
    decreases |code| - l.orig
  {
    if l.orig >= JMP_INSN_LEN || Decode(code[l.orig..]).Unsupported? then Ips(l.origIps, l.trampIps)
    else
      match CopyStep(code[l.orig..], site.src + l.orig, site.tramp + |l.out|)
      case Emit(bytes, n) =>
        if n == 0 || n > |code| - l.orig then Ips(l.origIps, l.trampIps)
        else LeftBehind(code, site, l.Push(bytes, n))
      case _ => Ips(PushIp(l.origIps, l.orig), PushIp(l.trampIps, |l.out|))
  }

  /** What the hook record holds after the builder ran. */
  function Recorded(code: seq<byte>, site: Site): Ips {
    match Build(code, site)
    case Built(_, _, origIps, trampIps) => Ips(origIps, trampIps)
    case _ => LeftBehind(code, site, Loop(0, [], [], []))
  }

  method MakeTrampoline(buf: array<byte>, code: seq<byte>, site: Site, origIps: array<nat>, trampIps: array<nat>)
    returns (size: nat, origSize: nat, nIps: nat, fault: bool)
    requires buf.Length >= MAX_TRAMPOLINE_LEN
    requires origIps.Length == trampIps.Length == SNARE_MAX_IPS && origIps != trampIps
    modifies buf, origIps, trampIps
    ensures fault <==> Build(code, site).OutOfBounds?
    ensures !fault ==> (size == 0 <==> Build(code, site).Refused?)
    ensures !fault ==> nIps <= SNARE_MAX_IPS && Ips(origIps[..nIps], trampIps[..nIps]) == Recorded(code, site)
    ensures !fault && size > 0 ==>
              size <= buf.Length && Build(code, site) == Built(buf[..size], origSize, origIps[..nIps], trampIps[..nIps])
    ensures buf[MAX_TRAMPOLINE_LEN..] == old(buf[MAX_TRAMPOLINE_LEN..])
  {
    hide CopyStep, SnareTrampoline.Tail, Decode, BuildFrom, Build, LeftBehind, Recorded, OnTrack;
    size, origSize, nIps, fault := 0, 0, 0, false;
    var out := 0;
    Starts(code, site);
    while origSize < JMP_INSN_LEN
      invariant origSize <= |code| && nIps <= SNARE_MAX_IPS && out <= MAX_TRAMPOLINE_LEN
      invariant OnTrack(code, site, Loop(origSize, buf[..out], origIps[..nIps], trampIps[..nIps]))
      invariant buf[MAX_TRAMPOLINE_LEN..] == old(buf[MAX_TRAMPOLINE_LEN..])
      decreases |code| - origSize
    {
      ghost var l := Loop(origSize, buf[..out], origIps[..nIps], trampIps[..nIps]);
      var d := Disasm(code[origSize..]);
      if d.Unsupported? {
        StopsUnsupported(code, site, l);
        return 0, origSize, nIps, false;
      }
      nIps := RecordIp(origIps, trampIps, nIps, origSize, out);
      var s := CopyInstruction(code[origSize..], d, site.src + origSize, site.tramp + out);
      Advances(code, site, l, s);
      if s.Refuse? { return 0, origSize, nIps, false; }
      if s.StepOutOfBounds? || out + |s.bytes| > MAX_TRAMPOLINE_LEN || s.consumed == 0 ||
          s.consumed > |code| - origSize {
        return 0, origSize, nIps, true;
      }
      WriteBytes(buf, out, s.bytes);
      out, origSize := out + |s.bytes|, origSize + s.consumed;
      assert Loop(origSize, buf[..out], origIps[..nIps], trampIps[..nIps]) == l.Push(s.bytes, s.consumed);
    }
    ghost var l := Loop(origSize, buf[..out], origIps[..nIps], trampIps[..nIps]);
    Ends(code, site, l);
    nIps := RecordIp(origIps, trampIps, nIps, origSize, out);
    var tail := SnareTrampoline.Tail(site, origSize, out);
    if out + |tail| > MAX_TRAMPOLINE_LEN { return 0, origSize, nIps, true; }
    WriteBytes(buf, out, tail);
    size := out + |tail|;
    assert buf[..size] == l.out + tail;
  }

  /** The loop with these variables is on its way to what the builder makes of the whole source. */
  ghost predicate OnTrack(code: seq<byte>, site: Site, l: Loop)
    requires l.orig <= |code|
  {
    && BuildFrom(code, site, l) == Build(code, site)
    && LeftBehind(code, site, l) == LeftBehind(code, site, Loop(0, [], [], []))
  }

  lemma Starts(code: seq<byte>, site: Site)
    ensures OnTrack(code, site, Loop(0, [], [], []))
  {
    hide BuildFrom, LeftBehind;
  }

  lemma StopsUnsupported(code: seq<byte>, site: Site, l: Loop)
    requires l.orig < JMP_INSN_LEN && l.orig <= |code| && OnTrack(code, site, l) && Decode(code[l.orig..]).Unsupported?
    ensures Build(code, site) == Refused && Recorded(code, site) == Ips(l.origIps, l.trampIps)
  {
    hide Decode;
  }

  /** One round: what it does to the loop, or how it ends the builder. */
  lemma Advances(code: seq<byte>, site: Site, l: Loop, s: Step)
    requires l.orig < JMP_INSN_LEN && l.orig <= |code| && OnTrack(code, site, l) && !Decode(code[l.orig..]).Unsupported?
    requires s == CopyStep(code[l.orig..], site.src + l.orig, site.tramp + |l.out|)
    ensures match s
            case Refuse =>
              && Build(code, site) == Refused
              && Recorded(code, site) == Ips(PushIp(l.origIps, l.orig), PushIp(l.trampIps, |l.out|))
            case StepOutOfBounds => Build(code, site) == OutOfBounds
            case Emit(bytes, n) =>
              if |l.out| + |bytes| > MAX_TRAMPOLINE_LEN || n == 0 || n > |code| - l.orig
              then Build(code, site) == OutOfBounds
              else OnTrack(code, site, l.Push(bytes, n))
  {
    hide Decode, CopyStep, Build, Close, PushIp;
  }

  lemma Ends(code: seq<byte>, site: Site, l: Loop)
    requires JMP_INSN_LEN <= l.orig <= |code| && OnTrack(code, site, l)
    ensures Build(code, site) == Close(site, l)
    ensures Build(code, site).Built? ==>
              Recorded(code, site) == Ips(PushIp(l.origIps, l.orig), PushIp(l.trampIps, |l.out|))
  {
    hide CopyStep, SnareTrampoline.Tail, PushIp;
  }

  method RecordIp(origIps: array<nat>, trampIps: array<nat>, nIps: nat, orig: nat, out: nat) returns (n: nat)
    requires origIps.Length == trampIps.Length == SNARE_MAX_IPS && origIps != trampIps && nIps <= SNARE_MAX_IPS
    modifies origIps, trampIps
    ensures n <= SNARE_MAX_IPS
    ensures origIps[..n] == PushIp(old(origIps[..nIps]), orig)
    ensures trampIps[..n] == PushIp(old(trampIps[..nIps]), out)
  {
    n := nIps;
    if nIps < SNARE_MAX_IPS {
      origIps[nIps], trampIps[nIps] := orig % 256, out % 256;
      n := nIps + 1;
    }
  }

  // ---------------------------------------------------------------------------------------------
  // Jumps
  // ---------------------------------------------------------------------------------------------

  /** `snare_inline_read_dst` on the bytes found at address `src`. */
  function ReadDst(bytes: seq<byte>, src: int): Option<int>
    requires |bytes| >= JMP_INSN_LEN
  {
    if bytes[0] != 0xE9 then None else Some(Signed32(FromLe32(bytes[1..5])) + src + JMP_INSN_LEN)
  }

  /** The target of a written jump is read back exactly when the distance fits in 32 bits. */
  lemma ReadDstRoundTrip(src: int, target: int)
    ensures ReadDst(RelJmp(src, target), src) == Some(target) <==> FitsInt32(target - (src + JMP_INSN_LEN))
  {
    Le32SignedRoundTrip(target - (src + JMP_INSN_LEN));
    assert RelJmp(src, target)[1..5] == Le32(target - (src + JMP_INSN_LEN));
  }

  /**
   With the relay page in range of the source, the hook jump (to the detour when it is in range, to
   the relay otherwise) is read back as written, and the trampoline's jump back reaches for every
   supported source.
   */
  lemma HookJumpsReach(xs: seq<Instr>, site: Site, dst: int)
    requires AllSupported(xs) && Covers(xs, 0) && RelocateAll(xs, site.src, site.tramp).Some?
    requires InRel32Range(site.src, site.tramp)
    ensures var target := HookTarget(site.src, dst, Some(site.tramp));
            && ReadDst(RelJmp(site.src, target), site.src) == Some(target)
            && (InRel32Range(site.src, dst) ==> target == dst)
    ensures var ys := RelocateAll(xs, site.src, site.tramp).value;
            FitsInt32(site.src + LengthAll(xs) - (site.tramp + LengthAll(ys) + JMP_INSN_LEN))
  {
    hide Instr.Valid, Instr.Supported, Instr.Length, Relocate, RelJmp, ReadDst, Build;
    BuildReaches(xs, [], site);
    ReadDstRoundTrip(site.src, HookTarget(site.src, dst, Some(site.tramp)));
  }

  /**
   On a page that the Windows scan takes, the jump to the relay is read back exactly below the last 54 bytes of
   the range.
   */
  lemma RelayLostIff(src: int, page: int)
    requires Scanned(src, page)
    ensures var relay := page + MAX_TRAMPOLINE_LEN;
            ReadDst(RelJmp(src, relay), src) == Some(relay) <==> page - src < 0x8000_0000 - 54
  {
    hide RelJmp, ReadDst;
    ReadDstRoundTrip(src, page + MAX_TRAMPOLINE_LEN);
  }

  /** Where the jump at a hooked source leads: the relay when the detour is too far and a page was found. */
  function HookTarget(src: int, dst: int, page: Option<int>): int {
    if page.Some? && !InRel32Range(src, dst) then page.value + MAX_TRAMPOLINE_LEN else dst
  }

  // ---------------------------------------------------------------------------------------------
  // Suspended threads
  // ---------------------------------------------------------------------------------------------

  function MapIp(ip: int, fromBase: int, toBase: int, fromIps: seq<nat>, toIps: seq<nat>, j: nat): int
    requires j <= |fromIps| == |toIps|
    decreases |fromIps| - j
  {
    if j == |fromIps| then ip
    else if ip == fromBase + fromIps[j] then toBase + toIps[j]
    else MapIp(ip, fromBase, toBase, fromIps, toIps, j + 1)
  }

  /** A suspended thread: its instruction pointer, nothing when its context cannot be read. */
  type Thread = Option<int>

  function MapThread(t: Thread, fromBase: int, toBase: int, fromIps: seq<nat>, toIps: seq<nat>): Thread
    requires |fromIps| == |toIps|
  {
    if t.None? then None else Some(MapIp(t.value, fromBase, toBase, fromIps, toIps, 0))
  }

  /** `snare_adjust_threads_ip`: every thread whose context can be read is moved by the boundary tables. */
  method AdjustThreads(threads: array<Thread>, fromBase: int, toBase: int, fromIps: seq<nat>, toIps: seq<nat>)
    requires |fromIps| == |toIps|
    modifies threads
    ensures forall i | 0 <= i < threads.Length ::
              threads[i] == MapThread(old(threads[i]), fromBase, toBase, fromIps, toIps)
  {
    for i := 0 to threads.Length
      invariant forall k | 0 <= k < i :: threads[k] == MapThread(old(threads[k]), fromBase, toBase, fromIps, toIps)
      invariant forall k | i <= k < threads.Length :: threads[k] == old(threads[k])
    {
      if threads[i].None? { continue; }
      var ip := threads[i].value;
      var j := 0;
      while j < |fromIps| && ip != fromBase + fromIps[j]
        invariant 0 <= j <= |fromIps|
        invariant MapIp(ip, fromBase, toBase, fromIps, toIps, j) == MapIp(ip, fromBase, toBase, fromIps, toIps, 0)
      {
        j := j + 1;
      }
      if j < |fromIps| { threads[i] := Some(toBase + toIps[j]); }
    }
  }

  ghost predicate Increasing(s: seq<nat>) {
    forall i, j | 0 <= i < j < |s| :: s[i] < s[j]
  }

  lemma {:induction false} MapIpAt(fromBase: int, toBase: int, fromIps: seq<nat>, toIps: seq<nat>, j: nat, k: nat)
    requires |fromIps| == |toIps| && Increasing(fromIps) && j <= k < |fromIps|
    ensures MapIp(fromBase + fromIps[k], fromBase, toBase, fromIps, toIps, j) == toBase + toIps[k]
    decreases k - j
  {
    if j < k { MapIpAt(fromBase, toBase, fromIps, toIps, j + 1, k); }
  }

  lemma {:induction false} MapIpElsewhere(ip: int, fromBase: int, toBase: int, fromIps: seq<nat>, toIps: seq<nat>,
      j: nat)
    requires |fromIps| == |toIps| && j <= |fromIps|
    requires forall k | j <= k < |fromIps| :: ip != fromBase + fromIps[k]
    ensures MapIp(ip, fromBase, toBase, fromIps, toIps, j) == ip
    decreases |fromIps| - j
  {
    if j < |fromIps| { MapIpElsewhere(ip, fromBase, toBase, fromIps, toIps, j + 1); }
  }

  /**
   The recorded boundary maps invert each other: a thread moved into the trampoline when the hook
   goes in, and moved back when it comes out, is where it was, on every boundary; a thread on none
   of the boundaries is not moved.
   */
  lemma BoundaryMapsInvert(xs: seq<Instr>, rest: seq<byte>, site: Site, k: nat)
    requires AllSupported(xs) && Covers(xs, 0) && RelocateAll(xs, site.src, site.tramp).Some? && k <= |xs|
    ensures var b := Build(LayoutAll(xs) + rest, site);
            && b.Built? && |b.origIps| == |b.trampIps| == |xs| + 1
            && Increasing(b.origIps) && Increasing(b.trampIps)
            && b.origIps[0] == b.trampIps[0] == 0 && b.origIps[|xs|] == b.origSize
            && var there := MapIp(site.src + b.origIps[k], site.src, site.tramp, b.origIps, b.trampIps, 0);
            && there == site.tramp + b.trampIps[k]
            && MapIp(there, site.tramp, site.src, b.trampIps, b.origIps, 0) == site.src + b.origIps[k]
  {
    hide Instr.Valid, Instr.Supported, Instr.Length, Relocate, Build, LayoutAll, SnareTrampoline.Tail;
    var ys := RelocateAll(xs, site.src, site.tramp).value;
    BuildRelocates(xs, rest, site);
    SupportedValid(xs);
    RelocatedValid(xs, site.src, site.tramp);
    BoundariesIncrease(xs, 0);
    BoundariesIncrease(ys, 0);
    MapIpAt(site.src, site.tramp, Boundaries(xs, 0), Boundaries(ys, 0), 0, k);
    MapIpAt(site.tramp, site.src, Boundaries(ys, 0), Boundaries(xs, 0), 0, k);
  }

  lemma SupportedValid(xs: seq<Instr>)
    requires AllSupported(xs)
    ensures forall k | 0 <= k < |xs| :: xs[k].Valid()
  {
    hide Instr.Valid, Instr.Supported;
  }

  lemma {:induction false} RelocatedValid(xs: seq<Instr>, from: int, to: int)
    requires AllSupported(xs) && RelocateAll(xs, from, to).Some?
    ensures var ys := RelocateAll(xs, from, to).value;
            forall k | 0 <= k < |ys| :: ys[k].Valid()
    decreases |xs|
  {
    hide Instr.Valid, Instr.Decodable, Instr.CopiedBlindly, Instr.Length, Relocate;
    if xs != [] {
      RelocateKeepsMeaning(xs[0], from, to);
      var j := Relocate(xs[0], from, to).value;
      RelocatedValid(xs[1..], from + xs[0].Length(), to + j.Length());
    }
  }
}
