/**
 Whole trampolines: what `snare_make_trampoline` produces for a laid-out run of instructions, that
 executing it is executing the original run, and how far its buffers are used.
 */
module SnareProgram {
  import opened Bytes
  import opened Options
  import opened SnareDecoder
  import opened SnareOpcodes
  import opened SnareIsa
  import opened SnareTrampoline

  function LayoutAll(xs: seq<Instr>): seq<byte> {
    if xs == [] then [] else xs[0].Layout() + LayoutAll(xs[1..])
  }

  function LengthAll(xs: seq<Instr>): nat {
    if xs == [] then 0 else xs[0].Length() + LengthAll(xs[1..])
  }

  predicate AllSupported(xs: seq<Instr>) {
    forall k | 0 <= k < |xs| :: xs[k].Valid() && xs[k].Supported()
  }

  /** Starting with `orig` bytes covered, the instructions reach five bytes with the last one. */
  predicate Covers(xs: seq<Instr>, orig: nat) {
    if xs == [] then orig >= JMP_INSN_LEN
    else orig < JMP_INSN_LEN && Covers(xs[1..], orig + xs[0].Length())
  }

  /** Offsets of every instruction, and of the end. */
  function Boundaries(xs: seq<Instr>, at: nat): (b: seq<nat>)
    ensures |b| == |xs| + 1
  {
    if xs == [] then [at] else [at] + Boundaries(xs[1..], at + xs[0].Length())
  }

  /** The copies of consecutive instructions, each at the place the previous copies leave for it. */
  function RelocateAll(xs: seq<Instr>, from: int, to: int): (r: Option<seq<Instr>>)
    requires AllSupported(xs)
    ensures r.Some? ==> |r.value| == |xs|
  {
    if xs == [] then Some([])
    else
      match Relocate(xs[0], from, to)
      case None => None
      case Some(j) =>
        match RelocateAll(xs[1..], from + xs[0].Length(), to + j.Length())
        case None => None
        case Some(js) => Some([j] + js)
  }

  /** The loop's variables once the instructions `xs` have become `ys`. */
  function After(l: Loop, xs: seq<Instr>, ys: seq<Instr>): Loop
    requires |xs| == |ys|
    decreases |xs|
  {
    if xs == [] then l else After(l.Push(ys[0].Layout(), xs[0].Length()), xs[1..], ys[1..])
  }

  /** A copy is at most three times as long as the original, and no longer than an instruction. */
  lemma RelocateLength(i: Instr, from: int, to: int)
    requires i.Valid() && i.Supported() && Relocate(i, from, to).Some?
    ensures 1 <= i.Length() <= MAX_INSN_LEN
    ensures Relocate(i, from, to).value.Length() <= 3 * i.Length()
    ensures Relocate(i, from, to).value.Length() <= MAX_INSN_LEN
  {
  }

  /** What holds of the loop's variables whenever an instruction has been copied. */
  predicate WithinBounds(l: Loop) {
    && |l.origIps| == |l.trampIps| <= l.orig && |l.origIps| <= JMP_INSN_LEN
    && (l.orig < JMP_INSN_LEN ==> |l.out| <= 3 * l.orig)
    && |l.out| <= 3 * (JMP_INSN_LEN - 1) + MAX_INSN_LEN
    && l.orig <= JMP_INSN_LEN - 1 + MAX_INSN_LEN
  }

  lemma PushWithinBounds(l: Loop, bytes: seq<byte>, n: nat)
    requires l.orig < JMP_INSN_LEN && WithinBounds(l)
    requires 1 <= n <= MAX_INSN_LEN && |bytes| <= 3 * n && |bytes| <= MAX_INSN_LEN
    ensures WithinBounds(l.Push(bytes, n)) && |l.out| + |bytes| <= MAX_TRAMPOLINE_LEN
  {
  }

  lemma BuildPushes(code: seq<byte>, site: Site, l: Loop, bytes: seq<byte>, n: nat)
    requires l.orig < JMP_INSN_LEN && 1 <= n <= |code| - l.orig
    requires CopyStep(code[l.orig..], site.src + l.orig, site.tramp + |l.out|) == Emit(bytes, n)
    requires |l.out| + |bytes| <= MAX_TRAMPOLINE_LEN
    ensures BuildFrom(code, site, l) == BuildFrom(code, site, l.Push(bytes, n))
  {
    hide CopyStep, Close, Loop.Push;
  }

  lemma BuildRefuses(code: seq<byte>, site: Site, l: Loop)
    requires l.orig < JMP_INSN_LEN && l.orig <= |code|
    requires CopyStep(code[l.orig..], site.src + l.orig, site.tramp + |l.out|) == Refuse
    ensures BuildFrom(code, site, l) == Refused
  {
    hide CopyStep, Close, Loop.Push;
  }

  lemma BuildStep(code: seq<byte>, site: Site, l: Loop, i: Instr, rest: seq<byte>)
    requires i.Valid() && i.Supported()
    requires l.orig < JMP_INSN_LEN && WithinBounds(l)
    requires l.orig <= |code| && code[l.orig..] == i.Layout() + rest
    ensures match Relocate(i, site.src + l.orig, site.tramp + |l.out|)
            case None => BuildFrom(code, site, l) == Refused
            case Some(j) =>
              var next := l.Push(j.Layout(), i.Length());
              && WithinBounds(next) && next.orig <= |code|
              && BuildFrom(code, site, l) == BuildFrom(code, site, next)
  {
    hide Instr.Valid, Instr.Decodable, Instr.CopiedBlindly, Instr.Layout, Instr.Length, CopyStep, Relocate, Close,
         BuildFrom, WithinBounds;
    var from, to := site.src + l.orig, site.tramp + |l.out|;
    CopyStepRelocates(i, rest, from, to);
    match Relocate(i, from, to) {
      case None => BuildRefuses(code, site, l);
      case Some(j) =>
        RelocateLength(i, from, to);
        PushWithinBounds(l, j.Layout(), i.Length());
        BuildPushes(code, site, l, j.Layout(), i.Length());
    }
  }

  lemma BuildEnds(code: seq<byte>, site: Site, l: Loop)
    requires JMP_INSN_LEN <= l.orig <= |code|
    ensures BuildFrom(code, site, l) == Close(site, l)
  {
  }

  lemma RestAfter(code: seq<byte>, at: nat, first: seq<byte>, rest: seq<byte>)
    requires at <= |code| && code[at..] == first + rest
    ensures at + |first| <= |code| && code[at + |first|..] == rest
  {
    assert code[at + |first|..] == code[at..][|first|..];
  }

  lemma LayoutCons(xs: seq<Instr>, rest: seq<byte>)
    requires xs != []
    ensures LayoutAll(xs) + rest == xs[0].Layout() + (LayoutAll(xs[1..]) + rest)
  {
    hide Instr.Layout;
  }

  lemma {:induction false} BuildFromRelocates(code: seq<byte>, site: Site, l: Loop, xs: seq<Instr>, rest: seq<byte>)
    requires AllSupported(xs) && Covers(xs, l.orig) && WithinBounds(l)
    requires l.orig <= |code| && code[l.orig..] == LayoutAll(xs) + rest
    ensures match RelocateAll(xs, site.src + l.orig, site.tramp + |l.out|)
            case None => BuildFrom(code, site, l) == Refused
            case Some(ys) => WithinBounds(After(l, xs, ys)) && BuildFrom(code, site, l) == Close(site, After(l, xs, ys))
    decreases |xs|
  {
    hide Instr.Valid, Instr.Decodable, Instr.CopiedBlindly, Instr.Layout, Relocate, BuildFrom, Close, LayoutAll;
    if xs == [] {
      BuildEnds(code, site, l);
    } else {
      var (i, tail) := (xs[0], LayoutAll(xs[1..]) + rest);
      LayoutCons(xs, rest);
      BuildStep(code, site, l, i, tail);
      var r := Relocate(i, site.src + l.orig, site.tramp + |l.out|);
      if r.Some? {
        LengthOfLayout(i);
        RestAfter(code, l.orig, i.Layout(), tail);
        BuildFromRelocates(code, site, l.Push(r.value.Layout(), i.Length()), xs[1..], rest);
      }
    }
  }

  lemma LengthOfLayout(i: Instr)
    ensures |i.Layout()| == i.Length()
  {
  }

  lemma AfterGrows(l: Loop, xs: seq<Instr>, ys: seq<Instr>)
    requires |xs| == |ys|
    ensures l.orig <= After(l, xs, ys).orig && |l.out| <= |After(l, xs, ys).out|
    decreases |xs|
  {
    hide Instr.Layout, Instr.Length;
  }

  lemma {:induction false} AfterLayout(l: Loop, xs: seq<Instr>, ys: seq<Instr>)
    requires |xs| == |ys|
    ensures var a := After(l, xs, ys);
            && a.orig == l.orig + LengthAll(xs) && a.out == l.out + LayoutAll(ys)
            && |a.out| == |l.out| + LengthAll(ys)
    decreases |xs|
  {
    hide Instr.Layout, Instr.Length;
    if xs == [] {
      assert l.out + [] == l.out;
    } else {
      var next := l.Push(ys[0].Layout(), xs[0].Length());
      AfterLayout(next, xs[1..], ys[1..]);
      assert next.out + LayoutAll(ys[1..]) == l.out + LayoutAll(ys);
    }
  }

  /** No boundary is dropped and none is cut to eight bits. */
  lemma {:induction false} AfterBoundaries(l: Loop, xs: seq<Instr>, ys: seq<Instr>)
    requires |xs| == |ys| && |l.origIps| == |l.trampIps| && |l.origIps| + |xs| <= SNARE_MAX_IPS
    requires After(l, xs, ys).orig < 256 && |After(l, xs, ys).out| < 256
    ensures var a := After(l, xs, ys);
            && |a.origIps| == |a.trampIps| == |l.origIps| + |xs|
            && a.origIps + [a.orig] == l.origIps + Boundaries(xs, l.orig)
            && a.trampIps + [|a.out|] == l.trampIps + Boundaries(ys, |l.out|)
    decreases |xs|
  {
    hide Instr.Layout, Instr.Length;
    if xs != [] {
      var next := l.Push(ys[0].Layout(), xs[0].Length());
      AfterGrows(next, xs[1..], ys[1..]);
      AfterBoundaries(next, xs[1..], ys[1..]);
      assert next.origIps + Boundaries(xs[1..], next.orig) == l.origIps + Boundaries(xs, l.orig);
      assert next.trampIps + Boundaries(ys[1..], |next.out|) == l.trampIps + Boundaries(ys, |l.out|);
    }
  }

  /** Whole instructions that cover five bytes are at most five. */
  lemma {:induction false} CoversCount(xs: seq<Instr>, orig: nat)
    requires AllSupported(xs) && Covers(xs, orig)
    ensures orig < JMP_INSN_LEN ==> orig + |xs| <= JMP_INSN_LEN
    ensures orig >= JMP_INSN_LEN ==> xs == []
    decreases |xs|
  {
    if xs != [] { CoversCount(xs[1..], orig + xs[0].Length()); }
  }

  /** The final values of the loop's variables. */
  lemma BuildReaches(xs: seq<Instr>, rest: seq<byte>, site: Site)
    requires AllSupported(xs) && Covers(xs, 0)
    ensures match RelocateAll(xs, site.src, site.tramp)
            case None => Build(LayoutAll(xs) + rest, site) == Refused
            case Some(ys) =>
              var a := After(Loop(0, [], [], []), xs, ys);
              && Build(LayoutAll(xs) + rest, site) == Close(site, a)
              && WithinBounds(a)
              && a.orig == LengthAll(xs) && a.out == LayoutAll(ys) && |a.out| == LengthAll(ys)
  {
    hide Instr.Valid, Instr.Supported, Instr.Layout, Instr.Length, Relocate, BuildFrom, Close;
    var l := Loop(0, [], [], []);
    BuildFromRelocates(LayoutAll(xs) + rest, site, l, xs, rest);
    if RelocateAll(xs, site.src, site.tramp).Some? {
      var ys := RelocateAll(xs, site.src, site.tramp).value;
      AfterLayout(l, xs, ys);
      assert l.out + LayoutAll(ys) == LayoutAll(ys);
    }
  }

  /**
   The builder, given any supported instructions that cover the jump, either refuses, exactly when
   some displacement does not fit, or writes the relocated instructions followed by the jump back,
   with one boundary pair for every instruction and one for the end.
   */
  lemma BuildRelocates(xs: seq<Instr>, rest: seq<byte>, site: Site)
    requires AllSupported(xs) && Covers(xs, 0)
    ensures Build(LayoutAll(xs) + rest, site) ==
            match RelocateAll(xs, site.src, site.tramp)
            case None => Refused
            case Some(ys) => Built(LayoutAll(ys) + Tail(site, LengthAll(xs), LengthAll(ys)), LengthAll(xs),
                                   Boundaries(xs, 0), Boundaries(ys, 0))
  {
    hide Instr.Valid, Instr.Supported, Instr.Layout, Instr.Length, Relocate, Build, Tail, Close, Covers, RelocateAll;
    BuildReaches(xs, rest, site);
    CoversCount(xs, 0);
    if RelocateAll(xs, site.src, site.tramp).Some? {
      var ys := RelocateAll(xs, site.src, site.tramp).value;
      AfterBoundaries(Loop(0, [], [], []), xs, ys);
      assert [] + Boundaries(xs, 0) == Boundaries(xs, 0) && [] + Boundaries(ys, 0) == Boundaries(ys, 0);
      CloseIs(site, After(Loop(0, [], [], []), xs, ys));
    }
  }

  lemma CloseIs(site: Site, a: Loop)
    requires WithinBounds(a)
    ensures Close(site, a) == Built(a.out + Tail(site, a.orig, |a.out|), a.orig,
                                    a.origIps + [a.orig], a.trampIps + [|a.out|])
  {
  }

  /**
   How far the buffers are used: the copies and the longer of the two jumps take at most 41 of the
   59 bytes, at most 6 of the 8 boundary slots are filled, and the builder never leaves a buffer.
   */
  lemma BuildWithinBuffers(xs: seq<Instr>, rest: seq<byte>, site: Site)
    requires AllSupported(xs) && Covers(xs, 0)
    ensures var r := Build(LayoutAll(xs) + rest, site);
            && !r.OutOfBounds?
            && (r.Built? ==> |r.bytes| <= 41 < MAX_TRAMPOLINE_LEN && |r.origIps| == |r.trampIps| <= 6 < SNARE_MAX_IPS)
  {
    hide Instr.Valid, Instr.Supported, Instr.Layout, Instr.Length, Relocate, Build;
    BuildReaches(xs, rest, site);
    CoversCount(xs, 0);
    BuildRelocates(xs, rest, site);
  }

  // ---------------------------------------------------------------------------------------------
  // Meaning
  // ---------------------------------------------------------------------------------------------

  /** Instruction for instruction, the copy at its recorded offset means what the original meant. */
  lemma {:induction false} BoundariesKeepMeaning(xs: seq<Instr>, src: int, tramp: int, a: nat, b: nat, k: nat)
    requires AllSupported(xs) && RelocateAll(xs, src + a, tramp + b).Some? && k < |xs|
    ensures var ys := RelocateAll(xs, src + a, tramp + b).value;
            KeepsMeaning(xs[k], ys[k], src + Boundaries(xs, a)[k], tramp + Boundaries(ys, b)[k])
    decreases k
  {
    hide Instr.Valid, Instr.Decodable, Instr.CopiedBlindly, Instr.Length, Relocate, KeepsMeaning;
    RelocateKeepsMeaning(xs[0], src + a, tramp + b);
    if k > 0 {
      var j := Relocate(xs[0], src + a, tramp + b).value;
      BoundariesKeepMeaning(xs[1..], src, tramp, a + xs[0].Length(), b + j.Length(), k - 1);
    }
  }

  /** Recorded offsets start at `at`, strictly increase and end behind the last instruction. */
  lemma {:induction false} BoundariesIncrease(xs: seq<Instr>, at: nat)
    requires forall k | 0 <= k < |xs| :: xs[k].Valid()
    ensures var b := Boundaries(xs, at);
            && b[0] == at && b[|xs|] == at + LengthAll(xs)
            && forall k, m | 0 <= k < m <= |xs| :: b[k] < b[m]
  {
    if xs != [] {
      BoundariesIncrease(xs[1..], at + xs[0].Length());
      assert xs[0].Length() >= 1;
      hide *;
    }
  }
}
