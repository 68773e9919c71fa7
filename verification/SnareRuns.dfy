/**
 Executing a trampoline: from every recorded boundary it does what the source does from its own
 boundary, with the near jump back and with the absolute one.
 */
module SnareRuns {
  import opened Bytes
  import opened Options
  import SnareOpcodes
  import opened SnareIsa
  import opened SnareTrampoline
  import opened SnareProgram

  const TWO64: int := TWO32 * TWO32

  /**
   A machine with states `S`: what an instruction of a given meaning does and where control goes when
   it does not go on behind the instruction, and the bytes of memory.
   */
  datatype Machine<!S> = Machine(exec: (Meaning, S) -> (S, Option<int>), byteAt: (S, int) -> byte)

  /** Where a straight-line run leaves: the machine state and the address that executes next. */
  datatype Exit<S> = Exit(state: S, ip: int)

  predicate Runnable(xs: seq<Instr>) {
    forall k | 0 <= k < |xs| :: xs[k].Valid() && xs[k].Decodable()
  }

  /** Straight-line execution up to the first instruction that sends control elsewhere, or the end. */
  ghost function Run<S>(m: Machine<S>, xs: seq<Instr>, at: int, s: S): Exit<S>
    requires Runnable(xs)
  {
    if xs == [] then Exit(s, at)
    else
      var r := m.exec(xs[0].Meaning(at), s);
      if r.1.Some? then Exit(r.0, r.1.value) else Run(m, xs[1..], at + xs[0].Length(), r.0)
  }

  ghost predicate Resident<S>(m: Machine<S>, s: S, at: int, bytes: seq<byte>) {
    forall k | 0 <= k < |bytes| :: m.byteAt(s, at + k) == bytes[k]
  }

  /** The eight-byte number in memory. */
  function Load64<S>(m: Machine<S>, s: S, at: int): int {
    FromLe32([m.byteAt(s, at), m.byteAt(s, at + 1), m.byteAt(s, at + 2), m.byteAt(s, at + 3)]) +
    TWO32 * FromLe32([m.byteAt(s, at + 4), m.byteAt(s, at + 5), m.byteAt(s, at + 6), m.byteAt(s, at + 7)])
  }

  /** Jumps are taken and change nothing else; a jump through memory goes where memory says. */
  ghost predicate Jumps<S(!new)>(m: Machine<S>) {
    && (forall t: int, s: S :: m.exec(Transfer(Always, t), s) == (s, Some(t)))
    && (forall a: int, s: S :: m.exec(JumpThrough(a), s) == (s, Some(Load64(m, s, a))))
  }

  /** The state in which a run passes the last instruction, nothing when an earlier one sends control elsewhere. */
  ghost function Passed<S>(m: Machine<S>, xs: seq<Instr>, at: int, s: S): Option<S>
    requires Runnable(xs)
  {
    if xs == [] then Some(s)
    else
      var r := m.exec(xs[0].Meaning(at), s);
      if r.1.Some? then None else Passed(m, xs[1..], at + xs[0].Length(), r.0)
  }

  /**
   The bytes are there at the start of a run, and no instruction of it overwrites them in the state it is
   reached in.
   */
  ghost predicate Keeps<S>(m: Machine<S>, xs: seq<Instr>, at: int, s: S, place: int, bytes: seq<byte>)
    requires Runnable(xs)
  {
    && Resident(m, s, place, bytes)
    && (xs == [] || var r := m.exec(xs[0].Meaning(at), s);
                    r.1.Some? || Keeps(m, xs[1..], at + xs[0].Length(), r.0, place, bytes))
  }

  // ---------------------------------------------------------------------------------------------
  // The trampoline as instructions
  // ---------------------------------------------------------------------------------------------

  const FAR_JUMP := Instr([], [], [0xFF], [0x25], [], [0, 0, 0, 0], [])

  /** The jump from `end` back to the first instruction that was not copied. */
  function Back(site: Site, orig: nat, end: int): Instr {
    if site.near then NearBranch([0xE9], site.src + orig, end) else FAR_JUMP
  }

  /** The relocated instructions and the jump back. */
  function Copied(xs: seq<Instr>, site: Site): seq<Instr>
    requires AllSupported(xs) && RelocateAll(xs, site.src, site.tramp).Some?
  {
    var ys := RelocateAll(xs, site.src, site.tramp).value;
    ys + [Back(site, LengthAll(xs), site.tramp + LengthAll(ys))]
  }

  /** The bytes behind the instructions: for the absolute jump, the address it goes to. */
  function Stored(xs: seq<Instr>, site: Site): seq<byte> {
    if site.near then [] else Le64(site.src + LengthAll(xs))
  }

  lemma {:induction false} LayoutAllAppend(ys: seq<Instr>, j: Instr)
    ensures LayoutAll(ys + [j]) == LayoutAll(ys) + j.Layout()
    decreases |ys|
  {
    hide Instr.Layout;
    if ys == [] {
      assert LayoutAll([j]) == j.Layout() + LayoutAll([]);
    } else {
      LayoutAllAppend(ys[1..], j);
      assert (ys + [j])[1..] == ys[1..] + [j];
    }
  }

  lemma TailLayout(xs: seq<Instr>, ys: seq<Instr>, site: Site)
    ensures Tail(site, LengthAll(xs), LengthAll(ys)) ==
            Back(site, LengthAll(xs), site.tramp + LengthAll(ys)).Layout() + Stored(xs, site)
  {
    hide Le32, Le64, LengthAll;
    if site.near {
      PlainLayout([0xE9], Le32(site.src + LengthAll(xs) - (site.tramp + LengthAll(ys) + JMP_INSN_LEN)));
    }
  }

  /** What the builder wrote, read as instructions: whenever it succeeds, near or far. */
  lemma BuiltLayout(xs: seq<Instr>, rest: seq<byte>, site: Site)
    requires AllSupported(xs) && Covers(xs, 0) && Build(LayoutAll(xs) + rest, site).Built?
    ensures RelocateAll(xs, site.src, site.tramp).Some?
    ensures Build(LayoutAll(xs) + rest, site).bytes == LayoutAll(Copied(xs, site)) + Stored(xs, site)
  {
    hide Instr.Valid, Instr.Supported, Instr.Layout, Instr.Length, Relocate, RelocateAll, Build, Tail, Le64,
         LayoutAll, LengthAll, Stored;
    BuildRelocates(xs, rest, site);
    var ys := RelocateAll(xs, site.src, site.tramp).value;
    TailLayout(xs, ys, site);
    LayoutAllAppend(ys, Copied(xs, site)[|ys|]);
  }

  // ---------------------------------------------------------------------------------------------
  // The jump back
  // ---------------------------------------------------------------------------------------------

  /** The absolute jump goes through the eight bytes behind its own six, wherever it is placed. */
  lemma FarJumpMeaning(at: int)
    ensures FAR_JUMP.Valid() && FAR_JUMP.Supported() && FAR_JUMP.Meaning(at) == JumpThrough(at + 6)
  {
    assert Signed32(FromLe32([0, 0, 0, 0])) == 0;
  }

  /** Memory holds an address exactly when its eight bytes are there. */
  lemma LoadsAddressIff<S>(m: Machine<S>, s: S, at: int, target: int)
    requires 0 <= target < TWO64
    ensures Load64(m, s, at) == target <==> Resident(m, s, at, Le64(target))
  {
    hide Le32, FromLe32;
    var lo := [m.byteAt(s, at), m.byteAt(s, at + 1), m.byteAt(s, at + 2), m.byteAt(s, at + 3)];
    var hi := [m.byteAt(s, at + 4), m.byteAt(s, at + 5), m.byteAt(s, at + 6), m.byteAt(s, at + 7)];
    ResidentWords(m, s, at, target, lo, hi);
    Le32RoundTrip(target);
    Le32RoundTrip(target / TWO32);
    FromLe32RoundTrip(lo);
    FromLe32RoundTrip(hi);
    FromLe32RoundTrip(Le32(target));
    FromLe32RoundTrip(Le32(target / TWO32));
    HalvesIff(target, FromLe32(lo), FromLe32(hi));
  }

  lemma HalvesIff(target: int, lo: nat, hi: nat)
    requires 0 <= target < TWO64 && lo < TWO32 && hi < TWO32
    ensures target / TWO32 < TWO32 && (lo + TWO32 * hi == target <==> lo == target % TWO32 && hi == target / TWO32)
  {
    if lo + TWO32 * hi == target { Quotient(target, TWO32, hi, lo); }
  }

  lemma ResidentWords<S>(m: Machine<S>, s: S, at: int, target: int, lo: seq<byte>, hi: seq<byte>)
    requires |lo| == |hi| == 4
    requires forall k | 0 <= k < 4 :: lo[k] == m.byteAt(s, at + k) && hi[k] == m.byteAt(s, at + 4 + k)
    ensures Resident(m, s, at, Le64(target)) <==> lo == Le32(target) && hi == Le32(target / TWO32)
  {
    hide Le32;
    var b := Le64(target);
    assert b[..4] == Le32(target) && b[4..] == Le32(target / TWO32);
    if Resident(m, s, at, b) {
      forall k | 0 <= k < 4 ensures lo[k] == b[k] && hi[k] == b[4 + k] { assert m.byteAt(s, at + (4 + k)) == b[4 + k]; }
    }
    if lo == Le32(target) && hi == Le32(target / TWO32) {
      forall k | 0 <= k < 8 ensures m.byteAt(s, at + k) == b[k] {
        if k >= 4 { assert hi[k - 4] == m.byteAt(s, at + 4 + (k - 4)); }
      }
    }
  }

  /** How far the near jump back has to go. */
  function BackDistance(xs: seq<Instr>, site: Site): int
    requires AllSupported(xs) && RelocateAll(xs, site.src, site.tramp).Some?
  {
    site.src + LengthAll(xs) - (site.tramp + LengthAll(RelocateAll(xs, site.src, site.tramp).value) + JMP_INSN_LEN)
  }

  /** With the page in range of the source the near jump back reaches. */
  lemma InRangeReaches(xs: seq<Instr>, site: Site)
    requires AllSupported(xs) && Covers(xs, 0) && RelocateAll(xs, site.src, site.tramp).Some?
    requires InRel32Range(site.src, site.tramp)
    ensures FitsInt32(BackDistance(xs, site))
  {
    hide Instr.Valid, Instr.Supported, Instr.Length, Relocate, Build;
    BuildReaches(xs, [], site);
  }

  /** A page that the Windows scan may take: within 2^31 of the source, without the narrower range test. */
  predicate Scanned(src: int, page: int) {
    -0x8000_0000 <= page - src <= 0x8000_0000
  }

  /** By how much the copies and the jump are longer than the source. */
  function Growth(xs: seq<Instr>, site: Site): int
    requires AllSupported(xs) && RelocateAll(xs, site.src, site.tramp).Some?
  {
    LengthAll(RelocateAll(xs, site.src, site.tramp).value) + JMP_INSN_LEN - LengthAll(xs)
  }

  /**
   On a page that the Windows scan takes, the near jump back goes to the source exactly when the page
   is not among the last or the first ones of the range; there it misses by 2^32.
   */
  lemma JumpBackLostIff(xs: seq<Instr>, site: Site)
    requires AllSupported(xs) && Covers(xs, 0) && RelocateAll(xs, site.src, site.tramp).Some? && site.near
    requires Scanned(site.src, site.tramp)
    ensures var end := site.tramp + LengthAll(RelocateAll(xs, site.src, site.tramp).value);
            var j := Back(site, LengthAll(xs), end);
            && j.Valid() && j.Decodable()
            && j.Meaning(end) ==
               Transfer(Always, site.src + LengthAll(xs) + Miss(site.tramp - site.src, Growth(xs, site)))
  {
    hide Instr.Valid, Instr.Supported, Instr.Length, Relocate, RelocateAll, LengthAll, Build, AllSupported, Covers,
         Instr.Meaning, Instr.Decodable, Signed32, NearBranch;
    BuildReaches(xs, [], site);
    var end := site.tramp + LengthAll(RelocateAll(xs, site.src, site.tramp).value);
    NearBranchAnywhere(site.src + LengthAll(xs), end);
    MissIs(site.tramp - site.src, Growth(xs, site));
  }

  /** By how much the jump back misses, for a page at distance `d` and copies longer by `growth`. */
  function Miss(d: int, growth: int): int {
    if d > 0x8000_0000 - growth then TWO32 else if d < -0x7FFF_FFFF - growth then -TWO32 else 0
  }

  lemma MissIs(d: int, growth: int)
    requires -0x8000_0000 <= d <= 0x8000_0000 && -100 < growth < 100
    ensures Signed32((-d - growth) % TWO32) == -d - growth + Miss(d, growth)
  {
    var x := -d - growth;
    if x < -0x8000_0000 {
      Quotient(x, TWO32, -1, x + TWO32);
    } else if x < 0 {
      Quotient(x, TWO32, -1, x + TWO32);
    } else {
      Quotient(x, TWO32, 0, x);
    }
  }

  /** `B8` with four bytes: a move of a constant, as long as the jump that replaces it. */
  const CONSTANT_MOVE := Instr([], [], [0xB8], [], [], [], [0, 0, 0, 0])

  lemma MoveCopied(from: int, to: int)
    ensures AllSupported([CONSTANT_MOVE]) && Covers([CONSTANT_MOVE], 0) && LengthAll([CONSTANT_MOVE]) == 5
    ensures RelocateAll([CONSTANT_MOVE], from, to) == Some([CONSTANT_MOVE])
  {
    hide Relocate;
    MoveAlone();
    RelocateRest(CONSTANT_MOVE, [], from, to);
  }

  lemma MoveAlone()
    ensures [CONSTANT_MOVE] == [CONSTANT_MOVE] + [] && CONSTANT_MOVE.Valid() && CONSTANT_MOVE.Supported()
    ensures forall from, to :: Relocate(CONSTANT_MOVE, from, to) == Some(CONSTANT_MOVE)
    ensures LengthAll([CONSTANT_MOVE]) == 5 && Covers([CONSTANT_MOVE], 0)
  {
    assert [CONSTANT_MOVE][1..] == [] && CONSTANT_MOVE.Length() == 5;
  }

  /** On a page 2^31 above its source, the copy of a constant move is followed by a jump that misses by 2^32. */
  lemma FarPageLosesJumpBack(src: int)
    ensures var page := src + 0x8000_0000;
            && Scanned(src, page)
            && var j := Back(Site(src, page, true), 5, page + 5);
               j.Valid() && j.Decodable() && j.Meaning(page + 5) == Transfer(Always, src + 5 + TWO32)
  {
    hide Instr.Valid, Instr.Decodable, Instr.Meaning, RelocateAll, LengthAll, AllSupported, Covers, Back;
    var site := Site(src, src + 0x8000_0000, true);
    MoveCopied(site.src, site.tramp);
    JumpBackLostIff([CONSTANT_MOVE], site);
  }

  /** A near jump assembled for any target within 2^32 goes there, or misses by 2^32. */
  lemma NearBranchAnywhere(target: int, at: int)
    ensures var (j, d) := (NearBranch([0xE9], target, at), target - (at + JMP_INSN_LEN));
            && j.Valid() && j.Decodable()
            && j.Meaning(at) == Transfer(Always, at + JMP_INSN_LEN + Signed32(d % TWO32))
  {
    Le32RoundTrip(target - (at + JMP_INSN_LEN));
    assert NearBranch([0xE9], target, at).Form() == SnareOpcodes.Rel32;
  }

  lemma ResidentPart<S>(m: Machine<S>, s: S, at: int, bytes: seq<byte>, a: nat, b: nat)
    requires Resident(m, s, at, bytes) && a <= b <= |bytes|
    ensures Resident(m, s, at + a, bytes[a..b])
  {
    forall k | 0 <= k < b - a ensures m.byteAt(s, at + a + k) == bytes[a..b][k] {
      assert m.byteAt(s, at + (a + k)) == bytes[a + k];
    }
  }

  lemma LayoutAllLength(xs: seq<Instr>)
    ensures |LayoutAll(xs)| == LengthAll(xs)
  {
    hide Instr.Layout, Instr.Length;
  }

  /** Where the absolute jump reads its target: behind its own six bytes. */
  function Slot(xs: seq<Instr>, site: Site): int
    requires AllSupported(xs) && RelocateAll(xs, site.src, site.tramp).Some?
  {
    site.tramp + LengthAll(RelocateAll(xs, site.src, site.tramp).value) + 6
  }

  /** Where the jump back goes from a state: by its distance, or to the address it finds in memory. */
  ghost function Landing<S>(m: Machine<S>, xs: seq<Instr>, site: Site, s: S): int
    requires AllSupported(xs) && RelocateAll(xs, site.src, site.tramp).Some?
  {
    if site.near then
      var d := BackDistance(xs, site);
      site.src + LengthAll(xs) - d + Signed32(d % TWO32)
    else Load64(m, s, Slot(xs, site))
  }

  /** The jump back, where the copies end. */
  function BackJump(xs: seq<Instr>, site: Site): Instr
    requires AllSupported(xs) && RelocateAll(xs, site.src, site.tramp).Some?
  {
    Back(site, LengthAll(xs), EndOfCopies(xs, site))
  }

  function EndOfCopies(xs: seq<Instr>, site: Site): int
    requires AllSupported(xs) && RelocateAll(xs, site.src, site.tramp).Some?
  {
    site.tramp + LengthAll(RelocateAll(xs, site.src, site.tramp).value)
  }

  lemma BackJumpRuns(xs: seq<Instr>, site: Site)
    requires AllSupported(xs) && RelocateAll(xs, site.src, site.tramp).Some?
    ensures BackJump(xs, site).Valid() && BackJump(xs, site).Decodable()
  {
    hide Instr.Valid, Instr.Decodable, Instr.Meaning, Instr.CopiedBlindly, LengthAll, RelocateAll, AllSupported,
         NearBranch, FAR_JUMP;
    FarJumpMeaning(0);
    NearBranchAnywhere(site.src + LengthAll(xs), EndOfCopies(xs, site));
  }

  lemma BackLands<S(!new)>(m: Machine<S>, xs: seq<Instr>, site: Site, s: S)
    requires AllSupported(xs) && RelocateAll(xs, site.src, site.tramp).Some? && Jumps(m)
    requires BackJump(xs, site).Valid() && BackJump(xs, site).Decodable()
    ensures m.exec(BackJump(xs, site).Meaning(EndOfCopies(xs, site)), s) == (s, Some(Landing(m, xs, site, s)))
  {
    hide Instr.Valid, Instr.Decodable, Instr.Meaning, Instr.CopiedBlindly, LengthAll, RelocateAll, AllSupported,
         NearBranch, Load64, FAR_JUMP, Signed32;
    var end := EndOfCopies(xs, site);
    FarJumpMeaning(end);
    NearBranchAnywhere(site.src + LengthAll(xs), end);
  }

  /** The near jump goes back to the source exactly when its distance fits in 32 bits. */
  lemma NearLandsIff<S>(m: Machine<S>, xs: seq<Instr>, site: Site, s: S)
    requires AllSupported(xs) && RelocateAll(xs, site.src, site.tramp).Some? && site.near
    ensures Landing(m, xs, site, s) == site.src + LengthAll(xs) <==> FitsInt32(BackDistance(xs, site))
  {
    hide LengthAll, RelocateAll, AllSupported, BackDistance;
    var d := BackDistance(xs, site);
    if FitsInt32(d) { Quotient(d, TWO32, if d < 0 then -1 else 0, if d < 0 then d + TWO32 else d); }
  }

  /** When the builder's bytes are in memory, the absolute jump finds its target there. */
  lemma SlotIsResident<S>(m: Machine<S>, xs: seq<Instr>, site: Site, s: S)
    requires AllSupported(xs) && RelocateAll(xs, site.src, site.tramp).Some? && !site.near
    requires Resident(m, s, site.tramp, LayoutAll(Copied(xs, site)) + Stored(xs, site))
    ensures Resident(m, s, Slot(xs, site), Le64(site.src + LengthAll(xs)))
  {
    hide Instr.Layout, Instr.Length, LengthAll, LayoutAll, RelocateAll, Le64, Resident, Copied, Stored, AllSupported,
         FAR_JUMP;
    var ys := RelocateAll(xs, site.src, site.tramp).value;
    var n := LengthAll(ys) + 6;
    FarCopies(xs, site);
    FarBytes(ys, Le64(site.src + LengthAll(xs)));
    ResidentPart(m, s, site.tramp, LayoutAll(Copied(xs, site)) + Stored(xs, site), n, n + 8);
  }

  /** Where the address of the absolute jump is. */
  lemma FarBytes(ys: seq<Instr>, address: seq<byte>)
    requires |address| == 8
    ensures var (bytes, n) := (LayoutAll(ys + [FAR_JUMP]) + address, LengthAll(ys) + 6);
            |bytes| == n + 8 && bytes[n..n + 8] == address
  {
    hide LayoutAll, LengthAll, Instr.Layout, FAR_JUMP;
    LayoutAllAppend(ys, FAR_JUMP);
    LayoutAllLength(ys);
    FarJumpLength();
    EndOfThree(LayoutAll(ys), FAR_JUMP.Layout(), address);
  }

  lemma FarCopies(xs: seq<Instr>, site: Site)
    requires AllSupported(xs) && RelocateAll(xs, site.src, site.tramp).Some? && !site.near
    ensures Copied(xs, site) == RelocateAll(xs, site.src, site.tramp).value + [FAR_JUMP]
    ensures Copied(xs, site)[..|xs|] == RelocateAll(xs, site.src, site.tramp).value
    ensures Stored(xs, site) == Le64(site.src + LengthAll(xs))
  {
    hide Instr.Valid, Instr.Supported, Relocate, LengthAll, RelocateAll, Le64, AllSupported, FAR_JUMP;
    var ys := RelocateAll(xs, site.src, site.tramp).value;
    assert (ys + [FAR_JUMP])[..|ys|] == ys;
  }

  lemma EndOfThree(a: seq<byte>, b: seq<byte>, c: seq<byte>)
    ensures |a + b + c| == |a| + |b| + |c| && (a + b + c)[|a| + |b|..|a| + |b| + |c|] == c
  {
  }

  lemma FarJumpLength()
    ensures |FAR_JUMP.Layout()| == 6
  {
  }

  // ---------------------------------------------------------------------------------------------
  // Running it
  // ---------------------------------------------------------------------------------------------

  /** A run that passes its last instruction ends behind it. */
  lemma {:induction false} RunPassed<S>(m: Machine<S>, xs: seq<Instr>, at: int, s: S)
    requires Runnable(xs)
    ensures Passed(m, xs, at, s).Some? ==> Run(m, xs, at, s) == Exit(Passed(m, xs, at, s).value, at + LengthAll(xs))
  {
    hide Instr.Valid, Instr.Decodable, Instr.Length, Instr.Meaning;
    if xs != [] {
      var r := m.exec(xs[0].Meaning(at), s);
      RunPassed(m, xs[1..], at + xs[0].Length(), r.0);
    }
  }

  /** What every instruction of a run keeps is there when the run has passed. */
  lemma {:induction false} KeptPassed<S>(m: Machine<S>, xs: seq<Instr>, at: int, s: S, place: int, bytes: seq<byte>)
    requires Runnable(xs) && Keeps(m, xs, at, s, place, bytes) && Passed(m, xs, at, s).Some?
    ensures Resident(m, Passed(m, xs, at, s).value, place, bytes)
  {
    hide Instr.Valid, Instr.Decodable, Instr.Length, Instr.Meaning, Resident;
    if xs != [] {
      KeptPassed(m, xs[1..], at + xs[0].Length(), m.exec(xs[0].Meaning(at), s).0, place, bytes);
    }
  }

  /**
   Relocated instructions with anything behind them do what the source does up to its end, in the same
   states, and then what is behind them. Nothing is asked of the machine.
   */
  lemma {:induction false} RunsAlong<S>(xs: seq<Instr>, from: int, to: int, m: Machine<S>, s: S, back: Instr)
    requires AllSupported(xs) && RelocateAll(xs, from, to).Some? && back.Valid() && back.Decodable()
    ensures Runnable(xs) && Runnable([back]) && Runnable(RelocateAll(xs, from, to).value + [back])
    ensures var ys := RelocateAll(xs, from, to).value;
            Run(m, ys + [back], to, s) ==
            match Passed(m, xs, from, s)
            case None => Run(m, xs, from, s)
            case Some(t) => Run(m, [back], to + LengthAll(ys), t)
    decreases |xs|
  {
    hide Instr.Valid, Instr.Supported, Instr.Decodable, Instr.Length, Instr.Meaning, Relocate, RelocateAll, LengthAll,
         Run, Passed, AllSupported, Runnable;
    BackAlone(back);
    if xs == [] {
      AlongNothing(from, to, m, s, back);
    } else {
      RelocateFirst(xs, from, to);
      var (i, j) := (xs[0], Relocate(xs[0], from, to).value);
      assert xs == [i] + xs[1..];
      RelocateRest(i, xs[1..], from, to);
      var ys := RelocateAll(xs[1..], from + i.Length(), to + j.Length()).value;
      LengthCons(j, ys);
      RunsAlong(xs[1..], from + i.Length(), to + j.Length(), m, m.exec(i.Meaning(from), s).0, back);
      RunCons(m, i, xs[1..], from, s);
      RunCons(m, j, ys + [back], to, s);
      assert RelocateAll(xs, from, to).value + [back] == [j] + (ys + [back]);
    }
  }

  lemma BackAlone(back: Instr)
    requires back.Valid() && back.Decodable()
    ensures Runnable([back])
  {
  }

  lemma AlongNothing<S>(from: int, to: int, m: Machine<S>, s: S, back: Instr)
    requires Runnable([back])
    ensures Runnable([]) && RelocateAll([], from, to).value + [back] == [back] && LengthAll([]) == 0
    ensures RelocateAll([], from, to) == Some([]) && Passed(m, [], from, s) == Some(s)
  {
    hide Instr.Valid, Instr.Decodable, Instr.Length, Instr.Meaning, Relocate;
  }

  lemma RunCons<S>(m: Machine<S>, i: Instr, xs: seq<Instr>, at: int, s: S)
    requires i.Valid() && i.Decodable() && Runnable(xs)
    ensures Runnable([i] + xs)
    ensures var r := m.exec(i.Meaning(at), s);
            && Run(m, [i] + xs, at, s) == (if r.1.Some? then Exit(r.0, r.1.value) else Run(m, xs, at + i.Length(), r.0))
            && Passed(m, [i] + xs, at, s) == if r.1.Some? then None else Passed(m, xs, at + i.Length(), r.0)
  {
    hide Instr.Valid, Instr.Decodable, Instr.Length, Instr.Meaning;
    assert ([i] + xs)[1..] == xs;
  }

  /** The first copy keeps its meaning. */
  lemma RelocateFirst(xs: seq<Instr>, from: int, to: int)
    requires AllSupported(xs) && RelocateAll(xs, from, to).Some? && xs != []
    ensures xs[0].Valid() && xs[0].Decodable() && AllSupported(xs[1..]) && Relocate(xs[0], from, to).Some?
    ensures KeepsMeaning(xs[0], Relocate(xs[0], from, to).value, from, to)
  {
    hide Instr.Valid, Instr.Decodable, Instr.CopiedBlindly, Instr.Length, Relocate, KeepsMeaning;
    RelocateKeepsMeaning(xs[0], from, to);
  }

  /** The others are the copies of the rest. */
  lemma RelocateRest(i: Instr, xs: seq<Instr>, from: int, to: int)
    requires AllSupported([i] + xs) && AllSupported(xs) && RelocateAll([i] + xs, from, to).Some?
    requires i.Valid() && i.Decodable() && Relocate(i, from, to).Some?
    ensures var j := Relocate(i, from, to).value;
            var rest := RelocateAll(xs, from + i.Length(), to + j.Length());
            rest.Some? && RelocateAll([i] + xs, from, to).value == [j] + rest.value
  {
    hide Instr.Valid, Instr.Supported, Instr.Decodable, Instr.Length, Relocate, AllSupported;
    assert ([i] + xs)[1..] == xs;
  }

  lemma LengthCons(i: Instr, xs: seq<Instr>)
    ensures LengthAll([i] + xs) == i.Length() + LengthAll(xs)
  {
    hide Instr.Length;
    assert ([i] + xs)[1..] == xs;
  }

  /** The copies behind the `k`-th are the copies of the instructions behind the `k`-th. */
  lemma {:induction false} RelocateSuffix(xs: seq<Instr>, src: int, tramp: int, a: nat, b: nat, k: nat)
    requires AllSupported(xs) && RelocateAll(xs, src + a, tramp + b).Some? && k <= |xs|
    ensures var ys := RelocateAll(xs, src + a, tramp + b).value;
            && AllSupported(xs[k..])
            && RelocateAll(xs[k..], src + Boundaries(xs, a)[k], tramp + Boundaries(ys, b)[k]) == Some(ys[k..])
            && Boundaries(xs, a)[k] + LengthAll(xs[k..]) == a + LengthAll(xs)
            && Boundaries(ys, b)[k] + LengthAll(ys[k..]) == b + LengthAll(ys)
    decreases k
  {
    hide Instr.Valid, Instr.Supported, Instr.Length, Relocate, RelocateAll, LengthAll, AllSupported, KeepsMeaning;
    var ys := RelocateAll(xs, src + a, tramp + b).value;
    if k == 0 {
      assert xs[0..] == xs && ys[0..] == ys;
    } else {
      RelocateFirst(xs, src + a, tramp + b);
      assert xs == [xs[0]] + xs[1..];
      RelocateRest(xs[0], xs[1..], src + a, tramp + b);
      LengthCons(xs[0], xs[1..]);
      LengthCons(ys[0], ys[1..]);
      assert ys == [ys[0]] + ys[1..];
      RelocateSuffix(xs[1..], src, tramp, a + xs[0].Length(), b + ys[0].Length(), k - 1);
      assert xs[1..][k - 1..] == xs[k..] && ys[1..][k - 1..] == ys[k..];
    }
  }

  /** The copies and the jump back, from one boundary on. */
  lemma BoundaryRunsIff<S(!new)>(xs: seq<Instr>, site: Site, m: Machine<S>, s: S, k: nat)
    requires AllSupported(xs) && RelocateAll(xs, site.src, site.tramp).Some? && k <= |xs| && Jumps(m)
    ensures Runnable(xs[k..]) && |Copied(xs, site)| == |xs| + 1 && Runnable(Copied(xs, site)[k..])
    ensures var ys := RelocateAll(xs, site.src, site.tramp).value;
            var (from, to) := (site.src + Boundaries(xs, 0)[k], site.tramp + Boundaries(ys, 0)[k]);
            var t := Passed(m, xs[k..], from, s);
            Run(m, Copied(xs, site)[k..], to, s) == Run(m, xs[k..], from, s) <==>
            (t.Some? ==> Landing(m, xs, site, t.value) == site.src + LengthAll(xs))
  {
    hide Instr.Valid, Instr.Decodable, Instr.Supported, Instr.Length, Instr.Meaning, RelocateAll, LengthAll, Run,
         Passed, Boundaries, Jumps, Landing, Back, AllSupported, Runnable;
    var ys := RelocateAll(xs, site.src, site.tramp).value;
    var (from, to) := (site.src + Boundaries(xs, 0)[k], site.tramp + Boundaries(ys, 0)[k]);
    var (end, back) := (EndOfCopies(xs, site), BackJump(xs, site));
    BackJumpRuns(xs, site);
    RelocateSuffix(xs, site.src, site.tramp, 0, 0, k);
    assert Copied(xs, site)[k..] == ys[k..] + [back];
    RunsAlong(xs[k..], from, to, m, s, back);
    RunPassed(m, xs[k..], from, s);
    var t := Passed(m, xs[k..], from, s);
    if t.Some? {
      BackLands(m, xs, site, t.value);
      RunAlone(m, back, end, t.value);
    }
  }

  /**
   Whenever the builder succeeds on supported instructions, near or far, what it wrote is laid out as
   instructions (and the address the absolute jump goes to). Running them from the `k`-th recorded
   boundary on leaves in the same state and at the same address as running the source from its `k`-th
   boundary on, exactly when the jump back, if it is reached, goes to the end of the source.
   */
  lemma TrampolineRunsIff<S(!new)>(xs: seq<Instr>, rest: seq<byte>, site: Site, m: Machine<S>, s: S, k: nat)
    requires AllSupported(xs) && Covers(xs, 0) && k <= |xs| && Jumps(m)
    requires Build(LayoutAll(xs) + rest, site).Built?
    ensures RelocateAll(xs, site.src, site.tramp).Some?
    ensures var (b, zs) := (Build(LayoutAll(xs) + rest, site), Copied(xs, site));
            && b.bytes == LayoutAll(zs) + Stored(xs, site)
            && |b.origIps| == |b.trampIps| == |zs| == |xs| + 1 && Runnable(xs[k..]) && Runnable(zs[k..])
            && var t := Passed(m, xs[k..], site.src + b.origIps[k], s);
               Run(m, zs[k..], site.tramp + b.trampIps[k], s) == Run(m, xs[k..], site.src + b.origIps[k], s) <==>
               (t.Some? ==> Landing(m, xs, site, t.value) == site.src + LengthAll(xs))
  {
    hide Instr.Valid, Instr.Decodable, Instr.Supported, Instr.Layout, Instr.Length, Instr.Meaning, Relocate,
         RelocateAll, Build, LayoutAll, LengthAll, Stored, Run, Passed, Boundaries, Covers, Jumps, Landing, Back,
         AllSupported, Runnable;
    BuiltLayout(xs, rest, site);
    BuildRelocates(xs, rest, site);
    BoundaryRunsIff(xs, site, m, s, k);
  }

  lemma RunAlone<S>(m: Machine<S>, i: Instr, at: int, s: S)
    requires i.Valid() && i.Decodable() && m.exec(i.Meaning(at), s).1.Some?
    ensures Runnable([i]) && Run(m, [i], at, s) == var r := m.exec(i.Meaning(at), s); Exit(r.0, r.1.value)
  {
    hide Instr.Valid, Instr.Decodable, Instr.Meaning;
    assert [i] == [i] + [];
    RunCons(m, i, [], at, s);
  }

  /**
   The jump back finds its way: near, its distance fits; far, the eight bytes of its target are in memory
   and the instructions of the run, in the states they are reached in, leave them alone.
   */
  ghost predicate Returns<S>(xs: seq<Instr>, site: Site, m: Machine<S>, s: S, k: nat)
    requires AllSupported(xs) && RelocateAll(xs, site.src, site.tramp).Some? && k <= |xs|
  {
    if site.near then FitsInt32(BackDistance(xs, site))
    else
      && 0 <= site.src + LengthAll(xs) < TWO64 && Runnable(xs[k..])
      && Keeps(m, xs[k..], site.src + Boundaries(xs, 0)[k], s, Slot(xs, site), Le64(site.src + LengthAll(xs)))
  }

  /** The same with conditions on the start: a thread moved to any boundary goes on as it would have in the source. */
  lemma TrampolineRunsFrom<S(!new)>(xs: seq<Instr>, rest: seq<byte>, site: Site, m: Machine<S>, s: S, k: nat)
    requires AllSupported(xs) && Covers(xs, 0) && k <= |xs| && Jumps(m)
    requires Build(LayoutAll(xs) + rest, site).Built? && RelocateAll(xs, site.src, site.tramp).Some?
    requires Returns(xs, site, m, s, k)
    ensures var (b, zs) := (Build(LayoutAll(xs) + rest, site), Copied(xs, site));
            && b.bytes == LayoutAll(zs) + Stored(xs, site)
            && |b.origIps| == |b.trampIps| == |zs| == |xs| + 1 && Runnable(xs[k..]) && Runnable(zs[k..])
            && Run(m, zs[k..], site.tramp + b.trampIps[k], s) == Run(m, xs[k..], site.src + b.origIps[k], s)
  {
    hide Instr.Valid, Instr.Supported, Instr.Layout, Instr.Length, Relocate, RelocateAll, Build, LayoutAll, LengthAll,
         Stored, Resident, Run, Passed, Keeps, Boundaries, Covers, Jumps, Landing, Copied, BackDistance, Le64,
         AllSupported, Runnable;
    TrampolineRunsIff(xs, rest, site, m, s, k);
    BuildRelocates(xs, rest, site);
    var from := site.src + Boundaries(xs, 0)[k];
    var t := Passed(m, xs[k..], from, s);
    if t.Some? {
      if site.near {
        NearLandsIff(m, xs, site, t.value);
      } else {
        KeptPassed(m, xs[k..], from, s, Slot(xs, site), Le64(site.src + LengthAll(xs)));
        FarLandsIff(m, xs, site, t.value);
      }
    }
  }

  /** The absolute jump goes back to the source exactly when the eight bytes of its target are in memory. */
  lemma FarLandsIff<S>(m: Machine<S>, xs: seq<Instr>, site: Site, s: S)
    requires AllSupported(xs) && RelocateAll(xs, site.src, site.tramp).Some? && !site.near
    requires 0 <= site.src + LengthAll(xs) < TWO64
    ensures Landing(m, xs, site, s) == site.src + LengthAll(xs) <==>
            Resident(m, s, Slot(xs, site), Le64(site.src + LengthAll(xs)))
  {
    hide LengthAll, RelocateAll, AllSupported, Slot, Le64, Resident, Load64;
    LoadsAddressIff(m, s, Slot(xs, site), site.src + LengthAll(xs));
  }

  lemma StartsAtZero(xs: seq<Instr>, rest: seq<byte>, site: Site)
    requires AllSupported(xs) && Covers(xs, 0) && Build(LayoutAll(xs) + rest, site).Built?
    ensures RelocateAll(xs, site.src, site.tramp).Some? && Boundaries(xs, 0)[0] == 0
    ensures var b := Build(LayoutAll(xs) + rest, site);
            |b.origIps| == |b.trampIps| == |xs| + 1 && b.origIps[0] == 0 && b.trampIps[0] == 0
  {
    hide Instr.Valid, Instr.Supported, Instr.Layout, Instr.Length, Relocate, RelocateAll, Build, LayoutAll, LengthAll,
         Covers, AllSupported;
    BuildRelocates(xs, rest, site);
  }

  /** From the start: executing the trampoline is executing the source. */
  lemma TrampolineRuns<S(!new)>(xs: seq<Instr>, rest: seq<byte>, site: Site, m: Machine<S>, s: S)
    requires AllSupported(xs) && Covers(xs, 0) && Jumps(m)
    requires Build(LayoutAll(xs) + rest, site).Built? && RelocateAll(xs, site.src, site.tramp).Some?
    requires Returns(xs, site, m, s, 0)
    ensures Runnable(xs) && Runnable(Copied(xs, site))
    ensures Build(LayoutAll(xs) + rest, site).bytes == LayoutAll(Copied(xs, site)) + Stored(xs, site)
    ensures Run(m, Copied(xs, site), site.tramp, s) == Run(m, xs, site.src, s)
  {
    hide Instr.Valid, Instr.Supported, Instr.Layout, Instr.Length, Relocate, RelocateAll, Build, LayoutAll, LengthAll,
         Stored, Run, Covers, Copied, Returns, AllSupported, Runnable, Jumps;
    TrampolineRunsFrom(xs, rest, site, m, s, 0);
    StartsAtZero(xs, rest, site);
    assert xs[0..] == xs && Copied(xs, site)[0..] == Copied(xs, site);
  }
}
