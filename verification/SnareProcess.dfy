/**
 Making, installing and removing hooks in process memory: `snare_inline_new`, `snare_inline_install`,
 `snare_inline_remove` and the batch forms, over any sequence of calls.
 */
module SnareProcess {
  import opened Bytes
  import opened Options
  import opened SnareDecoder
  import opened SnareIsa
  import opened SnareTrampoline
  import opened SnareProgram
  import opened SnareRuns
  import opened SnareHooks

  /**
   A hook record: source, jump and saved bytes, the relay's bytes if there is a relay, the trampoline's
   address (nothing for a null pointer), its bytes and boundary tables, and whether the jump is in place.
   */
  datatype Hook = Hook(at: nat, jump: seq<byte>, saved: seq<byte>, relay: seq<byte>, tramp: Option<int>,
                       code: seq<byte>, ips: Ips, installed: bool)

  predicate HookOk(h: Hook, size: nat) {
    && |h.jump| == |h.saved| == JMP_INSN_LEN && h.at + JMP_INSN_LEN <= size
    && |h.ips.orig| == |h.ips.tramp|
  }

  /** What the allocator answers: a page near the source, memory anywhere, or nothing. */
  datatype Space = Near(page: int) | Far(at: int) | Exhausted

  function SiteOf(src: int, space: Space): Site
    requires !space.Exhausted?
  {
    if space.Near? then Site(src, space.page, true) else Site(src, space.at, false)
  }

  /** The record that `snare_inline_new` makes of what the builder does with the source's bytes. */
  function MadeHook(mem: seq<byte>, src: nat, dst: int, space: Space): Hook
    requires src + JMP_INSN_LEN <= |mem| && !space.Exhausted?
  {
    var (site, page) := (SiteOf(src, space), if space.Near? then Some(space.page) else None);
    var b := Build(mem[src..], site);
    Hook(src, RelJmp(src, HookTarget(src, dst, page)), mem[src..src + JMP_INSN_LEN],
         if space.Near? && !InRel32Range(src, dst) then AbsJmp(dst) else [],
         if b.Built? then Some(site.tramp) else None, if b.Built? then b.bytes else [],
         Recorded(mem[src..], site), false)
  }

  /** The builder reads behind the end of memory on this source. */
  predicate Faults(mem: seq<byte>, src: nat, space: Space)
    requires src <= |mem| && !space.Exhausted?
  {
    Build(mem[src..], SiteOf(src, space)).OutOfBounds?
  }

  /** Memory and hooks as values; the reference for every operation below. */
  datatype World = World(mem: seq<byte>, hooks: seq<Hook>) {

    predicate Ok() {
      forall i | 0 <= i < |hooks| :: HookOk(hooks[i], |mem|)
    }

    predicate Handle(i: int) { 0 <= i < |hooks| }

    /** Five readable bytes at the source, and the allocator and the builder get through. */
    predicate CanMake(src: nat, space: Space) {
      src + JMP_INSN_LEN <= |mem| && !space.Exhausted? && !Faults(mem, src, space)
    }

    function New(src: nat, dst: int, space: Space): (w: World)
      requires Ok() && CanMake(src, space)
      ensures w.Ok()
    {
      RecordedPairs(mem[src..], SiteOf(src, space));
      World(mem, hooks + [MadeHook(mem, src, dst, space)])
    }

    /** Store `bytes` at hook `i` and record whether it is installed. */
    function Write(i: int, on: bool): (w: World)
      requires Ok() && Handle(i)
      ensures w.Ok() && |w.hooks| == |hooks| && |w.mem| == |mem|
    {
      var h := hooks[i];
      World(Splice(mem, h.at, if on then h.jump else h.saved), hooks[i := h.(installed := on)])
    }

    function Install(i: int): (w: World)
      requires Ok() && Handle(i)
      ensures w.Ok() && |w.hooks| == |hooks|
    {
      if hooks[i].installed || hooks[i].tramp.None? then this else Write(i, true)
    }

    function Remove(i: int): (w: World)
      requires Ok() && Handle(i)
      ensures w.Ok() && |w.hooks| == |hooks|
    {
      if hooks[i].installed then Write(i, false) else this
    }

    /** The batch forms skip null handles and hooks that are already in the wanted state, and nothing else. */
    function Batch(handles: seq<int>, on: bool): (w: World)
      requires Ok()
      ensures w.Ok() && |w.hooks| == |hooks|
    {
      if handles == [] then this
      else
        var n := |handles| - 1;
        Batch(handles[..n], on).One(handles[n], on)
    }

    predicate Flips(i: int, on: bool) {
      Handle(i) && hooks[i].installed != on
    }

    function One(i: int, on: bool): (w: World)
      requires Ok()
      ensures w.Ok() && |w.hooks| == |hooks|
    {
      if Flips(i, on) then Write(i, on) else this
    }
  }

  lemma {:induction false} LeftBehindPairs(code: seq<byte>, site: Site, l: Loop)
    requires l.orig <= |code| && |l.origIps| == |l.trampIps|
    ensures var r := LeftBehind(code, site, l); |r.orig| == |r.tramp|
    ensures var b := BuildFrom(code, site, l); b.Built? ==> |b.origIps| == |b.trampIps|
    decreases |code| - l.orig
  {
    hide CopyStep, SnareTrampoline.Tail, Decode;
    if l.orig < JMP_INSN_LEN {
      match CopyStep(code[l.orig..], site.src + l.orig, site.tramp + |l.out|) {
        case Emit(bytes, n) => if 0 < n <= |code| - l.orig { LeftBehindPairs(code, site, l.Push(bytes, n)); }
        case _ =>
      }
    }
  }

  lemma RecordedPairs(code: seq<byte>, site: Site)
    ensures |Recorded(code, site).orig| == |Recorded(code, site).tramp|
  {
    LeftBehindPairs(code, site, Loop(0, [], [], []));
  }

  datatype Call =
    | NewCall(src: nat, dst: int, space: Space)
    | InstallCall(i: int)
    | RemoveCall(i: int)
    | InstallBatchCall(handles: seq<int>)
    | RemoveBatchCall(handles: seq<int>)

  function Perform(w: World, c: Call): (r: World)
    requires w.Ok()
    ensures r.Ok()
  {
    match c
    case NewCall(src, dst, space) => if w.CanMake(src, space) then w.New(src, dst, space) else w
    case InstallCall(i) => if w.Handle(i) then w.Install(i) else w
    case RemoveCall(i) => if w.Handle(i) then w.Remove(i) else w
    case InstallBatchCall(hs) => w.Batch(hs, true)
    case RemoveBatchCall(hs) => w.Batch(hs, false)
  }

  function PerformAll(w: World, calls: seq<Call>): (r: World)
    requires w.Ok()
    ensures r.Ok()
  {
    if calls == [] then w else Perform(PerformAll(w, calls[..|calls| - 1]), calls[|calls| - 1])
  }

  // ---------------------------------------------------------------------------------------------
  // What a call leaves behind
  // ---------------------------------------------------------------------------------------------

  /** The five bytes at the source of a hook. */
  function Source(w: World, h: Hook): seq<byte>
    requires HookOk(h, |w.mem|)
  {
    w.mem[h.at..h.at + JMP_INSN_LEN]
  }

  predicate Within(h: Hook, n: int) {
    h.at <= n < h.at + JMP_INSN_LEN
  }

  /** Hook `i` is in or out: its source holds the jump or the saved bytes, and nothing else has changed. */
  ghost predicate PutAs(w: World, w': World, i: int, on: bool)
    requires w.Ok() && w.Handle(i)
  {
    var h := w.hooks[i];
    && |w'.mem| == |w.mem| && |w'.hooks| == |w.hooks|
    && w'.hooks[i] == h.(installed := on) && (forall k | 0 <= k < |w.hooks| && k != i :: w'.hooks[k] == w.hooks[k])
    && Source(w', h) == (if on then h.jump else h.saved)
    && forall n | 0 <= n < |w.mem| && !Within(h, n) :: w'.mem[n] == w.mem[n]
  }

  lemma WritePuts(w: World, i: int, on: bool)
    requires w.Ok() && w.Handle(i)
    ensures PutAs(w, w.Write(i, on), i, on)
  {
  }

  /** Installing a hook that is out and has a trampoline puts its jump in; any other call changes nothing. */
  lemma InstallEffect(w: World, i: int)
    requires w.Ok()
    ensures var w' := Perform(w, InstallCall(i));
            if w.Handle(i) && !w.hooks[i].installed && w.hooks[i].tramp.Some? then PutAs(w, w', i, true) else w' == w
  {
    hide PutAs;
    if w.Handle(i) { WritePuts(w, i, true); }
  }

  /** Removing a hook that is in puts the saved bytes back; any other call changes nothing. */
  lemma RemoveEffect(w: World, i: int)
    requires w.Ok()
    ensures var w' := Perform(w, RemoveCall(i));
            if w.Handle(i) && w.hooks[i].installed then PutAs(w, w', i, false) else w' == w
  {
    hide PutAs;
    if w.Handle(i) { WritePuts(w, i, false); }
  }

  predicate Apart(a: Hook, b: Hook) {
    a.at + JMP_INSN_LEN <= b.at || b.at + JMP_INSN_LEN <= a.at
  }

  ghost predicate Disjoint(hooks: seq<Hook>) {
    forall i, j | 0 <= i < j < |hooks| :: Apart(hooks[i], hooks[j])
  }

  /** A batch call changes hook `k`. */
  predicate Switches(w: World, handles: seq<int>, on: bool, k: int) {
    w.Handle(k) && k in handles && w.hooks[k].installed != on
  }

  /** After a batch the hooks named are in, or out, and the others are as they were. */
  ghost predicate Switched(w: World, w': World, handles: seq<int>, on: bool) {
    && |w'.mem| == |w.mem| && |w'.hooks| == |w.hooks|
    && forall k | 0 <= k < |w.hooks| ::
         w'.hooks[k] == if k in handles then w.hooks[k].(installed := on) else w.hooks[k]
  }

  /** The source of a hook that was switched holds its jump, or its saved bytes; that of another is as it was. */
  ghost predicate SourceSwitched(w: World, w': World, handles: seq<int>, on: bool, k: int)
    requires w.Ok() && w.Handle(k) && |w'.mem| == |w.mem|
  {
    var h := w.hooks[k];
    Source(w', h) == if !Switches(w, handles, on, k) then Source(w, h) else if on then h.jump else h.saved
  }

  /** No source that is switched covers the byte. */
  ghost predicate Spared(w: World, handles: seq<int>, on: bool, n: int) {
    forall k | 0 <= k < |w.hooks| && Switches(w, handles, on, k) :: !Within(w.hooks[k], n)
  }

  /** Bytes outside the sources that were switched are as they were. */
  ghost predicate RestStays(w: World, w': World, handles: seq<int>, on: bool)
    requires |w'.mem| == |w.mem|
  {
    forall n | 0 <= n < |w.mem| && Spared(w, handles, on, n) :: w'.mem[n] == w.mem[n]
  }

  lemma {:induction false} BatchSwitches(w: World, handles: seq<int>, on: bool)
    requires w.Ok()
    ensures Switched(w, w.Batch(handles, on), handles, on)
  {
    if handles != [] {
      var n := |handles| - 1;
      BatchSwitches(w, handles[..n], on);
      InFront(handles);
    }
  }

  lemma InFront(handles: seq<int>)
    requires handles != []
    ensures var n := |handles| - 1; forall k: int :: k in handles <==> k in handles[..n] || k == handles[n]
  {
    assert handles == handles[..|handles| - 1] + [handles[|handles| - 1]];
  }

  lemma {:induction false} BatchSources(w: World, handles: seq<int>, on: bool, k: int)
    requires w.Ok() && w.Handle(k) && Disjoint(w.hooks)
    ensures |w.Batch(handles, on).mem| == |w.mem| && SourceSwitched(w, w.Batch(handles, on), handles, on, k)
  {
    if handles != [] {
      hide Disjoint, Splice;
      var n := |handles| - 1;
      var (before, i) := (w.Batch(handles[..n], on), handles[n]);
      BatchSwitches(w, handles[..n], on);
      BatchSources(w, handles[..n], on, k);
      InFront(handles);
      if before.Flips(i, on) {
        OneSource(w, before, i, on, k);
      }
    }
  }

  lemma OneSource(w: World, before: World, i: int, on: bool, k: int)
    requires w.Ok() && before.Ok() && w.Handle(k) && w.Handle(i) && Disjoint(w.hooks) && |before.mem| == |w.mem|
    requires |before.hooks| == |w.hooks| && before.hooks[i] == w.hooks[i].(installed := before.hooks[i].installed)
    ensures var (h, after) := (w.hooks[k], before.Write(i, on));
            Source(after, h) == if k == i then (if on then h.jump else h.saved) else Source(before, h)
  {
    hide Disjoint;
    WritePuts(before, i, on);
    if k != i { DisjointApart(w.hooks, i, k); }
  }

  lemma {:induction false} BatchRest(w: World, handles: seq<int>, on: bool)
    requires w.Ok()
    ensures |w.Batch(handles, on).mem| == |w.mem| && RestStays(w, w.Batch(handles, on), handles, on)
  {
    if handles != [] {
      hide Splice;
      var n := |handles| - 1;
      var (before, i) := (w.Batch(handles[..n], on), handles[n]);
      BatchSwitches(w, handles[..n], on);
      BatchRest(w, handles[..n], on);
      InFront(handles);
      if before.Flips(i, on) { WritePuts(before, i, on); }
      forall x | 0 <= x < |w.mem| && Spared(w, handles, on, x) ensures before.One(i, on).mem[x] == w.mem[x] {
        if before.Flips(i, on) { assert Switches(w, handles, on, i); }
        assert Spared(w, handles[..n], on, x);
      }
    }
  }

  /**
   The batch calls, hook by hook: those named are in or out afterwards, whatever their trampolines; with disjoint
   sources each source that was switched holds its jump or its saved bytes, and every other byte is as it was.
   */
  lemma BatchEffect(w: World, handles: seq<int>, on: bool)
    requires w.Ok()
    ensures var w' := Perform(w, if on then InstallBatchCall(handles) else RemoveBatchCall(handles));
            && Switched(w, w', handles, on) && RestStays(w, w', handles, on)
            && (Disjoint(w.hooks) ==> forall k | 0 <= k < |w.hooks| :: SourceSwitched(w, w', handles, on, k))
  {
    hide Disjoint, Switched, SourceSwitched, RestStays;
    BatchSwitches(w, handles, on);
    BatchRest(w, handles, on);
    if Disjoint(w.hooks) {
      forall k | 0 <= k < |w.hooks| ensures SourceSwitched(w, w.Batch(handles, on), handles, on, k) {
        BatchSources(w, handles, on, k);
      }
    }
  }

  function SwitchedSet(w: World, handles: seq<int>, on: bool): set<int> {
    set k | 0 <= k < |w.hooks| && Switches(w, handles, on, k)
  }

  lemma SwitchesMore(w: World, handles: seq<int>, on: bool, k: int)
    requires w.Ok() && handles != []
    ensures var n := |handles| - 1;
            var flips := k == handles[n] && w.Batch(handles[..n], on).Flips(k, on);
            && (Switches(w, handles, on, k) <==> Switches(w, handles[..n], on, k) || flips)
            && !(Switches(w, handles[..n], on, k) && flips)
            && (flips ==> 0 <= k < |w.hooks|)
  {
    hide World.Batch, World.Write;
    BatchSwitches(w, handles[..|handles| - 1], on);
    InFront(handles);
  }

  lemma OneCounts(w: World, handles: seq<int>, on: bool)
    requires w.Ok() && handles != []
    ensures var n := |handles| - 1;
            |SwitchedSet(w, handles, on)| ==
            |SwitchedSet(w, handles[..n], on)| + if w.Batch(handles[..n], on).Flips(handles[n], on) then 1 else 0
  {
    hide World.Batch, World.Flips, Switches, World.Ok;
    var n := |handles| - 1;
    var i := handles[n];
    var (a, b) := (SwitchedSet(w, handles[..n], on), SwitchedSet(w, handles, on));
    var more: set<int> := if w.Batch(handles[..n], on).Flips(i, on) then {i} else {};
    forall k ensures k in b <==> k in a || k in more { SwitchesMore(w, handles, on, k); }
    SwitchesMore(w, handles, on, i);
    assert b == a + more && a !! more;
  }

  /** A batch call returns how many hooks it switched. */
  lemma {:induction false} BatchCounts(w: World, handles: seq<int>, on: bool)
    requires w.Ok()
    ensures Changes(w, handles, on) == |SwitchedSet(w, handles, on)|
  {
    if handles == [] {
      assert SwitchedSet(w, handles, on) == {};
    } else {
      var n := |handles| - 1;
      BatchCounts(w, handles[..n], on);
      OneCounts(w, handles, on);
    }
  }

  // ---------------------------------------------------------------------------------------------
  // The detour
  // ---------------------------------------------------------------------------------------------

  /** The detour is too far for a jump from the source, and there is a page for a relay. */
  predicate Relayed(src: int, dst: int, space: Space) {
    space.Near? && (dst - src > 0x7FFF_FF00 || src - dst > 0x7FFF_FF00)
  }

  function FirstStop(src: int, dst: int, space: Space): int {
    if Relayed(src, dst, space) then space.page + MAX_TRAMPOLINE_LEN else dst
  }

  /** The relay's bytes are an absolute jump with the detour's address behind it. */
  lemma MadeRelay(mem: seq<byte>, src: nat, dst: int, space: Space)
    requires src + JMP_INSN_LEN <= |mem| && !space.Exhausted?
    ensures MadeHook(mem, src, dst, space).relay ==
            if Relayed(src, dst, space) then FAR_JUMP.Layout() + Le64(dst) else []
  {
    hide Build, Recorded, RelJmp, Le64;
    FarJumpBytes();
  }

  /** The jump is a near branch to its first stop: the relay if there is one, or the detour. */
  lemma MadeJump(mem: seq<byte>, src: nat, dst: int, space: Space)
    requires src + JMP_INSN_LEN <= |mem| && !space.Exhausted?
    ensures MadeHook(mem, src, dst, space).jump == NearBranch([0xE9], FirstStop(src, dst, space), src).Layout()
  {
    hide Build, Recorded, Le32, Le64;
    PlainLayout([0xE9], Le32(FirstStop(src, dst, space) - (src + JMP_INSN_LEN)));
  }

  /** Executing the jump at its source leads to the first stop exactly when the distance fits in 32 bits. */
  lemma JumpLandsIff(src: int, dst: int, space: Space)
    ensures var (stop, j) := (FirstStop(src, dst, space), NearBranch([0xE9], FirstStop(src, dst, space), src));
            && j.Valid() && j.Decodable()
            && (j.Meaning(src) == Transfer(Always, stop) <==> FitsInt32(stop - (src + JMP_INSN_LEN)))
  {
    hide Instr.Valid, Instr.Decodable, Instr.Meaning, Signed32, NearBranch, FirstStop;
    NearBranchAnywhere(FirstStop(src, dst, space), src);
    DistanceIff(FirstStop(src, dst, space) - (src + JMP_INSN_LEN));
  }

  lemma FarJumpBytes()
    ensures FAR_JUMP.Layout() == [0xFF, 0x25, 0, 0, 0, 0]
  {
  }

  lemma DistanceIff(d: int)
    ensures Signed32(d % TWO32) == d <==> FitsInt32(d)
  {
    if FitsInt32(d) { Quotient(d, TWO32, if d < 0 then -1 else 0, if d < 0 then d + TWO32 else d); }
  }

  /** Executing the relay, where its bytes are in memory, leads to the detour. */
  lemma RelayLeadsToDetour<S(!new)>(m: Machine<S>, s: S, at: int, dst: int)
    requires Jumps(m) && 0 <= dst < TWO64 && Resident(m, s, at, FAR_JUMP.Layout() + Le64(dst))
    ensures FAR_JUMP.Valid() && FAR_JUMP.Decodable() && m.exec(FAR_JUMP.Meaning(at), s) == (s, Some(dst))
  {
    hide Instr.Valid, Instr.Decodable, Instr.Meaning, Instr.CopiedBlindly, Instr.Layout, Le64, Load64, Resident;
    FarJumpBytes();
    FarJumpMeaning(at);
    var bytes := FAR_JUMP.Layout() + Le64(dst);
    assert bytes[6..14] == Le64(dst);
    ResidentPart(m, s, at, bytes, 6, 14);
    LoadsAddressIff(m, s, at + 6, dst);
  }

  // ---------------------------------------------------------------------------------------------
  // Suspended threads
  // ---------------------------------------------------------------------------------------------

  /** Where a suspended thread is after hook `h` was put in or taken out; a null trampoline is address 0. */
  function Moved(h: Hook, on: bool, t: Thread): Thread
    requires |h.ips.orig| == |h.ips.tramp|
  {
    var base := if h.tramp.Some? then h.tramp.value else 0;
    if on then MapThread(t, h.at, base, h.ips.orig, h.ips.tramp) else MapThread(t, base, h.at, h.ips.tramp, h.ips.orig)
  }

  function MovedByBatch(w: World, handles: seq<int>, on: bool, t: Thread): Thread
    requires w.Ok()
  {
    if handles == [] then t
    else
      var n := |handles| - 1;
      var before := w.Batch(handles[..n], on);
      var u := MovedByBatch(w, handles[..n], on, t);
      if before.Flips(handles[n], on) then Moved(before.hooks[handles[n]], on, u) else u
  }

  /** The thread is on a recorded boundary of the hook, on the side it is moved from. */
  ghost predicate OnBoundary(h: Hook, on: bool, t: Thread) {
    var base := if h.tramp.Some? then h.tramp.value else 0;
    t.Some? && exists j | 0 <= j < |h.ips.orig| && j < |h.ips.tramp| ::
                 t.value == if on then h.at + h.ips.orig[j] else base + h.ips.tramp[j]
  }

  lemma MovedElsewhere(h: Hook, on: bool, t: Thread)
    requires |h.ips.orig| == |h.ips.tramp| && !OnBoundary(h, on, t)
    ensures Moved(h, on, t) == t
  {
    if t.Some? {
      var base := if h.tramp.Some? then h.tramp.value else 0;
      if on {
        MapIpElsewhere(t.value, h.at, base, h.ips.orig, h.ips.tramp, 0);
      } else {
        MapIpElsewhere(t.value, base, h.at, h.ips.tramp, h.ips.orig, 0);
      }
    }
  }

  /**
   A batch moves a thread as the one hook does on whose boundary it is, if it switches that hook: once, and not on
   from where the thread has come to.
   */
  lemma {:induction false} BatchMoves(w: World, handles: seq<int>, on: bool, t: Thread, k: int)
    requires w.Ok() && w.Handle(k)
    requires forall l | 0 <= l < |w.hooks| && l != k && l in handles ::
               !OnBoundary(w.hooks[l], on, t) && !OnBoundary(w.hooks[l], on, Moved(w.hooks[k], on, t))
    ensures MovedByBatch(w, handles, on, t) ==
            if Switches(w, handles, on, k) then Moved(w.hooks[k], on, t) else t
  {
    if handles != [] {
      hide Splice, OnBoundary, MapThread;
      var n := |handles| - 1;
      var (before, i) := (w.Batch(handles[..n], on), handles[n]);
      InFront(handles);
      BatchSwitches(w, handles[..n], on);
      BatchMoves(w, handles[..n], on, t, k);
      if before.Flips(i, on) && i != k {
        var u := MovedByBatch(w, handles[..n], on, t);
        MovedElsewhere(w.hooks[i], on, u);
        assert Moved(before.hooks[i], on, u) == Moved(w.hooks[i], on, u);
      }
    }
  }

  /** The hook carries the trampoline `b` that was built for its source at `site`. */
  predicate Carries(h: Hook, b: Outcome, site: Site) {
    && b.Built? && h.at == site.src && h.tramp == Some(site.tramp) && h.code == b.bytes
    && h.ips == Ips(b.origIps, b.trampIps)
  }

  /**
   A hook with a trampoline carries what the builder made of its source, and it has one exactly when that
   succeeded.
   */
  lemma MadeCarries(mem: seq<byte>, src: nat, dst: int, space: Space)
    requires src + JMP_INSN_LEN <= |mem| && !space.Exhausted?
    ensures var (h, b) := (MadeHook(mem, src, dst, space), Build(mem[src..], SiteOf(src, space)));
            (h.tramp.Some? <==> b.Built?) && (b.Built? ==> Carries(h, b, SiteOf(src, space)))
  {
    hide Build, RelJmp;
  }

  /** A thread on a boundary of a supported source comes back when the hook is put in and taken out again. */
  lemma ThreadsReturn(h: Hook, xs: seq<Instr>, rest: seq<byte>, site: Site, k: nat)
    requires AllSupported(xs) && Covers(xs, 0) && k <= |xs| && Carries(h, Build(LayoutAll(xs) + rest, site), site)
    ensures |h.ips.orig| == |h.ips.tramp| == |xs| + 1
    ensures Moved(h, true, Some(h.at + h.ips.orig[k])) == Some(h.tramp.value + h.ips.tramp[k])
    ensures Moved(h, false, Some(h.tramp.value + h.ips.tramp[k])) == Some(h.at + h.ips.orig[k])
  {
    hide AllSupported, Covers, LayoutAll, Build, RelocateAll, Increasing, MapIp;
    BuildRelocates(xs, rest, site);
    BoundaryMapsInvert(xs, rest, site, k);
  }

  // ---------------------------------------------------------------------------------------------
  // The process
  // ---------------------------------------------------------------------------------------------

  /** One byte array, whose indices are the addresses, and the table of hooks. */
  class Process {
    var mem: array<byte>
    var hooks: seq<Hook>

    ghost function View(): World
      reads this, mem
    {
      World(mem[..], hooks)
    }

    ghost predicate Ok()
      reads this, mem
    {
      View().Ok()
    }

    constructor (memory: array<byte>)
      ensures mem == memory && hooks == [] && Ok()
    {
      mem, hooks := memory, [];
    }

    /** `snare_inline_new`: nothing (a null handle) when there is no memory; `fault` when the source cannot be read. */
    method New(src: nat, dst: int, space: Space) returns (i: Option<nat>, fault: bool)
      requires Ok() && src + JMP_INSN_LEN <= mem.Length
      modifies this`hooks
      ensures Ok()
      ensures i.Some? <==> old(View()).CanMake(src, space)
      ensures fault <==> !space.Exhausted? && Faults(mem[..], src, space)
      ensures i.Some? ==> i.value == |old(hooks)| && View() == old(View()).New(src, dst, space)
      ensures i.None? ==> View() == old(View())
    {
      if space.Exhausted? { return None, false; }
      var saved := mem[src..src + JMP_INSN_LEN];
      var buf := new byte[MAX_TRAMPOLINE_LEN](_ => 0);
      var origIps, trampIps := new nat[SNARE_MAX_IPS](_ => 0), new nat[SNARE_MAX_IPS](_ => 0);
      var page := if space.Near? then Some(space.page) else None;
      var site := SiteOf(src, space);
      var size, origSize, nIps, bad := MakeTrampoline(buf, mem[src..], site, origIps, trampIps);
      assert mem[..][src..] == mem[src..] && mem[..][src..src + JMP_INSN_LEN] == saved;
      if bad { return None, true; }
      var tramp := if size == 0 then None else Some(site.tramp);
      var code := if size == 0 then [] else buf[..size];
      var relay := if space.Near? && !InRel32Range(src, dst) then AbsJmp(dst) else [];
      var h := Hook(src, RelJmp(src, HookTarget(src, dst, page)), saved, relay, tramp, code,
                    Ips(origIps[..nIps], trampIps[..nIps]), false);
      assert h == MadeHook(mem[..], src, dst, space);
      i, fault := Some(|hooks|), false;
      hooks := hooks + [h];
      assert View() == old(View()).New(src, dst, space);
    }

    method Put(i: nat, on: bool, threads: array<Thread>)
      requires Ok() && View().Handle(i)
      modifies this`hooks, mem, threads
      ensures mem == old(mem) && View() == old(View()).Write(i, on)
      ensures forall k | 0 <= k < threads.Length :: threads[k] == Moved(old(hooks[i]), on, old(threads[k]))
    {
      var h := hooks[i];
      var base := if h.tramp.Some? then h.tramp.value else 0;
      if on {
        AdjustThreads(threads, h.at, base, h.ips.orig, h.ips.tramp);
      } else {
        AdjustThreads(threads, base, h.at, h.ips.tramp, h.ips.orig);
      }
      WriteBytes(mem, h.at, if on then h.jump else h.saved);
      hooks := hooks[i := h.(installed := on)];
    }

    /** Result 0, or -22 (-EINVAL) without any effect; `threads` are the ones suspended meanwhile. */
    method Install(i: nat, threads: array<Thread>) returns (r: int)
      requires Ok() && View().Handle(i)
      modifies this`hooks, mem, threads
      ensures mem == old(mem) && View() == old(View()).Install(i)
      ensures if r == 0 then PutAs(old(View()), View(), i, true) else View() == old(View())
      ensures r == if old(hooks[i].installed || hooks[i].tramp.None?) then -22 else 0
      ensures forall k | 0 <= k < threads.Length ::
                threads[k] == if r == 0 then Moved(old(hooks[i]), true, old(threads[k])) else old(threads[k])
    {
      if hooks[i].installed { return -22; }
      if hooks[i].tramp.None? { return -22; }
      Put(i, true, threads);
      WritePuts(old(View()), i, true);
      r := 0;
    }

    method Remove(i: nat, threads: array<Thread>) returns (r: int)
      requires Ok() && View().Handle(i)
      modifies this`hooks, mem, threads
      ensures mem == old(mem) && View() == old(View()).Remove(i)
      ensures if r == 0 then PutAs(old(View()), View(), i, false) else View() == old(View())
      ensures r == if old(hooks[i].installed) then 0 else -22
      ensures forall k | 0 <= k < threads.Length ::
                threads[k] == if r == 0 then Moved(old(hooks[i]), false, old(threads[k])) else old(threads[k])
    {
      if !hooks[i].installed { return -22; }
      Put(i, false, threads);
      WritePuts(old(View()), i, false);
      r := 0;
    }

    /** `snare_inline_install_batch` (`on`) and `snare_inline_remove_batch`; a handle outside the table is null. */
    method Batch(handles: seq<int>, on: bool, threads: array<Thread>) returns (changed: nat)
      requires Ok()
      modifies this`hooks, mem, threads
      ensures mem == old(mem) && View() == old(View()).Batch(handles, on)
      ensures changed == Changes(old(View()), handles, on)
      ensures forall k | 0 <= k < threads.Length ::
              threads[k] == MovedByBatch(old(View()), handles, on, old(threads[k]))
    {
      changed := 0;
      for n := 0 to |handles|
        invariant mem == old(mem)
        invariant View() == old(View()).Batch(handles[..n], on)
        invariant changed == Changes(old(View()), handles[..n], on)
        invariant forall k | 0 <= k < threads.Length ::
                    threads[k] == MovedByBatch(old(View()), handles[..n], on, old(threads[k]))
      {
        assert handles[..n + 1][..n] == handles[..n];
        var i := handles[n];
        if 0 <= i < |hooks| && hooks[i].installed != on {
          Put(i, on, threads);
          changed := changed + 1;
        }
      }
      assert handles[..|handles|] == handles;
    }
  }

  /** How many hooks a batch flips. */
  function Changes(w: World, handles: seq<int>, on: bool): nat
    requires w.Ok()
  {
    if handles == [] then 0
    else
      var n := |handles| - 1;
      Changes(w, handles[..n], on) + if w.Batch(handles[..n], on).Flips(handles[n], on) then 1 else 0
  }

  // ---------------------------------------------------------------------------------------------
  // Whole runs
  // ---------------------------------------------------------------------------------------------

  /**
   What the source of a hook holds: the jump while it is installed, otherwise the original bytes, which were
   saved.
   */
  ghost predicate Holds(original: seq<byte>, w: World, h: Hook)
    requires HookOk(h, |original|) && |w.mem| == |original|
  {
    && h.saved == original[h.at..h.at + JMP_INSN_LEN]
    && forall n | 0 <= n < JMP_INSN_LEN :: w.mem[h.at + n] == if h.installed then h.jump[n] else h.saved[n]
  }

  ghost predicate Untouched(hooks: seq<Hook>, n: int) {
    forall i | 0 <= i < |hooks| :: !Within(hooks[i], n)
  }

  /** The invariant of every run: each source holds its jump or its original bytes, every other byte is the original. */
  ghost predicate Patched(original: seq<byte>, w: World) {
    && w.Ok() && |w.mem| == |original| && Disjoint(w.hooks)
    && (forall i | 0 <= i < |w.hooks| :: Holds(original, w, w.hooks[i]))
    && (forall n | 0 <= n < |w.mem| && Untouched(w.hooks, n) :: w.mem[n] == original[n])
  }

  lemma WriteElsewhere(w: World, i: int, on: bool, n: int)
    requires w.Ok() && w.Handle(i) && 0 <= n < |w.mem| && !Within(w.hooks[i], n)
    ensures w.Write(i, on).mem[n] == w.mem[n]
  {
  }

  lemma WriteHolds(original: seq<byte>, w: World, i: int, on: bool, k: int)
    requires Patched(original, w) && w.Handle(i) && w.Handle(k)
    ensures Holds(original, w.Write(i, on), w.Write(i, on).hooks[k])
  {
    hide Disjoint, Untouched, Splice;
    assert Holds(original, w, w.hooks[k]);
    if k == i {
      SpliceAt(w.mem, w.hooks[i].at, if on then w.hooks[i].jump else w.hooks[i].saved);
    } else {
      DisjointApart(w.hooks, i, k);
      ApartHolds(original, w, i, on, w.hooks[k]);
    }
  }

  lemma ApartHolds(original: seq<byte>, w: World, i: int, on: bool, h: Hook)
    requires w.Ok() && w.Handle(i) && |w.mem| == |original| && HookOk(h, |original|)
    requires Apart(w.hooks[i], h) && Holds(original, w, h)
    ensures Holds(original, w.Write(i, on), h)
  {
    hide Splice;
    var w' := w.Write(i, on);
    forall p | h.at <= p < h.at + JMP_INSN_LEN ensures w'.mem[p] == w.mem[p] { WriteElsewhere(w, i, on, p); }
    forall n | 0 <= n < JMP_INSN_LEN ensures w'.mem[h.at + n] == if h.installed then h.jump[n] else h.saved[n] {
      assert w'.mem[h.at + n] == w.mem[h.at + n];
    }
  }

  lemma SpliceAt(m: seq<byte>, at: nat, bytes: seq<byte>)
    requires at + |bytes| <= |m|
    ensures forall n | 0 <= n < |bytes| :: Splice(m, at, bytes)[at + n] == bytes[n]
  {
  }

  lemma DisjointApart(hooks: seq<Hook>, i: int, k: int)
    requires Disjoint(hooks) && 0 <= i < |hooks| && 0 <= k < |hooks| && i != k
    ensures Apart(hooks[i], hooks[k])
  {
  }

  lemma WriteKeepsPatched(original: seq<byte>, w: World, i: int, on: bool)
    requires Patched(original, w) && w.Handle(i)
    ensures Patched(original, w.Write(i, on))
  {
    hide Holds, Splice;
    var w' := w.Write(i, on);
    forall k | 0 <= k < |w'.hooks| ensures Holds(original, w', w'.hooks[k]) { WriteHolds(original, w, i, on, k); }
    forall j, k | 0 <= j < k < |w'.hooks| ensures Apart(w'.hooks[j], w'.hooks[k]) { DisjointApart(w.hooks, j, k); }
    forall n | 0 <= n < |w'.mem| && Untouched(w'.hooks, n) ensures w'.mem[n] == original[n] {
      assert !Within(w'.hooks[i], n);
      WriteElsewhere(w, i, on, n);
      forall k | 0 <= k < |w.hooks| ensures !Within(w.hooks[k], n) { assert !Within(w'.hooks[k], n); }
    }
  }

  lemma {:induction false} BatchKeepsPatched(original: seq<byte>, w: World, handles: seq<int>, on: bool)
    requires Patched(original, w)
    ensures Patched(original, w.Batch(handles, on))
  {
    hide Patched;
    if handles != [] {
      var n := |handles| - 1;
      PatchedOk(original, w);
      BatchKeepsPatched(original, w, handles[..n], on);
      var before := w.Batch(handles[..n], on);
      if before.Handle(handles[n]) { WriteKeepsPatched(original, before, handles[n], on); }
    } else {
      PatchedOk(original, w);
    }
  }

  lemma PatchedOk(original: seq<byte>, w: World)
    requires Patched(original, w)
    ensures w.Ok() && |w.mem| == |original| && Disjoint(w.hooks)
  {
  }

  /** A new hook on bytes that no other hook covers saves the original bytes, whatever is installed. */
  lemma NewKeepsPatched(original: seq<byte>, w: World, src: nat, dst: int, space: Space)
    requires Patched(original, w) && w.CanMake(src, space) && Disjoint(w.New(src, dst, space).hooks)
    ensures Patched(original, w.New(src, dst, space))
  {
    hide Holds, Faults, Build, Recorded, RelJmp;
    var w' := w.New(src, dst, space);
    var h := MadeHook(w.mem, src, dst, space);
    assert w'.hooks[|w.hooks|] == h && h.at == src && !h.installed;
    forall n | src <= n < src + JMP_INSN_LEN ensures w.mem[n] == original[n] {
      forall i | 0 <= i < |w.hooks| ensures !Within(w.hooks[i], n) {
        assert w'.hooks[i] == w.hooks[i];
        DisjointApart(w'.hooks, i, |w.hooks|);
      }
      assert Untouched(w.hooks, n);
    }
    NewHolds(original, w, src, dst, space);
    forall i | 0 <= i < |w.hooks| ensures Holds(original, w', w'.hooks[i]) { SameHolds(original, w, w', w.hooks[i]); }
    forall n | 0 <= n < |w'.mem| && Untouched(w'.hooks, n) ensures w'.mem[n] == original[n] {
      forall i | 0 <= i < |w.hooks| ensures !Within(w.hooks[i], n) { assert !Within(w'.hooks[i], n); }
      assert Untouched(w.hooks, n);
    }
  }

  lemma SameHolds(original: seq<byte>, w: World, w': World, h: Hook)
    requires HookOk(h, |original|) && |w.mem| == |original| && w'.mem == w.mem && Holds(original, w, h)
    ensures Holds(original, w', h)
  {
  }

  lemma NewHolds(original: seq<byte>, w: World, src: nat, dst: int, space: Space)
    requires w.Ok() && w.CanMake(src, space) && |w.mem| == |original|
    requires forall n | src <= n < src + JMP_INSN_LEN :: w.mem[n] == original[n]
    ensures var w' := w.New(src, dst, space); Holds(original, w', w'.hooks[|w.hooks|])
  {
    hide Faults, Build, Recorded, RelJmp;
    var h := MadeHook(w.mem, src, dst, space);
    assert h.saved == w.mem[src..src + JMP_INSN_LEN] == original[src..src + JMP_INSN_LEN];
    assert w.New(src, dst, space).hooks[|w.hooks|] == h;
  }

  lemma PerformKeepsPatched(original: seq<byte>, w: World, c: Call)
    requires Patched(original, w) && Disjoint(Perform(w, c).hooks)
    ensures Patched(original, Perform(w, c))
  {
    hide Patched, Disjoint;
    PatchedOk(original, w);
    match c
    case NewCall(src, dst, space) => if w.CanMake(src, space) { NewKeepsPatched(original, w, src, dst, space); }
    case InstallCall(i) => if w.Handle(i) { WriteKeepsPatched(original, w, i, true); }
    case RemoveCall(i) => if w.Handle(i) { WriteKeepsPatched(original, w, i, false); }
    case InstallBatchCall(hs) => BatchKeepsPatched(original, w, hs, true);
    case RemoveBatchCall(hs) => BatchKeepsPatched(original, w, hs, false);
  }

  /** Sources of hooks never move, and hooks are only added: what is disjoint afterwards was disjoint before. */
  lemma PerformWasDisjoint(w: World, c: Call)
    requires w.Ok() && Disjoint(Perform(w, c).hooks)
    ensures Disjoint(w.hooks)
  {
    hide Faults, Build, Recorded, RelJmp, Splice, Disjoint;
    var w' := Perform(w, c);
    SourcesStay(w, c);
    forall i, j | 0 <= i < j < |w.hooks| ensures Apart(w.hooks[i], w.hooks[j]) {
      DisjointApart(w'.hooks, i, j);
      assert w'.hooks[i].at == w.hooks[i].at && w'.hooks[j].at == w.hooks[j].at;
    }
    AllApart(w.hooks);
  }

  lemma AllApart(hooks: seq<Hook>)
    requires forall i, j | 0 <= i < j < |hooks| :: Apart(hooks[i], hooks[j])
    ensures Disjoint(hooks)
  {
  }

  ghost predicate Stay(a: seq<Hook>, b: seq<Hook>) {
    |a| <= |b| && forall i | 0 <= i < |a| :: b[i].at == a[i].at
  }

  lemma SourcesStay(w: World, c: Call)
    requires w.Ok()
    ensures Stay(w.hooks, Perform(w, c).hooks)
  {
    hide Faults, Build, Recorded, RelJmp, Splice;
    match c
    case InstallBatchCall(hs) => BatchStays(w, hs, true);
    case RemoveBatchCall(hs) => BatchStays(w, hs, false);
    case _ =>
  }

  lemma {:induction false} BatchStays(w: World, handles: seq<int>, on: bool)
    requires w.Ok()
    ensures Stay(w.hooks, w.Batch(handles, on).hooks)
  {
    hide Splice;
    if handles != [] { BatchStays(w, handles[..|handles| - 1], on); }
  }

  /**
   From a process without hooks, after any sequence of making, installing and removing hooks, single and
   in batches, with disjoint sources: every source holds its jump exactly while its hook is installed
   and its original bytes otherwise, and no other byte has changed.
   */
  lemma {:induction false} RunsStayPatched(original: seq<byte>, calls: seq<Call>)
    requires Disjoint(PerformAll(World(original, []), calls).hooks)
    ensures Patched(original, PerformAll(World(original, []), calls))
  {
    hide Perform, Disjoint;
    if calls == [] {
      NoHooksPatched(original);
    } else {
      var n := |calls| - 1;
      var before := PerformAll(World(original, []), calls[..n]);
      PerformWasDisjoint(before, calls[n]);
      RunsStayPatched(original, calls[..n]);
      PerformKeepsPatched(original, before, calls[n]);
    }
  }

  lemma NoHooksPatched(original: seq<byte>)
    ensures Patched(original, World(original, []))
  {
    forall n | 0 <= n < |original| ensures World(original, []).mem[n] == original[n] { }
  }

  /** Whatever was called before, once no hook is installed the memory is the original memory. */
  lemma RemovedRestores(original: seq<byte>, calls: seq<Call>)
    requires Disjoint(PerformAll(World(original, []), calls).hooks)
    requires forall i | 0 <= i < |PerformAll(World(original, []), calls).hooks| ::
               !PerformAll(World(original, []), calls).hooks[i].installed
    ensures PerformAll(World(original, []), calls).mem == original
  {
    hide PerformAll, Disjoint;
    RunsStayPatched(original, calls);
    UnpatchedIsOriginal(original, PerformAll(World(original, []), calls));
  }

  lemma UnpatchedIsOriginal(original: seq<byte>, w: World)
    requires Patched(original, w) && forall i | 0 <= i < |w.hooks| :: !w.hooks[i].installed
    ensures w.mem == original
  {
    hide Disjoint;
    forall n | 0 <= n < |w.mem| ensures w.mem[n] == original[n] {
      if !Untouched(w.hooks, n) {
        var i :| 0 <= i < |w.hooks| && Within(w.hooks[i], n);
        assert Holds(original, w, w.hooks[i]);
        var k := n - w.hooks[i].at;
        assert w.mem[w.hooks[i].at + k] == w.hooks[i].saved[k];
      }
    }
  }

  // ---------------------------------------------------------------------------------------------
  // Batches and single calls
  // ---------------------------------------------------------------------------------------------

  /**
   A single install refuses a hook without a trampoline, the batch form does not: the two agree
   exactly when the hook has one or is already installed.
   */
  lemma BatchAgreesWithSingleIff(w: World, i: int)
    requires w.Ok() && w.Handle(i)
    ensures w.Batch([i], true) == w.Install(i) <==> w.hooks[i].tramp.Some? || w.hooks[i].installed
  {
    hide Splice;
    assert [i][..0] == [];
    assert w.Batch([i], true) == w.One(i, true);
    if w.hooks[i].tramp.None? && !w.hooks[i].installed {
      assert w.Write(i, true).hooks[i].installed;
    }
  }

  /** A source that is refused: `62` is no opcode of the tables. The batch form patches it all the same. */
  lemma BatchPatchesRefused(dst: int, space: Space)
    requires !space.Exhausted?
    ensures var w := World([0x62, 0x90, 0x90, 0x90, 0x90], []);
            && w.CanMake(0, space)
            && var made := w.New(0, dst, space);
               made.hooks[0].tramp.None? && made.Install(0) == made && made.Batch([0], true).hooks[0].installed
  {
    hide Splice, RelJmp;
    var mem: seq<byte> := [0x62, 0x90, 0x90, 0x90, 0x90];
    var w := World(mem, []);
    UnsupportedRefused(mem, SiteOf(0, space));
    assert mem[0..] == mem;
    var made := w.New(0, dst, space);
    assert made.hooks[0].tramp.None?;
    BatchAgreesWithSingleIff(made, 0);
    assert [0][..0] == [];
    assert made.Batch([0], true) == made.One(0, true);
  }

  lemma UnsupportedRefused(mem: seq<byte>, site: Site)
    requires |mem| == 5 && mem[0] == 0x62
    ensures Build(mem, site) == Refused
  {
    assert mem[0..] == mem;
  }
}
