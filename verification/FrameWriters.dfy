/**
 Several threads writing frames to one socket: the connection's own answers and the events pushed from
 other threads. Nothing keeps one thread from sending between two sends of another. Writer `w` writes
 one frame; a schedule says which writer sends how many bytes, in order.
 */
module FrameWriters {
  import opened Bytes
  import opened FrameProtocol
  import opened Options

  datatype Send = Send(w: nat, n: nat)

  /** How many bytes of its frame a writer has sent. */
  function Sent(sends: seq<Send>, w: nat): nat
    decreases |sends|
  {
    if sends == [] then 0
    else
      var n := |sends| - 1;
      Sent(sends[..n], w) + if sends[n].w == w then sends[n].n else 0
  }

  /** One send transfers some bytes of the header or some of the payload. */
  predicate Fits(lens: seq<nat>, sent: nat, t: Send) {
    t.w < |lens| && t.n > 0 && sent + t.n <= if sent < 4 then 4 else 4 + lens[t.w]
  }

  /** Writers with payloads of these lengths can make these sends. After a failed send a writer makes no more. */
  predicate Possible(lens: seq<nat>, sends: seq<Send>)
    decreases |sends|
  {
    sends == [] ||
    var n := |sends| - 1;
    Possible(lens, sends[..n]) && Fits(lens, Sent(sends[..n], sends[n].w), sends[n])
  }

  predicate Begun(lens: seq<nat>, sends: seq<Send>, w: nat) {
    w < |lens| && 0 < Sent(sends, w) < 4 + lens[w]
  }

  predicate Finished(lens: seq<nat>, sends: seq<Send>, w: nat) {
    w < |lens| && Sent(sends, w) == 4 + lens[w]
  }

  /** Every frame is finished or not begun. */
  predicate NoneBegun(lens: seq<nat>, sends: seq<Send>) {
    forall w | 0 <= w < |lens| :: !Begun(lens, sends, w)
  }

  /** No frame but that of the sending writer is begun and not finished. */
  predicate Alone(lens: seq<nat>, before: seq<Send>, t: Send) {
    forall v | 0 <= v < |lens| && v != t.w :: !Begun(lens, before, v)
  }

  /** Every send is alone, as it would be if `write_frame` held a lock. */
  predicate AllAlone(lens: seq<nat>, sends: seq<Send>) {
    forall k | 0 <= k < |sends| :: Alone(lens, sends[..k], sends[k])
  }

  /** The writers in the order in which they finish. */
  function Order(lens: seq<nat>, sends: seq<Send>): (r: seq<nat>)
    ensures forall i | 0 <= i < |r| :: r[i] < |lens|
    decreases |sends|
  {
    if sends == [] then []
    else
      var n := |sends| - 1;
      Order(lens, sends[..n]) + if Finished(lens, sends, sends[n].w) then [sends[n].w] else []
  }

  function Lengths(ps: seq<seq<byte>>): (r: seq<nat>)
    ensures |r| == |ps| && forall w | 0 <= w < |r| :: r[w] == |ps[w]|
  {
    seq(|ps|, w requires 0 <= w < |ps| => |ps[w]|)
  }

  /** What is on the socket when writer `w` writes the payload `ps[w]`. */
  function Out(ps: seq<seq<byte>>, sends: seq<Send>): seq<byte>
    requires Possible(Lengths(ps), sends)
    decreases |sends|
  {
    if sends == [] then []
    else
      var n := |sends| - 1;
      Out(ps, sends[..n]) + Chunk(ps, sends[..n], sends[n])
  }

  function Chunk(ps: seq<seq<byte>>, before: seq<Send>, t: Send): seq<byte>
    requires Fits(Lengths(ps), Sent(before, t.w), t)
  {
    Frame(ps[t.w])[Sent(before, t.w)..Sent(before, t.w) + t.n]
  }

  function Picked(ps: seq<seq<byte>>, order: seq<nat>): (r: seq<seq<byte>>)
    requires forall i | 0 <= i < |order| :: order[i] < |ps|
    ensures |r| == |order| && forall i | 0 <= i < |r| :: r[i] == ps[order[i]]
  {
    seq(|order|, i requires 0 <= i < |order| => ps[order[i]])
  }

  /** The payloads of the finished frames, in the order in which they were finished. */
  function Done(ps: seq<seq<byte>>, sends: seq<Send>): seq<seq<byte>> {
    Picked(ps, Order(Lengths(ps), sends))
  }

  predicate AllSmall(lens: seq<nat>) {
    forall w | 0 <= w < |lens| :: Acceptable(lens[w])
  }

  // ---------------------------------------------------------------------------------------------
  // One send more
  // ---------------------------------------------------------------------------------------------

  lemma SentMore(before: seq<Send>, t: Send, w: nat)
    ensures Sent(before + [t], w) == Sent(before, w) + if t.w == w then t.n else 0
  {
    assert (before + [t])[..|before|] == before;
  }

  lemma PossibleMore(lens: seq<nat>, before: seq<Send>, t: Send)
    ensures Possible(lens, before + [t]) <==> Possible(lens, before) && Fits(lens, Sent(before, t.w), t)
  {
    hide Fits;
    assert (before + [t])[..|before|] == before;
  }

  lemma OutMore(ps: seq<seq<byte>>, before: seq<Send>, t: Send)
    requires Possible(Lengths(ps), before + [t])
    ensures Possible(Lengths(ps), before) && Fits(Lengths(ps), Sent(before, t.w), t)
    ensures Out(ps, before + [t]) == Out(ps, before) + Chunk(ps, before, t)
  {
    hide Fits, Chunk;
    assert (before + [t])[..|before|] == before;
  }

  lemma DoneMore(ps: seq<seq<byte>>, before: seq<Send>, t: Send)
    ensures Done(ps, before + [t]) ==
            if Finished(Lengths(ps), before + [t], t.w) then Done(ps, before) + [ps[t.w]] else Done(ps, before)
  {
    hide Finished;
    assert (before + [t])[..|before|] == before;
  }

  lemma {:induction false} SentBound(lens: seq<nat>, sends: seq<Send>, w: nat)
    requires Possible(lens, sends) && w < |lens|
    ensures Sent(sends, w) <= 4 + lens[w]
    decreases |sends|
  {
    if sends != [] { SentBound(lens, sends[..|sends| - 1], w); }
  }

  lemma {:induction false} PossiblePrefix(lens: seq<nat>, sends: seq<Send>, k: nat)
    requires Possible(lens, sends) && k <= |sends|
    ensures Possible(lens, sends[..k])
    decreases |sends|
  {
    if k < |sends| {
      var init := sends[..|sends| - 1];
      PossiblePrefix(lens, init, k);
      assert init[..k] == sends[..k];
    } else {
      assert sends[..k] == sends;
    }
  }

  lemma {:induction false} FramesLast(payloads: seq<seq<byte>>, p: seq<byte>)
    ensures Frames(payloads + [p]) == Frames(payloads) + Frame(p)
  {
    hide Frame;
    if payloads == [] {
      assert [p][1..] == [] && Frames([p]) == Frame(p) + Frames([]);
    } else {
      var all := payloads + [p];
      assert all[1..] == payloads[1..] + [p];
      FramesLast(payloads[1..], p);
      assert Frames(all) == Frame(payloads[0]) + (Frames(payloads[1..]) + Frame(p));
    }
  }

  // ---------------------------------------------------------------------------------------------
  // One frame at a time
  // ---------------------------------------------------------------------------------------------

  /** Whole frames, and behind them what was sent of frame `w`, the only one that can be begun. */
  ghost predicate EndsWith(ps: seq<seq<byte>>, sends: seq<Send>, w: nat)
    requires Possible(Lengths(ps), sends)
  {
    && Begun(Lengths(ps), sends, w) && Alone(Lengths(ps), sends, Send(w, 0))
    && Out(ps, sends) == Frames(Done(ps, sends)) + Frame(ps[w])[..Sent(sends, w)]
  }

  ghost predicate InOrder(ps: seq<seq<byte>>, sends: seq<Send>)
    requires Possible(Lengths(ps), sends)
  {
    || (NoneBegun(Lengths(ps), sends) && Out(ps, sends) == Frames(Done(ps, sends)))
    || exists w: nat :: EndsWith(ps, sends, w)
  }

  lemma AllAloneMore(lens: seq<nat>, before: seq<Send>, t: Send)
    ensures AllAlone(lens, before + [t]) <==> AllAlone(lens, before) && Alone(lens, before, t)
  {
    hide Alone;
    var all := before + [t];
    assert all[..|before|] == before && all[|before|] == t;
    assert forall k | 0 <= k < |before| :: all[..k] == before[..k] && all[k] == before[k];
  }

  /** What the sending writer finds before its send. */
  lemma AloneFinds(ps: seq<seq<byte>>, before: seq<Send>, t: Send)
    requires Possible(Lengths(ps), before) && Fits(Lengths(ps), Sent(before, t.w), t)
    requires InOrder(ps, before) && Alone(Lengths(ps), before, t)
    ensures Out(ps, before) == Frames(Done(ps, before)) + Frame(ps[t.w])[..Sent(before, t.w)]
  {
    hide Frame, Frames, Done, Out;
    if w: nat :| EndsWith(ps, before, w) {
      assert w == t.w;
    } else {
      assert !Begun(Lengths(ps), before, t.w) && Sent(before, t.w) == 0;
      assert Frame(ps[t.w])[..0] == [];
    }
  }

  lemma ChunkGrows(ps: seq<seq<byte>>, before: seq<Send>, t: Send)
    requires Fits(Lengths(ps), Sent(before, t.w), t)
    ensures Frame(ps[t.w])[..Sent(before, t.w)] + Chunk(ps, before, t) == Frame(ps[t.w])[..Sent(before, t.w) + t.n]
  {
    hide Frame, Sent;
    var (f, a) := (Frame(ps[t.w]), Sent(before, t.w));
    assert f[..a] + f[a..a + t.n] == f[..a + t.n];
  }

  lemma SendInOrder(ps: seq<seq<byte>>, before: seq<Send>, t: Send)
    requires Possible(Lengths(ps), before + [t]) && Possible(Lengths(ps), before)
    requires InOrder(ps, before) && Alone(Lengths(ps), before, t)
    ensures InOrder(ps, before + [t])
  {
    hide Frame, Frames, Done, Out, Possible, Sent, Chunk, InOrder;
    var (lens, after) := (Lengths(ps), before + [t]);
    OutMore(ps, before, t);
    DoneMore(ps, before, t);
    AloneFinds(ps, before, t);
    ChunkGrows(ps, before, t);
    forall w: nat | w < |lens| && w != t.w ensures !Begun(lens, after, w) {
      SentMore(before, t, w);
      assert !Begun(lens, before, w);
    }
    SentMore(before, t, t.w);
    var (f, n) := (Frame(ps[t.w]), Sent(after, t.w));
    assert Out(ps, after) == Frames(Done(ps, before)) + f[..n];
    if n == 4 + |ps[t.w]| {
      assert f[..n] == f;
      FramesLast(Done(ps, before), ps[t.w]);
      OrderedNone(ps, after);
    } else {
      assert EndsWith(ps, after, t.w);
      OrderedSome(ps, after, t.w);
    }
  }

  lemma OrderedNone(ps: seq<seq<byte>>, sends: seq<Send>)
    requires Possible(Lengths(ps), sends)
    requires NoneBegun(Lengths(ps), sends) && Out(ps, sends) == Frames(Done(ps, sends))
    ensures InOrder(ps, sends)
  {
  }

  lemma OrderedSome(ps: seq<seq<byte>>, sends: seq<Send>, w: nat)
    requires Possible(Lengths(ps), sends) && EndsWith(ps, sends, w)
    ensures InOrder(ps, sends)
  {
  }

  lemma {:induction false} AloneInOrder(ps: seq<seq<byte>>, sends: seq<Send>)
    requires Possible(Lengths(ps), sends) && AllAlone(Lengths(ps), sends)
    ensures InOrder(ps, sends)
    decreases |sends|
  {
    hide InOrder, Alone, AllAlone, Fits;
    if sends == [] {
      NothingInOrder(ps);
    } else {
      var (before, t) := (sends[..|sends| - 1], sends[|sends| - 1]);
      assert sends == before + [t];
      AllAloneMore(Lengths(ps), before, t);
      AloneInOrder(ps, before);
      SendInOrder(ps, before, t);
    }
  }

  lemma NothingInOrder(ps: seq<seq<byte>>)
    ensures InOrder(ps, [])
  {
  }

  /** When every send is alone, the reader gets at any time exactly the finished frames, whatever their payloads. */
  lemma AloneDecodes(ps: seq<seq<byte>>, sends: seq<Send>)
    requires Possible(Lengths(ps), sends) && AllSmall(Lengths(ps)) && AllAlone(Lengths(ps), sends)
    ensures Payloads(Out(ps, sends)) == Done(ps, sends)
  {
    hide Frame, Frames, Payloads, Possible, AllAlone, Out, Sent;
    AloneInOrder(ps, sends);
    if w: nat :| EndsWith(ps, sends, w) {
      CutStreamKeepsWhole(Done(ps, sends), ps[w], Sent(sends, w));
    } else {
      FramesRoundTripIff(Done(ps, sends));
    }
  }

  // ---------------------------------------------------------------------------------------------
  // Any interleaving
  // ---------------------------------------------------------------------------------------------

  function Part(lens: seq<nat>, sends: seq<Send>, w: nat): nat {
    if Begun(lens, sends, w) then Sent(sends, w) else 0
  }

  /** How many bytes of the unfinished frames of the first `k` writers were sent. */
  function Parts(lens: seq<nat>, sends: seq<Send>, k: nat): nat {
    if k == 0 then 0 else Parts(lens, sends, k - 1) + Part(lens, sends, k - 1)
  }

  lemma {:induction false} PartsMore(lens: seq<nat>, before: seq<Send>, t: Send, k: nat)
    ensures Parts(lens, before + [t], k) == Parts(lens, before, k) +
            if t.w < k then Part(lens, before + [t], t.w) - Part(lens, before, t.w) else 0
  {
    hide Sent;
    if k > 0 {
      PartsMore(lens, before, t, k - 1);
      SentMore(before, t, k - 1);
    }
  }

  lemma {:induction false} PartsAtLeast(lens: seq<nat>, sends: seq<Send>, k: nat, w: nat)
    requires w < k
    ensures Parts(lens, sends, k) >= Part(lens, sends, w)
  {
    if w < k - 1 { PartsAtLeast(lens, sends, k - 1, w); }
  }

  lemma {:induction false} PartsNone(lens: seq<nat>, sends: seq<Send>, k: nat)
    requires NoneBegun(lens, sends) && k <= |lens|
    ensures Parts(lens, sends, k) == 0
  {
    if k > 0 { PartsNone(lens, sends, k - 1); }
  }

  /** In every interleaving no byte is lost: the socket has those of the finished frames and of the begun ones. */
  lemma {:induction false} BytesConserved(ps: seq<seq<byte>>, sends: seq<Send>)
    requires Possible(Lengths(ps), sends)
    ensures |Out(ps, sends)| == |Frames(Done(ps, sends))| + Parts(Lengths(ps), sends, |ps|)
    decreases |sends|
  {
    hide Frames, Parts, Part, Done, Out, Chunk, Sent, Possible, Finished;
    var lens := Lengths(ps);
    if sends == [] {
      NothingConserved(ps);
    } else {
      var (before, t) := (sends[..|sends| - 1], sends[|sends| - 1]);
      assert sends == before + [t];
      OutMore(ps, before, t);
      BytesConserved(ps, before);
      PartsMore(lens, before, t, |ps|);
      PartChange(lens, before, t);
      DoneMore(ps, before, t);
      ChunkLength(ps, before, t);
      FramesLast(Done(ps, before), ps[t.w]);
    }
  }

  lemma PartChange(lens: seq<nat>, before: seq<Send>, t: Send)
    requires Fits(lens, Sent(before, t.w), t)
    ensures Part(lens, before + [t], t.w) ==
            Part(lens, before, t.w) + t.n - if Finished(lens, before + [t], t.w) then 4 + lens[t.w] else 0
  {
    hide Sent;
    SentMore(before, t, t.w);
  }

  lemma ChunkLength(ps: seq<seq<byte>>, before: seq<Send>, t: Send)
    requires Fits(Lengths(ps), Sent(before, t.w), t)
    ensures |Chunk(ps, before, t)| == t.n
  {
  }

  lemma NothingConserved(ps: seq<seq<byte>>)
    ensures Out(ps, []) == [] && Frames(Done(ps, [])) == [] && Parts(Lengths(ps), [], |ps|) == 0
  {
    PartsNone(Lengths(ps), [], |ps|);
  }

  /** The reader takes whole frames off the front. */
  lemma {:induction false} PayloadsArePrefix(out: seq<byte>)
    ensures Frames(Payloads(out)) <= out && AllAcceptable(Payloads(out))
    decreases |out|
  {
    hide First, Frame;
    if First(out).Some? {
      var p := First(out).value;
      var rest := out[4 + |p|..];
      FirstIsFrame(out, p);
      PayloadsArePrefix(rest);
      assert ([p] + Payloads(rest))[1..] == Payloads(rest);
      assert out == Frame(p) + rest;
    }
  }

  lemma FirstIsFrame(out: seq<byte>, p: seq<byte>)
    requires First(out) == Some(p)
    ensures |out| >= 4 + |p| && out[..4 + |p|] == Frame(p)
  {
    hide Le32, FromLe32;
    FromLe32RoundTrip(out[..4]);
    assert out[..4 + |p|] == out[..4] + p;
  }

  // ---------------------------------------------------------------------------------------------
  // A frame finished while another is begun
  // ---------------------------------------------------------------------------------------------

  /** Send `j` finishes its frame while that of `v` is begun. */
  predicate Overlaps(lens: seq<nat>, sends: seq<Send>, j: nat, v: nat) {
    j < |sends| && v != sends[j].w && Finished(lens, sends[..j + 1], sends[j].w) && Begun(lens, sends[..j + 1], v)
  }

  ghost predicate SomeOverlap(lens: seq<nat>, sends: seq<Send>) {
    exists j: nat, v: nat :: Overlaps(lens, sends, j, v)
  }

  lemma StepBegun(lens: seq<nat>, sends: seq<Send>, k: nat, w: nat)
    requires Possible(lens, sends) && k < |sends| && w < |lens|
    ensures Sent(sends[..k + 1], w) == Sent(sends[..k], w) + (if sends[k].w == w then sends[k].n else 0)
    ensures sends[k].w < |lens| && sends[k].n > 0
    ensures Begun(lens, sends[..k], w) && sends[k].w != w ==> Begun(lens, sends[..k + 1], w)
    ensures sends[k].w == w ==> Begun(lens, sends[..k + 1], w) || Finished(lens, sends[..k + 1], w)
  {
    hide Sent;
    assert sends[..k + 1] == sends[..k] + [sends[k]];
    SentMore(sends[..k], sends[k], w);
    PossiblePrefix(lens, sends, k + 1);
    SentBound(lens, sends[..k + 1], w);
    PossibleMore(lens, sends[..k], sends[k]);
  }

  /** Of two begun frames, one is finished first. */
  lemma {:induction false} TwoBegun(lens: seq<nat>, sends: seq<Send>, k: nat, v: nat, w: nat)
    requires Possible(lens, sends) && NoneBegun(lens, sends) && k <= |sends| && v != w
    requires Begun(lens, sends[..k], v) && Begun(lens, sends[..k], w)
    ensures SomeOverlap(lens, sends)
    decreases |sends| - k
  {
    hide Sent, Possible;
    assert sends[..|sends|] == sends;
    StepBegun(lens, sends, k, v);
    StepBegun(lens, sends, k, w);
    if Finished(lens, sends[..k + 1], sends[k].w) && sends[k].w != v {
      assert Overlaps(lens, sends, k, v);
    } else if Finished(lens, sends[..k + 1], sends[k].w) {
      assert Overlaps(lens, sends, k, w);
    } else {
      TwoBegun(lens, sends, k + 1, v, w);
    }
  }

  /** When some send is not alone and all frames are finished, some frame is finished while another is begun. */
  lemma NotAloneOverlaps(lens: seq<nat>, sends: seq<Send>)
    requires Possible(lens, sends) && NoneBegun(lens, sends) && !AllAlone(lens, sends)
    ensures SomeOverlap(lens, sends)
  {
    hide Sent, Possible;
    var k :| 0 <= k < |sends| && !Alone(lens, sends[..k], sends[k]);
    var v: nat :| v < |lens| && v != sends[k].w && Begun(lens, sends[..k], v);
    StepBegun(lens, sends, k, v);
    StepBegun(lens, sends, k, sends[k].w);
    if Finished(lens, sends[..k + 1], sends[k].w) {
      assert Overlaps(lens, sends, k, v);
    } else {
      TwoBegun(lens, sends, k + 1, v, sends[k].w);
    }
  }

  lemma {:induction false} OutPrefix(ps: seq<seq<byte>>, sends: seq<Send>, k: nat)
    requires Possible(Lengths(ps), sends) && k <= |sends|
    ensures Possible(Lengths(ps), sends[..k])
    ensures Out(ps, sends[..k]) <= Out(ps, sends) && Frames(Done(ps, sends[..k])) <= Frames(Done(ps, sends))
    decreases |sends|
  {
    hide Out, Frames, Done, Chunk, Possible, Finished;
    PossiblePrefix(Lengths(ps), sends, k);
    if k == |sends| {
      assert sends[..k] == sends;
    } else {
      var (before, t) := (sends[..|sends| - 1], sends[|sends| - 1]);
      assert sends == before + [t] && before[..k] == sends[..k];
      OutMore(ps, before, t);
      DoneMore(ps, before, t);
      if Finished(Lengths(ps), before + [t], t.w) { FramesLast(Done(ps, before), ps[t.w]); }
      OutPrefix(ps, before, k);
    }
  }

  /** Payloads that differ in one place of one frame. */
  predicate DifferAt(ps: seq<seq<byte>>, qs: seq<seq<byte>>, u: nat) {
    && |ps| == |qs| && u < |ps| && |ps[u]| == |qs[u]| > 0
    && (forall w | 0 <= w < |ps| && w != u :: ps[w] == qs[w])
    && ps[u][..|ps[u]| - 1] == qs[u][..|ps[u]| - 1]
  }

  lemma SameFrameUpTo(p: seq<byte>, q: seq<byte>, a: nat, b: nat)
    requires |p| == |q| > 0 && p[..|p| - 1] == q[..|p| - 1] && a <= b <= 3 + |p|
    ensures Frame(p)[a..b] == Frame(q)[a..b]
  {
    hide Le32;
    assert forall k | a <= k < b :: Frame(p)[k] == Frame(q)[k] by {
      forall k | a <= k < b ensures Frame(p)[k] == Frame(q)[k] {
        if k >= 4 { assert p[k - 4] == p[..|p| - 1][k - 4] == q[..|p| - 1][k - 4] == q[k - 4]; }
      }
    }
  }

  /** Until the last byte of the frame is sent, the socket cannot tell which payload it is. */
  lemma {:induction false} SameOut(ps: seq<seq<byte>>, qs: seq<seq<byte>>, u: nat, sends: seq<Send>)
    requires DifferAt(ps, qs, u) && Lengths(ps) == Lengths(qs) && Possible(Lengths(ps), sends)
    requires Sent(sends, u) < 4 + |ps[u]|
    ensures Out(ps, sends) == Out(qs, sends)
    decreases |sends|
  {
    hide Frame, Possible, Out, Sent, Chunk, DifferAt, Lengths;
    if sends == [] {
      NothingConserved(ps);
      NothingConserved(qs);
    } else {
      var (before, t) := (sends[..|sends| - 1], sends[|sends| - 1]);
      assert sends == before + [t];
      OutMore(ps, before, t);
      OutMore(qs, before, t);
      SentMore(before, t, u);
      SameOut(ps, qs, u, before);
      SameChunk(ps, qs, u, before, t);
    }
  }

  lemma SameChunk(ps: seq<seq<byte>>, qs: seq<seq<byte>>, u: nat, before: seq<Send>, t: Send)
    requires DifferAt(ps, qs, u) && Lengths(ps) == Lengths(qs) && Fits(Lengths(ps), Sent(before, t.w), t)
    requires t.w == u ==> Sent(before, u) + t.n < 4 + |ps[u]|
    ensures Chunk(ps, before, t) == Chunk(qs, before, t)
  {
    hide Frame, Sent;
    if t.w == u { SameFrameUpTo(ps[u], qs[u], Sent(before, u), Sent(before, u) + t.n); }
  }

  lemma SameOutButLast(ps: seq<seq<byte>>, qs: seq<seq<byte>>, before: seq<Send>, t: Send)
    requires DifferAt(ps, qs, t.w) && Lengths(ps) == Lengths(qs) && Possible(Lengths(ps), before + [t])
    requires Finished(Lengths(ps), before + [t], t.w)
    ensures var (a, b) := (Out(ps, before + [t]), Out(qs, before + [t]));
            |a| == |b| > 0 && a[..|a| - 1] == b[..|b| - 1]
  {
    hide Frame, Possible, Out;
    OutMore(ps, before, t);
    OutMore(qs, before, t);
    SentMore(before, t, t.w);
    SameOut(ps, qs, t.w, before);
    var (x, n) := (Sent(before, t.w), t.n);
    SameFrameUpTo(ps[t.w], qs[t.w], x, x + n - 1);
    PartBegins(Frame(ps[t.w]), x, x + n);
    PartBegins(Frame(qs[t.w]), x, x + n);
    ButLast(Out(ps, before), Chunk(ps, before, t));
    ButLast(Out(qs, before), Chunk(qs, before, t));
  }

  lemma PartBegins(f: seq<byte>, a: nat, b: nat)
    requires a < b <= |f|
    ensures f[a..b][..b - a - 1] == f[a..b - 1]
  {
  }

  lemma ButLast(a: seq<byte>, c: seq<byte>)
    requires c != []
    ensures (a + c)[..|a + c| - 1] == a + c[..|c| - 1]
  {
  }

  /** The place where the reader looks for the last byte of the frame that send `j` finishes. */
  function Place(ps: seq<seq<byte>>, sends: seq<Send>, j: nat): int
    requires j < |sends|
  {
    |Frames(Done(ps, sends[..j + 1]))| - 1
  }

  /** Where the frames stand one behind the other, that place holds the last byte. */
  lemma PlaceHolds(ps: seq<seq<byte>>, sends: seq<Send>, j: nat)
    requires Possible(Lengths(ps), sends) && j < |sends|
    requires Finished(Lengths(ps), sends[..j + 1], sends[j].w) && ps[sends[j].w] != []
    ensures var (all, q) := (Frames(Done(ps, sends)), Place(ps, sends, j));
            0 <= q < |all| && all[q] == ps[sends[j].w][|ps[sends[j].w]| - 1]
  {
    hide Frames, Done, Possible, Sent, Frame, Out;
    var p := ps[sends[j].w];
    assert sends[..j + 1] == sends[..j] + [sends[j]];
    DoneMore(ps, sends[..j], sends[j]);
    FramesLast(Done(ps, sends[..j]), p);
    OutPrefix(ps, sends, j + 1);
    FrameEnds(p);
    assert Frames(Done(ps, sends[..j + 1]))[Place(ps, sends, j)] == Frame(p)[|Frame(p)| - 1];
  }

  lemma FrameEnds(p: seq<byte>)
    requires p != []
    ensures |Frame(p)| > 0 && Frame(p)[|Frame(p)| - 1] == p[|p| - 1]
  {
  }

  /** At an overlap, that place was filled before the last byte was sent. */
  lemma PlaceIsTaken(ps: seq<seq<byte>>, sends: seq<Send>, j: nat, v: nat)
    requires Possible(Lengths(ps), sends) && Overlaps(Lengths(ps), sends, j, v) && Possible(Lengths(ps), sends[..j + 1])
    ensures Place(ps, sends, j) < |Out(ps, sends[..j + 1])| - 1
  {
    hide Frames, Done, Possible, Sent, Out, Parts;
    BytesConserved(ps, sends[..j + 1]);
    PartsAtLeast(Lengths(ps), sends[..j + 1], |ps|, v);
  }

  /** So two choices of that byte cannot both be read back. */
  lemma NotBothReadBack(ps: seq<seq<byte>>, qs: seq<seq<byte>>, sends: seq<Send>, j: nat, v: nat)
    requires Possible(Lengths(ps), sends) && Lengths(ps) == Lengths(qs) && Overlaps(Lengths(ps), sends, j, v)
    requires DifferAt(ps, qs, sends[j].w) && ps[sends[j].w] != qs[sends[j].w]
    ensures !(Out(ps, sends) == Frames(Done(ps, sends)) && Out(qs, sends) == Frames(Done(qs, sends)))
  {
    hide Frames, Done, Possible, Finished, Out, Sent, Begun;
    var (u, q) := (sends[j].w, Place(ps, sends, j));
    assert sends[..j + 1] == sends[..j] + [sends[j]];
    OutPrefix(ps, sends, j + 1);
    OutPrefix(qs, sends, j + 1);
    PlaceHolds(ps, sends, j);
    PlaceHolds(qs, sends, j);
    SamePlace(ps, qs, sends, j);
    PlaceIsTaken(ps, sends, j, v);
    SameOutButLast(ps, qs, sends[..j], sends[j]);
    var (a, b) := (Out(ps, sends[..j + 1]), Out(qs, sends[..j + 1]));
    assert a[q] == a[..|a| - 1][q] == b[..|b| - 1][q] == b[q];
    LastDiffers(ps[u], qs[u]);
  }

  lemma LastDiffers(p: seq<byte>, q: seq<byte>)
    requires |p| == |q| > 0 && p[..|p| - 1] == q[..|p| - 1] && p != q
    ensures p[|p| - 1] != q[|q| - 1]
  {
    assert p == p[..|p| - 1] + [p[|p| - 1]] && q == q[..|q| - 1] + [q[|q| - 1]];
  }

  lemma {:induction false} SameLengths(a: seq<seq<byte>>, b: seq<seq<byte>>)
    requires |a| == |b| && forall i | 0 <= i < |a| :: |a[i]| == |b[i]|
    ensures |Frames(a)| == |Frames(b)|
  {
    if a != [] { SameLengths(a[1..], b[1..]); }
  }

  lemma SamePlace(ps: seq<seq<byte>>, qs: seq<seq<byte>>, sends: seq<Send>, j: nat)
    requires j < |sends| && Lengths(ps) == Lengths(qs)
    ensures Place(ps, sends, j) == Place(qs, sends, j)
  {
    hide Order;
    var order := Order(Lengths(ps), sends[..j + 1]);
    forall i | 0 <= i < |order| ensures |ps[order[i]]| == |qs[order[i]]| {
      assert Lengths(ps)[order[i]] == Lengths(qs)[order[i]];
    }
    SameLengths(Done(ps, sends[..j + 1]), Done(qs, sends[..j + 1]));
  }

  // ---------------------------------------------------------------------------------------------
  // Exactly the schedules that are safe
  // ---------------------------------------------------------------------------------------------

  /** With nothing under way, the reader gets the finished frames only when they stand one behind the other. */
  lemma ReadsBackWhole(ps: seq<seq<byte>>, sends: seq<Send>)
    requires Possible(Lengths(ps), sends) && NoneBegun(Lengths(ps), sends)
    requires Payloads(Out(ps, sends)) == Done(ps, sends)
    ensures Out(ps, sends) == Frames(Done(ps, sends))
  {
    hide Frames, Payloads, AllAcceptable, NoneBegun, Possible, Done, Out;
    BytesConserved(ps, sends);
    PartsNone(Lengths(ps), sends, |ps|);
    PayloadsArePrefix(Out(ps, sends));
  }

  /** The reader gets the finished frames whatever the payloads of these lengths are. */
  ghost predicate Safe(lens: seq<nat>, sends: seq<Send>)
    requires Possible(lens, sends)
  {
    forall ps | Lengths(ps) == lens :: Payloads(Out(ps, sends)) == Done(ps, sends)
  }

  lemma OverlapIsUnsafe(lens: seq<nat>, sends: seq<Send>, j: nat, v: nat)
    requires Possible(lens, sends) && NoneBegun(lens, sends) && AllSmall(lens) && Overlaps(lens, sends, j, v)
    ensures !Safe(lens, sends)
  {
    hide Frames, Payloads, Possible, Done, Out, NoneBegun, Sent;
    var u := sends[j].w;
    var ps := seq(|lens|, w requires 0 <= w < |lens| => Zeros(lens[w]));
    var qs := ps[u := Zeros(lens[u] - 1) + [1]];
    assert Lengths(ps) == lens && Lengths(qs) == lens;
    assert ps[u][..lens[u] - 1] == Zeros(lens[u] - 1) == qs[u][..lens[u] - 1];
    assert ps[u][lens[u] - 1] == 0 && qs[u][lens[u] - 1] == 1;
    NotBothReadBack(ps, qs, sends, j, v);
    if Safe(lens, sends) {
      ReadsBackWhole(ps, sends);
      ReadsBackWhole(qs, sends);
    }
  }

  function Zeros(n: nat): (r: seq<byte>)
    ensures |r| == n && forall i | 0 <= i < n :: r[i] == 0
  {
    seq(n, _ => 0)
  }

  /**
   A schedule after which no frame is under way lets the reader have exactly the finished frames, whatever
   their payloads are, if and only if every send of it is alone.
   */
  lemma SafeIffAlone(lens: seq<nat>, sends: seq<Send>)
    requires Possible(lens, sends) && NoneBegun(lens, sends) && AllSmall(lens)
    ensures Safe(lens, sends) <==> AllAlone(lens, sends)
  {
    hide Possible, NoneBegun, AllAlone, Payloads, Out, Done, Overlaps;
    if AllAlone(lens, sends) {
      forall ps | Lengths(ps) == lens ensures Payloads(Out(ps, sends)) == Done(ps, sends) { AloneDecodes(ps, sends); }
    } else {
      NotAloneOverlaps(lens, sends);
      var j: nat, v: nat :| Overlaps(lens, sends, j, v);
      OverlapIsUnsafe(lens, sends, j, v);
    }
  }

  // ---------------------------------------------------------------------------------------------
  // Two frames, one within the other
  // ---------------------------------------------------------------------------------------------

  /** Both headers, then both payloads. */
  const CROSSED := [Send(0, 4), Send(1, 4), Send(0, 1), Send(1, 1)]

  const HEADERS := [Send(0, 4), Send(1, 4)]

  lemma HeadersRun()
    ensures Possible([1, 1], HEADERS) && Order([1, 1], HEADERS) == [] && Sent(HEADERS, 0) == 4 && Sent(HEADERS, 1) == 4
  {
    var a := [Send(0, 4)];
    assert HEADERS[..1] == a && a[..0] == [];
    assert Sent(a, 0) == 4 && Sent(a, 1) == 0;
  }

  lemma CrossedRuns()
    ensures Possible([1, 1], CROSSED) && NoneBegun([1, 1], CROSSED) && Order([1, 1], CROSSED) == [0, 1]
  {
    hide Possible, Order, Sent;
    HeadersRun();
    var c := HEADERS + [Send(0, 1)];
    assert CROSSED == c + [Send(1, 1)];
    SentMore(HEADERS, Send(0, 1), 0);
    SentMore(HEADERS, Send(0, 1), 1);
    SentMore(c, Send(1, 1), 0);
    SentMore(c, Send(1, 1), 1);
    PossibleMore([1, 1], HEADERS, Send(0, 1));
    PossibleMore([1, 1], c, Send(1, 1));
    OrderMore([1, 1], HEADERS, Send(0, 1));
    OrderMore([1, 1], c, Send(1, 1));
  }

  lemma OrderMore(lens: seq<nat>, before: seq<Send>, t: Send)
    ensures Order(lens, before + [t]) == Order(lens, before) + if Finished(lens, before + [t], t.w) then [t.w] else []
  {
    hide Finished;
    assert (before + [t])[..|before|] == before;
  }

  lemma HeadersOut(x: byte, y: byte)
    ensures Lengths([[x], [y]]) == [1, 1] && Possible([1, 1], HEADERS)
    ensures Out([[x], [y]], HEADERS) == [1, 0, 0, 0, 1, 0, 0, 0]
  {
    hide Possible, Out, Frame;
    var ps := [[x], [y]];
    assert Lengths(ps) == [1, 1];
    HeadersRun();
    OneByteFrame(x);
    OneByteFrame(y);
    assert HEADERS == [] + [Send(0, 4)] + [Send(1, 4)];
    OutMore(ps, [] + [Send(0, 4)], Send(1, 4));
    OutMore(ps, [], Send(0, 4));
    SentMore([], Send(0, 4), 1);
    NothingConserved(ps);
  }

  lemma OneByteFrame(x: byte)
    ensures Frame([x]) == [1, 0, 0, 0, x]
  {
  }

  lemma CrossedOut(x: byte, y: byte)
    ensures Lengths([[x], [y]]) == [1, 1] && Possible([1, 1], CROSSED)
    ensures Out([[x], [y]], CROSSED) == [1, 0, 0, 0, 1, 0, 0, 0, x, y]
  {
    hide Possible, Out, Frame, Order, Sent;
    var ps := [[x], [y]];
    HeadersRun();
    HeadersOut(x, y);
    CrossedRuns();
    OneByteFrame(x);
    OneByteFrame(y);
    var c := HEADERS + [Send(0, 1)];
    assert CROSSED == c + [Send(1, 1)];
    OutMore(ps, c, Send(1, 1));
    OutMore(ps, HEADERS, Send(0, 1));
    SentMore(HEADERS, Send(0, 1), 1);
  }

  /** A schedule of two writers after which the reader gets one payload, which nobody wrote. */
  lemma InterleavedIsLost()
    ensures Lengths([[7], [9]]) == [1, 1] && Possible([1, 1], CROSSED) && NoneBegun([1, 1], CROSSED)
    ensures Done([[7], [9]], CROSSED) == [[7], [9]] && Payloads(Out([[7], [9]], CROSSED)) == [[1]]
  {
    hide Possible, NoneBegun, Order, Out, Payloads, First;
    CrossedRuns();
    CrossedOut(7, 9);
    var out: seq<byte> := [1, 0, 0, 0, 1, 0, 0, 0, 7, 9];
    FirstIs(out, 1);
    PayloadsOnce(out);
    PayloadsOnce(out[5..]);
    FirstIs(out[5..], 0x700_0000);
    assert out[4..5] == [1];
  }

  lemma FirstIs(out: seq<byte>, len: nat)
    requires |out| >= 4 && FromLe32(out[..4]) == len
    ensures First(out) == if !Acceptable(len) || |out| < 4 + len then None else Some(out[4..4 + len])
  {
  }
}
