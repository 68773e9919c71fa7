/**
 What the two threads can always do: from every state of every run the parent's reader can deliver all that is on the
 socket, and the child can finish its message and dispatch all that it deferred. And every message is read once.
 */
module PluginProgress {
  import opened PluginRpc
  import opened PluginBodies

  // ---------------------------------------------------------------------------------------------
  // The reader
  // ---------------------------------------------------------------------------------------------

  predicate ReaderStep(t: Step) {
    t.Read? || t.Settle? || t.Serve?
  }

  ghost predicate OnlyReader(steps: seq<Step>) {
    forall t | t in steps :: ReaderStep(t)
  }

  /** What the reader holds, and what is on the socket for a call that waits, is in the promises of `n`. */
  predicate Delivered(s: State, n: State) {
    && (forall id | id in s.parent.promise :: id in n.parent.promise && n.parent.promise[id] == s.parent.promise[id])
    && (s.parent.reader.RHolds? ==> Kept(n, s.parent.reader.id, s.parent.reader.outcome))
    && (forall m | m in s.wire.toParent && m.Response? && m.id in s.parent.pending :: Kept(n, m.id, m.outcome))
  }

  predicate Kept(n: State, id: Id, o: Outcome) {
    id in n.parent.promise && n.parent.promise[id] == o
  }

  function ReaderWork(s: State): nat {
    2 * |s.wire.toParent| + if s.parent.reader.RIdle? then 0 else 1
  }

  /** The reader's next step. */
  function ReaderNext(s: State): (t: Step)
    requires !s.parent.reader.RDead? && ReaderWork(s) > 0
    ensures Enabled(s, t) && ReaderStep(t)
  {
    if s.parent.reader.RHolds? then Settle else if s.parent.reader.RServing? then Serve(Ok("")) else Read
  }

  lemma ReaderNextWorks(s: State)
    requires Inv(s) && !s.parent.reader.RDead? && ReaderWork(s) > 0
    ensures var r := Next(s, ReaderNext(s));
            !r.parent.reader.RDead? && ReaderWork(r) < ReaderWork(s)
  {
    hide Conserved, Logged, FreshRequests, Requests, Responses, Promises, ChildRequests, NextNotes, NextHistory,
         FailAll, TrueResponses, ChildResponses;
  }

  lemma DeliveredBefore(s: State, n: State)
    requires Inv(s) && !s.parent.reader.RDead? && ReaderWork(s) > 0
    requires Delivered(Next(s, ReaderNext(s)), n)
    ensures Delivered(s, n)
  {
    hide Conserved, Logged, FreshRequests, Requests, ChildRequests, NextNotes, NextHistory, FailAll, ChildResponses;
    var r := Next(s, ReaderNext(s));
    forall m | m in s.wire.toParent && m.Response? && m.id in s.parent.pending ensures Kept(n, m.id, m.outcome) {
      if s.parent.reader.RIdle? && m == s.wire.toParent[0] {
        assert r.parent.reader == RHolds(m.id, m.outcome);
      } else {
        assert m in r.wire.toParent;
        StillPending(s, m);
      }
    }
  }

  lemma StillPending(s: State, m: Msg)
    requires Inv(s) && !s.parent.reader.RDead? && ReaderWork(s) > 0
    requires m in s.wire.toParent && m.Response? && m.id in s.parent.pending
    requires s.parent.reader.RIdle? ==> m != s.wire.toParent[0]
    ensures m.id in Next(s, ReaderNext(s)).parent.pending
  {
    hide Conserved, Logged, FreshRequests, Requests, ChildRequests, NextNotes, NextHistory, NextChild, NextWire,
         FailAll, ChildResponses;
    var ch := s.wire.toParent;
    var i :| 0 <= i < |ch| && ch[i] == m;
    if s.parent.reader.RIdle? && ch[0].Response? { assert ch[0].id != ch[i].id; }
  }

  /**
   From every state of every run in which the reader's loop has not ended, the reader's own steps lead to one in which
   the socket is empty and every response on it has reached the call that waited for it.
   */
  lemma {:induction false} ReaderCanDeliver(steps: seq<Step>, s: State) returns (more: seq<Step>, n: State)
    requires Leads(steps, s) && !s.parent.reader.RDead?
    ensures Leads(steps + more, n) && OnlyReader(more)
    ensures n.wire.toParent == [] && n.parent.reader.RIdle? && Delivered(s, n)
    decreases ReaderWork(s)
  {
    hide Leads, Inv, Enabled, Next, Delivered;
    if ReaderWork(s) == 0 {
      more, n := [], s;
      assert steps + [] == steps;
      DeliveredItself(s);
    } else {
      var t := ReaderNext(s);
      Extend(steps, s, t);
      RunsKeepInv(steps, s);
      ReaderNextWorks(s);
      var rest;
      rest, n := ReaderCanDeliver(steps + [t], Next(s, t));
      more := [t] + rest;
      assert steps + more == steps + [t] + rest;
      DeliveredBefore(s, n);
    }
  }

  lemma DeliveredItself(s: State)
    requires s.wire.toParent == [] && s.parent.reader.RIdle?
    ensures Delivered(s, s)
  {
  }

  // ---------------------------------------------------------------------------------------------
  // The child
  // ---------------------------------------------------------------------------------------------

  /** Steps with which the child works off what it has read: no new call, nothing read. */
  predicate FinishingStep(t: Step) {
    t.ChildLost? || t.Respond? || t.Told? || t.BatchTold? || t.DrainNext?
  }

  ghost predicate OnlyFinishing(steps: seq<Step>) {
    forall t | t in steps :: FinishingStep(t)
  }

  /** In the middle of a message of the loop, not of a coroutine. */
  predicate InMessage(p: Phase) {
    p.Serving? || p.Telling? || p.Draining? || p.Batch?
  }

  /** How far the child is from the end of the message. */
  function Rank(s: State): nat {
    (if s.child.wait.WaitingFor? then 1 else 0) + if s.child.phase.Draining? then 0 else 2
  }

  function ChildNext(s: State): (t: Step)
    requires InMessage(s.child.phase) && (s.child.phase.Draining? ==> s.child.wait.NotWaiting?)
    ensures Enabled(s, t) && FinishingStep(t)
  {
    if s.child.wait.WaitingFor? then ChildLost
    else
      match s.child.phase
      case Serving(_) => Respond(Ok(""))
      case Telling(_) => Told
      case Batch(_, _) => BatchTold
      case _ => DrainNext
  }

  /** One finishing step: nothing is read, and the child is nearer to the end. */
  lemma ChildNextWorks(s: State)
    requires Inv(s) && InMessage(s.child.phase)
    ensures s.child.phase.Draining? ==> s.child.wait.NotWaiting?
    ensures var r := Next(s, ChildNext(s));
            && r.notes.arrivals == s.notes.arrivals && |Waiting(r)| <= |Waiting(s)|
            && (InMessage(r.child.phase) || (r.child.phase.Idle? && Waiting(r) == []))
            && (|Waiting(r)| < |Waiting(s)| || |r.notes.deferred| < |s.notes.deferred| ||
                (|r.notes.deferred| == |s.notes.deferred| && Rank(r) < Rank(s)) || r.child.phase.Idle?)
  {
    hide Conserved, Logged, FreshRequests, Requests, Responses, Promises, ChildRequests, NextParent, NextWire,
         NextHistory, TrueResponses;
  }

  lemma {:induction false} ChildCanWorkOff(steps: seq<Step>, s: State) returns (more: seq<Step>, n: State)
    requires Leads(steps, s) && InMessage(s.child.phase)
    ensures Leads(steps + more, n) && OnlyFinishing(more)
    ensures n.child.phase.Idle? && Waiting(n) == [] && n.notes.arrivals == s.notes.arrivals
    decreases |Waiting(s)|, |s.notes.deferred|, Rank(s)
  {
    hide Leads, Inv, Enabled, Next, Waiting;
    RunsKeepInv(steps, s);
    ChildNextWorks(s);
    var t := ChildNext(s);
    var r := Next(s, t);
    Extend(steps, s, t);
    if r.child.phase.Idle? {
      more, n := [t], r;
    } else {
      var rest;
      rest, n := ChildCanWorkOff(steps + [t], r);
      more := [t] + rest;
      assert steps + more == steps + [t] + rest;
    }
  }

  /**
   From every state of every run in which the child is in a message of its loop, its own steps lead back to the loop
   with every notification it has read dispatched exactly once.
   */
  lemma ChildCanFinish(steps: seq<Step>, s: State) returns (more: seq<Step>, n: State)
    requires Leads(steps, s) && InMessage(s.child.phase)
    ensures Leads(steps + more, n) && OnlyFinishing(more) && n.child.phase.Idle?
    ensures n.notes.arrivals == s.notes.arrivals
    ensures forall k: nat | k < |s.notes.arrivals| :: multiset(n.notes.log)[k] == 1
  {
    hide Leads, Waiting;
    more, n := ChildCanWorkOff(steps, s);
    assert n.notes.log + [] == n.notes.log;
    forall k: nat | k < |s.notes.arrivals| ensures multiset(n.notes.log)[k] == 1 {
      NotificationsAreConserved(steps + more, n, k);
    }
  }

  // ---------------------------------------------------------------------------------------------
  // Every message is read once
  // ---------------------------------------------------------------------------------------------

  predicate ToParent(t: Step) { t.Respond? || t.ChildCall? || t.TellParent? }

  predicate ToChild(t: Step) { t.Send? || t.TellChild? || t.Serve? }

  predicate FromChild(t: Step) { t.Loop? || t.ChildReads? }

  /** How many steps are of a kind. */
  function Count(steps: seq<Step>, kind: Step -> bool): nat
    decreases |steps|
  {
    if steps == [] then 0
    else
      var n := |steps| - 1;
      Count(steps[..n], kind) + if kind(steps[n]) then 1 else 0
  }

  /** The bodies of the notifications the child sent, in order. */
  function ToldParent(steps: seq<Step>): seq<string>
    decreases |steps|
  {
    if steps == [] then []
    else
      var n := |steps| - 1;
      ToldParent(steps[..n]) + if steps[n].TellParent? then [steps[n].body] else []
  }

  predicate Suffix(a: seq<string>, b: seq<string>) {
    |a| <= |b| && a == b[|b| - |a|..]
  }

  lemma SuffixMore(a: seq<string>, b: seq<string>, x: seq<string>)
    requires Suffix(a, b)
    ensures Suffix(a + x, b + x)
  {
  }

  lemma SuffixLess(x: seq<string>, a: seq<string>, b: seq<string>)
    requires Suffix(x + a, b)
    ensures Suffix(a, b)
  {
    assert a == (x + a)[|x|..];
  }

  lemma ToldParentMore(steps: seq<Step>, t: Step)
    ensures ToldParent(steps + [t]) == ToldParent(steps) + if t.TellParent? then [t.body] else []
  {
    assert (steps + [t])[..|steps|] == steps;
  }

  lemma NotesToParentAfter(steps: seq<Step>, s: State, t: Step)
    requires Enabled(s, t) && Suffix(Bodies(s.wire.toParent), ToldParent(steps))
    ensures Suffix(Bodies(Next(s, t).wire.toParent), ToldParent(steps + [t]))
  {
    hide NextParent, NextChild, NextHistory, NextNotes, Bodies, ToldParent, Suffix;
    ToldParentMore(steps, t);
    var ch := s.wire.toParent;
    assert ToldParent(steps) + [] == ToldParent(steps) && Bodies(ch) + [] == Bodies(ch);
    match t
    case Respond(o) => BodiesMore(ch, Response(s.child.phase.id, o));
    case ChildCall(b) => BodiesMore(ch, Request(s.child.next, b));
    case TellParent(b) =>
      BodiesMore(ch, Notify(b));
      SuffixMore(Bodies(ch), ToldParent(steps), [b]);
    case Read =>
      BodiesOnce(ch);
      SuffixLess(if ch[0].Notify? then [ch[0].body] else [], Bodies(ch[1..]), ToldParent(steps));
    case _ =>
  }

  lemma LengthsAfter(s: State, t: Step)
    requires Enabled(s, t)
    ensures var (w, v) := (s.wire, Next(s, t).wire);
            && |v.toParent| == |w.toParent| + (if ToParent(t) then 1 else 0) - (if t.Read? then 1 else 0)
            && |v.toChild| == |w.toChild| + (if ToChild(t) then 1 else 0) - (if FromChild(t) then 1 else 0)
  {
    hide NextParent, NextChild, NextHistory, NextNotes;
  }

  /** In every run, a socket holds as many messages as were sent and not read, and notifications in their order. */
  lemma {:induction false} MessagesAreReadOnce(steps: seq<Step>, s: State)
    requires Leads(steps, s)
    ensures |s.wire.toParent| == Count(steps, ToParent) - Count(steps, (t: Step) => t.Read?)
    ensures |s.wire.toChild| == Count(steps, ToChild) - Count(steps, FromChild)
    ensures Suffix(Bodies(s.wire.toParent), ToldParent(steps))
    decreases |steps|
  {
    hide Enabled, Next, Suffix;
    if steps == [] {
      assert Suffix(Bodies([]), ToldParent([])) by { NothingYet(); }
    } else {
      var n := |steps| - 1;
      var r :| Leads(steps[..n], r) && Enabled(r, steps[n]) && s == Next(r, steps[n]);
      MessagesAreReadOnce(steps[..n], r);
      LengthsAfter(r, steps[n]);
      NotesToParentAfter(steps[..n], r, steps[n]);
      assert steps == steps[..n] + [steps[n]];
    }
  }

  lemma NothingYet()
    ensures Suffix(Bodies([]), ToldParent([]))
  {
  }
}
