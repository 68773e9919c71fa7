/**
 What goes over the socket between the loader and a plugin's process: bodies and outcomes are those that
 the steps of the run name, and messages are read in the order in which they were sent.
 */
module PluginBodies {
  import opened PluginRpc

  // ---------------------------------------------------------------------------------------------
  // Bodies
  // ---------------------------------------------------------------------------------------------

  /** How many calls the child has made. */
  function ChildCalls(steps: seq<Step>): nat
    decreases |steps|
  {
    if steps == [] then 0
    else
      var n := |steps| - 1;
      ChildCalls(steps[..n]) + if steps[n].ChildCall? || steps[n].ChildCallUnsent? then 1 else 0
  }

  predicate CallsAs(steps: seq<Step>, k: nat, id: Id, body: string) {
    k < |steps| && steps[k] == ChildCall(body) && ChildCalls(steps[..k]) == id
  }

  /** The child's call number `id` has this body. */
  ghost predicate CalledAs(steps: seq<Step>, id: Id, body: string) {
    exists k: nat :: CallsAs(steps, k, id, body)
  }

  /** The bodies of the notifications the parent sent, in order. */
  function Told(steps: seq<Step>): seq<string>
    decreases |steps|
  {
    if steps == [] then []
    else
      var n := |steps| - 1;
      Told(steps[..n]) + if steps[n].TellChild? then [steps[n].body] else []
  }

  /** The bodies of the notifications on a channel. */
  function Bodies(ch: seq<Msg>): seq<string> {
    if ch == [] then [] else (if ch[0].Notify? then [ch[0].body] else []) + Bodies(ch[1..])
  }

  lemma BodiesOnce(ch: seq<Msg>)
    requires ch != []
    ensures Bodies(ch) == (if ch[0].Notify? then [ch[0].body] else []) + Bodies(ch[1..])
  {
  }

  lemma BodiesAlone(m: Msg)
    ensures Bodies([]) == [] && Bodies([m]) == if m.Notify? then [m.body] else []
  {
    assert [m][1..] == [];
  }

  lemma {:induction false} BodiesMore(ch: seq<Msg>, m: Msg)
    ensures Bodies(ch + [m]) == Bodies(ch) + if m.Notify? then [m.body] else []
  {
    hide Bodies;
    BodiesAlone(m);
    if ch == [] {
      assert ch + [m] == [m];
    } else {
      assert (ch + [m])[0] == ch[0] && (ch + [m])[1..] == ch[1..] + [m];
      BodiesOnce(ch);
      BodiesOnce(ch + [m]);
      BodiesMore(ch[1..], m);
    }
  }

  lemma StepsMore(steps: seq<Step>, t: Step)
    ensures var all := steps + [t];
            && ChildCalls(all) == ChildCalls(steps) + (if t.ChildCall? || t.ChildCallUnsent? then 1 else 0)
            && Told(all) == Told(steps) + (if t.TellChild? then [t.body] else [])
  {
    assert (steps + [t])[..|steps|] == steps;
  }

  lemma CalledAsMore(steps: seq<Step>, t: Step, id: Id, body: string)
    requires CalledAs(steps, id, body)
    ensures CalledAs(steps + [t], id, body)
  {
    var k: nat :| CallsAs(steps, k, id, body);
    assert (steps + [t])[..k] == steps[..k];
    assert CallsAs(steps + [t], k, id, body);
  }

  lemma CalledAsNow(steps: seq<Step>, body: string)
    ensures CalledAs(steps + [ChildCall(body)], ChildCalls(steps), body)
  {
    assert (steps + [ChildCall(body)])[..|steps|] == steps;
    assert CallsAs(steps + [ChildCall(body)], |steps|, ChildCalls(steps), body);
  }

  /** Requests on their way to the child are as they were sent, and a call is sent once. */
  ghost predicate RequestsAsSent(steps: seq<Step>, s: State) {
    && (forall i | 0 <= i < |s.wire.toChild| && s.wire.toChild[i].Request? ::
          Send(s.wire.toChild[i].id, s.wire.toChild[i].body) in steps)
    && (forall id: Id, b | Send(id, b) in steps :: id < |s.parent.calls| && !s.parent.calls[id].Registered?)
    && (forall i, j | 0 <= i < j < |steps| && steps[i].Send? && steps[j].Send? :: steps[i].id != steps[j].id)
  }

  /** Requests on their way to the parent are as the child made them. */
  ghost predicate CallsAsMade(steps: seq<Step>, s: State) {
    && s.child.next == ChildCalls(steps)
    && forall i | 0 <= i < |s.wire.toParent| && s.wire.toParent[i].Request? ::
         CalledAs(steps, s.wire.toParent[i].id, s.wire.toParent[i].body)
  }

  /** What the child has read and what is on the way are all notifications, in the order in which they were sent. */
  predicate NotesAsTold(steps: seq<Step>, s: State) {
    s.notes.arrivals + Bodies(s.wire.toChild) == Told(steps)
  }

  lemma RequestsAfter(steps: seq<Step>, s: State, t: Step)
    requires Enabled(s, t) && RequestsAsSent(steps, s)
    ensures RequestsAsSent(steps + [t], Next(s, t))
  {
    hide NextChild, NextNotes, NextHistory, FailAll;
    var (n, all) := (Next(s, t), steps + [t]);
    forall id: Id, b | Send(id, b) in all ensures id < |n.parent.calls| && !n.parent.calls[id].Registered? {
      if Send(id, b) in steps { assert id < |s.parent.calls|; }
    }
    forall i, j | 0 <= i < j < |all| && all[i].Send? && all[j].Send? ensures all[i].id != all[j].id {
      if j == |steps| { assert Send(steps[i].id, steps[i].body) in steps; }
    }
    forall i | 0 <= i < |n.wire.toChild| && n.wire.toChild[i].Request?
      ensures Send(n.wire.toChild[i].id, n.wire.toChild[i].body) in all
    {
      var m := n.wire.toChild[i];
      if m in s.wire.toChild { assert Send(m.id, m.body) in steps; }
    }
  }

  lemma CallsAfter(steps: seq<Step>, s: State, t: Step)
    requires Enabled(s, t) && CallsAsMade(steps, s)
    ensures CallsAsMade(steps + [t], Next(s, t))
  {
    hide NextParent, NextNotes, NextHistory, CalledAs;
    var (n, all) := (Next(s, t), steps + [t]);
    StepsMore(steps, t);
    forall i | 0 <= i < |n.wire.toParent| && n.wire.toParent[i].Request?
      ensures CalledAs(all, n.wire.toParent[i].id, n.wire.toParent[i].body)
    {
      var m := n.wire.toParent[i];
      if m in s.wire.toParent {
        CalledAsMore(steps, t, m.id, m.body);
      } else {
        CalledAsNow(steps, m.body);
      }
    }
  }

  lemma NotesAfterSend(steps: seq<Step>, s: State, t: Step)
    requires Enabled(s, t) && NotesAsTold(steps, s) && (t.Send? || t.TellChild? || t.Serve?)
    ensures NotesAsTold(steps + [t], Next(s, t))
  {
    hide NextParent, NextChild, NextHistory, Bodies, Told;
    StepsMore(steps, t);
    var ch := s.wire.toChild;
    match t
    case Send(id, b) => BodiesMore(ch, Request(id, b));
    case TellChild(b) => BodiesMore(ch, Notify(b));
    case Serve(o) => BodiesMore(ch, Response(s.parent.reader.id, o));
  }

  lemma NotesAfterRead(steps: seq<Step>, s: State, t: Step)
    requires Enabled(s, t) && NotesAsTold(steps, s) && (t.Loop? || t.ChildReads?)
    ensures NotesAsTold(steps + [t], Next(s, t))
  {
    hide NextParent, NextChild, NextHistory, Bodies, Told;
    StepsMore(steps, t);
    BodiesOnce(s.wire.toChild);
  }

  lemma NotesAfter(steps: seq<Step>, s: State, t: Step)
    requires Enabled(s, t) && NotesAsTold(steps, s)
    ensures NotesAsTold(steps + [t], Next(s, t))
  {
    hide NextParent, NextChild, NextHistory, Bodies, Told;
    if t.Send? || t.TellChild? || t.Serve? {
      NotesAfterSend(steps, s, t);
    } else if t.Loop? || t.ChildReads? {
      NotesAfterRead(steps, s, t);
    } else {
      StepsMore(steps, t);
    }
  }

  // ---------------------------------------------------------------------------------------------
  // Outcomes
  // ---------------------------------------------------------------------------------------------

  ghost predicate RespondsAt(steps: seq<Step>, k: nat, id: Id, o: Outcome) {
    k < |steps| && steps[k] == Respond(o) && exists p :: Leads(steps[..k], p) && p.child.phase == Serving(id)
  }

  /** The child's handler, running for request `id`, responded with `o`. */
  ghost predicate Responded(steps: seq<Step>, id: Id, o: Outcome) {
    exists k: nat :: RespondsAt(steps, k, id, o)
  }

  ghost predicate ServesAt(steps: seq<Step>, k: nat, id: Id, o: Outcome) {
    k < |steps| && steps[k] == Serve(o) && exists p :: Leads(steps[..k], p) && p.parent.reader == RServing(id)
  }

  /** The parent's handler, running for the child's request `id`, responded with `o`. */
  ghost predicate Served(steps: seq<Step>, id: Id, o: Outcome) {
    exists k: nat :: ServesAt(steps, k, id, o)
  }

  lemma RespondedMore(steps: seq<Step>, t: Step, id: Id, o: Outcome)
    requires Responded(steps, id, o)
    ensures Responded(steps + [t], id, o)
  {
    hide Leads;
    var k: nat :| RespondsAt(steps, k, id, o);
    assert (steps + [t])[..k] == steps[..k];
    assert RespondsAt(steps + [t], k, id, o);
  }

  lemma RespondedNow(steps: seq<Step>, s: State, id: Id, o: Outcome)
    requires Leads(steps, s) && s.child.phase == Serving(id)
    ensures Responded(steps + [Respond(o)], id, o)
  {
    hide Leads;
    assert (steps + [Respond(o)])[..|steps|] == steps;
    assert RespondsAt(steps + [Respond(o)], |steps|, id, o);
  }

  lemma ServedMore(steps: seq<Step>, t: Step, id: Id, o: Outcome)
    requires Served(steps, id, o)
    ensures Served(steps + [t], id, o)
  {
    hide Leads;
    var k: nat :| ServesAt(steps, k, id, o);
    assert (steps + [t])[..k] == steps[..k];
    assert ServesAt(steps + [t], k, id, o);
  }

  lemma ServedNow(steps: seq<Step>, s: State, id: Id, o: Outcome)
    requires Leads(steps, s) && s.parent.reader == RServing(id)
    ensures Served(steps + [Serve(o)], id, o)
  {
    hide Leads;
    assert (steps + [Serve(o)])[..|steps|] == steps;
    assert ServesAt(steps + [Serve(o)], |steps|, id, o);
  }

  /** What a call of the parent ended with: a response of the child to it, or one of the two losses. */
  ghost predicate Ended(steps: seq<Step>, id: Id, o: Outcome) {
    || Responded(steps, id, o)
    || (o == Err("child disconnected") && ReaderDies in steps)
    || (o == Err("plugin process terminated") && Destroy in steps)
  }

  lemma EndedMore(steps: seq<Step>, t: Step, id: Id, o: Outcome)
    requires Ended(steps, id, o)
    ensures Ended(steps + [t], id, o)
  {
    hide Responded;
    if Responded(steps, id, o) { RespondedMore(steps, t, id, o); }
  }

  ghost predicate WireResponded(steps: seq<Step>, s: State) {
    && (forall i | 0 <= i < |s.wire.toParent| && s.wire.toParent[i].Response? ::
          Responded(steps, s.wire.toParent[i].id, s.wire.toParent[i].outcome))
    && (s.parent.reader.RHolds? ==> Responded(steps, s.parent.reader.id, s.parent.reader.outcome))
  }

  ghost predicate PromisesEnded(steps: seq<Step>, s: State) {
    && (forall id | id in s.parent.promise :: Ended(steps, id, s.parent.promise[id]))
    && (forall id | 0 <= id < |s.parent.calls| && s.parent.calls[id].Returned? ::
          Ended(steps, id, s.parent.calls[id].outcome))
  }

  ghost predicate WireServed(steps: seq<Step>, s: State) {
    && (forall i | 0 <= i < |s.wire.toChild| && s.wire.toChild[i].Response? ::
          Served(steps, s.wire.toChild[i].id, s.wire.toChild[i].outcome))
    && (forall id | id in s.hist.childGot :: Served(steps, id, s.hist.childGot[id]))
  }

  lemma WireRespondedAfter(steps: seq<Step>, s: State, t: Step)
    requires Leads(steps, s) && Enabled(s, t) && WireResponded(steps, s)
    ensures WireResponded(steps + [t], Next(s, t))
  {
    hide NextChild, NextNotes, NextHistory, Responded, Leads, FailAll;
    var (n, all) := (Next(s, t), steps + [t]);
    forall i | 0 <= i < |n.wire.toParent| && n.wire.toParent[i].Response?
      ensures Responded(all, n.wire.toParent[i].id, n.wire.toParent[i].outcome)
    {
      var m := n.wire.toParent[i];
      if m in s.wire.toParent {
        RespondedMore(steps, t, m.id, m.outcome);
      } else {
        RespondedNow(steps, s, m.id, m.outcome);
      }
    }
    if n.parent.reader.RHolds? {
      if t.Read? { assert s.wire.toParent[0].Response?; }
      RespondedMore(steps, t, n.parent.reader.id, n.parent.reader.outcome);
    }
  }

  lemma PromisesAfter(steps: seq<Step>, s: State, t: Step)
    requires Enabled(s, t) && WireResponded(steps, s) && PromisesEnded(steps, s)
    ensures PromisesEnded(steps + [t], Next(s, t))
  {
    hide NextChild, NextNotes, NextHistory, NextWire, Responded;
    var (n, all) := (Next(s, t), steps + [t]);
    forall id | id in n.parent.promise ensures Ended(all, id, n.parent.promise[id]) {
      if id in s.parent.promise && n.parent.promise[id] == s.parent.promise[id] {
        EndedMore(steps, t, id, s.parent.promise[id]);
      } else if t.Settle? {
        RespondedMore(steps, t, id, s.parent.reader.outcome);
      }
    }
    forall id | 0 <= id < |n.parent.calls| && n.parent.calls[id].Returned?
      ensures Ended(all, id, n.parent.calls[id].outcome)
    {
      if id < |s.parent.calls| && s.parent.calls[id] == n.parent.calls[id] {
        EndedMore(steps, t, id, s.parent.calls[id].outcome);
      } else {
        EndedMore(steps, t, id, s.parent.promise[id]);
      }
    }
  }

  lemma WireServedAfter(steps: seq<Step>, s: State, t: Step)
    requires Leads(steps, s) && Enabled(s, t) && WireServed(steps, s)
    ensures WireServed(steps + [t], Next(s, t))
  {
    hide NextChild, NextNotes, NextParent, Served, Leads;
    var (n, all) := (Next(s, t), steps + [t]);
    forall i | 0 <= i < |n.wire.toChild| && n.wire.toChild[i].Response?
      ensures Served(all, n.wire.toChild[i].id, n.wire.toChild[i].outcome)
    {
      var m := n.wire.toChild[i];
      if m in s.wire.toChild {
        ServedMore(steps, t, m.id, m.outcome);
      } else {
        ServedNow(steps, s, m.id, m.outcome);
      }
    }
    forall id | id in n.hist.childGot ensures Served(all, id, n.hist.childGot[id]) {
      if id in s.hist.childGot && n.hist.childGot[id] == s.hist.childGot[id] {
        ServedMore(steps, t, id, s.hist.childGot[id]);
      } else {
        assert s.wire.toChild[0].Response?;
        ServedMore(steps, t, id, s.wire.toChild[0].outcome);
      }
    }
  }

  // ---------------------------------------------------------------------------------------------
  // Whole runs
  // ---------------------------------------------------------------------------------------------

  ghost predicate AsSaid(steps: seq<Step>, s: State) {
    && RequestsAsSent(steps, s) && CallsAsMade(steps, s) && NotesAsTold(steps, s)
    && WireResponded(steps, s) && PromisesEnded(steps, s) && WireServed(steps, s)
  }

  lemma {:induction false} RunsAreAsSaid(steps: seq<Step>, s: State)
    requires Leads(steps, s)
    ensures AsSaid(steps, s)
    decreases |steps|
  {
    hide RequestsAsSent, CallsAsMade, NotesAsTold, WireResponded, PromisesEnded, WireServed, Enabled, Next;
    if steps == [] {
      NothingSaid();
    } else {
      var n := |steps| - 1;
      var r :| Leads(steps[..n], r) && Enabled(r, steps[n]) && s == Next(r, steps[n]);
      RunsAreAsSaid(steps[..n], r);
      RequestsAfter(steps[..n], r, steps[n]);
      CallsAfter(steps[..n], r, steps[n]);
      NotesAfter(steps[..n], r, steps[n]);
      WireRespondedAfter(steps[..n], r, steps[n]);
      PromisesAfter(steps[..n], r, steps[n]);
      WireServedAfter(steps[..n], r, steps[n]);
      assert steps == steps[..n] + [steps[n]];
    }
  }

  lemma NothingSaid()
    ensures AsSaid([], INIT)
  {
  }

  /**
   In every run, a request that the child takes off the socket, to run it or to drop it, carries the body that its one
   `Send` gave it, and one that the parent takes off carries the body of the child's call with that number.
   */
  lemma RequestsCarryTheirBodies(steps: seq<Step>, s: State)
    requires Leads(steps, s)
    ensures s.wire.toChild != [] && s.wire.toChild[0].Request? ==>
              Send(s.wire.toChild[0].id, s.wire.toChild[0].body) in steps
    ensures s.wire.toParent != [] && s.wire.toParent[0].Request? ==>
              CalledAs(steps, s.wire.toParent[0].id, s.wire.toParent[0].body)
    ensures forall i, j | 0 <= i < j < |steps| && steps[i].Send? && steps[j].Send? :: steps[i].id != steps[j].id
  {
    hide Leads, NotesAsTold, WireResponded, PromisesEnded, WireServed, CalledAs;
    RunsAreAsSaid(steps, s);
  }

  /** In every run, the notifications the child has read are the first ones that were sent, in order. */
  lemma NotificationsArriveInOrder(steps: seq<Step>, s: State)
    requires Leads(steps, s)
    ensures s.notes.arrivals <= Told(steps)
  {
    hide Leads, RequestsAsSent, CallsAsMade, WireResponded, PromisesEnded, WireServed, Bodies, Told;
    RunsAreAsSaid(steps, s);
  }

  /**
   In every run, a call of the parent that returned has the outcome with which the child's handler, running for it,
   responded, or one of the two losses; and a call of the child that returned has that of the parent's handler.
   */
  lemma CallsReturnResponses(steps: seq<Step>, s: State)
    requires Leads(steps, s)
    ensures forall id | 0 <= id < |s.parent.calls| && s.parent.calls[id].Returned? ::
              Ended(steps, id, s.parent.calls[id].outcome)
    ensures forall id | id in s.hist.childGot :: Served(steps, id, s.hist.childGot[id])
  {
    hide Leads, RequestsAsSent, CallsAsMade, NotesAsTold, WireResponded, Ended, Served;
    RunsAreAsSaid(steps, s);
  }
}
