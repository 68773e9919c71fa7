/**
 What becomes of every call: which steps put a call into its state, where each request and each response
 is, that no caller is forgotten, and that the reader and the child can always finish what they hold.
 */
module PluginCalls {
  import opened PluginRpc
  import opened PluginBodies

  // ---------------------------------------------------------------------------------------------
  // The state of a call is what its steps say
  // ---------------------------------------------------------------------------------------------

  /** How many calls the parent has made. */
  function Made(steps: seq<Step>): nat
    decreases |steps|
  {
    if steps == [] then 0
    else
      var n := |steps| - 1;
      Made(steps[..n]) + if steps[n].Call? then 1 else 0
  }

  ghost predicate WasSent(steps: seq<Step>, id: Id) {
    exists b :: Send(id, b) in steps
  }

  predicate Abandoned(steps: seq<Step>, id: Id) {
    SendFail(id) in steps || Timeout(id) in steps
  }

  ghost predicate CallIs(steps: seq<Step>, id: Id, c: Call) {
    && (c.Registered? <==> !WasSent(steps, id) && SendFail(id) !in steps)
    && (c.GivenUp? <==> Abandoned(steps, id))
    && (c.Returned? <==> Return(id) in steps)
  }

  ghost predicate CallsAsStepped(steps: seq<Step>, s: State) {
    && |s.parent.calls| == Made(steps)
    && (forall id: Id | WasSent(steps, id) || Abandoned(steps, id) || Return(id) in steps :: id < |s.parent.calls|)
    && (forall id: Id | id < |s.parent.calls| :: CallIs(steps, id, s.parent.calls[id]))
  }

  lemma MadeMore(steps: seq<Step>, t: Step)
    ensures Made(steps + [t]) == Made(steps) + if t.Call? then 1 else 0
  {
    assert (steps + [t])[..|steps|] == steps;
  }

  lemma WasSentMore(steps: seq<Step>, t: Step, id: Id)
    ensures WasSent(steps + [t], id) <==> WasSent(steps, id) || (t.Send? && t.id == id)
  {
    if WasSent(steps, id) {
      var b :| Send(id, b) in steps;
      assert Send(id, b) in steps + [t];
    }
    if t.Send? && t.id == id { assert Send(id, t.body) in steps + [t]; }
  }

  lemma CallsAsSteppedAfter(steps: seq<Step>, s: State, t: Step)
    requires Enabled(s, t) && CallsAsStepped(steps, s)
    ensures CallsAsStepped(steps + [t], Next(s, t))
  {
    hide NextChild, NextNotes, NextHistory, NextWire, FailAll, WasSent, Made;
    MadeMore(steps, t);
    var n := Next(s, t);
    forall id: Id | WasSent(steps + [t], id) || Abandoned(steps + [t], id) || Return(id) in steps + [t]
      ensures id < |n.parent.calls|
    {
      WasSentMore(steps, t, id);
    }
    forall id: Id | id < |n.parent.calls| ensures CallIs(steps + [t], id, n.parent.calls[id]) {
      WasSentMore(steps, t, id);
      if id < |s.parent.calls| { assert CallIs(steps, id, s.parent.calls[id]); }
    }
  }

  // ---------------------------------------------------------------------------------------------
  // No call is forgotten
  // ---------------------------------------------------------------------------------------------

  predicate Held(p: Parent, id: Id) {
    p.reader.RHolds? && p.reader.id == id
  }

  /** A call that is not given up is pending, or the reader has its response in hand, or its promise is kept. */
  ghost predicate NoneForgotten(s: State) {
    forall id: Id | id < |s.parent.calls| && !s.parent.calls[id].GivenUp? ::
      id in s.parent.pending || id in s.parent.promise || Held(s.parent, id)
  }

  predicate PendingCalls(s: State) {
    forall id | id in s.parent.pending ::
      id < |s.parent.calls| && !s.parent.calls[id].GivenUp? && id !in s.hist.readBack
  }

  ghost predicate Accounted(s: State) {
    NoneForgotten(s) && PendingCalls(s)
  }

  /** The ends of the two threads. */
  predicate EndsAsStepped(steps: seq<Step>, s: State) {
    && (s.parent.reader.RDead? <==> ReaderDies in steps)
    && (s.child.phase.Dead? <==> ChildDies in steps)
    && (s.child.phase.Dead? ==> s.child.wait.NotWaiting?)
  }

  lemma NoneForgottenAfter(s: State, t: Step)
    requires Enabled(s, t) && NoneForgotten(s)
    ensures NoneForgotten(Next(s, t))
  {
    hide NextChild, NextNotes, NextWire, NextHistory;
  }

  lemma PendingCallsAfter(s: State, t: Step)
    requires Enabled(s, t) && Requests(s) && Responses(s) && PendingCalls(s)
    ensures PendingCalls(Next(s, t))
  {
    hide FreshRequests, TrueResponses, NextChild, NextNotes, NextWire, FailAll, Requests, Responses;
    if t.Call? { RunsAreCalls(s); }
  }

  lemma AccountedAfter(s: State, t: Step)
    requires Enabled(s, t) && Inv(s) && Accounted(s)
    ensures Accounted(Next(s, t))
  {
    hide Conserved, Logged, Requests, Responses, ChildRequests, ChildResponses, Promises, NoneForgotten, PendingCalls,
         Enabled, Next;
    NoneForgottenAfter(s, t);
    PendingCallsAfter(s, t);
  }

  lemma RunsAreCalls(s: State)
    requires Requests(s) && Responses(s)
    ensures forall id | id in s.hist.childRuns || id in s.hist.readBack :: id < |s.parent.calls|
  {
    hide FreshRequests, TrueResponses, Unsent;
  }

  lemma EndsAfter(steps: seq<Step>, s: State, t: Step)
    requires Enabled(s, t) && EndsAsStepped(steps, s)
    ensures EndsAsStepped(steps + [t], Next(s, t))
  {
    hide NextNotes, NextWire, NextHistory, FailAll, Rest;
  }

  // ---------------------------------------------------------------------------------------------
  // Where requests and responses are
  // ---------------------------------------------------------------------------------------------

  predicate RequestOn(ch: seq<Msg>, id: Id) {
    exists m | m in ch :: m.Request? && m.id == id
  }

  /** A request the parent sent is on the socket, or the child runs it, ran it, died in it, or dropped it. */
  ghost predicate RequestsAccounted(steps: seq<Step>, s: State) {
    && (forall id: Id | WasSent(steps, id) ::
          RequestOn(s.wire.toChild, id) || id in s.hist.started || id in s.hist.dropped)
    && (forall id | id in s.hist.started ::
          id in s.hist.childRuns || s.child.phase == Serving(id) || s.child.phase.Dead?)
  }

  /** A response is on the socket or was taken off it. */
  ghost predicate ResponsesAccounted(steps: seq<Step>, s: State) {
    forall id: Id, o | Responded(steps, id, o) :: Response(id, o) in s.wire.toParent || id in s.hist.readBack
  }

  /** A call of the child is on the socket, or the parent runs it or ran it. */
  ghost predicate ChildCallsAccounted(steps: seq<Step>, s: State) {
    && (forall id: Id, b | CalledAs(steps, id, b) ::
          Request(id, b) in s.wire.toParent || id in s.hist.parentStarted)
    && (forall id | id in s.hist.parentStarted :: id in s.hist.parentRuns || s.parent.reader == RServing(id))
  }

  lemma RequestOnMore(ch: seq<Msg>, m: Msg, id: Id)
    ensures RequestOn(ch + [m], id) <==> RequestOn(ch, id) || (m.Request? && m.id == id)
  {
    if RequestOn(ch, id) {
      var r :| r in ch && r.Request? && r.id == id;
      assert r in ch + [m];
    }
    if m.Request? && m.id == id { assert m in ch + [m]; }
  }

  lemma RequestOnRest(ch: seq<Msg>, id: Id)
    requires ch != [] && RequestOn(ch, id)
    ensures RequestOn(ch[1..], id) || (ch[0].Request? && ch[0].id == id)
  {
    var r :| r in ch && r.Request? && r.id == id;
    if r != ch[0] { assert r in ch[1..]; }
  }

  lemma RequestsAccountedAfter(steps: seq<Step>, s: State, t: Step)
    requires Enabled(s, t) && RequestsAccounted(steps, s)
    ensures RequestsAccounted(steps + [t], Next(s, t))
  {
    hide NextParent, NextNotes, RequestOn, WasSent;
    var (n, ch) := (Next(s, t), s.wire.toChild);
    forall id: Id | WasSent(steps + [t], id)
      ensures RequestOn(n.wire.toChild, id) || id in n.hist.started || id in n.hist.dropped
    {
      WasSentMore(steps, t, id);
      match t
      case Send(k, b) => RequestOnMore(ch, Request(k, b), id);
      case TellChild(b) => RequestOnMore(ch, Notify(b), id);
      case Serve(o) => RequestOnMore(ch, Response(s.parent.reader.id, o), id);
      case Loop => if RequestOn(ch, id) { RequestOnRest(ch, id); }
      case ChildReads => if RequestOn(ch, id) { RequestOnRest(ch, id); }
      case _ =>
    }
  }

  lemma RespondedAfter(steps: seq<Step>, s: State, t: Step, id: Id, o: Outcome)
    requires Leads(steps, s) && Responded(steps + [t], id, o)
    ensures Responded(steps, id, o) || (t == Respond(o) && s.child.phase == Serving(id))
  {
    hide Leads;
    var all := steps + [t];
    var k: nat :| RespondsAt(all, k, id, o);
    var p :| Leads(all[..k], p) && p.child.phase == Serving(id);
    if k < |steps| {
      assert all[..k] == steps[..k] && all[k] == steps[k];
      assert RespondsAt(steps, k, id, o);
    } else {
      assert all[..k] == steps;
      OneState(steps, p, s);
    }
  }

  lemma ResponsesAccountedAfter(steps: seq<Step>, s: State, t: Step)
    requires Leads(steps, s) && Enabled(s, t) && ResponsesAccounted(steps, s)
    ensures ResponsesAccounted(steps + [t], Next(s, t))
  {
    hide NextParent, NextNotes, NextChild, Leads, Responded;
    var n := Next(s, t);
    forall id: Id, o | Responded(steps + [t], id, o)
      ensures Response(id, o) in n.wire.toParent || id in n.hist.readBack
    {
      RespondedAfter(steps, s, t, id, o);
    }
  }

  lemma CalledAsAfter(steps: seq<Step>, t: Step, id: Id, b: string)
    requires CalledAs(steps + [t], id, b)
    ensures CalledAs(steps, id, b) || (t == ChildCall(b) && id == ChildCalls(steps))
  {
    var all := steps + [t];
    var k: nat :| CallsAs(all, k, id, b);
    if k < |steps| {
      assert all[..k] == steps[..k] && all[k] == steps[k];
      assert CallsAs(steps, k, id, b);
    } else {
      assert all[..k] == steps;
    }
  }

  lemma ChildCallsAccountedAfter(steps: seq<Step>, s: State, t: Step)
    requires Enabled(s, t) && CallsAsMade(steps, s) && ChildCallsAccounted(steps, s)
    ensures ChildCallsAccounted(steps + [t], Next(s, t))
  {
    hide NextNotes, NextChild, CalledAs, FailAll;
    var n := Next(s, t);
    forall id: Id, b | CalledAs(steps + [t], id, b)
      ensures Request(id, b) in n.wire.toParent || id in n.hist.parentStarted
    {
      CalledAsAfter(steps, t, id, b);
    }
  }

  // ---------------------------------------------------------------------------------------------
  // Whole runs
  // ---------------------------------------------------------------------------------------------

  ghost predicate Traced(steps: seq<Step>, s: State) {
    && CallsAsStepped(steps, s) && Accounted(s) && EndsAsStepped(steps, s) && RequestsAccounted(steps, s)
    && ResponsesAccounted(steps, s) && ChildCallsAccounted(steps, s)
  }

  lemma NothingTraced()
    ensures Traced([], INIT)
  {
  }

  lemma {:induction false} RunsAreTraced(steps: seq<Step>, s: State)
    requires Leads(steps, s)
    ensures Traced(steps, s)
    decreases |steps|
  {
    hide CallsAsStepped, Accounted, EndsAsStepped, RequestsAccounted, ResponsesAccounted, ChildCallsAccounted, Enabled,
         Next, Inv, RequestsAsSent, CallsAsMade, NotesAsTold, WireResponded, PromisesEnded, WireServed;
    if steps == [] {
      NothingTraced();
    } else {
      var n := |steps| - 1;
      var (before, t) := (steps[..n], steps[n]);
      var r :| Leads(before, r) && Enabled(r, t) && s == Next(r, t);
      RunsAreTraced(before, r);
      RunsKeepInv(before, r);
      RunsAreAsSaid(before, r);
      CallsAsSteppedAfter(before, r, t);
      AccountedAfter(r, t);
      EndsAfter(before, r, t);
      RequestsAccountedAfter(before, r, t);
      ResponsesAccountedAfter(before, r, t);
      ChildCallsAccountedAfter(before, r, t);
      assert steps == before + [t];
    }
  }

  /**
   In every run there are as many calls as were made, and each is unsent, given up or returned exactly when its steps
   say so; one that is neither given up nor returned waits for a response, or its outcome is there to be returned.
   */
  lemma CallsFollowTheirSteps(steps: seq<Step>, s: State, id: Id)
    requires Leads(steps, s)
    ensures |s.parent.calls| == Made(steps)
    ensures id < Made(steps) ==> CallIs(steps, id, s.parent.calls[id])
    ensures id < Made(steps) && !Abandoned(steps, id) ==>
              id in s.parent.pending || id in s.parent.promise || Held(s.parent, id)
    ensures id in s.parent.pending ==> id < Made(steps) && !Abandoned(steps, id)
  {
    hide Leads, CallIs, EndsAsStepped, RequestsAccounted, ResponsesAccounted, ChildCallsAccounted;
    RunsAreTraced(steps, s);
    if id < |s.parent.calls| { GivenUpIff(steps, id, s.parent.calls[id]); }
  }

  lemma GivenUpIff(steps: seq<Step>, id: Id, c: Call)
    requires CallIs(steps, id, c)
    ensures c.GivenUp? <==> Abandoned(steps, id)
  {
  }

  /** When the reader's loop ends, and when the process object goes, every call that still waits can return. */
  lemma NobodyWaitsForTheDead(steps: seq<Step>, s: State, t: Step, id: Id)
    requires Leads(steps + [t], s) && (t.ReaderDies? || t.Destroy?) && At(s.parent, id, Sent)
    ensures Enabled(s, Return(id))
  {
    hide Leads, CallsAsStepped, EndsAsStepped, RequestsAccounted, ResponsesAccounted, ChildCallsAccounted;
    RunsAreTraced(steps + [t], s);
    NonePending(steps, s, t);
  }

  lemma NonePending(steps: seq<Step>, s: State, t: Step)
    requires Leads(steps + [t], s) && (t.ReaderDies? || t.Destroy?)
    ensures s.parent.pending == {} && s.parent.reader.RDead?
  {
    var all := steps + [t];
    var p :| Leads(all[..|steps|], p) && Enabled(p, t) && s == Next(p, t);
  }

  /** The dead do nothing: behind `ReaderDies` the reader takes no step, behind `ChildDies` the child takes none. */
  lemma TheDeadStop(steps: seq<Step>, s: State, t: Step)
    requires Leads(steps, s) && Enabled(s, t)
    ensures ReaderDies in steps ==> !t.Read? && !t.Settle? && !t.Serve? && !t.ServeUnsent? && !t.ReaderDies?
    ensures ChildDies in steps ==>
              (t.Call? || t.Send? || t.SendFail? || t.Timeout? || t.Return? || t.TellChild? || t.Read? || t.Settle? ||
               t.Serve? || t.ServeUnsent? || t.ReaderDies? || t.Destroy?)
  {
    hide Leads, CallsAsStepped, Accounted, RequestsAccounted, ResponsesAccounted, ChildCallsAccounted;
    RunsAreTraced(steps, s);
  }

  /**
   No message is lost on the way: a request sent is on the socket, started or dropped, a started one is answered
   unless its handler runs or the child died; a response is on the socket or was taken off, and a call whose response
   was taken off waits no longer; a call of the child is on the socket or started, and a started one is answered
   unless the reader serves it.
   */
  lemma MessagesAreAccounted(steps: seq<Step>, s: State)
    requires Leads(steps, s)
    ensures RequestsAccounted(steps, s) && ResponsesAccounted(steps, s) && ChildCallsAccounted(steps, s)
    ensures forall id | id in s.hist.readBack :: id !in s.parent.pending
  {
    hide Leads, CallsAsStepped, EndsAsStepped, RequestsAccounted, ResponsesAccounted, ChildCallsAccounted;
    RunsAreTraced(steps, s);
  }

  // ---------------------------------------------------------------------------------------------
  // What the child's calls got
  // ---------------------------------------------------------------------------------------------

  ghost predicate GetsAt(steps: seq<Step>, k: nat, id: Id, o: Outcome) {
    && k < |steps| && steps[k] == ChildReads
    && exists p :: Leads(steps[..k], p) && Gets(p, id, o)
  }

  predicate Gets(p: State, id: Id, o: Outcome) {
    p.child.wait == WaitingFor(id) && p.wire.toChild != [] && p.wire.toChild[0] == Response(id, o)
  }

  /** The child, waiting for its call `id`, read the response to it. */
  ghost predicate Got(steps: seq<Step>, id: Id, o: Outcome) {
    exists k: nat :: GetsAt(steps, k, id, o)
  }

  lemma GotMore(steps: seq<Step>, s: State, t: Step, id: Id, o: Outcome)
    requires Leads(steps, s)
    ensures Got(steps + [t], id, o) <==> Got(steps, id, o) || (t.ChildReads? && Gets(s, id, o))
  {
    hide Leads, Gets;
    var all := steps + [t];
    assert all[..|steps|] == steps;
    if Got(steps, id, o) {
      var k: nat :| GetsAt(steps, k, id, o);
      assert all[..k] == steps[..k];
      assert GetsAt(all, k, id, o);
    }
    if t.ChildReads? && Gets(s, id, o) { assert GetsAt(all, |steps|, id, o); }
    if Got(all, id, o) {
      var k: nat :| GetsAt(all, k, id, o);
      var p :| Leads(all[..k], p) && Gets(p, id, o);
      if k < |steps| {
        assert all[..k] == steps[..k] && all[k] == steps[k];
        assert GetsAt(steps, k, id, o);
      } else {
        OneState(steps, p, s);
      }
    }
  }

  predicate GotIs(s: State, id: Id, o: Outcome) {
    id in s.hist.childGot && s.hist.childGot[id] == o
  }

  lemma GotAfter(s: State, t: Step, id: Id, o: Outcome)
    requires Enabled(s, t) && Inv(s)
    ensures GotIs(Next(s, t), id, o) <==> GotIs(s, id, o) || (t.ChildReads? && Gets(s, id, o))
  {
    hide Conserved, Logged, FreshRequests, Requests, Responses, Promises, ChildRequests, NextParent, NextNotes;
  }

  /** In every run, a call of the child has the outcome that it read while it waited, and only such calls have one. */
  lemma {:induction false} ChildGotIff(steps: seq<Step>, s: State, id: Id, o: Outcome)
    requires Leads(steps, s)
    ensures GotIs(s, id, o) <==> Got(steps, id, o)
    decreases |steps|
  {
    hide Enabled, Next, Inv, GotIs, Got;
    if steps == [] {
      NothingGot(id, o);
    } else {
      var n := |steps| - 1;
      var r :| Leads(steps[..n], r) && Enabled(r, steps[n]) && s == Next(r, steps[n]);
      assert steps == steps[..n] + [steps[n]];
      RunsKeepInv(steps[..n], r);
      ChildGotIff(steps[..n], r, id, o);
      GotMore(steps[..n], r, steps[n], id, o);
      GotAfter(r, steps[n], id, o);
    }
  }

  lemma NothingGot(id: Id, o: Outcome)
    ensures !GotIs(INIT, id, o) && !Got([], id, o)
  {
  }
}
