/** Which session a target has, told by the events alone, and what shutdown stops. */
module WebkitSessions {
  import opened WebkitAttach

  // ---------------------------------------------------------------------------------------------
  // Sessions
  // ---------------------------------------------------------------------------------------------

  /** The session of the last answer to a handler that had arrived for `t`, none since `t` was destroyed. */
  function SessionOf(events: seq<Event>, t: Target): string
    decreases |events|
  {
    if events == [] then ""
    else
      var n := |events| - 1;
      var e := events[n];
      if e == Destroyed(t) then ""
      else if e.Succeed? && ArrivedFor(events[..n], e.h, t) then e.session
      else SessionOf(events[..n], t)
  }

  function SessionIn(s: State, t: Target): string {
    if t in s.targets then s.targets[t].session else ""
  }

  lemma SessionAfter(events: seq<Event>, p: State, e: Event, t: Target)
    requires Leads(events, p) && Enabled(p, e)
    ensures SessionIn(Next(p, e), t) == if e == Destroyed(t) then ""
                                        else if e.Succeed? && ArrivedFor(events, e.h, t) then e.session
                                        else SessionIn(p, t)
  {
    hide NextHandlers, NextInFlight, ArrivedFor, Leads;
    if e.Claim? || e.Succeed? || e.Fail? { HandlersArrived(events, p, e.h); }
  }

  /** In every run a target has exactly the session that was last given to it and not destroyed since. */
  lemma {:induction false} SessionsFollowEvents(events: seq<Event>, s: State, t: Target)
    requires Leads(events, s)
    ensures SessionIn(s, t) == SessionOf(events, t)
    decreases |events|
  {
    hide Enabled, Next, ArrivedFor, SessionIn;
    if events == [] {
      NoSession(t);
    } else {
      var n := |events| - 1;
      var p :| Leads(events[..n], p) && LastStep(p, events[n], s);
      SessionsFollowEvents(events[..n], p, t);
      SessionAfter(events[..n], p, events[n], t);
    }
  }

  lemma NoSession(t: Target)
    ensures SessionIn(INIT, t) == ""
  {
  }

  // ---------------------------------------------------------------------------------------------
  // Shutdown
  // ---------------------------------------------------------------------------------------------

  /** The handler has passed its last look at the flag and may still send its attach. */
  predicate PastLooks(s: State, h: Id) {
    At(s, h, Claiming) || At(s, h, Waiting)
  }

  lemma PastLooksAfter(s: State, e: Event, h: Id)
    requires Enabled(s, e) && s.shutdown
    ensures Next(s, e).shutdown && (PastLooks(Next(s, e), h) ==> PastLooks(s, h))
    ensures At(Next(s, e), h, Claiming) ==> At(s, h, Claiming)
  {
    hide NextInFlight, NextTargets;
  }

  lemma {:induction false} FlagIsShutdown(events: seq<Event>, s: State)
    requires Leads(events, s)
    ensures s.shutdown <==> Shutdown in events
    decreases |events|
  {
    hide Enabled, NextHandlers, NextInFlight, NextTargets;
    if events != [] {
      var n := |events| - 1;
      var p :| Leads(events[..n], p) && LastStep(p, events[n], s);
      FlagIsShutdown(events[..n], p);
      assert events == events[..n] + [events[n]];
    }
  }

  /**
   After shutdown no handler starts an attach except those that had already passed their last look at the flag when it
   was set: whoever claims a target later was about to claim it then.
   */
  lemma {:induction false} NoNewAttach(before: seq<Event>, p: State, more: seq<Event>, s: State, h: Id)
    requires Leads(before, p) && Shutdown in before && Follows(p, more, s)
    ensures PastLooks(s, h) ==> PastLooks(p, h)
    ensures Enabled(s, Claim(h)) ==> At(p, h, Claiming)
    ensures s.shutdown
    decreases |more|
  {
    hide Leads, Enabled, Next, At;
    FlagIsShutdown(before, p);
    if more == [] {
      ClaimIsLast(p, h);
    } else {
      var n := |more| - 1;
      var q :| Follows(p, more[..n], q) && LastStep(q, more[n], s);
      NoNewAttach(before, p, more[..n], q, h);
      PastLooksAfter(q, more[n], h);
      ClaimIsLast(q, h);
      ClaimIsLast(s, h);
    }
  }

  lemma ClaimIsLast(s: State, h: Id)
    ensures Enabled(s, Claim(h)) <==> At(s, h, Claiming)
  {
  }

  /** A target created after shutdown gets no handler. */
  lemma CreatedAfterShutdown(events: seq<Event>, s: State, h: Id, t: Target)
    requires Leads(events, s) && Shutdown in events && Enabled(s, Created(h, t))
    ensures Next(s, Created(h, t)) == s
  {
    hide Leads;
    FlagIsShutdown(events, s);
  }

  lemma CreatedArrives(s: State, t: Target, h: Id)
    requires !s.shutdown && !Attached(s, t) && !Attaching(s, t) && t !in s.inFlight && h !in s.handlers
    ensures var n := Next(s, Created(h, t)); Ready(n, t, h, Arrived(2)) && t !in n.inFlight
  {
  }

  /** Before shutdown, a created target that is neither attached nor served can be attached after two looks. */
  lemma CreatedAttaches(events: seq<Event>, s: State, t: Target, h: Id)
    requires Leads(events, s) && !s.shutdown && !Attached(s, t) && !Served(s, t) && h !in s.handlers
    ensures exists n :: Leads(events + [Created(h, t), Enter(h), Look(h), Look(h), Claim(h)], n) &&
                        WaitsFor(n, h, t) && Attaching(n, t)
  {
    hide Next, Leads, Inv, Attached, Attaching;
    RunsKeepInv(events, s);
    NotServedNotAttaching(s, t);
    var (a, e1) := (Next(s, Created(h, t)), events + [Created(h, t)]);
    CreatedArrives(s, t, h);
    Extend(events, s, Created(h, t));
    var (b, e2) := (Next(a, Enter(h)), e1 + [Enter(h)]);
    ArrivedEnters(a, t, h, 2);
    Extend(e1, a, Enter(h));
    var (c, e3) := (Next(b, Look(h)), e2 + [Look(h)]);
    EnteredLooks(b, t, h, 2);
    Extend(e2, b, Look(h));
    var (d, e4) := (Next(c, Look(h)), e3 + [Look(h)]);
    EnteredLooks(c, t, h, 1);
    Extend(e3, c, Look(h));
    ClaimingWaits(d, t, h);
    Extend(e4, d, Claim(h));
    assert e4 + [Claim(h)] == events + [Created(h, t), Enter(h), Look(h), Look(h), Claim(h)];
  }

  // ---------------------------------------------------------------------------------------------
  // Who waits
  // ---------------------------------------------------------------------------------------------

  /** A target in the table that some handler waits for is marked as attaching. */
  ghost predicate WaitedIsAttaching(s: State) {
    forall h: Id | At(s, h, Waiting) && s.handlers[h].target in s.targets :: Attaching(s, s.handlers[h].target)
  }

  lemma KeepsWaitedIsAttaching(s: State, e: Event)
    requires Enabled(s, e) && Inv(s) && WaitedIsAttaching(s)
    ensures WaitedIsAttaching(Next(s, e))
  {
    hide InFlightExactly, AttachingIsWaited, NextInFlight;
    var n := Next(s, e);
    forall h: Id | At(n, h, Waiting) && n.handlers[h].target in n.targets
      ensures Attaching(n, n.handlers[h].target)
    {
      if At(s, h, Waiting) {
        WaitingIsInside(s, h);
        assert n.handlers[h].target == s.handlers[h].target;
      }
    }
  }

  /** In every run a target is marked as attaching exactly while it is in the table and some handler waits for it. */
  lemma {:induction false} AttachingIff(events: seq<Event>, s: State, t: Target)
    requires Leads(events, s)
    ensures Attaching(s, t) <==> t in s.targets && WaitedFor(s, t)
    ensures WaitedIsAttaching(s)
    decreases |events|
  {
    hide Enabled, Next;
    RunsKeepInv(events, s);
    if events != [] {
      var n := |events| - 1;
      var p :| Leads(events[..n], p) && LastStep(p, events[n], s);
      AttachingIff(events[..n], p, t);
      RunsKeepInv(events[..n], p);
      KeepsWaitedIsAttaching(p, events[n]);
    }
  }
}
