/**
 Attaching to browser targets: handlers of target events race over the table of targets and the set of
 targets whose attach is in flight. One step is what a handler does under one lock, or one look at
 the shutdown flag.
 */
module WebkitAttach {

  type Target = string
  type Id = nat

  /** Entry of the target table. */
  datatype Context = Context(session: string, attaching: bool)

  /**
   Where a handler is: before the in-flight set, past it with so many looks at the shutdown flag to go
   (the last is the attach's own), inside the attach, or on the way out.
   */
  datatype Phase =
    | Arrived(looks: nat)
    | Entered(looks: nat)
    | Claiming
    | Waiting
    | Exposing
    | Leaving

  datatype Handler = Handler(target: Target, phase: Phase)

  datatype State = State(shutdown: bool, inFlight: set<Target>, targets: map<Target, Context>, handlers: map<Id,
      Handler>)

  datatype Event =
    | Created(h: Id, target: Target)
    | Changed(h: Id, target: Target)
    | Enter(h: Id)
    | Look(h: Id)
    | Claim(h: Id)
    | Fail(h: Id)
    | Succeed(h: Id, session: string)
    | Expose(h: Id)
    | Leave(h: Id)
    | Destroyed(target: Target)
    | Shutdown

  const INIT := State(false, {}, map[], map[])

  predicate At(s: State, h: Id, p: Phase) {
    h in s.handlers && s.handlers[h].phase == p
  }

  predicate Attached(s: State, t: Target) {
    t in s.targets && s.targets[t].session != ""
  }

  predicate Attaching(s: State, t: Target) {
    t in s.targets && s.targets[t].attaching
  }

  /** Which steps can be taken. */
  predicate Enabled(s: State, e: Event) {
    match e
    case Created(h, _) => h !in s.handlers
    case Changed(h, _) => h !in s.handlers
    case Enter(h) => h in s.handlers && s.handlers[h].phase.Arrived?
    case Look(h) => h in s.handlers && s.handlers[h].phase.Entered?
    case Claim(h) => At(s, h, Claiming)
    case Fail(h) => At(s, h, Waiting)
    case Succeed(h, _) => At(s, h, Waiting)
    case Expose(h) => At(s, h, Exposing)
    case Leave(h) => At(s, h, Leaving)
    case Destroyed(_) => true
    case Shutdown => true
  }

  function Goto(s: State, h: Id, p: Phase): map<Id, Handler>
    requires h in s.handlers
  {
    s.handlers[h := s.handlers[h].(phase := p)]
  }

  /** Seeing the shutdown makes the handler leave; leaving takes the target out of the in-flight set. */
  function AfterLook(shutdown: bool, looks: nat): Phase {
    if shutdown then Leaving else if looks <= 1 then Claiming else Entered(looks - 1)
  }

  function NextHandlers(s: State, e: Event): map<Id, Handler>
    requires Enabled(s, e)
  {
    match e
    case Created(h, t) => if s.shutdown then s.handlers else s.handlers[h := Handler(t, Arrived(2))]
    case Changed(h, t) => if Attached(s, t) then s.handlers else s.handlers[h := Handler(t, Arrived(3))]
    case Enter(h) =>
      if s.handlers[h].target in s.inFlight then s.handlers - {h} else Goto(s, h, Entered(s.handlers[h].phase.looks))
    case Look(h) => Goto(s, h, AfterLook(s.shutdown, s.handlers[h].phase.looks))
    case Claim(h) =>
      var t := s.handlers[h].target;
      Goto(s, h, if Attaching(s, t) || Attached(s, t) then Leaving else Waiting)
    case Fail(h) => Goto(s, h, Leaving)
    case Succeed(h, _) => Goto(s, h, Exposing)
    case Expose(h) => Goto(s, h, Leaving)
    case Leave(h) => s.handlers - {h}
    case Destroyed(_) => s.handlers
    case Shutdown => s.handlers
  }

  function NextInFlight(s: State, e: Event): set<Target>
    requires Enabled(s, e)
  {
    match e
    case Enter(h) => s.inFlight + {s.handlers[h].target}
    case Leave(h) => s.inFlight - {s.handlers[h].target}
    case _ => s.inFlight
  }

  function NextTargets(s: State, e: Event): map<Target, Context>
    requires Enabled(s, e)
  {
    match e
    case Claim(h) =>
      var t := s.handlers[h].target;
      if t !in s.targets then s.targets[t := Context("", true)]
      else if Attaching(s, t) || Attached(s, t) then s.targets
      else s.targets[t := s.targets[t].(attaching := true)]
    case Fail(h) =>
      var t := s.handlers[h].target;
      if t in s.targets then s.targets[t := s.targets[t].(attaching := false)] else s.targets
    case Succeed(h, session) => s.targets[s.handlers[h].target := Context(session, false)]
    case Destroyed(t) => s.targets - {t}
    case _ => s.targets
  }

  function Next(s: State, e: Event): State
    requires Enabled(s, e)
  {
    State(s.shutdown || e.Shutdown?, NextInFlight(s, e), NextTargets(s, e), NextHandlers(s, e))
  }

  // ---------------------------------------------------------------------------------------------
  // The invariant
  // ---------------------------------------------------------------------------------------------

  predicate Inside(s: State, h: Id) {
    h in s.handlers && !s.handlers[h].phase.Arrived?
  }

  predicate InsideFor(s: State, h: Id, t: Target) {
    Inside(s, h) && s.handlers[h].target == t
  }

  ghost predicate Served(s: State, t: Target) {
    exists h :: InsideFor(s, h, t)
  }

  /** A target is in the in-flight set exactly while the handler that put it there runs. */
  ghost predicate InFlightExactly(s: State) {
    forall t :: t in s.inFlight <==> Served(s, t)
  }

  ghost predicate OneInside(s: State) {
    forall h, k | Inside(s, h) && Inside(s, k) && s.handlers[h].target == s.handlers[k].target :: h == k
  }

  ghost predicate WaitedFor(s: State, t: Target) {
    exists h :: At(s, h, Waiting) && s.handlers[h].target == t
  }

  /** A target is marked as attaching only while some handler waits for the answer. */
  ghost predicate AttachingIsWaited(s: State) {
    forall t | Attaching(s, t) :: WaitedFor(s, t)
  }

  /** Nobody waits to attach a target that has a session. */
  ghost predicate WaitingIsFresh(s: State) {
    forall h | At(s, h, Waiting) :: !Attached(s, s.handlers[h].target)
  }

  ghost predicate Inv(s: State) {
    InFlightExactly(s) && OneInside(s) && AttachingIsWaited(s) && WaitingIsFresh(s)
  }

  lemma InsideAfter(s: State, e: Event, h: Id)
    requires Enabled(s, e)
    ensures var n := Next(s, e);
            && (e.Enter? && e.h == h ==> (Inside(n, h) <==> s.handlers[h].target !in s.inFlight))
            && (e.Leave? && e.h == h ==> !Inside(n, h))
            && (!(e.Enter? && e.h == h) && !(e.Leave? && e.h == h) ==> (Inside(n, h) <==> Inside(s, h)))
            && (Inside(n, h) ==> h in s.handlers && n.handlers[h].target == s.handlers[h].target)
  {
  }

  lemma KeepsOneInside(s: State, e: Event)
    requires Enabled(s, e) && InFlightExactly(s) && OneInside(s)
    ensures OneInside(Next(s, e))
  {
    hide Enabled, Next, NextHandlers, NextTargets, NextInFlight;
    var n := Next(s, e);
    forall h, k | Inside(n, h) && Inside(n, k) && n.handlers[h].target == n.handlers[k].target ensures h == k {
      InsideAfter(s, e, h);
      InsideAfter(s, e, k);
      if Inside(s, h) { assert InsideFor(s, h, s.handlers[h].target); }
      if Inside(s, k) { assert InsideFor(s, k, s.handlers[k].target); }
    }
  }

  lemma KeepsInFlightExactly(s: State, e: Event)
    requires Enabled(s, e) && InFlightExactly(s) && OneInside(s)
    ensures InFlightExactly(Next(s, e))
  {
    hide NextHandlers, NextTargets;
    var n := Next(s, e);
    forall t ensures t in n.inFlight <==> Served(n, t) {
      if Served(n, t) {
        var h :| InsideFor(n, h, t);
        InsideAfter(s, e, h);
        if Inside(s, h) { assert InsideFor(s, h, t); }
      }
      if t in n.inFlight {
        InFlightIsServed(s, e, t);
      }
    }
  }

  lemma InFlightIsServed(s: State, e: Event, t: Target)
    requires Enabled(s, e) && InFlightExactly(s) && t in Next(s, e).inFlight
    ensures Served(Next(s, e), t)
  {
    hide NextHandlers, NextTargets;
    var n := Next(s, e);
    if t in s.inFlight {
      var h :| InsideFor(s, h, t);
      InsideAfter(s, e, h);
      assert InsideFor(n, h, t);
    } else {
      InsideAfter(s, e, e.h);
      assert InsideFor(n, e.h, t);
    }
  }

  lemma WaitingIsInside(s: State, h: Id)
    requires OneInside(s) && At(s, h, Waiting)
    ensures forall k | Inside(s, k) && s.handlers[k].target == s.handlers[h].target :: k == h
  {
  }

  lemma KeepsAttachingIsWaited(s: State, e: Event)
    requires Enabled(s, e) && OneInside(s) && AttachingIsWaited(s)
    ensures AttachingIsWaited(Next(s, e))
  {
    hide OneInside;
    var n := Next(s, e);
    forall t | Attaching(n, t) ensures WaitedFor(n, t) {
      if e.Claim? && s.handlers[e.h].target == t && At(n, e.h, Waiting) {
      } else {
        assert Attaching(s, t);
        var h :| At(s, h, Waiting) && s.handlers[h].target == t;
        WaitingIsInside(s, h);
        assert At(n, h, Waiting) && n.handlers[h].target == t;
      }
    }
  }

  lemma KeepsWaitingIsFresh(s: State, e: Event)
    requires Enabled(s, e) && OneInside(s) && WaitingIsFresh(s)
    ensures WaitingIsFresh(Next(s, e))
  {
    hide OneInside;
    var n := Next(s, e);
    forall h | At(n, h, Waiting) ensures !Attached(n, n.handlers[h].target) {
      if At(s, h, Waiting) {
        WaitingIsInside(s, h);
      }
    }
  }

  lemma StepKeepsInv(s: State, e: Event)
    requires Enabled(s, e) && Inv(s)
    ensures Inv(Next(s, e))
  {
    hide Enabled, Next, InFlightExactly, OneInside, AttachingIsWaited, WaitingIsFresh;
    KeepsOneInside(s, e);
    KeepsInFlightExactly(s, e);
    KeepsAttachingIsWaited(s, e);
    KeepsWaitingIsFresh(s, e);
  }

  // ---------------------------------------------------------------------------------------------
  // Runs
  // ---------------------------------------------------------------------------------------------

  /** The events, taken in order from the start, are all possible and end in `s`. */
  ghost predicate Leads(events: seq<Event>, s: State)
    decreases |events|
  {
    if events == [] then s == INIT
    else
      var n := |events| - 1;
      exists p :: Leads(events[..n], p) && LastStep(p, events[n], s)
  }

  predicate LastStep(p: State, e: Event, s: State) {
    Enabled(p, e) && s == Next(p, e)
  }

  lemma {:induction false} RunsKeepInv(events: seq<Event>, s: State)
    requires Leads(events, s)
    ensures Inv(s)
    decreases |events|
  {
    hide Enabled, Next;
    if events != [] {
      var n := |events| - 1;
      var p :| Leads(events[..n], p) && LastStep(p, events[n], s);
      RunsKeepInv(events[..n], p);
      StepKeepsInv(p, events[n]);
    }
  }

  /**
   In every interleaving: at most one attach per target waits for an answer, the in-flight set holds exactly the
   targets whose inserting handler runs, and a target nobody waits for is not marked as attaching.
   */
  lemma RunsAreSafe(events: seq<Event>, s: State)
    requires Leads(events, s)
    ensures forall h, k | At(s, h, Waiting) && At(s, k, Waiting) && s.handlers[h].target == s.handlers[k].target ::
            h == k
    ensures forall t :: t in s.inFlight <==> Served(s, t)
    ensures forall t | !WaitedFor(s, t) :: !Attaching(s, t)
  {
    RunsKeepInv(events, s);
  }

  /** A handler that reaches the target table never finds another attach under way there. */
  lemma ClaimNeverFindsAttaching(events: seq<Event>, s: State, h: Id)
    requires Leads(events, s) && At(s, h, Claiming)
    ensures !Attaching(s, s.handlers[h].target)
  {
    RunsKeepInv(events, s);
    var t := s.handlers[h].target;
    if Attaching(s, t) {
      var k :| At(s, k, Waiting) && s.handlers[k].target == t;
      assert Inside(s, h) && Inside(s, k);
    }
  }

  predicate WaitsFor(s: State, h: Id, t: Target) {
    At(s, h, Waiting) && s.handlers[h].target == t
  }

  /** Handler `h` is on its way to attach `t`, and nothing stands in its way. */
  predicate Ready(s: State, t: Target, h: Id, p: Phase) {
    !s.shutdown && !Attached(s, t) && !Attaching(s, t) && h in s.handlers && s.handlers[h] == Handler(t, p)
  }

  lemma ChangedArrives(s: State, t: Target, h: Id)
    requires !s.shutdown && !Attached(s, t) && !Attaching(s, t) && t !in s.inFlight && h !in s.handlers
    ensures var n := Next(s, Changed(h, t)); Ready(n, t, h, Arrived(3)) && t !in n.inFlight
  {
  }

  lemma ArrivedEnters(s: State, t: Target, h: Id, looks: nat)
    requires Ready(s, t, h, Arrived(looks)) && t !in s.inFlight
    ensures Ready(Next(s, Enter(h)), t, h, Entered(looks))
  {
  }

  lemma EnteredLooks(s: State, t: Target, h: Id, looks: nat)
    requires Ready(s, t, h, Entered(looks))
    ensures Ready(Next(s, Look(h)), t, h, AfterLook(false, looks))
  {
  }

  lemma ClaimingWaits(s: State, t: Target, h: Id)
    requires Ready(s, t, h, Claiming)
    ensures WaitsFor(Next(s, Claim(h)), h, t) && Attaching(Next(s, Claim(h)), t)
  {
  }

  /** Before the shutdown, a target that is neither attached nor served can always be tried again by a changed event. */
  lemma CanRetry(events: seq<Event>, s: State, t: Target, h: Id)
    requires Leads(events, s) && !s.shutdown && !Attached(s, t) && !Served(s, t) && h !in s.handlers
    ensures exists n :: Leads(events + [Changed(h, t), Enter(h), Look(h), Look(h), Look(h), Claim(h)], n) &&
                        WaitsFor(n, h, t) && Attaching(n, t)
  {
    hide Next, Leads, Inv, Attached, Attaching;
    RunsKeepInv(events, s);
    NotServedNotAttaching(s, t);
    var a, e1 := Next(s, Changed(h, t)), events + [Changed(h, t)];
    ChangedArrives(s, t, h);
    Extend(events, s, Changed(h, t));
    var b, e2 := Next(a, Enter(h)), e1 + [Enter(h)];
    ArrivedEnters(a, t, h, 3);
    Extend(e1, a, Enter(h));
    var c, e3 := Next(b, Look(h)), e2 + [Look(h)];
    EnteredLooks(b, t, h, 3);
    Extend(e2, b, Look(h));
    var d, e4 := Next(c, Look(h)), e3 + [Look(h)];
    EnteredLooks(c, t, h, 2);
    Extend(e3, c, Look(h));
    var f, e5 := Next(d, Look(h)), e4 + [Look(h)];
    EnteredLooks(d, t, h, 1);
    Extend(e4, d, Look(h));
    ClaimingWaits(f, t, h);
    Extend(e5, f, Claim(h));
    assert e5 + [Claim(h)] == events + [Changed(h, t), Enter(h), Look(h), Look(h), Look(h), Claim(h)];
  }

  lemma NotServedNotAttaching(s: State, t: Target)
    requires Inv(s) && !Served(s, t)
    ensures t !in s.inFlight && !Attaching(s, t)
  {
    if Attaching(s, t) {
      var k :| At(s, k, Waiting) && s.handlers[k].target == t;
      assert InsideFor(s, k, t);
    }
  }

  lemma Extend(events: seq<Event>, s: State, e: Event)
    requires Leads(events, s) && Enabled(s, e)
    ensures Leads(events + [e], Next(s, e))
  {
    hide Enabled, Next;
    assert (events + [e])[..|events|] == events;
    assert LastStep(s, e, Next(s, e));
  }

  // ---------------------------------------------------------------------------------------------
  // Sessions opened and targets destroyed
  // ---------------------------------------------------------------------------------------------

  /** How many of the events gave `t` a session in this run: the handler's target is that of its arrival. */
  ghost predicate Opens(p: State, e: Event, t: Target) {
    e.Succeed? && e.session != "" && e.h in p.handlers && p.handlers[e.h].target == t
  }

  /** A run with, for one target, the number of sessions opened and of destructions seen. */
  ghost predicate LeadsCounting(events: seq<Event>, s: State, t: Target, sessions: nat, destroyed: nat)
    decreases |events|
  {
    if events == [] then s == INIT && sessions == 0 && destroyed == 0
    else
      var n := |events| - 1;
      var e := events[n];
      exists p, o: nat, d: nat ::
        && LeadsCounting(events[..n], p, t, o, d) && LastStep(p, e, s)
        && sessions == o + (if Opens(p, e, t) then 1 else 0)
        && destroyed == d + (if e == Destroyed(t) then 1 else 0)
  }

  lemma {:induction false} CountingLeads(events: seq<Event>, s: State, t: Target, sessions: nat, destroyed: nat)
    requires LeadsCounting(events, s, t, sessions, destroyed)
    ensures Leads(events, s)
    decreases |events|
  {
    hide Enabled, Next;
    if events != [] {
      var n := |events| - 1;
      var e := events[n];
      var p, o: nat, d: nat :|
        && LeadsCounting(events[..n], p, t, o, d) && LastStep(p, e, s)
        && sessions == o + (if Opens(p, e, t) then 1 else 0)
        && destroyed == d + (if e == Destroyed(t) then 1 else 0);
      CountingLeads(events[..n], p, t, o, d);
    }
  }

  /** A target is given a second session only after it was destroyed in between. */
  lemma {:induction false} SessionsAreBounded(events: seq<Event>, s: State, t: Target, sessions: nat, destroyed: nat)
    requires LeadsCounting(events, s, t, sessions, destroyed)
    ensures sessions <= destroyed + if Attached(s, t) then 1 else 0
    decreases |events|
  {
    hide Leads, OneInside, InFlightExactly, AttachingIsWaited;
    if events != [] {
      var n := |events| - 1;
      var e := events[n];
      var p, o: nat, d: nat :|
        && LeadsCounting(events[..n], p, t, o, d) && LastStep(p, e, s)
        && sessions == o + (if Opens(p, e, t) then 1 else 0)
        && destroyed == d + (if e == Destroyed(t) then 1 else 0);
      SessionsAreBounded(events[..n], p, t, o, d);
      CountingLeads(events[..n], p, t, o, d);
      RunsKeepInv(events[..n], p);
      AttachedAfter(p, e, t);
    }
  }

  lemma AttachedAfter(p: State, e: Event, t: Target)
    requires Enabled(p, e) && WaitingIsFresh(p)
    ensures Opens(p, e, t) ==> !Attached(p, t) && Attached(Next(p, e), t)
    ensures Attached(p, t) && e != Destroyed(t) ==> Attached(Next(p, e), t)
  {
  }

  // ---------------------------------------------------------------------------------------------
  // Destroyed targets that return
  // ---------------------------------------------------------------------------------------------

  /** The last arrival of handler `h` was for `t`. */
  predicate ArrivedFor(events: seq<Event>, h: Id, t: Target)
    decreases |events|
  {
    if events == [] then false
    else
      var n := |events| - 1;
      var e := events[n];
      if (e.Created? || e.Changed?) && e.h == h then e.target == t else ArrivedFor(events[..n], h, t)
  }

  lemma {:induction false} HandlersArrived(events: seq<Event>, s: State, h: Id)
    requires Leads(events, s) && h in s.handlers
    ensures forall t :: ArrivedFor(events, h, t) <==> s.handlers[h].target == t
    decreases |events|
  {
    hide NextInFlight, NextTargets;
    if events != [] {
      var n := |events| - 1;
      var p :| Leads(events[..n], p) && LastStep(p, events[n], s);
      if h in p.handlers { HandlersArrived(events[..n], p, h); }
    }
  }

  /** The event, after those before it, writes an entry for `t`: a handler that arrived for it claims it or succeeds. */
  predicate Puts(events: seq<Event>, e: Event, t: Target) {
    (e.Claim? || e.Succeed?) && ArrivedFor(events, e.h, t)
  }

  lemma PutsAfter(events: seq<Event>, p: State, e: Event, t: Target)
    requires Leads(events, p) && Enabled(p, e)
    ensures t in Next(p, e).targets <==> e != Destroyed(t) && (t in p.targets || Puts(events, e, t))
  {
    hide NextHandlers, NextInFlight, ArrivedFor, Leads;
    if e.Claim? || e.Succeed? { HandlersArrived(events, p, e.h); }
  }

  /** A run that goes on from `p`. */
  ghost predicate Follows(p: State, more: seq<Event>, s: State)
    decreases |more|
  {
    if more == [] then s == p
    else
      var n := |more| - 1;
      exists q :: Follows(p, more[..n], q) && LastStep(q, more[n], s)
  }

  lemma {:induction false} FollowsLeads(before: seq<Event>, p: State, more: seq<Event>, s: State)
    requires Leads(before, p) && Follows(p, more, s)
    ensures Leads(before + more, s)
    decreases |more|
  {
    hide Enabled, Next;
    if more == [] {
      assert before + more == before;
    } else {
      var n := |more| - 1;
      var q :| Follows(p, more[..n], q) && LastStep(q, more[n], s);
      FollowsLeads(before, p, more[..n], q);
      Extend(before + more[..n], q, more[n]);
      assert before + more[..n] + [more[n]] == before + more;
    }
  }

  ghost predicate SomePuts(before: seq<Event>, more: seq<Event>, t: Target) {
    exists i | 0 <= i < |more| :: Puts(before + more[..i], more[i], t)
  }

  lemma SomePutsLast(before: seq<Event>, more: seq<Event>, t: Target)
    requires more != []
    ensures var n := |more| - 1;
            SomePuts(before, more, t) <==> SomePuts(before, more[..n], t) || Puts(before + more[..n], more[n], t)
  {
    hide Puts;
    var n := |more| - 1;
    assert forall i | 0 <= i <= n :: more[..n][..i] == more[..i];
    if i :| 0 <= i < n && Puts(before + more[..n][..i], more[..n][i], t) {
      assert Puts(before + more[..i], more[i], t);
    }
    if i :| 0 <= i < |more| && Puts(before + more[..i], more[i], t) {
      if i < n { assert Puts(before + more[..n][..i], more[..n][i], t); }
    }
  }

  /**
   A target that is not in the table, say because it was destroyed, is there later exactly when meanwhile a
   handler that had arrived for it claimed it or was answered.
   */
  lemma {:induction false} ReturnsIff(before: seq<Event>, p: State, t: Target, more: seq<Event>, s: State)
    requires Leads(before, p) && t !in p.targets && Follows(p, more, s) && Destroyed(t) !in more
    ensures t in s.targets <==> SomePuts(before, more, t)
    decreases |more|
  {
    hide Enabled, Next, Puts, Leads;
    if more != [] {
      var n := |more| - 1;
      var q :| Follows(p, more[..n], q) && LastStep(q, more[n], s);
      ReturnsIff(before, p, t, more[..n], q);
      FollowsLeads(before, p, more[..n], q);
      PutsAfter(before + more[..n], q, more[n], t);
      SomePutsLast(before, more, t);
    }
  }

  /** Some handler claims `t` along the way. */
  ghost predicate Claimed(before: seq<Event>, more: seq<Event>, t: Target) {
    exists i | 0 <= i < |more| :: more[i].Claim? && ArrivedFor(before + more[..i], more[i].h, t)
  }

  lemma ClaimedLast(before: seq<Event>, more: seq<Event>, t: Target, n: nat)
    requires n < |more| && !Claimed(before, more, t)
    ensures !Claimed(before, more[..n], t) && !(more[n].Claim? && ArrivedFor(before + more[..n], more[n].h, t))
  {
    hide ArrivedFor;
    assert forall i | 0 <= i <= n :: more[..n][..i] == more[..i];
  }

  lemma WaitsAfter(s: State, e: Event, h: Id, t: Target)
    requires Enabled(s, e) && WaitsFor(Next(s, e), h, t) && !WaitsFor(s, h, t)
    ensures e == Claim(h) && h in s.handlers && s.handlers[h].target == t
  {
    hide NextInFlight, NextTargets;
  }

  /** Who waits for `t` without a claim in between waited for it before. */
  lemma {:induction false} WaitersAreOld(before: seq<Event>, p: State, t: Target, more: seq<Event>, s: State)
    requires Leads(before, p) && Follows(p, more, s) && !Claimed(before, more, t) && !WaitedFor(p, t)
    ensures !WaitedFor(s, t)
    decreases |more|
  {
    hide Leads, Claimed, ArrivedFor, Enabled, Next;
    if more != [] {
      var n := |more| - 1;
      var q :| Follows(p, more[..n], q) && LastStep(q, more[n], s);
      ClaimedLast(before, more, t, n);
      WaitersAreOld(before, p, t, more[..n], q);
      FollowsLeads(before, p, more[..n], q);
      if h :| At(s, h, Waiting) && s.handlers[h].target == t {
        assert !WaitsFor(q, h, t) && WaitsFor(s, h, t);
        WaitsAfter(q, more[n], h, t);
        HandlersArrived(before + more[..n], q, h);
      }
    }
  }

  /** A target destroyed while nobody waits for its answer stays out of the table until a handler claims it again. */
  lemma {:induction false} StaysOut(before: seq<Event>, p: State, t: Target, more: seq<Event>, s: State)
    requires Leads(before, p) && t !in p.targets && !WaitedFor(p, t) && Follows(p, more, s)
    requires Destroyed(t) !in more && !Claimed(before, more, t)
    ensures t !in s.targets
    decreases |more|
  {
    hide Leads, Claimed, ArrivedFor, NextInFlight, NextHandlers;
    if more != [] {
      var n := |more| - 1;
      var q :| Follows(p, more[..n], q) && LastStep(q, more[n], s);
      ClaimedLast(before, more, t, n);
      StaysOut(before, p, t, more[..n], q);
      WaitersAreOld(before, p, t, more[..n], q);
      FollowsLeads(before, p, more[..n], q);
      if more[n].Claim? { HandlersArrived(before + more[..n], q, more[n].h); }
    }
  }

  /**
   A run in which a destroyed target returns: its attach was under way, and the answer comes after the
   destruction.
   */
  lemma DestroyedReturns(t: Target, session: string)
    requires session != ""
    ensures exists events, p, s ::
              Leads(events + [Destroyed(t)], p) && t !in p.targets &&
              Leads(events + [Destroyed(t)] + [Succeed(0, session)], s) && Attached(s, t)
  {
    hide Leads, NextHandlers, NextInFlight, Attaching;
    LeadsInit();
    CanRetry([], INIT, t, 0);
    var events := [] + [Changed(0, t), Enter(0), Look(0), Look(0), Look(0), Claim(0)];
    var n :| Leads(events, n) && WaitsFor(n, 0, t) && Attaching(n, t);
    Extend(events, n, Destroyed(t));
    var p := Next(n, Destroyed(t));
    DestroyedWaits(n, 0, t);
    Extend(events + [Destroyed(t)], p, Succeed(0, session));
    assert Attached(Next(p, Succeed(0, session)), t);
  }

  lemma LeadsInit()
    ensures Leads([], INIT)
  {
  }

  lemma DestroyedWaits(s: State, h: Id, t: Target)
    requires WaitsFor(s, h, t)
    ensures WaitsFor(Next(s, Destroyed(t)), h, t)
  {
  }
}
