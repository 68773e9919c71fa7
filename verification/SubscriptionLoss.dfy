/** When a plugin's event has lost its listener, told by the events of the run alone. */
module SubscriptionLoss {
  import opened EventIndex
  import opened Options
  import opened Subscriptions

  /** The plugins subscribed to `e` after these events. */
  function Members(events: seq<Event>, e: string): set<string>
    decreases |events|
  {
    if events == [] then {}
    else
      var n := |events| - 1;
      match events[n]
      case Subscribe(p, f) => Members(events[..n], e) + if f == e && p != "" && f != "" then {p} else {}
      case Unsubscribe(p, f) => Members(events[..n], e) - if f == e && p != "" && f != "" then {p} else {}
      case _ => Members(events[..n], e)
  }

  /** `x` brings the first subscriber of `e`. */
  predicate Starts(before: seq<Event>, x: Event, e: string) {
    x.Subscribe? && x.event == e && x.plugin != "" && e != "" && Members(before, e) == {}
  }

  /** `x` takes the last one. */
  predicate Stops(before: seq<Event>, x: Event, e: string) {
    && x.Unsubscribe? && x.event == e && x.plugin != "" && e != ""
    && Members(before, e) != {} && Members(before, e) <= {x.plugin}
  }

  /** The event whose registration has passed the shutdown flag and is not in the index yet. */
  function Opened(events: seq<Event>): Option<string>
    decreases |events|
  {
    if events == [] then None
    else
      var n := |events| - 1;
      var x := events[n];
      if x.Subscribe? && Starts(events[..n], x, x.event) && Flag !in events[..n] then Some(x.event)
      else if x.Register? then None
      else Opened(events[..n])
  }

  /** `x` gives the binder its token for `e`: a registration, or a first subscription after the flag. */
  predicate Gives(before: seq<Event>, x: Event, e: string) {
    (x.Register? && Opened(before) == Some(e)) || (Starts(before, x, e) && Flag in before)
  }

  /** `x` empties the index, or its part for `e`. */
  predicate Drops(x: Event, e: string) {
    x == OffAll(e) || x.Clear?
  }

  /** The token for `e` is the one given at `i`. */
  ghost predicate HoldsFrom(events: seq<Event>, i: nat, e: string) {
    && i < |events| && Gives(events[..i], events[i], e)
    && forall k | i < k < |events| :: !Stops(events[..k], events[k], e)
  }

  ghost predicate DroppedSince(events: seq<Event>, i: nat, e: string) {
    exists j | i < j < |events| :: Drops(events[j], e)
  }

  ghost predicate LosesFrom(events: seq<Event>, i: nat, e: string) {
    HoldsFrom(events, i, e) && (events[i].Subscribe? || DroppedSince(events, i, e))
  }

  ghost predicate HasToken(events: seq<Event>, e: string) {
    exists i: nat :: HoldsFrom(events, i, e)
  }

  /**
   The listener for `e` is lost: its first subscription came after the shutdown flag, or since its registration
   somebody removed all listeners of `e` or shutdown emptied the index.
   */
  ghost predicate Lost(events: seq<Event>, e: string) {
    exists i: nat :: LosesFrom(events, i, e)
  }

  // ---------------------------------------------------------------------------------------------
  // One event more
  // ---------------------------------------------------------------------------------------------

  lemma HoldsFromMore(events: seq<Event>, x: Event, i: nat, e: string)
    requires i < |events|
    ensures HoldsFrom(events + [x], i, e) <==> HoldsFrom(events, i, e) && !Stops(events, x, e)
  {
    hide Gives, Stops;
    var all := events + [x];
    assert all[..i] == events[..i] && all[i] == events[i] && all[..|events|] == events && all[|events|] == x;
    assert forall k | 0 <= k < |events| :: all[..k] == events[..k] && all[k] == events[k];
  }

  lemma DroppedSinceMore(events: seq<Event>, x: Event, i: nat, e: string)
    requires i < |events|
    ensures DroppedSince(events + [x], i, e) <==> DroppedSince(events, i, e) || Drops(x, e)
  {
    hide Drops;
    var all := events + [x];
    assert all[|events|] == x && forall k | 0 <= k < |events| :: all[k] == events[k];
    if j :| i < j < |events| && Drops(events[j], e) { assert Drops(all[j], e); }
    if j :| i < j < |all| && Drops(all[j], e) { if j < |events| { assert Drops(events[j], e); } }
  }

  lemma HoldsFromLast(events: seq<Event>, x: Event, e: string)
    ensures HoldsFrom(events + [x], |events|, e) <==> Gives(events, x, e)
    ensures !DroppedSince(events + [x], |events|, e)
  {
    hide Gives, Drops;
    assert (events + [x])[..|events|] == events && (events + [x])[|events|] == x;
  }

  lemma HasTokenMore(events: seq<Event>, x: Event, e: string)
    ensures HasToken(events + [x], e) <==> Gives(events, x, e) || (HasToken(events, e) && !Stops(events, x, e))
  {
    hide HoldsFrom, Gives, Stops;
    var all := events + [x];
    HoldsFromLast(events, x, e);
    if i: nat :| HoldsFrom(events, i, e) {
      HoldsBelow(events, i, e);
      HoldsFromMore(events, x, i, e);
    }
    if i: nat :| HoldsFrom(all, i, e) {
      HoldsBelow(all, i, e);
      if i < |events| { HoldsFromMore(events, x, i, e); }
    }
  }

  lemma HoldsBelow(events: seq<Event>, i: nat, e: string)
    requires HoldsFrom(events, i, e)
    ensures i < |events|
  {
  }

  lemma LostMore(events: seq<Event>, x: Event, e: string)
    ensures Lost(events + [x], e) <==>
            || (Gives(events, x, e) && x.Subscribe?)
            || (!Stops(events, x, e) && (Lost(events, e) || (HasToken(events, e) && Drops(x, e))))
  {
    hide HoldsFrom, Gives, Stops, DroppedSince, Drops;
    var all := events + [x];
    HoldsFromLast(events, x, e);
    assert all[|events|] == x;
    if Gives(events, x, e) && x.Subscribe? { assert LosesFrom(all, |events|, e); }
    if i: nat :| HoldsFrom(events, i, e) && !Stops(events, x, e) && (LosesFrom(events, i, e) || Drops(x, e)) {
      HoldsBelow(events, i, e);
      HoldsFromMore(events, x, i, e);
      DroppedSinceMore(events, x, i, e);
      assert LosesFrom(all, i, e);
    }
    if i: nat :| LosesFrom(all, i, e) {
      HoldsBelow(all, i, e);
      if i < |events| {
        HoldsFromMore(events, x, i, e);
        DroppedSinceMore(events, x, i, e);
        assert LosesFrom(events, i, e) || (HoldsFrom(events, i, e) && Drops(x, e));
      }
    }
  }

  lemma MembersMore(events: seq<Event>, x: Event, e: string)
    ensures Members(events + [x], e) ==
            match x
            case Subscribe(p, f) => Members(events, e) + (if f == e && p != "" && f != "" then {p} else {})
            case Unsubscribe(p, f) => Members(events, e) - (if f == e && p != "" && f != "" then {p} else {})
            case _ => Members(events, e)
  {
    assert (events + [x])[..|events|] == events && (events + [x])[|events|] == x;
  }

  lemma OpenedMore(events: seq<Event>, x: Event)
    ensures Opened(events + [x]) ==
            if x.Subscribe? && Starts(events, x, x.event) && Flag !in events then Some(x.event)
            else if x.Register? then None
            else Opened(events)
  {
    hide Starts;
    assert (events + [x])[..|events|] == events && (events + [x])[|events|] == x;
  }

  // ---------------------------------------------------------------------------------------------
  // The state of a run
  // ---------------------------------------------------------------------------------------------

  function MembersIn(b: Binder, e: string): set<string> {
    if e in b.subs then b.subs[e] else {}
  }

  /** Subscribers, flag and open registration are what the events say. */
  ghost predicate Follows(events: seq<Event>, s: State) {
    && (forall e :: Members(events, e) == MembersIn(s.binder, e))
    && (s.client.flag <==> Flag in events)
    && Opened(events) == if s.binder.opening.Some? then Some(s.binder.opening.value.event) else None
  }

  /** Tokens and losses are what the events say. */
  ghost predicate Tells(events: seq<Event>, s: State) {
    && (forall e :: e in s.binder.tokens <==> HasToken(events, e))
    && (forall e :: e in s.history.lost <==> Lost(events, e))
  }

  lemma StartsIff(events: seq<Event>, s: State, x: Event)
    requires Paired(s.binder) && forall e :: Members(events, e) == MembersIn(s.binder, e)
    ensures x.Subscribe? ==> (Starts(events, x, x.event) <==> First(s, x))
    ensures x.Unsubscribe? ==> (Stops(events, x, x.event) <==> Last(s, x))
  {
    hide Members;
  }

  lemma FollowsAfter(events: seq<Event>, s: State, x: Event)
    requires Enabled(s, x) && Paired(s.binder) && Follows(events, s)
    ensures Follows(events + [x], Next(s, x))
  {
    hide Members, Opened, NextLive, NextHistory, Starts;
    var n := Next(s, x);
    StartsIff(events, s, x);
    OpenedMore(events, x);
    forall e ensures Members(events + [x], e) == MembersIn(n.binder, e) { MembersMore(events, x, e); }
  }

  lemma TokensAfter(s: State, x: Event, e: string)
    requires Enabled(s, x) && Paired(s.binder)
    ensures e in Next(s, x).binder.tokens <==>
            || (x.Register? && s.binder.opening.value.event == e)
            || (x.Subscribe? && First(s, x) && s.client.flag && x.event == e)
            || (e in s.binder.tokens && !(x.Unsubscribe? && Last(s, x) && x.event == e))
  {
    hide NextLive, NextHistory, NextClient;
  }

  lemma TellsAfter(events: seq<Event>, s: State, x: Event)
    requires Enabled(s, x) && Paired(s.binder) && s.history.lost <= s.binder.tokens.Keys
    requires Follows(events, s) && Tells(events, s)
    ensures Tells(events + [x], Next(s, x))
  {
    hide Members, Opened, NextLive, NextBinder, NextClient, HasToken, Lost, Starts, Stops, First, Last;
    var n := Next(s, x);
    StartsIff(events, s, x);
    forall e ensures e in n.binder.tokens <==> HasToken(events + [x], e) {
      TokensAfter(s, x, e);
      HasTokenMore(events, x, e);
      StartsOnly(events, x, e);
    }
    forall e ensures e in n.history.lost <==> Lost(events + [x], e) {
      LostMore(events, x, e);
      StartsOnly(events, x, e);
    }
  }

  lemma StartsOnly(events: seq<Event>, x: Event, e: string)
    ensures Starts(events, x, e) ==> x.Subscribe? && x.event == e
    ensures Stops(events, x, e) ==> x.Unsubscribe? && x.event == e
  {
  }

  lemma {:induction false} RunsTell(events: seq<Event>, s: State)
    requires Leads(events, s)
    ensures Follows(events, s) && Tells(events, s)
    decreases |events|
  {
    hide Follows, Tells, Enabled, Next, Fresh, Owned, NoLeak;
    if events == [] {
      NothingTold();
    } else {
      var n := |events| - 1;
      var p :| Leads(events[..n], p) && Enabled(p, events[n]) && s == Next(p, events[n]);
      RunsTell(events[..n], p);
      RunsKeepInv(events[..n], p);
      FollowsAfter(events[..n], p, events[n]);
      TellsAfter(events[..n], p, events[n]);
      assert events == events[..n] + [events[n]];
    }
  }

  lemma NothingTold()
    ensures Follows([], INIT) && Tells([], INIT)
  {
  }

  /**
   In every run, whenever the binder's lock is free, an event with subscribers has its listener in the client if and
   only if the events of the run have not lost it.
   */
  lemma ListenerLostIff(events: seq<Event>, s: State, e: string)
    requires Leads(events, s) && s.binder.opening.None? && Members(events, e) != {}
    ensures e in s.binder.tokens && s.binder.subs.Keys == s.binder.tokens.Keys
    ensures Live(s.client.live, s.binder.tokens[e], e) <==> !Lost(events, e)
  {
    hide Leads, Live, Lost, HasToken, Members, Opened;
    RunsTell(events, s);
    RunsKeepInv(events, s);
  }

  /**
   In every run, whenever the binder's lock is free: it holds one token for exactly the events that have subscribers,
   no two events share one, every listener in the client that is nobody else's is the binder's current one for an
   event with subscribers, and that listener is there exactly when the events of the run have not lost it.
   */
  lemma BinderHoldsExactly(events: seq<Event>, s: State)
    requires Leads(events, s) && s.binder.opening.None?
    ensures s.binder.tokens.Keys == s.binder.subs.Keys && forall e :: e in s.binder.subs <==> Members(events, e) != {}
    ensures forall d, e | d in s.binder.tokens && e in s.binder.tokens && s.binder.tokens[d] == s.binder.tokens[e] ::
            d == e
    ensures forall r | r in s.client.live && r.token !in s.history.others ::
              r.event in s.binder.subs && s.binder.tokens[r.event] == r.token
    ensures forall e | e in s.binder.subs :: Live(s.client.live, s.binder.tokens[e], e) <==> !Lost(events, e)
  {
    hide Leads, Live, Lost, HasToken, Members, Opened;
    RunsTell(events, s);
    RunsKeepInv(events, s);
  }

  // ---------------------------------------------------------------------------------------------
  // Other users of the client
  // ---------------------------------------------------------------------------------------------

  /** Somebody else asked for a listener at `i`, before the shutdown flag, and got token `k`. */
  ghost predicate AsksAt(events: seq<Event>, i: nat, k: int, e: string) {
    && i < |events| && events[i] == OtherOn(e) && Flag !in events[..i]
    && exists p :: Leads(events[..i], p) && p.client.next == k
  }

  ghost predicate Asked(events: seq<Event>, k: int, e: string) {
    exists i: nat :: AsksAt(events, i, k, e)
  }

  predicate PendingFor(s: State, k: int, e: string) {
    k in s.client.pending && s.client.pending[k] == e
  }

  /** A run has one state. */
  lemma {:induction false} OneState(events: seq<Event>, p: State, q: State)
    requires Leads(events, p) && Leads(events, q)
    ensures p == q
    decreases |events|
  {
    hide Enabled, Next;
    if events != [] {
      var n := |events| - 1;
      var r :| Leads(events[..n], r) && Enabled(r, events[n]) && p == Next(r, events[n]);
      var u :| Leads(events[..n], u) && Enabled(u, events[n]) && q == Next(u, events[n]);
      OneState(events[..n], r, u);
    }
  }

  lemma AskedMore(events: seq<Event>, s: State, x: Event, k: int, e: string)
    requires Leads(events, s)
    ensures Asked(events + [x], k, e) <==>
            Asked(events, k, e) || (x == OtherOn(e) && Flag !in events && s.client.next == k)
  {
    hide Leads;
    var all := events + [x];
    assert all[..|events|] == events;
    if Asked(events, k, e) {
      var i: nat :| AsksAt(events, i, k, e);
      assert all[..i] == events[..i];
      assert AsksAt(all, i, k, e);
    }
    if x == OtherOn(e) && Flag !in events && s.client.next == k { assert AsksAt(all, |events|, k, e); }
    if Asked(all, k, e) {
      var i: nat :| AsksAt(all, i, k, e);
      var p :| Leads(all[..i], p) && p.client.next == k;
      if i < |events| {
        assert all[..i] == events[..i] && all[i] == events[i];
        assert AsksAt(events, i, k, e);
      } else {
        OneState(events, p, s);
      }
    }
  }

  lemma PendingAfter(s: State, x: Event, k: int, e: string)
    requires Enabled(s, x) && Fresh(s)
    ensures PendingFor(Next(s, x), k, e) <==>
            (PendingFor(s, k, e) && x != OtherRegister(k)) ||
            (x == OtherOn(e) && !s.client.flag && s.client.next == k)
  {
    hide NextLive, NextBinder, First;
  }

  /** Tokens asked for are below the counter, and so are those whose registration took place. */
  ghost predicate Passed(events: seq<Event>, s: State) {
    && (s.client.flag <==> Flag in events)
    && (forall k: int | OtherRegister(k) in events :: k < s.client.next)
  }

  lemma PassedAfter(events: seq<Event>, s: State, x: Event)
    requires Enabled(s, x) && Fresh(s) && Passed(events, s)
    ensures Passed(events + [x], Next(s, x))
  {
    hide NextLive, NextBinder, First;
  }

  /**
   In every run, the registrations of other users that are under way are exactly those asked for before the shutdown
   flag that have not taken place.
   */
  lemma {:induction false} OthersPendingIff(events: seq<Event>, s: State, k: int, e: string)
    requires Leads(events, s)
    ensures PendingFor(s, k, e) <==> Asked(events, k, e) && OtherRegister(k) !in events
    ensures Passed(events, s)
    decreases |events|
  {
    hide Enabled, Next, PendingFor, Asked, Passed, Fresh;
    if events == [] {
      NobodyAsked(k, e);
    } else {
      var n := |events| - 1;
      var (before, x) := (events[..n], events[n]);
      var r :| Leads(before, r) && Enabled(r, x) && s == Next(r, x);
      assert events == before + [x];
      OthersPendingIff(before, r, k, e);
      RunsKeepInv(before, r);
      FreshOf(r);
      AskedMore(before, r, x, k, e);
      PendingAfter(r, x, k, e);
      PassedAfter(before, r, x);
      NotYetPassed(before, r, k);
    }
  }

  lemma NotYetPassed(events: seq<Event>, s: State, k: int)
    requires Passed(events, s)
    ensures (s.client.flag <==> Flag in events) && (k == s.client.next ==> OtherRegister(k) !in events)
  {
  }

  lemma FreshOf(s: State)
    requires Inv(s)
    ensures Fresh(s)
  {
  }

  lemma NobodyAsked(k: int, e: string)
    ensures !PendingFor(INIT, k, e) && !Asked([], k, e) && Passed([], INIT)
  {
  }
}
