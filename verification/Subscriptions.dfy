/**
 Plugins subscribe to debugging events through the binder, which keeps one listener in the client per
 event. The client's shutdown and its other users run beside the binder; one step is what happens
 under one lock or between two looks at the shutdown flag.
 */
module Subscriptions {
  import opened EventIndex
  import opened Options

  /** Registrations, token counter, shutdown flag, and others' registrations past the flag but not yet in the index. */
  datatype Client = Client(live: seq<Reg>, next: int, flag: bool, pending: map<int, string>)

  datatype Opening = Opening(event: string, token: int)

  /** Subscribers and token per event, and the registration the binder is in the middle of, holding its lock. */
  datatype Binder = Binder(subs: map<string, set<string>>, tokens: map<string, int>, opening: Option<Opening>)

  /** Tokens given to others; events whose listener was taken from under the binder or refused. */
  datatype History = History(others: set<int>, lost: set<string>)

  datatype State = State(client: Client, binder: Binder, history: History)

  datatype Event =
    | Subscribe(plugin: string, event: string)
    | Register
    | Unsubscribe(plugin: string, event: string)
    | OtherOn(event: string)
    | OtherRegister(token: int)
    | OtherOff(token: int)
    | OffAll(event: string)
    | Flag
    | Clear

  const INIT := State(Client([], 1, false, map[]), Binder(map[], map[], None), History({}, {}))

  const MINE: nat := 1
  const THEIRS: nat := 0

  predicate Named(e: Event)
    requires e.Subscribe? || e.Unsubscribe?
  {
    e.plugin != "" && e.event != ""
  }

  /** A subscription that needs a listener. */
  predicate First(s: State, e: Event) {
    e.Subscribe? && Named(e) && (e.event !in s.binder.subs || s.binder.subs[e.event] == {})
  }

  /** An unsubscription that leaves nobody. */
  predicate Last(s: State, e: Event) {
    e.Unsubscribe? && Named(e) && e.event in s.binder.subs && s.binder.subs[e.event] <= {e.plugin}
  }

  predicate Enabled(s: State, e: Event) {
    match e
    case Subscribe(_, _) => s.binder.opening.None?
    case Register => s.binder.opening.Some?
    case Unsubscribe(_, _) => s.binder.opening.None?
    case OtherOn(_) => true
    case OtherRegister(k) => k in s.client.pending
    case OtherOff(k) => k in s.history.others && k !in s.client.pending
    case OffAll(_) => true
    case Flag => true
    case Clear => s.client.flag
  }

  function NextLive(s: State, e: Event): seq<Reg>
    requires Enabled(s, e)
  {
    var live := s.client.live;
    match e
    case Register =>
      var o := s.binder.opening.value;
      live + [Reg(o.token, o.event, MINE)]
    case Unsubscribe(_, event) =>
      if Last(s, e) && event in s.binder.tokens then Without(live, s.binder.tokens[event]) else live
    case OtherRegister(k) => live + [Reg(k, s.client.pending[k], THEIRS)]
    case OtherOff(k) => Without(live, k)
    case OffAll(event) => WithoutEvent(live, event)
    case Clear => []
    case _ => live
  }

  function NextClient(s: State, e: Event): Client
    requires Enabled(s, e)
  {
    var c := s.client;
    Client(NextLive(s, e),
           if First(s, e) || e.OtherOn? then c.next + 1 else c.next,
           c.flag || e.Flag?,
           match e
           case OtherOn(event) => if c.flag then c.pending else c.pending[c.next := event]
           case OtherRegister(k) => c.pending - {k}
           case _ => c.pending)
  }

  function NextBinder(s: State, e: Event): Binder
    requires Enabled(s, e)
  {
    var b := s.binder;
    match e
    case Subscribe(plugin, event) =>
      if !Named(e) then b
      else if !First(s, e) then b.(subs := b.subs[event := b.subs[event] + {plugin}])
      else if s.client.flag then b.(subs := b.subs[event := {plugin}], tokens := b.tokens[event := s.client.next])
      else b.(subs := b.subs[event := {plugin}], opening := Some(Opening(event, s.client.next)))
    case Register => b.(tokens := b.tokens[b.opening.value.event := b.opening.value.token], opening := None)
    case Unsubscribe(plugin, event) =>
      if !Named(e) || event !in b.subs then b
      else if Last(s, e) then b.(subs := b.subs - {event}, tokens := b.tokens - {event})
      else b.(subs := b.subs[event := b.subs[event] - {plugin}])
    case _ => b
  }

  function NextHistory(s: State, e: Event): History
    requires Enabled(s, e)
  {
    var h := s.history;
    match e
    case Subscribe(_, event) => if First(s, e) && s.client.flag then h.(lost := h.lost + {event}) else h
    case Unsubscribe(_, event) => if Last(s, e) then h.(lost := h.lost - {event}) else h
    case OtherOn(_) => h.(others := h.others + {s.client.next})
    case OffAll(event) => if event in s.binder.tokens then h.(lost := h.lost + {event}) else h
    case Clear => h.(lost := h.lost + s.binder.tokens.Keys)
    case _ => h
  }

  function Next(s: State, e: Event): State
    requires Enabled(s, e)
  {
    State(NextClient(s, e), NextBinder(s, e), NextHistory(s, e))
  }

  // ---------------------------------------------------------------------------------------------
  // The invariant
  // ---------------------------------------------------------------------------------------------

  /** Subscriber sets are not empty; tokens are held for exactly the events with subscribers, but one being opened. */
  ghost predicate Paired(b: Binder) {
    && (forall e | e in b.subs :: b.subs[e] != {})
    && (b.opening.None? ==> b.tokens.Keys == b.subs.Keys)
    && (b.opening.Some? ==>
        var e := b.opening.value.event; e in b.subs && e !in b.tokens && b.tokens.Keys == b.subs.Keys - {e})
  }

  /** Tokens on their way into the index are not in it and belong to one party. */
  ghost predicate Fresh(s: State) {
    var (c, b) := (s.client, s.binder);
    && Distinct(c.live) && (forall r | r in c.live :: r.token < c.next)
    && (forall k | k in s.history.others :: k < c.next)
    && (forall k | k in c.pending :: k in s.history.others && Unused(c.live, k))
    && (b.opening.Some? ==> b.opening.value.token < c.next && b.opening.value.token !in s.history.others &&
                            Unused(c.live, b.opening.value.token))
  }

  /** The binder's tokens are its own, one per event. */
  ghost predicate Owned(s: State) {
    var b := s.binder;
    && (forall e | e in b.tokens :: b.tokens[e] < s.client.next && b.tokens[e] !in s.history.others)
    && (forall d, e | d in b.tokens && e in b.tokens && b.tokens[d] == b.tokens[e] :: d == e)
    && (b.opening.Some? ==> forall e | e in b.tokens :: b.tokens[e] != b.opening.value.token)
  }

  /** The binder's listener for an event is in the index exactly when it was not lost. */
  ghost predicate Listening(s: State) {
    && s.history.lost <= s.binder.tokens.Keys
    && forall e | e in s.binder.tokens :: Live(s.client.live, s.binder.tokens[e], e) <==> e !in s.history.lost
  }

  /** Every listener in the index is another's or the binder's current one for its event. */
  ghost predicate NoLeak(s: State) {
    forall r | r in s.client.live ::
      r.token in s.history.others || (r.event in s.binder.tokens && s.binder.tokens[r.event] == r.token)
  }

  ghost predicate Inv(s: State) {
    Paired(s.binder) && Fresh(s) && Owned(s) && Listening(s) && NoLeak(s)
  }

  lemma KeepsPaired(s: State, e: Event)
    requires Enabled(s, e) && Paired(s.binder)
    ensures Paired(Next(s, e).binder)
  {
    hide NextLive;
  }

  /** Which registrations there are after a step. */
  lemma LiveAfter(s: State, e: Event, r: Reg)
    requires Enabled(s, e)
    ensures r in NextLive(s, e) <==>
            match e
            case Register => r in s.client.live ||
                r == Reg(s.binder.opening.value.token, s.binder.opening.value.event, MINE)
            case Unsubscribe(_, event) =>
              r in s.client.live && !(Last(s, e) && event in s.binder.tokens && r.token == s.binder.tokens[event])
            case OtherRegister(k) => r in s.client.live || r == Reg(k, s.client.pending[k], THEIRS)
            case OtherOff(k) => r in s.client.live && r.token != k
            case OffAll(event) => r in s.client.live && r.event != event
            case Clear => false
            case _ => r in s.client.live
  {
    var live := s.client.live;
    match e
    case Unsubscribe(_, event) => if event in s.binder.tokens { WithoutMembers(live, s.binder.tokens[event]); }
    case OtherOff(k) => WithoutMembers(live, k);
    case OffAll(event) => WithoutEventMembers(live, event);
    case _ =>
  }

  lemma KeepsDistinct(s: State, e: Event)
    requires Enabled(s, e) && Fresh(s)
    ensures Distinct(NextLive(s, e))
  {
    var live := s.client.live;
    match e
    case Register => AppendDistinct(live, Reg(s.binder.opening.value.token, s.binder.opening.value.event, MINE));
    case Unsubscribe(_, event) => if event in s.binder.tokens { DistinctWithout(live, s.binder.tokens[event]); }
    case OtherRegister(k) => AppendDistinct(live, Reg(k, s.client.pending[k], THEIRS));
    case OtherOff(k) => DistinctWithout(live, k);
    case OffAll(event) => DistinctWithoutEvent(live, event);
    case _ =>
  }

  lemma AppendDistinct(live: seq<Reg>, r: Reg)
    requires Distinct(live) && Unused(live, r.token)
    ensures Distinct(live + [r])
  {
    forall i | 0 <= i < |live| ensures live[i].token != r.token { assert live[i] in live; }
  }

  lemma KeepsFresh(s: State, e: Event)
    requires Enabled(s, e) && Fresh(s)
    ensures Fresh(Next(s, e))
  {
    hide NextLive, Distinct, Last;
    var n := Next(s, e);
    KeepsDistinct(s, e);
    forall r | r in n.client.live ensures r.token < n.client.next { LiveAfter(s, e, r); }
    forall k | k in n.client.pending ensures k in n.history.others && Unused(n.client.live, k) {
      forall r | r in n.client.live ensures r.token != k { LiveAfter(s, e, r); }
    }
    if n.binder.opening.Some? {
      forall r | r in n.client.live ensures r.token != n.binder.opening.value.token { LiveAfter(s, e, r); }
    }
  }

  lemma KeepsOwned(s: State, e: Event)
    requires Enabled(s, e) && Fresh(s) && Owned(s)
    ensures Owned(Next(s, e))
  {
    hide NextLive, Distinct, Unused, Last;
  }

  lemma KeepsNoLeak(s: State, e: Event)
    requires Enabled(s, e) && Paired(s.binder) && Fresh(s) && NoLeak(s)
    ensures NoLeak(Next(s, e))
  {
    hide NextLive, Distinct, Unused;
    var n := Next(s, e);
    forall r | r in n.client.live
      ensures r.token in n.history.others || (r.event in n.binder.tokens && n.binder.tokens[r.event] == r.token)
    {
      LiveAfter(s, e, r);
    }
  }

  /** The listener of one event over a step. */
  lemma ListenerAfter(s: State, e: Event, event: string)
    requires Enabled(s, e) && Paired(s.binder) && Fresh(s) && Owned(s) && Listening(s)
    requires event in Next(s, e).binder.tokens
    ensures var n := Next(s, e); Live(n.client.live, n.binder.tokens[event], event) <==> event !in n.history.lost
  {
    hide NextLive, Distinct, Live;
    var n := Next(s, e);
    var k := n.binder.tokens[event];
    LiveMember(n.client.live, k, event);
    LiveMember(s.client.live, k, event);
    if r :| r in n.client.live && r.token == k && r.event == event {
      LiveAfter(s, e, r);
    }
    if r :| r in s.client.live && r.token == k && r.event == event {
      LiveAfter(s, e, r);
    }
    if e.Register? {
      LiveAfter(s, e, Reg(s.binder.opening.value.token, s.binder.opening.value.event, MINE));
    }
  }

  lemma KeepsListening(s: State, e: Event)
    requires Enabled(s, e) && Paired(s.binder) && Fresh(s) && Owned(s) && Listening(s)
    ensures Listening(Next(s, e))
  {
    hide NextLive, Distinct, Live, Fresh, Owned;
    var n := Next(s, e);
    forall event | event in n.binder.tokens
      ensures Live(n.client.live, n.binder.tokens[event], event) <==> event !in n.history.lost
    {
      ListenerAfter(s, e, event);
    }
  }

  lemma StepKeepsInv(s: State, e: Event)
    requires Enabled(s, e) && Inv(s)
    ensures Inv(Next(s, e))
  {
    hide Enabled, Next, Paired, Fresh, Owned, Listening, NoLeak;
    KeepsPaired(s, e);
    KeepsFresh(s, e);
    KeepsOwned(s, e);
    KeepsNoLeak(s, e);
    KeepsListening(s, e);
  }

  // ---------------------------------------------------------------------------------------------
  // Runs
  // ---------------------------------------------------------------------------------------------

  ghost predicate Leads(events: seq<Event>, s: State)
    decreases |events|
  {
    if events == [] then s == INIT
    else
      var n := |events| - 1;
      exists p :: Leads(events[..n], p) && Enabled(p, events[n]) && s == Next(p, events[n])
  }

  lemma {:induction false} RunsKeepInv(events: seq<Event>, s: State)
    requires Leads(events, s)
    ensures Inv(s)
    decreases |events|
  {
    hide Enabled, Next;
    if events != [] {
      var n := |events| - 1;
      var p :| Leads(events[..n], p) && Enabled(p, events[n]) && s == Next(p, events[n]);
      RunsKeepInv(events[..n], p);
      StepKeepsInv(p, events[n]);
    }
  }

  /** No listener is lost before the shutdown begins and while nobody removes all listeners of an event. */
  lemma {:induction false} NothingLostUntilShutdown(events: seq<Event>, s: State)
    requires Leads(events, s) && forall i | 0 <= i < |events| :: !events[i].OffAll? && !events[i].Flag?
    ensures s.history.lost == {} && !s.client.flag
    decreases |events|
  {
    hide NextLive, NextBinder;
    if events != [] {
      var n := |events| - 1;
      var p :| Leads(events[..n], p) && Enabled(p, events[n]) && s == Next(p, events[n]);
      NothingLostUntilShutdown(events[..n], p);
    }
  }

  /** One plugin subscribed to one event, its listener in the client. */
  const SUBSCRIBED :=
    State(Client([Reg(1, "e", MINE)], 2, false, map[]), Binder(map["e" := {"p"}], map["e" := 1], None), History({}, {}))

  lemma ReachSubscribed()
    ensures Leads([Subscribe("p", "e"), Register], SUBSCRIBED)
  {
    hide Leads;
    var a := Next(INIT, Subscribe("p", "e"));
    LeadsInit();
    Extend([], INIT, Subscribe("p", "e"));
    Extend([] + [Subscribe("p", "e")], a, Register);
    assert Next(a, Register) == SUBSCRIBED;
    assert [] + [Subscribe("p", "e")] + [Register] == [Subscribe("p", "e"), Register];
  }

  /** A run that loses a listener: somebody else removes all of the event, and the plugin stays subscribed. */
  lemma OffAllLoses()
    ensures exists events, s ::
              && Leads(events, s) && !s.client.flag && s.binder.opening.None?
              && s.binder.subs == map["e" := {"p"}] && s.history.lost == {"e"}
              && "e" in s.binder.tokens && !Live(s.client.live, s.binder.tokens["e"], "e")
  {
    hide Leads, Live;
    var off := OffAll("e");
    ReachSubscribed();
    Extend([Subscribe("p", "e"), Register], SUBSCRIBED, off);
    var n := Next(SUBSCRIBED, off);
    assert n.history.lost == {"e"} && n.binder == SUBSCRIBED.binder;
    RunsKeepInv([Subscribe("p", "e"), Register] + [off], n);
  }

  lemma LeadsInit()
    ensures Leads([], INIT)
  {
  }

  lemma Extend(events: seq<Event>, s: State, e: Event)
    requires Leads(events, s) && Enabled(s, e)
    ensures Leads(events + [e], Next(s, e))
  {
    hide Enabled, Next;
    var all := events + [e];
    assert all[..|events|] == events && all[|events|] == e;
  }

  /** Subscribing for the first time after the shutdown began leaves a token without a listener. */
  lemma SubscribedAfterShutdown(events: seq<Event>, s: State, plugin: string, event: string)
    requires Leads(events, s) && s.client.flag && s.binder.opening.None?
    requires plugin != "" && event != "" && event !in s.binder.subs
    ensures var n := Next(s, Subscribe(plugin, event));
            event in n.binder.tokens && !Live(n.client.live, n.binder.tokens[event], event)
  {
    RunsKeepInv(events, s);
    StepKeepsInv(s, Subscribe(plugin, event));
  }

  // ---------------------------------------------------------------------------------------------
  // The binder object
  // ---------------------------------------------------------------------------------------------

  /** The token of an event outside `rest`. */
  predicate HeldFor(tokens: map<string, int>, rest: set<string>, k: int) {
    exists e | e in tokens :: e !in rest && tokens[e] == k
  }

  lemma NothingHeld(tokens: map<string, int>)
    ensures forall k :: !HeldFor(tokens, tokens.Keys, k)
  {
  }

  lemma HeldForMore(tokens: map<string, int>, rest: set<string>, event: string)
    requires event in rest && event in tokens
    ensures forall k :: HeldFor(tokens, rest - {event}, k) <==> HeldFor(tokens, rest, k) || k == tokens[event]
  {
  }

  /** The listeners the binder has for itself, from before anybody subscribes. */
  function OwnListeners(tokens: seq<int>): seq<Reg>
    requires |tokens| == 3
  {
    [Reg(tokens[0], "Runtime.bindingCalled", MINE), Reg(tokens[1], "Runtime.executionContextCreated", MINE),
     Reg(tokens[2], "Runtime.executionContextDestroyed", MINE)]
  }

  method RegisterOwn(c: CdpEvents) returns (tokens: seq<int>)
    requires c.Valid()
    modifies c
    ensures c.Valid() && c.shutdown == old(c.shutdown) && c.nextToken == old(c.nextToken) + 3
    ensures var n := old(c.nextToken); tokens == [n, n + 1, n + 2]
    ensures c.live == old(c.live) + if c.shutdown then [] else OwnListeners(tokens)
  {
    hide Represents;
    var a := c.On("Runtime.bindingCalled", MINE);
    var b := c.On("Runtime.executionContextCreated", MINE);
    var d := c.On("Runtime.executionContextDestroyed", MINE);
    tokens := [a, b, d];
  }

  class FfiBinder {
    const client: CdpEvents
    var internal: seq<int>
    var subs: map<string, set<string>>
    var eventTokens: map<string, int>

    ghost predicate Valid()
      reads this, client
    {
      && client.Valid()
      && eventTokens.Keys == subs.Keys && (forall e | e in subs :: subs[e] != {})
      && (forall e | e in eventTokens :: eventTokens[e] < client.nextToken)
      && (forall d, e | d in eventTokens && e in eventTokens && eventTokens[d] == eventTokens[e] :: d == e)
      && (forall k | k in internal :: k < client.nextToken) &&
            (forall e | e in eventTokens :: eventTokens[e] !in internal)
    }

    /** Every event with subscribers has its listener in the client. */
    ghost predicate AllListening()
      requires Valid()
      reads this, client
    {
      forall e | e in subs :: Reg(eventTokens[e], e, MINE) in client.live
    }

    /** The binder's own three listeners are registered first. */
    constructor (c: CdpEvents)
      requires c.Valid()
      modifies c
      ensures client == c && Valid() && subs == map[] && AllListening()
      ensures var n := old(c.nextToken); internal == [n, n + 1, n + 2]
      ensures c.shutdown == old(c.shutdown) && c.live == old(c.live) + if c.shutdown then [] else OwnListeners(internal)
    {
      var own := RegisterOwn(c);
      client, internal, subs, eventTokens := c, own, map[], map[];
    }

    method Subscribe(plugin: string, event: string)
      requires Valid()
      modifies this`subs, this`eventTokens, client
      ensures Valid() && client.shutdown == old(client.shutdown)
      ensures subs == if plugin == "" || event == "" then old(subs)
                      else old(subs)[event := (if event in old(subs) then old(subs[event]) else {}) + {plugin}]
      ensures client.live == old(client.live) +
                if plugin == "" || event == "" || event in old(subs) || client.shutdown then []
                else [Reg(eventTokens[event], event, MINE)]
      ensures old(AllListening()) && !client.shutdown ==> AllListening()
    {
      hide Represents;
      if plugin == "" || event == "" { return; }
      var was := if event in subs then subs[event] else {};
      var first := was == {};
      subs := subs[event := was + {plugin}];
      if first {
        var token := client.On(event, MINE);
        eventTokens := eventTokens[event := token];
      }
    }

    /** An event that has no subscribers left. */
    method Drop(event: string)
      requires Valid() && event in subs
      modifies this`subs, this`eventTokens, client
      ensures Valid() && client.shutdown == old(client.shutdown) && subs == old(subs) - {event}
      ensures client.live == Without(old(client.live), old(eventTokens[event]))
      ensures old(AllListening()) ==> AllListening()
    {
      hide Represents, Without;
      WithoutMembers(client.live, eventTokens[event]);
      client.Off(eventTokens[event]);
      subs, eventTokens := subs - {event}, eventTokens - {event};
    }

    method Unsubscribe(plugin: string, event: string)
      requires Valid()
      modifies this`subs, this`eventTokens, client
      ensures Valid() && client.shutdown == old(client.shutdown)
      ensures subs == if plugin == "" || event == "" || event !in old(subs) then old(subs)
                      else if old(subs[event]) <= {plugin} then old(subs) - {event}
                      else old(subs)[event := old(subs[event]) - {plugin}]
      ensures client.live == if event in old(subs) && event !in subs
                             then Without(old(client.live), old(eventTokens[event]))
                             else old(client.live)
      ensures old(AllListening()) ==> AllListening()
    {
      hide Represents, Without;
      if plugin == "" || event == "" || event !in subs { return; }
      var left := subs[event] - {plugin};
      if left == {} { Drop(event); } else { subs := subs[event := left]; }
    }

    /** The destructor's loops: every listener of the binder leaves the client, and no other does. */
    method Close()
      requires Valid()
      modifies this`eventTokens, client
      ensures eventTokens == map[] && client.Valid()
      ensures forall r :: r in client.live <==>
                          r in old(client.live) && !HeldFor(old(eventTokens), {}, r.token) && r.token !in internal
    {
      hide Represents, HeldFor;
      NothingHeld(eventTokens);
      var rest := eventTokens.Keys;
      while rest != {}
        invariant rest <= eventTokens.Keys && eventTokens == old(eventTokens) && client.Valid()
        invariant forall r :: r in client.live <==> r in old(client.live) && !HeldFor(eventTokens, rest, r.token)
        decreases |rest|
      {
        var event :| event in rest;
        WithoutMembers(client.live, eventTokens[event]);
        client.Off(eventTokens[event]);
        HeldForMore(eventTokens, rest, event);
        rest := rest - {event};
      }
      eventTokens := map[];
      CloseOwn();
    }

    method CloseOwn()
      requires client.Valid()
      modifies client
      ensures client.Valid()
      ensures forall r :: r in client.live <==> r in old(client.live) && r.token !in internal
    {
      hide Represents;
      for i := 0 to |internal|
        invariant client.Valid()
        invariant forall r :: r in client.live <==> r in old(client.live) && r.token !in internal[..i]
      {
        WithoutMembers(client.live, internal[i]);
        client.Off(internal[i]);
        assert internal[..i + 1] == internal[..i] + [internal[i]];
      }
      assert internal[..|internal|] == internal;
    }
  }
}
