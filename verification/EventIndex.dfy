/** The client's event listeners: two maps that stand for one list of registrations. */
module EventIndex {

  /** A registration; the callback is known by a number. */
  datatype Reg = Reg(token: int, event: string, callback: nat)

  // ---------------------------------------------------------------------------------------------
  // The list of registrations
  // ---------------------------------------------------------------------------------------------

  /** The registrations of one event, in order. */
  function Of(live: seq<Reg>, event: string): seq<Reg> {
    if live == [] then []
    else if live[0].event == event then [live[0]] + Of(live[1..], event)
    else Of(live[1..], event)
  }

  function Without(live: seq<Reg>, token: int): seq<Reg> {
    if live == [] then []
    else if live[0].token == token then Without(live[1..], token)
    else [live[0]] + Without(live[1..], token)
  }

  function WithoutEvent(live: seq<Reg>, event: string): seq<Reg> {
    if live == [] then []
    else if live[0].event == event then WithoutEvent(live[1..], event)
    else [live[0]] + WithoutEvent(live[1..], event)
  }

  ghost predicate Distinct(live: seq<Reg>) {
    forall i, j | 0 <= i < j < |live| :: live[i].token != live[j].token
  }

  predicate Live(live: seq<Reg>, token: int, event: string) {
    exists i | 0 <= i < |live| :: live[i].token == token && live[i].event == event
  }

  type Callbacks = map<string, seq<Reg>>
  type Tokens = map<int, string>

  /** Event to listeners: never an empty list, and the listeners in order of registration. */
  ghost predicate Lists(live: seq<Reg>, callbacks: Callbacks) {
    && (forall e :: e in callbacks <==> Of(live, e) != [])
    && (forall e | e in callbacks :: callbacks[e] == Of(live, e))
  }

  /** Token to event. */
  ghost predicate Points(live: seq<Reg>, tokens: Tokens) {
    forall k, e :: (k in tokens && tokens[k] == e) <==> Live(live, k, e)
  }

  ghost predicate Represents(live: seq<Reg>, callbacks: Callbacks, tokens: Tokens) {
    Distinct(live) && Lists(live, callbacks) && Points(live, tokens)
  }

  /** So the two maps are inverse to each other and no list is empty. */
  lemma MapsAreInverse(live: seq<Reg>, callbacks: Callbacks, tokens: Tokens, k: int, e: string)
    requires Represents(live, callbacks, tokens)
    ensures k in tokens && tokens[k] == e <==> e in callbacks && exists r :: r in callbacks[e] && r.token == k
    ensures e in callbacks ==> callbacks[e] != []
  {
    LiveMember(live, k, e);
    OfMembers(live, e);
    if r :| r in live && r.token == k && r.event == e { assert r in Of(live, e); }
  }

  lemma {:induction false} OfAppends(live: seq<Reg>, r: Reg, e: string)
    ensures Of(live + [r], e) == Of(live, e) + if r.event == e then [r] else []
  {
    if live != [] {
      assert (live + [r])[1..] == live[1..] + [r];
      OfAppends(live[1..], r, e);
    }
  }

  lemma {:induction false} OfWithout(live: seq<Reg>, k: int, e: string)
    ensures Of(Without(live, k), e) == Without(Of(live, e), k)
  {
    if live != [] {
      var (r, tail) := (live[0], live[1..]);
      OfWithout(tail, k, e);
      assert ([r] + Of(tail, e))[1..] == Of(tail, e) && ([r] + Without(tail, k))[1..] == Without(tail, k);
    }
  }

  lemma {:induction false} OfWithoutEvent(live: seq<Reg>, d: string, e: string)
    ensures Of(WithoutEvent(live, d), e) == if d == e then [] else Of(live, e)
  {
    if live != [] {
      var (r, tail) := (live[0], live[1..]);
      OfWithoutEvent(tail, d, e);
      assert ([r] + WithoutEvent(tail, d))[1..] == WithoutEvent(tail, d);
    }
  }

  lemma {:induction false} OfMembers(live: seq<Reg>, e: string)
    ensures forall r :: r in Of(live, e) <==> r in live && r.event == e
  {
    if live != [] { OfMembers(live[1..], e); }
  }

  lemma {:induction false} WithoutMembers(live: seq<Reg>, k: int)
    ensures forall r :: r in Without(live, k) <==> r in live && r.token != k
  {
    if live != [] { WithoutMembers(live[1..], k); }
  }

  lemma {:induction false} WithoutEventMembers(live: seq<Reg>, e: string)
    ensures forall r :: r in WithoutEvent(live, e) <==> r in live && r.event != e
  {
    if live != [] { WithoutEventMembers(live[1..], e); }
  }

  lemma LiveMember(live: seq<Reg>, k: int, e: string)
    ensures Live(live, k, e) <==> exists r :: r in live && r.token == k && r.event == e
  {
    if r :| r in live && r.token == k && r.event == e {
      var i :| 0 <= i < |live| && live[i] == r;
    }
  }

  lemma {:induction false} WithoutAbsent(live: seq<Reg>, k: int)
    requires forall r | r in live :: r.token != k
    ensures Without(live, k) == live
  {
    if live != [] { WithoutAbsent(live[1..], k); }
  }

  lemma {:induction false} DistinctWithout(live: seq<Reg>, k: int)
    requires Distinct(live)
    ensures Distinct(Without(live, k))
  {
    if live != [] {
      DistinctWithout(live[1..], k);
      WithoutMembers(live[1..], k);
    }
  }

  lemma {:induction false} DistinctWithoutEvent(live: seq<Reg>, e: string)
    requires Distinct(live)
    ensures Distinct(WithoutEvent(live, e))
  {
    if live != [] {
      DistinctWithoutEvent(live[1..], e);
      WithoutEventMembers(live[1..], e);
    }
  }

  /** One token, one event. */
  lemma DistinctEvents(live: seq<Reg>, k: int, d: string, e: string)
    requires Distinct(live) && Live(live, k, d) && Live(live, k, e)
    ensures d == e
  {
    var i :| 0 <= i < |live| && live[i].token == k && live[i].event == d;
    var j :| 0 <= j < |live| && live[j].token == k && live[j].event == e;
    assert i == j;
  }

  // ---------------------------------------------------------------------------------------------
  // Each operation on the maps is one on the list
  // ---------------------------------------------------------------------------------------------

  ghost predicate Unused(live: seq<Reg>, k: int) {
    forall r | r in live :: r.token != k
  }

  lemma OnRepresents(live: seq<Reg>, callbacks: Callbacks, tokens: Tokens, r: Reg)
    requires Represents(live, callbacks, tokens) && Unused(live, r.token)
    ensures var was := if r.event in callbacks then callbacks[r.event] else [];
            Represents(live + [r], callbacks[r.event := was + [r]], tokens[r.token := r.event])
  {
    forall e ensures Of(live + [r], e) == Of(live, e) + if r.event == e then [r] else [] { OfAppends(live, r, e); }
    forall k, e ensures Live(live + [r], k, e) <==> Live(live, k, e) || (k == r.token && e == r.event) {
      LiveMember(live, k, e);
      LiveMember(live + [r], k, e);
    }
  }

  /** The lists after one listener is taken out, an emptied one dropped. */
  function Dropped(callbacks: Callbacks, event: string, token: int): Callbacks
    requires event in callbacks
  {
    var kept := Without(callbacks[event], token);
    if kept == [] then callbacks - {event} else callbacks[event := kept]
  }

  lemma OffLists(live: seq<Reg>, callbacks: Callbacks, token: int, event: string)
    requires Distinct(live) && Lists(live, callbacks) && event in callbacks && Live(live, token, event)
    ensures Lists(Without(live, token), Dropped(callbacks, event, token))
  {
    forall e ensures Of(Without(live, token), e) == if e == event then
        Without(callbacks[event], token) else Of(live, e) {
      OfWithout(live, token, e);
      if e != event {
        OfMembers(live, e);
        forall r | r in Of(live, e) ensures r.token != token {
          if r.token == token {
            LiveMember(live, token, e);
            DistinctEvents(live, token, e, event);
          }
        }
        WithoutAbsent(Of(live, e), token);
      }
    }
  }

  lemma OffPoints(live: seq<Reg>, tokens: Tokens, token: int)
    requires Points(live, tokens)
    ensures Points(Without(live, token), tokens - {token})
  {
    WithoutMembers(live, token);
    forall k, e ensures Live(Without(live, token), k, e) <==> Live(live, k, e) && k != token {
      LiveMember(live, k, e);
      LiveMember(Without(live, token), k, e);
    }
  }

  lemma LiveIsListed(live: seq<Reg>, callbacks: Callbacks, token: int, event: string)
    requires Lists(live, callbacks) && Live(live, token, event)
    ensures event in callbacks
  {
    LiveMember(live, token, event);
    OfMembers(live, event);
  }

  lemma OffAllLists(live: seq<Reg>, callbacks: Callbacks, event: string)
    requires Lists(live, callbacks)
    ensures Lists(WithoutEvent(live, event), callbacks - {event})
  {
    forall e ensures Of(WithoutEvent(live, event), e) == if event == e then [] else Of(live, e) {
      OfWithoutEvent(live, event, e);
    }
  }

  lemma OffAllPoints(live: seq<Reg>, tokens: Tokens, event: string, gone: set<int>)
    requires Points(live, tokens) && Distinct(live)
    requires forall k :: k in gone <==> Live(live, k, event)
    ensures Points(WithoutEvent(live, event), tokens - gone)
  {
    WithoutEventMembers(live, event);
    forall k, e ensures Live(WithoutEvent(live, event), k, e) <==> Live(live, k, e) && k !in gone {
      LiveMember(live, k, e);
      LiveMember(WithoutEvent(live, event), k, e);
      if Live(live, k, e) && Live(live, k, event) { DistinctEvents(live, k, e, event); }
    }
  }

  lemma NothingToDrop(live: seq<Reg>, callbacks: Callbacks, event: string)
    requires Lists(live, callbacks) && event !in callbacks
    ensures WithoutEvent(live, event) == live
  {
    OfMembers(live, event);
    assert forall r | r in live :: r.event != event;
    WithoutEventAbsent(live, event);
  }

  lemma {:induction false} WithoutEventAbsent(live: seq<Reg>, event: string)
    requires forall r | r in live :: r.event != event
    ensures WithoutEvent(live, event) == live
  {
    if live != [] { WithoutEventAbsent(live[1..], event); }
  }

  // ---------------------------------------------------------------------------------------------
  // The client's index
  // ---------------------------------------------------------------------------------------------

  class CdpEvents {
    var callbacks: Callbacks
    var tokens: Tokens
    var nextToken: int
    var shutdown: bool
    ghost var live: seq<Reg>

    ghost predicate Valid()
      reads this
    {
      Represents(live, callbacks, tokens) && forall i | 0 <= i < |live| :: live[i].token < nextToken
    }

    constructor ()
      ensures Valid() && live == [] && nextToken == 1 && !shutdown
    {
      callbacks, tokens, nextToken, shutdown, live := map[], map[], 1, false, [];
    }

    method On(event: string, callback: nat) returns (token: int)
      requires Valid()
      modifies this`callbacks, this`tokens, this`nextToken, this`live
      ensures Valid() && token == old(nextToken) && nextToken == old(nextToken) + 1
      ensures live == old(live) + if shutdown then [] else [Reg(token, event, callback)]
    {
      token := nextToken;
      nextToken := nextToken + 1;
      if shutdown { return; }
      var r := Reg(token, event, callback);
      OnRepresents(live, callbacks, tokens, r);
      callbacks := callbacks[event := (if event in callbacks then callbacks[event] else []) + [r]];
      tokens := tokens[token := event];
      live := live + [r];
    }

    method Off(token: int)
      requires Valid()
      modifies this`callbacks, this`tokens, this`live
      ensures Valid() && live == Without(old(live), token)
    {
      WithoutMembers(live, token);
      if token !in tokens {
        NotPointed(live, tokens, token);
        return;
      }
      var event := tokens[token];
      LiveIsListed(live, callbacks, token, event);
      OffLists(live, callbacks, token, event);
      OffPoints(live, tokens, token);
      DistinctWithout(live, token);
      BelowMembers(live, Without(live, token), nextToken);
      tokens := tokens - {token};
      var kept := Without(callbacks[event], token);
      callbacks := callbacks[event := kept];
      if kept == [] { callbacks := callbacks - {event}; }
      live := Without(live, token);
    }

    method OffAll(event: string)
      requires Valid()
      modifies this`callbacks, this`tokens, this`live
      ensures Valid() && live == WithoutEvent(old(live), event)
    {
      hide Of, Distinct;
      if event !in callbacks {
        NothingToDrop(live, callbacks, event);
        return;
      }
      var listeners := callbacks[event];
      var i := 0;
      ghost var gone: set<int> := {};
      while i < |listeners|
        invariant 0 <= i <= |listeners| && callbacks == old(callbacks) && live == old(live)
        invariant forall k :: k in gone <==> TokenIn(listeners[..i], k)
        invariant tokens == old(tokens) - gone
      {
        TokenInMore(listeners, i);
        tokens := tokens - {listeners[i].token};
        gone := gone + {listeners[i].token};
        i := i + 1;
      }
      assert listeners[..i] == Of(live, event);
      GoneAreLive(live, event, gone);
      OffAllLists(live, callbacks, event);
      OffAllPoints(live, old(tokens), event, gone);
      DistinctWithoutEvent(live, event);
      WithoutEventMembers(live, event);
      BelowMembers(live, WithoutEvent(live, event), nextToken);
      callbacks := callbacks - {event};
      live := WithoutEvent(live, event);
    }

    /** The first half of `shutdown`: from now on no registration is accepted. Says whether this call is the first. */
    method BeginShutdown() returns (first: bool)
      requires Valid()
      modifies this`shutdown
      ensures Valid() && shutdown && first == !old(shutdown)
    {
      first := !shutdown;
      shutdown := true;
    }

    /** The second half, which only the first call reaches: everything is dropped. */
    method Clear()
      requires Valid() && shutdown
      modifies this`callbacks, this`tokens, this`live
      ensures Valid() && live == []
    {
      callbacks, tokens, live := map[], map[], [];
    }
  }

  lemma NotPointed(live: seq<Reg>, tokens: Tokens, token: int)
    requires Points(live, tokens) && token !in tokens
    ensures Without(live, token) == live
  {
    forall r | r in live ensures r.token != token {
      LiveMember(live, r.token, r.event);
    }
    WithoutAbsent(live, token);
  }

  lemma BelowMembers(live: seq<Reg>, some: seq<Reg>, n: int)
    requires forall i | 0 <= i < |live| :: live[i].token < n
    requires forall r | r in some :: r in live
    ensures forall i | 0 <= i < |some| :: some[i].token < n
  {
    forall i | 0 <= i < |some| ensures some[i].token < n { assert some[i] in live; }
  }

  predicate TokenIn(listeners: seq<Reg>, k: int) {
    exists r | r in listeners :: r.token == k
  }

  lemma TokenInMore(listeners: seq<Reg>, i: nat)
    requires i < |listeners|
    ensures forall k :: TokenIn(listeners[..i + 1], k) <==> TokenIn(listeners[..i], k) || k == listeners[i].token
  {
    assert listeners[..i + 1] == listeners[..i] + [listeners[i]];
  }

  lemma GoneAreLive(live: seq<Reg>, event: string, gone: set<int>)
    requires forall k :: k in gone <==> TokenIn(Of(live, event), k)
    ensures forall k :: k in gone <==> Live(live, k, event)
  {
    OfMembers(live, event);
    forall k ensures k in gone <==> Live(live, k, event) {
      LiveMember(live, k, event);
      if Live(live, k, event) {
        var r :| r in live && r.token == k && r.event == event;
        assert r in Of(live, event);
      }
    }
  }
}
