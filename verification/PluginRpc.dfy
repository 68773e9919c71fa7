/**
 The parent and a plugin's child process: requests, responses and notifications over two FIFO
 channels. The parent has any number of callers and one reader thread (`PluginProcess`); the child
 is one thread that serves messages in a loop, and that waits inside `rpc_client::call` in the
 middle of a handler or of a coroutine.
 */
module PluginRpc {

  type Id = nat

  datatype Outcome = Ok(value: string) | Err(text: string)

  datatype Msg = Request(id: Id, body: string) | Response(id: Id, outcome: Outcome) | Notify(body: string)

  /**
   A call of the parent: registered, written to the socket, given up, or returned. Calls of either side
   are numbered from 0, the parent's first being INIT; the id on the wire is one more.
   */
  datatype Call = Registered | Sent | GivenUp | Returned(outcome: Outcome)

  datatype Reader = RIdle | RHolds(id: Id, outcome: Outcome) | RServing(id: Id) | RDead

  /** The child's loop. Notifications are named by their position among all that it has read. */
  datatype Phase =
    | Idle
    | Coroutine
    | Serving(id: Id)                       // the handler runs for a request of the parent
    | Telling(note: nat)                    // the handler runs for a notification just read
    | Draining(batch: seq<nat>)             // between two deferred notifications
    | Batch(note: nat, batch: seq<nat>)     // the handler runs for a deferred notification
    | Dead(batch: seq<nat>)                 // with what it had not dispatched

  datatype Wait = NotWaiting | WaitingFor(id: Id)

  datatype Parent = Parent(calls: seq<Call>, pending: set<Id>, promise: map<Id, Outcome>, reader: Reader)

  datatype Child = Child(phase: Phase, wait: Wait, next: nat)

  /** The two directions of the socket. */
  datatype Wire = Wire(toChild: seq<Msg>, toParent: seq<Msg>)

  /** What has happened to requests: those of the parent, then those of the child. */
  datatype History = History(
    started: set<Id>,
    dropped: set<Id>,
    childRuns: map<Id, Outcome>,
    readBack: set<Id>,                      // responses the reader has taken off the channel
    parentStarted: set<Id>,
    parentRuns: map<Id, Outcome>,
    childGot: map<Id, Outcome>
  )

  /** What has happened to the notifications the child read. */
  datatype Notes = Notes(
    arrivals: seq<string>,
    deferred: seq<nat>,
    direct: seq<nat>,                       // dispatched straight from the loop
    drained: seq<nat>,                      // dispatched after being deferred
    log: seq<nat>,                          // all dispatches in order
    overtaken: bool                         // some notification was dispatched while others were deferred
  )

  datatype State = State(parent: Parent, child: Child, wire: Wire, hist: History, notes: Notes)

  const INIT := State(Parent([], {}, map[], RIdle), Child(Idle, NotWaiting, 0), Wire([], []),
                      History({}, {}, map[], {}, {}, map[], map[]), Notes([], [], [], [], [], false))

  datatype Step =
    // callers of the parent
    | Call
    | Send(id: Id, body: string)
    | SendFail(id: Id)
    | Timeout(id: Id)
    | Return(id: Id)
    | TellChild(body: string)
    // the parent's reader thread
    | Read
    | Settle
    | Serve(outcome: Outcome)
    | ServeUnsent(outcome: Outcome)         // the handler ran, the response could not be sent
    | ReaderDies
    | Destroy                               // the end of the destructor, after the reader was joined
    // the child
    | Loop
    | Resume
    | Yield
    | Respond(outcome: Outcome)
    | RespondUnsent(outcome: Outcome)
    | Told
    | DrainNext
    | BatchTold
    | ChildCall(body: string)
    | ChildCallUnsent                       // `call` throws before it waits
    | ChildReads
    | ChildLost                             // `call` throws while it waits; the caller goes on
    | TellParent(body: string)
    | ChildDies

  predicate At(p: Parent, id: Id, c: Call) {
    id < |p.calls| && p.calls[id] == c
  }

  /** Lua code of the plugin is running, so that it may call and notify the parent. */
  predicate Running(p: Phase) {
    p.Coroutine? || p.Serving? || p.Telling? || p.Batch?
  }

  predicate Enabled(s: State, t: Step) {
    var p, c, w := s.parent, s.child, s.wire;
    match t
    case Call => true
    case Send(id, _) => At(p, id, Registered)
    case SendFail(id) => At(p, id, Registered)
    case Timeout(id) => At(p, id, Sent)
    case Return(id) => At(p, id, Sent) && id in p.promise
    case TellChild(_) => true
    case Read => p.reader.RIdle? && w.toParent != []
    case Settle => p.reader.RHolds?
    case Serve(_) => p.reader.RServing?
    case ServeUnsent(_) => p.reader.RServing?
    case ReaderDies => p.reader.RIdle?
    case Destroy => p.reader.RDead?
    case Loop => c.phase.Idle? && w.toChild != []
    case Resume => c.phase.Idle?
    case Yield => c.phase.Coroutine? && c.wait.NotWaiting?
    case Respond(_) => c.phase.Serving? && c.wait.NotWaiting?
    case RespondUnsent(_) => c.phase.Serving? && c.wait.NotWaiting?
    case Told => c.phase.Telling? && c.wait.NotWaiting?
    case DrainNext => c.phase.Draining?
    case BatchTold => c.phase.Batch? && c.wait.NotWaiting?
    case ChildCall(_) => Running(c.phase) && c.wait.NotWaiting?
    case ChildCallUnsent => Running(c.phase) && c.wait.NotWaiting?
    case ChildReads => c.wait.WaitingFor? && w.toChild != []
    case ChildLost => c.wait.WaitingFor?
    case TellParent(_) => Running(c.phase) && c.wait.NotWaiting?
    case ChildDies => !c.phase.Dead?
  }

  /** What a batch still has to dispatch. */
  function Rest(p: Phase): seq<nat> {
    match p
    case Draining(batch) => batch
    case Batch(_, batch) => batch
    case Dead(batch) => batch
    case _ => []
  }

  const DISCONNECTED := Err("child disconnected")
  const TERMINATED := Err("plugin process terminated")

  /** Every pending call fails when the reader's loop ends, and again when the process object is destroyed. */
  function FailAll(promise: map<Id, Outcome>, pending: set<Id>, o: Outcome): map<Id, Outcome> {
    promise + map id | id in pending :: o
  }

  /** The parent's side of a step. */
  function NextParent(s: State, t: Step): Parent
    requires Enabled(s, t)
  {
    var p := s.parent;
    match t
    case Call => p.(calls := p.calls + [Registered], pending := p.pending + {|p.calls|})
    case Send(id, b) => p.(calls := p.calls[id := Sent])
    case SendFail(id) => p.(calls := p.calls[id := GivenUp], pending := p.pending - {id})
    case Timeout(id) => p.(calls := p.calls[id := GivenUp], pending := p.pending - {id})
    case Return(id) => p.(calls := p.calls[id := Returned(p.promise[id])])
    case Read =>
      var m := s.wire.toParent[0];
      if m.Response? && m.id in p.pending then p.(pending := p.pending - {m.id}, reader := RHolds(m.id, m.outcome))
      else if m.Request? then p.(reader := RServing(m.id))
      else p
    case Settle => p.(promise := p.promise[p.reader.id := p.reader.outcome], reader := RIdle)
    case Serve(_) => p.(reader := RIdle)
    case ServeUnsent(_) => p.(reader := RIdle)
    case ReaderDies => p.(promise := FailAll(p.promise, p.pending, DISCONNECTED), pending := {}, reader := RDead)
    case Destroy => p.(promise := FailAll(p.promise, p.pending, TERMINATED), pending := {})
    case _ => p
  }

  function NextChild(s: State, t: Step): Child
    requires Enabled(s, t)
  {
    var c := s.child;
    match t
    case Loop =>
      (match s.wire.toChild[0]
       case Request(id, _) => c.(phase := Serving(id))
       case Notify(_) => c.(phase := Telling(|s.notes.arrivals|))
       case Response(_, _) => c.(phase := Draining([])))
    case Resume => c.(phase := Coroutine)
    case Yield => c.(phase := Idle)
    case Respond(_) => c.(phase := Draining([]))
    case RespondUnsent(_) => c.(phase := Draining([]))
    case Told => c.(phase := Draining([]))
    case DrainNext =>
      if c.phase.batch != [] then c.(phase := Batch(c.phase.batch[0], c.phase.batch[1..]))
      else if s.notes.deferred != [] then c.(phase := Draining(s.notes.deferred))
      else c.(phase := Idle)
    case BatchTold => c.(phase := Draining(c.phase.batch))
    case ChildCall(_) => c.(wait := WaitingFor(c.next), next := c.next + 1)
    case ChildCallUnsent => c.(next := c.next + 1)
    case ChildReads => if GotAnswer(s) then c.(wait := NotWaiting) else c
    case ChildLost => c.(wait := NotWaiting)
    case ChildDies => c.(phase := Dead(Rest(c.phase)), wait := NotWaiting)
    case _ => c
  }

  /** The message at the head is the response that the child waits for. */
  predicate GotAnswer(s: State) {
    && s.child.wait.WaitingFor? && s.wire.toChild != []
    && s.wire.toChild[0].Response? && s.wire.toChild[0].id == s.child.wait.id
  }

  function NextWire(s: State, t: Step): Wire
    requires Enabled(s, t)
  {
    var w := s.wire;
    match t
    case Send(id, b) => w.(toChild := w.toChild + [Request(id, b)])
    case TellChild(b) => w.(toChild := w.toChild + [Notify(b)])
    case Serve(o) => w.(toChild := w.toChild + [Response(s.parent.reader.id, o)])
    case Loop => w.(toChild := w.toChild[1..])
    case ChildReads => w.(toChild := w.toChild[1..])
    case Read => w.(toParent := w.toParent[1..])
    case Respond(o) => w.(toParent := w.toParent + [Response(s.child.phase.id, o)])
    case ChildCall(b) => w.(toParent := w.toParent + [Request(s.child.next, b)])
    case TellParent(b) => w.(toParent := w.toParent + [Notify(b)])
    case _ => w
  }

  function NextHistory(s: State, t: Step): History
    requires Enabled(s, t)
  {
    var h := s.hist;
    match t
    case Read =>
      (match s.wire.toParent[0]
       case Response(id, _) => h.(readBack := h.readBack + {id})
       case Request(id, _) => h.(parentStarted := h.parentStarted + {id})
       case Notify(_) => h)
    case Serve(o) => h.(parentRuns := h.parentRuns[s.parent.reader.id := o])
    case ServeUnsent(o) => h.(parentRuns := h.parentRuns[s.parent.reader.id := o])
    case Loop => if s.wire.toChild[0].Request? then h.(started := h.started + {s.wire.toChild[0].id}) else h
    case Respond(o) => h.(childRuns := h.childRuns[s.child.phase.id := o])
    case RespondUnsent(o) => h.(childRuns := h.childRuns[s.child.phase.id := o])
    case ChildReads =>
      var m := s.wire.toChild[0];
      if GotAnswer(s) then h.(childGot := h.childGot[m.id := m.outcome])
      else if m.Request? then h.(dropped := h.dropped + {m.id})
      else h
    case _ => h
  }

  function NextNotes(s: State, t: Step): Notes
    requires Enabled(s, t)
  {
    var n, k := s.notes, |s.notes.arrivals|;
    match t
    case Loop =>
      if s.wire.toChild[0].Notify? then
        n.(arrivals := n.arrivals + [s.wire.toChild[0].body], direct := n.direct + [k], log := n.log + [k],
           overtaken := n.overtaken || n.deferred != [])
      else n
    case ChildReads =>
      if s.wire.toChild[0].Notify? then
        n.(arrivals := n.arrivals + [s.wire.toChild[0].body], deferred := n.deferred + [k])
      else n
    case DrainNext =>
      if s.child.phase.batch != [] then
        n.(drained := n.drained + [s.child.phase.batch[0]], log := n.log + [s.child.phase.batch[0]])
      else n.(deferred := [])
    case _ => n
  }

  function Next(s: State, t: Step): State
    requires Enabled(s, t)
  {
    State(NextParent(s, t), NextChild(s, t), NextWire(s, t), NextHistory(s, t), NextNotes(s, t))
  }

  // ---------------------------------------------------------------------------------------------
  // Invariant: correlation
  // ---------------------------------------------------------------------------------------------

  /** Requests on a channel are new to the reader of the channel, and no two have the same id. */
  predicate FreshRequests(ch: seq<Msg>, next: nat, seen: set<Id>) {
    && (forall i | 0 <= i < |ch| && ch[i].Request? :: ch[i].id < next && ch[i].id !in seen)
    && (forall i, j | 0 <= i < j < |ch| && ch[i].Request? && ch[j].Request? :: ch[i].id != ch[j].id)
  }

  /** Responses on a channel are the results of handler runs, one for each run and not yet taken. */
  predicate TrueResponses(ch: seq<Msg>, runs: map<Id, Outcome>, taken: set<Id>) {
    && (forall i | 0 <= i < |ch| && ch[i].Response? ::
          ch[i].id in runs && runs[ch[i].id] == ch[i].outcome && ch[i].id !in taken)
    && (forall i, j | 0 <= i < j < |ch| && ch[i].Response? && ch[j].Response? :: ch[i].id != ch[j].id)
  }

  function Unsent(calls: seq<Call>): set<Id> {
    set id | 0 <= id < |calls| && calls[id].Registered?
  }

  /** The parent's requests: not sent yet, on their way, started by the child or dropped by it, one of these each. */
  predicate Requests(s: State) {
    && FreshRequests(s.wire.toChild, |s.parent.calls|, s.hist.started + s.hist.dropped + Unsent(s.parent.calls))
    && s.hist.started !! s.hist.dropped && s.hist.started + s.hist.dropped !! Unsent(s.parent.calls)
    && forall id | id in s.hist.started + s.hist.dropped :: id < |s.parent.calls|
  }

  predicate Responses(s: State) {
    && TrueResponses(s.wire.toParent, s.hist.childRuns, s.hist.readBack)
    && (forall id | id in s.hist.childRuns :: id in s.hist.started)
    && (forall id | id in s.hist.readBack :: id in s.hist.childRuns)
    && (s.child.phase.Serving? ==> s.child.phase.id in s.hist.started && s.child.phase.id !in s.hist.childRuns)
  }

  predicate ChildRequests(s: State) {
    && FreshRequests(s.wire.toParent, s.child.next, s.hist.parentStarted)
    && (forall id | id in s.hist.parentStarted :: id < s.child.next)
  }

  predicate ChildResponses(s: State) {
    && TrueResponses(s.wire.toChild, s.hist.parentRuns, s.hist.childGot.Keys)
    && (forall id | id in s.hist.parentRuns :: id in s.hist.parentStarted)
    && (s.parent.reader.RServing? ==>
          s.parent.reader.id in s.hist.parentStarted && s.parent.reader.id !in s.hist.parentRuns)
    && (forall id | id in s.hist.childGot :: id in s.hist.parentRuns && s.hist.parentRuns[id] == s.hist.childGot[id])
    && (s.child.wait.WaitingFor? ==> s.child.wait.id < s.child.next && Running(s.child.phase))
  }

  /** What a promise holds is the outcome of the handler run for that call, or the loss of the child. */
  predicate Promises(s: State) {
    && (forall id | id in s.parent.pending :: id < |s.parent.calls| && id !in s.parent.promise)
    && (forall id | id in s.parent.promise ::
          id < |s.parent.calls| && id !in s.parent.pending && FromRun(s, id, s.parent.promise[id]))
    && (s.parent.reader.RHolds? ==>
          && s.parent.reader.id < |s.parent.calls|
          && s.parent.reader.id !in s.parent.pending && s.parent.reader.id !in s.parent.promise
          && s.parent.reader.id in s.hist.childRuns && s.hist.childRuns[s.parent.reader.id] == s.parent.reader.outcome)
    && (forall id | 0 <= id < |s.parent.calls| && s.parent.calls[id].Returned? ::
          id in s.parent.promise && s.parent.promise[id] == s.parent.calls[id].outcome)
  }

  predicate FromRun(s: State, id: Id, o: Outcome) {
    || (id in s.hist.childRuns && s.hist.childRuns[id] == o)
    || (s.parent.reader.RDead? && (o == DISCONNECTED || o == TERMINATED))
  }

  // ---------------------------------------------------------------------------------------------
  // Invariant: notifications
  // ---------------------------------------------------------------------------------------------

  predicate Increasing(q: seq<nat>) {
    forall i, j | 0 <= i < j < |q| :: q[i] < q[j]
  }

  /** Deferred notifications whose turn has not come: the rest of the batch, then the deferred list. */
  function Waiting(s: State): seq<nat> {
    Rest(s.child.phase) + s.notes.deferred
  }

  /** All notifications that were ever deferred, in the order in which they are dispatched. */
  function Queue(s: State): seq<nat> {
    s.notes.drained + Waiting(s)
  }

  /** Numbers below `n`, each in exactly one of two increasing sequences. */
  predicate Split(a: seq<nat>, b: seq<nat>, n: nat) {
    && Increasing(a) && Increasing(b)
    && (forall k | k in a :: k < n && k !in b)
    && (forall k | k in b :: k < n)
    && (forall k | 0 <= k < n :: k in a || k in b)
  }

  /**
   Every notification read so far was dispatched from the loop, or dispatched after being deferred,
   or still waits; each exactly one of these, once.
   */
  predicate Conserved(s: State) {
    Split(s.notes.direct, Queue(s), |s.notes.arrivals|)
  }

  /** The log is the two kinds of dispatches merged; it is in arrival order unless one overtook. */
  ghost predicate Logged(s: State) {
    && multiset(s.notes.log) == multiset(s.notes.direct) + multiset(s.notes.drained)
    && (Increasing(s.notes.log + Waiting(s)) <==> !s.notes.overtaken)
  }

  ghost predicate Inv(s: State) {
    && Requests(s) && Responses(s) && ChildRequests(s) && ChildResponses(s) && Promises(s)
    && Conserved(s) && Logged(s)
  }

  lemma InitInv()
    ensures Inv(INIT)
  {
  }

  // ---------------------------------------------------------------------------------------------
  // Channels
  // ---------------------------------------------------------------------------------------------

  lemma PopRequest(ch: seq<Msg>, next: nat, seen: set<Id>)
    requires FreshRequests(ch, next, seen) && ch != []
    ensures FreshRequests(ch[1..], next, seen)
    ensures ch[0].Request? ==> ch[0].id < next && ch[0].id !in seen && FreshRequests(ch[1..], next, seen + {ch[0].id})
  {
  }

  lemma PushOther(ch: seq<Msg>, m: Msg, next: nat, seen: set<Id>)
    requires FreshRequests(ch, next, seen) && !m.Request?
    ensures FreshRequests(ch + [m], next, seen)
  {
  }

  /** A request leaves the set of those that may not be on the channel, and goes onto it. */
  lemma PushRequest(ch: seq<Msg>, m: Msg, next: nat, seen: set<Id>, seen': set<Id>, next': nat)
    requires FreshRequests(ch, next, seen) && m.Request? && m.id < next' && next <= next'
    requires m.id in seen || m.id >= next
    requires seen' <= seen && m.id !in seen'
    ensures FreshRequests(ch + [m], next', seen')
  {
  }

  /** Fewer ids are excluded, or more are known. */
  lemma WeakenRequests(ch: seq<Msg>, next: nat, seen: set<Id>, next': nat, seen': set<Id>)
    requires FreshRequests(ch, next, seen) && next <= next'
    requires forall id | id in seen' :: id in seen || id >= next
    ensures FreshRequests(ch, next', seen')
  {
  }

  lemma PopResponse(ch: seq<Msg>, runs: map<Id, Outcome>, taken: set<Id>)
    requires TrueResponses(ch, runs, taken) && ch != []
    ensures TrueResponses(ch[1..], runs, taken)
    ensures ch[0].Response? ==>
              && ch[0].id in runs && runs[ch[0].id] == ch[0].outcome && ch[0].id !in taken
              && TrueResponses(ch[1..], runs, taken + {ch[0].id})
  {
  }

  lemma PushNoResponse(ch: seq<Msg>, m: Msg, runs: map<Id, Outcome>, taken: set<Id>)
    requires TrueResponses(ch, runs, taken) && !m.Response?
    ensures TrueResponses(ch + [m], runs, taken)
  {
  }

  lemma PushResponse(ch: seq<Msg>, id: Id, o: Outcome, runs: map<Id, Outcome>, taken: set<Id>)
    requires TrueResponses(ch, runs, taken) && id !in runs && id !in taken
    ensures TrueResponses(ch + [Response(id, o)], runs[id := o], taken)
  {
  }

  // ---------------------------------------------------------------------------------------------
  // Every step keeps the invariant
  // ---------------------------------------------------------------------------------------------

  /** A run whose response was not sent adds nothing to the channel. */
  lemma MoreRuns(ch: seq<Msg>, id: Id, o: Outcome, runs: map<Id, Outcome>, taken: set<Id>)
    requires TrueResponses(ch, runs, taken) && id !in runs
    ensures TrueResponses(ch, runs[id := o], taken)
  {
  }

  lemma UnsentAfter(calls: seq<Call>, id: Id, c: Call)
    requires id < |calls| && !c.Registered?
    ensures Unsent(calls[id := c]) == Unsent(calls) - {id}
  {
  }

  /** The steps that change the parent's calls. */
  lemma KeepsRequestsCalling(s: State, t: Step)
    requires Requests(s) && Enabled(s, t) && (t.Call? || t.Send? || t.SendFail? || t.Timeout? || t.Return?)
    ensures Requests(Next(s, t))
  {
    hide FreshRequests, Unsent, NextChild, NextNotes;
    var (calls, done) := (s.parent.calls, s.hist.started + s.hist.dropped);
    var (n, seen) := (|calls|, done + Unsent(calls));
    match t
    case Call =>
      NewCall(calls);
      WeakenRequests(s.wire.toChild, n, seen, n + 1, done + Unsent(calls + [Registered]));
    case Send(id, b) =>
      WasUnsent(calls, id);
      UnsentAfter(calls, id, Sent);
      PushRequest(s.wire.toChild, Request(id, b), n, seen, done + (Unsent(calls) - {id}), n);
    case SendFail(id) =>
      UnsentAfter(calls, id, GivenUp);
      WeakenRequests(s.wire.toChild, n, seen, n, done + (Unsent(calls) - {id}));
    case Timeout(id) =>
      UnsentAfter(calls, id, GivenUp);
      WeakenRequests(s.wire.toChild, n, seen, n, done + (Unsent(calls) - {id}));
    case Return(id) =>
      UnsentAfter(calls, id, Returned(s.parent.promise[id]));
      WeakenRequests(s.wire.toChild, n, seen, n, done + (Unsent(calls) - {id}));
  }

  lemma KeepsRequests(s: State, t: Step)
    requires Requests(s) && Enabled(s, t)
    ensures Requests(Next(s, t))
  {
    hide FreshRequests, Unsent, NextChild, NextNotes;
    var seen := s.hist.started + s.hist.dropped + Unsent(s.parent.calls);
    match t
    case TellChild(b) => PushOther(s.wire.toChild, Notify(b), |s.parent.calls|, seen);
    case Serve(o) => PushOther(s.wire.toChild, Response(s.parent.reader.id, o), |s.parent.calls|, seen);
    case Loop => TakeRequest(s, seen);
    case ChildReads => TakeRequest(s, seen);
    case _ => if t.Call? || t.Send? || t.SendFail? || t.Timeout? || t.Return? { KeepsRequestsCalling(s, t); }
  }

  lemma NewCall(calls: seq<Call>)
    ensures Unsent(calls + [Registered]) == Unsent(calls) + {|calls|}
  {
  }

  lemma WasUnsent(calls: seq<Call>, id: Id)
    requires id < |calls| && calls[id].Registered?
    ensures id in Unsent(calls)
  {
  }

  lemma TakeRequest(s: State, seen: set<Id>)
    requires FreshRequests(s.wire.toChild, |s.parent.calls|, seen) && s.wire.toChild != []
    requires seen == s.hist.started + s.hist.dropped + Unsent(s.parent.calls)
    ensures FreshRequests(s.wire.toChild[1..], |s.parent.calls|, seen)
    ensures s.wire.toChild[0].Request? ==>
              var id := s.wire.toChild[0].id;
              && id < |s.parent.calls| && id !in seen
              && FreshRequests(s.wire.toChild[1..], |s.parent.calls|,
                               (s.hist.started + {id}) + s.hist.dropped + Unsent(s.parent.calls))
              && FreshRequests(s.wire.toChild[1..], |s.parent.calls|,
                               s.hist.started + (s.hist.dropped + {id}) + Unsent(s.parent.calls))
  {
    hide FreshRequests, Unsent;
    PopRequest(s.wire.toChild, |s.parent.calls|, seen);
    if s.wire.toChild[0].Request? {
      var id := s.wire.toChild[0].id;
      assert (s.hist.started + {id}) + s.hist.dropped + Unsent(s.parent.calls) == seen + {id};
      assert s.hist.started + (s.hist.dropped + {id}) + Unsent(s.parent.calls) == seen + {id};
    }
  }

  /** The steps of the child that write to the parent. */
  predicate FromChild(t: Step) {
    t.Respond? || t.RespondUnsent? || t.ChildCall? || t.TellParent?
  }

  lemma KeepsResponsesFromChild(s: State, t: Step)
    requires Responses(s) && Enabled(s, t) && FromChild(t)
    ensures Responses(Next(s, t))
  {
    hide TrueResponses, NextParent, NextNotes;
    var (ch, runs, taken) := (s.wire.toParent, s.hist.childRuns, s.hist.readBack);
    match t
    case Respond(o) => PushResponse(ch, s.child.phase.id, o, runs, taken);
    case RespondUnsent(o) => MoreRuns(ch, s.child.phase.id, o, runs, taken);
    case ChildCall(b) => PushNoResponse(ch, Request(s.child.next, b), runs, taken);
    case TellParent(b) => PushNoResponse(ch, Notify(b), runs, taken);
  }

  lemma KeepsResponses(s: State, t: Step)
    requires Requests(s) && Responses(s) && Enabled(s, t)
    ensures Responses(Next(s, t))
  {
    hide TrueResponses, FreshRequests, Requests, NextParent, NextNotes;
    if FromChild(t) {
      KeepsResponsesFromChild(s, t);
    } else if t.Read? {
      PopResponse(s.wire.toParent, s.hist.childRuns, s.hist.readBack);
    } else if t.Loop? {
      StartsNew(s);
    }
  }

  lemma StartsNew(s: State)
    requires Requests(s) && Responses(s) && s.wire.toChild != []
    ensures s.wire.toChild[0].Request? ==> s.wire.toChild[0].id !in s.hist.childRuns
  {
    PopRequest(s.wire.toChild, |s.parent.calls|, s.hist.started + s.hist.dropped + Unsent(s.parent.calls));
  }

  lemma KeepsChildRequests(s: State, t: Step)
    requires Inv(s) && Enabled(s, t)
    ensures ChildRequests(Next(s, t))
  {
    hide TrueResponses, FreshRequests, Requests, Responses, ChildResponses, Promises, Conserved, Logged;
    match t
    case Read => PopRequest(s.wire.toParent, s.child.next, s.hist.parentStarted);
    case Respond(o) => PushOther(s.wire.toParent, Response(s.child.phase.id, o), s.child.next, s.hist.parentStarted);
    case TellParent(b) => PushOther(s.wire.toParent, Notify(b), s.child.next, s.hist.parentStarted);
    case ChildCallUnsent =>
      WeakenRequests(s.wire.toParent, s.child.next, s.hist.parentStarted, s.child.next + 1, s.hist.parentStarted);
    case ChildCall(b) =>
      PushRequest(s.wire.toParent, Request(s.child.next, b), s.child.next, s.hist.parentStarted,
                  s.hist.parentStarted, s.child.next + 1);
    case _ =>
  }

  /** The steps of the parent that write to the child or run a handler for it. */
  predicate FromParent(t: Step) {
    t.Send? || t.TellChild? || t.Serve? || t.ServeUnsent? || t.Read?
  }

  lemma KeepsChildResponsesFromParent(s: State, t: Step)
    requires ChildRequests(s) && ChildResponses(s) && Enabled(s, t) && FromParent(t)
    ensures ChildResponses(Next(s, t))
  {
    hide TrueResponses, FreshRequests, NextNotes;
    var (ch, runs, got) := (s.wire.toChild, s.hist.parentRuns, s.hist.childGot.Keys);
    match t
    case Send(id, b) => PushNoResponse(ch, Request(id, b), runs, got);
    case TellChild(b) => PushNoResponse(ch, Notify(b), runs, got);
    case Serve(o) => PushResponse(ch, s.parent.reader.id, o, runs, got);
    case ServeUnsent(o) => MoreRuns(ch, s.parent.reader.id, o, runs, got);
    case Read => PopRequestOf(s);
  }

  lemma KeepsChildResponses(s: State, t: Step)
    requires ChildRequests(s) && ChildResponses(s) && Enabled(s, t)
    ensures ChildResponses(Next(s, t))
  {
    hide TrueResponses, FreshRequests, NextNotes, ChildRequests;
    if FromParent(t) {
      KeepsChildResponsesFromParent(s, t);
    } else if t.ChildReads? {
      KeepsChildResponsesReading(s);
    } else if t.Loop? {
      PopResponse(s.wire.toChild, s.hist.parentRuns, s.hist.childGot.Keys);
    }
  }

  lemma KeepsChildResponsesReading(s: State)
    requires ChildResponses(s) && Enabled(s, ChildReads)
    ensures ChildResponses(Next(s, ChildReads))
  {
    hide TrueResponses, NextNotes;
    var got := s.hist.childGot.Keys;
    PopResponse(s.wire.toChild, s.hist.parentRuns, got);
    var m := s.wire.toChild[0];
    if m.Response? { assert s.hist.childGot[m.id := m.outcome].Keys == got + {m.id}; }
  }

  lemma PopRequestOf(s: State)
    requires ChildRequests(s) && ChildResponses(s) && s.wire.toParent != []
    ensures s.wire.toParent[0].Request? ==> s.wire.toParent[0].id !in s.hist.parentRuns
  {
    PopRequest(s.wire.toParent, s.child.next, s.hist.parentStarted);
  }

  lemma KeepsPromisesCalling(s: State, t: Step)
    requires Promises(s) && Enabled(s, t) && (t.Call? || t.Send? || t.SendFail? || t.Timeout? || t.Return?)
    ensures Promises(Next(s, t))
  {
    hide NextChild, NextNotes, NextWire;
  }

  lemma KeepsPromisesReading(s: State, t: Step)
    requires Responses(s) && Promises(s) && Enabled(s, t) && (t.Read? || t.Settle? || t.ReaderDies? || t.Destroy?)
    ensures Promises(Next(s, t))
  {
    hide TrueResponses, NextChild, NextNotes, NextWire;
    if t.Read? { PopResponse(s.wire.toParent, s.hist.childRuns, s.hist.readBack); }
  }

  lemma KeepsPromises(s: State, t: Step)
    requires Responses(s) && Promises(s) && Enabled(s, t)
    ensures Promises(Next(s, t))
  {
    hide TrueResponses, NextChild, NextNotes, NextWire;
    if t.Call? || t.Send? || t.SendFail? || t.Timeout? || t.Return? {
      KeepsPromisesCalling(s, t);
    } else if t.Read? || t.Settle? || t.ReaderDies? || t.Destroy? {
      KeepsPromisesReading(s, t);
    }
  }

  /** The number a step adds to the notifications, and where it goes. */
  ghost predicate Reads(s: State, t: Step)
    requires Enabled(s, t)
  {
    (t.Loop? || t.ChildReads?) && s.wire.toChild[0].Notify?
  }

  /** What a step does to the numbers of notifications. */
  ghost predicate QueuesOne(s: State, t: Step)
    requires Enabled(s, t)
  {
    var s', k := Next(s, t), |s.notes.arrivals|;
    && |s'.notes.arrivals| == k + (if Reads(s, t) then 1 else 0)
    && s'.notes.direct == s.notes.direct + (if Reads(s, t) && t.Loop? then [k] else [])
    && Queue(s') == Queue(s) + (if Reads(s, t) && t.ChildReads? then [k] else [])
  }

  lemma QueueAfterDrain(s: State)
    requires Enabled(s, DrainNext)
    ensures QueuesOne(s, DrainNext)
  {
    hide NextParent, NextWire, NextHistory;
    var (s', b) := (Next(s, DrainNext), s.child.phase.batch);
    if b != [] {
      assert [b[0]] + b[1..] == b;
      assert s'.notes.drained + (b[1..] + s.notes.deferred) == s.notes.drained + (b + s.notes.deferred);
    } else {
      assert [] + s.notes.deferred == s.notes.deferred == s.notes.deferred + [];
    }
  }

  lemma QueueAfterRead(s: State, t: Step)
    requires Enabled(s, t) && (t.Loop? || t.ChildReads?)
    ensures QueuesOne(s, t)
  {
    hide NextParent, NextWire, NextHistory;
    var k := |s.notes.arrivals|;
    assert Rest(s.child.phase) + (s.notes.deferred + [k]) == Waiting(s) + [k];
    assert s.notes.drained + (Waiting(s) + [k]) == Queue(s) + [k];
  }

  lemma QueueAfter(s: State, t: Step)
    requires Enabled(s, t)
    ensures QueuesOne(s, t)
  {
    hide NextParent, NextWire, NextHistory;
    if t.DrainNext? {
      QueueAfterDrain(s);
    } else if t.Loop? || t.ChildReads? {
      QueueAfterRead(s, t);
    }
  }

  lemma KeepsConserved(s: State, t: Step)
    requires Inv(s) && Enabled(s, t)
    ensures Conserved(Next(s, t))
  {
    hide Requests, Responses, ChildRequests, ChildResponses, Promises, Logged, Next, Queue;
    QueueAfter(s, t);
    var k := |s.notes.arrivals|;
    if Reads(s, t) {
      if t.Loop? { SplitLeft(s.notes.direct, Queue(s), k); } else { SplitRight(s.notes.direct, Queue(s), k); }
    }
    assert s.notes.direct + [] == s.notes.direct && Queue(s) + [] == Queue(s);
  }

  lemma SplitLeft(a: seq<nat>, b: seq<nat>, n: nat)
    requires Split(a, b, n)
    ensures Split(a + [n], b, n + 1)
  {
    IncreasingPush(a, n);
  }

  lemma SplitRight(a: seq<nat>, b: seq<nat>, n: nat)
    requires Split(a, b, n)
    ensures Split(a, b + [n], n + 1)
  {
    IncreasingPush(b, n);
  }

  lemma IncreasingPush(a: seq<nat>, n: nat)
    requires forall i | i in a :: i < n
    ensures Increasing(a + [n]) <==> Increasing(a)
  {
    assert forall i | 0 <= i < |a| :: a[i] in a && a[i] == (a + [n])[i];
  }

  /** What a step does to the log and to what waits. */
  ghost predicate LogsOne(s: State, t: Step)
    requires Enabled(s, t)
  {
    var s', k := Next(s, t), |s.notes.arrivals|;
    if Reads(s, t) && t.Loop? then
      && s'.notes.log == s.notes.log + [k] && Waiting(s') == Waiting(s) == s.notes.deferred
      && (s'.notes.overtaken <==> s.notes.overtaken || s.notes.deferred != [])
    else
      && s'.notes.overtaken == s.notes.overtaken
      && s'.notes.log + Waiting(s') == s.notes.log + Waiting(s) + (if Reads(s, t) then [k] else [])
  }

  lemma LogAfterDrain(s: State)
    requires Enabled(s, DrainNext)
    ensures LogsOne(s, DrainNext)
  {
    hide NextParent, NextWire, NextHistory;
    var (s', b) := (Next(s, DrainNext), s.child.phase.batch);
    if b != [] {
      assert [b[0]] + b[1..] == b;
      assert s'.notes.log + (b[1..] + s.notes.deferred) == s.notes.log + (b + s.notes.deferred);
    } else {
      assert [] + s.notes.deferred == s.notes.deferred == s.notes.deferred + [];
    }
  }

  lemma LogAfterRead(s: State, t: Step)
    requires Enabled(s, t) && (t.Loop? || t.ChildReads?)
    ensures LogsOne(s, t)
  {
    hide NextParent, NextWire, NextHistory;
    var k := |s.notes.arrivals|;
    assert [] + s.notes.deferred == s.notes.deferred;
    assert Rest(s.child.phase) + (s.notes.deferred + [k]) == Waiting(s) + [k];
    assert s.notes.log + (Waiting(s) + [k]) == s.notes.log + Waiting(s) + [k];
  }

  lemma LogAfterOther(s: State, t: Step)
    requires Enabled(s, t) && !t.DrainNext? && !t.Loop? && !t.ChildReads?
    ensures LogsOne(s, t)
  {
    hide NextParent, NextWire, NextHistory;
  }

  lemma LogAfter(s: State, t: Step)
    requires Enabled(s, t)
    ensures LogsOne(s, t)
  {
    hide Enabled, LogsOne;
    if t.DrainNext? {
      LogAfterDrain(s);
    } else if t.Loop? || t.ChildReads? {
      LogAfterRead(s, t);
    } else {
      LogAfterOther(s, t);
    }
  }

  /** A new largest number, behind the log or behind everything that waits. */
  lemma IncreasingAfter(log: seq<nat>, waiting: seq<nat>, k: nat)
    requires forall i | i in log + waiting :: i < k
    ensures Increasing(log + waiting + [k]) <==> Increasing(log + waiting)
    ensures Increasing(log + [k] + waiting) <==> Increasing(log + waiting) && waiting == []
  {
    var a, b := log + waiting, log + [k] + waiting;
    IncreasingPush(a, k);
    if waiting == [] {
      assert a == log && b == log + [k] == a + [k];
    } else {
      assert b[|log|] == k && b[|log| + 1] == waiting[0] && waiting[0] in log + waiting;
    }
  }

  lemma KeepsLogged(s: State, t: Step)
    requires Inv(s) && Enabled(s, t)
    ensures Logged(Next(s, t))
  {
    hide Requests, Responses, ChildRequests, ChildResponses, Promises, NextParent, NextChild, NextWire, NextHistory,
         Increasing, Waiting;
    LogAfter(s, t);
    var k := |s.notes.arrivals|;
    AllBelow(s);
    IncreasingAfter(s.notes.log, Waiting(s), k);
    assert s.notes.log + Waiting(s) + [] == s.notes.log + Waiting(s);
  }

  lemma AllBelow(s: State)
    requires Conserved(s) && Logged(s)
    ensures forall i | i in s.notes.log + Waiting(s) :: i < |s.notes.arrivals|
  {
    hide Increasing;
    forall i | i in s.notes.log + Waiting(s) ensures i in s.notes.direct || i in Queue(s) {
      if i in s.notes.log { assert i in multiset(s.notes.log); }
    }
  }

  lemma StepKeepsInv(s: State, t: Step)
    requires Inv(s) && Enabled(s, t)
    ensures Inv(Next(s, t))
  {
    hide Requests, Responses, ChildRequests, ChildResponses, Promises, Conserved, Logged, Next;
    KeepsRequests(s, t);
    KeepsResponses(s, t);
    KeepsChildRequests(s, t);
    KeepsChildResponses(s, t);
    KeepsPromises(s, t);
    KeepsConserved(s, t);
    KeepsLogged(s, t);
  }

  // ---------------------------------------------------------------------------------------------
  // Whole runs
  // ---------------------------------------------------------------------------------------------

  /** Some run of the two processes from the start: `steps` leads to `s`. */
  ghost predicate Leads(steps: seq<Step>, s: State)
    decreases |steps|
  {
    if steps == [] then s == INIT
    else
      var n := |steps| - 1;
      exists r :: Leads(steps[..n], r) && Enabled(r, steps[n]) && s == Next(r, steps[n])
  }

  /** A run has one state. */
  lemma {:induction false} OneState(steps: seq<Step>, p: State, q: State)
    requires Leads(steps, p) && Leads(steps, q)
    ensures p == q
    decreases |steps|
  {
    hide Enabled, Next;
    if steps != [] {
      var n := |steps| - 1;
      var r :| Leads(steps[..n], r) && Enabled(r, steps[n]) && p == Next(r, steps[n]);
      var u :| Leads(steps[..n], u) && Enabled(u, steps[n]) && q == Next(u, steps[n]);
      OneState(steps[..n], r, u);
    }
  }

  lemma {:induction false} RunsKeepInv(steps: seq<Step>, s: State)
    requires Leads(steps, s)
    ensures Inv(s)
    decreases |steps|
  {
    hide Inv, Enabled, Next;
    if steps == [] {
      InitInv();
    } else {
      var n := |steps| - 1;
      var r :| Leads(steps[..n], r) && Enabled(r, steps[n]) && s == Next(r, steps[n]);
      RunsKeepInv(steps[..n], r);
      StepKeepsInv(r, steps[n]);
    }
  }

  /**
   Correlation, in every run: a call of the parent that returned has the outcome of the one handler
   run for its own id, unless the child was lost or its object destroyed; a call of the child that
   returned has that of the parent's handler run for its own id; a request that was dropped gets no
   run; and on a channel there is at most one response for an id, and none for an id whose response
   was taken.
   */
  lemma CallsAreCorrelated(steps: seq<Step>, s: State)
    requires Leads(steps, s)
    ensures forall id | 0 <= id < |s.parent.calls| && s.parent.calls[id].Returned? ::
              FromRun(s, id, s.parent.calls[id].outcome)
    ensures forall id | id in s.hist.childGot :: id in s.hist.parentRuns && s.hist.parentRuns[id] == s.hist.childGot[id]
    ensures forall id | id in s.hist.dropped :: id !in s.hist.childRuns
    ensures TrueResponses(s.wire.toParent, s.hist.childRuns, s.hist.readBack)
    ensures TrueResponses(s.wire.toChild, s.hist.parentRuns, s.hist.childGot.Keys)
  {
    hide Leads, Conserved, Logged, TrueResponses, FreshRequests;
    RunsKeepInv(steps, s);
  }

  /** A handler run answers its request once: the id was not answered before. */
  lemma OneRunPerRequest(steps: seq<Step>, s: State, o: Outcome)
    requires Leads(steps, s)
    ensures Enabled(s, Respond(o)) ==> s.child.phase.id !in s.hist.childRuns
    ensures Enabled(s, Serve(o)) ==> s.parent.reader.id !in s.hist.parentRuns
    ensures Enabled(s, Settle) ==> s.parent.reader.id !in s.parent.promise
  {
    hide Leads, Conserved, Logged, TrueResponses, FreshRequests, Requests, ChildRequests;
    RunsKeepInv(steps, s);
  }

  /**
   Notifications, in every run: each one the child has read was dispatched exactly once or waits in
   the batch or the deferred list, and those that were deferred are dispatched in arrival order.
   */
  lemma NotificationsAreConserved(steps: seq<Step>, s: State, k: nat)
    requires Leads(steps, s) && k < |s.notes.arrivals|
    ensures multiset(s.notes.log + Waiting(s))[k] == 1
    ensures Increasing(s.notes.drained + Waiting(s))
  {
    hide Leads, Requests, Responses, ChildRequests, ChildResponses, Promises;
    RunsKeepInv(steps, s);
    IncreasingOnce(s.notes.direct, k);
    IncreasingOnce(Queue(s), k);
    assert multiset(Queue(s)) == multiset(s.notes.drained) + multiset(Waiting(s));
    assert multiset(s.notes.log + Waiting(s)) == multiset(s.notes.log) + multiset(Waiting(s));
  }

  lemma {:induction false} IncreasingOnce(a: seq<nat>, k: nat)
    requires Increasing(a)
    ensures multiset(a)[k] == if k in a then 1 else 0
  {
    if a != [] {
      var n := |a| - 1;
      assert a == a[..n] + [a[n]];
      IncreasingOnce(a[..n], k);
      if k == a[n] { assert k !in a[..n]; }
    }
  }

  /** The history's mark for overtaking: the order of dispatch is broken exactly when it is set. */
  lemma OvertakenBreaksOrder(steps: seq<Step>, s: State)
    requires Leads(steps, s)
    ensures Increasing(s.notes.log + Waiting(s)) <==> !s.notes.overtaken
  {
    hide Leads, Requests, Responses, ChildRequests, ChildResponses, Promises, Conserved;
    RunsKeepInv(steps, s);
  }

  lemma LeadsInit()
    ensures Leads([], INIT)
  {
  }

  lemma Extend(steps: seq<Step>, s: State, t: Step)
    requires Leads(steps, s) && Enabled(s, t)
    ensures Leads(steps + [t], Next(s, t))
  {
    hide Enabled, Next;
    assert (steps + [t])[..|steps|] == steps;
  }

  /** A coroutine waits for its answer while a notification arrives: the notification is deferred. */
  const DEFERRING := State(Parent([], {}, map[], RIdle), Child(Coroutine, WaitingFor(0), 1),
      Wire([Response(0, Ok(""))], []),
                           History({}, {}, map[], {}, {0}, map[0 := Ok("")], map[]),
                           Notes(["a"], [0], [], [], [], false))

  lemma ReachDeferring() returns (a: seq<Step>)
    ensures Leads(a, DEFERRING)
  {
    hide Leads;
    a := ReachAsked();
    Extend(a, ASKED, Read);
    var s1 := Next(ASKED, Read);
    Extend(a + [Read], s1, Serve(Ok("")));
    var s2 := Next(s1, Serve(Ok("")));
    Extend(a + [Read] + [Serve(Ok(""))], s2, ChildReads);
    assert Next(s2, ChildReads) == DEFERRING;
    a := a + [Read] + [Serve(Ok(""))] + [ChildReads];
  }

  const ASKED := State(Parent([], {}, map[], RIdle), Child(Coroutine, WaitingFor(0), 1),
      Wire([Notify("a")], [Request(0, "q")]),
                       History({}, {}, map[], {}, {}, map[], map[]), Notes([], [], [], [], [], false))

  lemma ReachAsked() returns (a: seq<Step>)
    ensures Leads(a, ASKED)
  {
    hide Leads;
    LeadsInit();
    Extend([], INIT, Resume);
    var s1 := Next(INIT, Resume);
    Extend([] + [Resume], s1, ChildCall("q"));
    var s2 := Next(s1, ChildCall("q"));
    Extend([] + [Resume] + [ChildCall("q")], s2, TellChild("a"));
    assert Next(s2, TellChild("a")) == ASKED;
    a := [] + [Resume] + [ChildCall("q")] + [TellChild("a")];
  }

  /** Overtaking happens: a notification read by the loop is dispatched before one deferred earlier. */
  lemma OvertakingHappens()
    ensures exists steps, s :: Leads(steps, s) && s.notes.log == [1] && Waiting(s) == [0]
  {
    hide Leads;
    var a := ReachDeferring();
    Extend(a, DEFERRING, ChildReads);
    var s1 := Next(DEFERRING, ChildReads);
    Extend(a + [ChildReads], s1, Yield);
    var s2 := Next(s1, Yield);
    Extend(a + [ChildReads] + [Yield], s2, TellChild("b"));
    var s3 := Next(s2, TellChild("b"));
    Extend(a + [ChildReads] + [Yield] + [TellChild("b")], s3, Loop);
    var s4 := Next(s3, Loop);
    assert s4.notes.log == [1] && s4.child.phase == Telling(1) && Waiting(s4) == [0];
  }
}
