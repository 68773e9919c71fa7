/**
 The request side of the CDP client: senders, the response worker, the timeout sweeper and shutdown
 race for one table of pending requests and for each request's `completed` flag. Every step below is
 one critical section, one atomic exchange or one promise operation of the C++ code.
 */
module CdpRequests {

  /** Requests are numbered from 0; the id on the wire is one more. */
  type Id = nat

  /** A parsed message with the integer `id` it carries: what `process_message` looks at. */
  datatype Message = Message(wire: int, body: Body)
  datatype Body = Error(text: string) | Result(value: string) | Neither

  /** How a promise was settled. */
  datatype Outcome =
    | Value(value: string)
    | CdpError(text: string)
    | InvalidResponse
    | ClientShutdown     // refused by send_host
    | SendFailed
    | TimedOut
    | ShutDown           // failed by shutdown()

  function WireId(id: Id): int { id + 1 }

  /** The `int` a message is looked up by: the lowest 32 bits of its id, signed. */
  function Key(m: Message): int {
    (m.wire + 0x8000_0000) % 0x1_0000_0000 - 0x8000_0000
  }

  predicate FitsInt(n: int) {
    -0x8000_0000 <= n < 0x8000_0000
  }

  function Answer(b: Body): Outcome {
    match b
    case Error(t) => CdpError(t)
    case Result(v) => Value(v)
    case Neither => InvalidResponse
  }

  /** `send_host` for one request. `Won` has exchanged `completed` and must settle next. */
  datatype Sender = Created | Refusing | Cleared | Registered | Failing | Won(outcome: Outcome) | Returned

  datatype Worker = WIdle | WChecked(msg: Message) | WHolds(id: Id, msg: Message) | WWon(id: Id, msg: Message) | WExited

  datatype Sweeper = SIdle | SChecked | SHolds(ids: set<Id>) | SWon(id: Id, ids: set<Id>) | SExited

  /** The callback pool: the requests whose futures its threads wait on, and whether it was joined. */
  datatype Pool = Pool(waits: set<Id>, joined: bool)

  datatype Closer = COpen | CJoining | CClosing(ids: set<Id>) | CWon(id: Id, ids: set<Id>) | CClosed

  /** Who is inside a critical section that spans several steps. */
  datatype Lock = Unlocked | BySender(id: Id) | ByCloser

  datatype State = State(
    senders: seq<Sender>,              // by request id; its length is the next id
    completed: set<Id>,
    pending: set<Id>,
    worker: Worker,
    sweeper: Sweeper,
    closer: Closer,
    pool: Pool,
    lock: Lock,
    shutdown: bool,
    settled: seq<(Id, Outcome)>,       // every set_value and set_exception, in order
    answered: seq<(Id, Message)>,      // every request the worker took, and the message it took it for
    late: set<Id>,                     // registered after shutdown had emptied the table
    sent: set<Id>                      // handed to the transport
  )

  const POOL := Pool({}, false)
  const INIT := State([], {}, {}, WIdle, SIdle, COpen, POOL, Unlocked, false, [], [], {}, {})

  datatype Step =
    | Create
    | CheckShutdown(id: Id)
    | RefuseExchange(id: Id)
    | Register(id: Id)
    | SendOk(id: Id)
    | SendFail(id: Id)
    | FailExchange(id: Id)
    | SenderSettle(id: Id)
    | WorkerCheck(msg: Message)
    | WorkerFind
    | WorkerExchange
    | WorkerSettle
    | WorkerExit
    | SweepCheck
    | SweepTake(ids: set<Id>)
    | SweepExchange(id: Id)
    | SweepSettle
    | SweepEnd
    | SweepExit
    | PoolWait(id: Id)
    | PoolWake(id: Id)
    | ShutFlag
    | ShutPool
    | ShutLock
    | CloseExchange(id: Id)
    | CloseSettle
    | CloseEnd

  predicate At(s: State, id: Id, p: Sender) {
    id < |s.senders| && s.senders[id] == p
  }

  predicate IsSettled(s: State, id: Id) {
    exists k | 0 <= k < |s.settled| :: s.settled[k].0 == id
  }

  predicate Enabled(s: State, t: Step) {
    match t
    case Create => true
    case CheckShutdown(id) => At(s, id, Created)
    case RefuseExchange(id) => At(s, id, Refusing)
    case Register(id) => At(s, id, Cleared) && s.lock.Unlocked?
    case SendOk(id) => At(s, id, Registered)
    case SendFail(id) => At(s, id, Registered) && s.lock.Unlocked?
    case FailExchange(id) => At(s, id, Failing)
    case SenderSettle(id) => id < |s.senders| && s.senders[id].Won?
    case WorkerCheck(_) => s.worker.WIdle? && !s.shutdown
    case WorkerFind => s.worker.WChecked? && s.lock.Unlocked?
    case WorkerExchange => s.worker.WHolds?
    case WorkerSettle => s.worker.WWon?
    case WorkerExit => s.worker.WIdle? && s.shutdown
    case SweepCheck => s.sweeper.SIdle? && !s.shutdown
    case SweepTake(ids) => s.sweeper.SChecked? && s.lock.Unlocked? && ids <= s.pending
    case SweepExchange(id) => s.sweeper.SHolds? && id in s.sweeper.ids
    case SweepSettle => s.sweeper.SWon?
    case SweepEnd => s.sweeper == SHolds({})
    case SweepExit => s.sweeper.SIdle? && s.shutdown
    case PoolWait(id) => !s.pool.joined && At(s, id, Returned) && id !in s.pool.waits
    case PoolWake(id) => id in s.pool.waits && IsSettled(s, id)
    case ShutFlag => !s.shutdown
    case ShutPool => s.closer.CJoining? && s.worker.WExited? && s.sweeper.SExited? && s.pool == Pool({}, false)
    case ShutLock => s.closer.CJoining? && s.pool.joined && s.lock.Unlocked?
    case CloseExchange(id) => s.closer.CClosing? && id in s.closer.ids
    case CloseSettle => s.closer.CWon?
    case CloseEnd => s.closer == CClosing({})
  }

  function NextSenders(s: State, t: Step): seq<Sender>
    requires Enabled(s, t)
  {
    match t
    case Create => s.senders + [Created]
    case CheckShutdown(id) => s.senders[id := if s.shutdown then Refusing else Cleared]
    case RefuseExchange(id) => s.senders[id := if id in s.completed then Returned else Won(ClientShutdown)]
    case Register(id) => s.senders[id := Registered]
    case SendOk(id) => s.senders[id := Returned]
    case SendFail(id) => s.senders[id := Failing]
    case FailExchange(id) => s.senders[id := if id in s.completed then Returned else Won(SendFailed)]
    case SenderSettle(id) => s.senders[id := Returned]
    case _ => s.senders
  }

  /** The request whose `completed` flag the step exchanges. */
  function Exchanges(s: State, t: Step): set<Id>
    requires Enabled(s, t)
  {
    match t
    case RefuseExchange(id) => {id}
    case FailExchange(id) => {id}
    case WorkerExchange => {s.worker.id}
    case SweepExchange(id) => {id}
    case CloseExchange(id) => {id}
    case _ => {}
  }

  /** The request in the table that the worker's message is for. */
  function Found(s: State): set<Id>
    requires s.worker.WChecked?
  {
    var k := Key(s.worker.msg) - 1;
    if k >= 0 && k in s.pending then {k} else {}
  }

  function NextPending(s: State, t: Step): set<Id>
    requires Enabled(s, t)
  {
    match t
    case Register(id) => s.pending + {id}
    case SendFail(id) => s.pending - {id}
    case WorkerFind => s.pending - Found(s)
    case SweepTake(ids) => s.pending - ids
    case CloseEnd => {}
    case _ => s.pending
  }

  function NextWorker(s: State, t: Step): Worker
    requires Enabled(s, t)
  {
    match t
    case WorkerCheck(msg) => WChecked(msg)
    case WorkerFind =>
      var k := Key(s.worker.msg) - 1;
      if k >= 0 && k in s.pending then WHolds(k, s.worker.msg) else WIdle
    case WorkerExchange => if s.worker.id in s.completed then WIdle else WWon(s.worker.id, s.worker.msg)
    case WorkerSettle => WIdle
    case WorkerExit => WExited
    case _ => s.worker
  }

  function NextSweeper(s: State, t: Step): Sweeper
    requires Enabled(s, t)
  {
    match t
    case SweepCheck => SChecked
    case SweepTake(ids) => SHolds(ids)
    case SweepExchange(id) =>
      var rest := s.sweeper.ids - {id};
      if id in s.completed then SHolds(rest) else SWon(id, rest)
    case SweepSettle => SHolds(s.sweeper.ids)
    case SweepEnd => SIdle
    case SweepExit => SExited
    case _ => s.sweeper
  }

  function NextCloser(s: State, t: Step): Closer
    requires Enabled(s, t)
  {
    match t
    case ShutFlag => CJoining
    case ShutLock => CClosing(s.pending)
    case CloseExchange(id) =>
      var rest := s.closer.ids - {id};
      if id in s.completed then CClosing(rest) else CWon(id, rest)
    case CloseSettle => CClosing(s.closer.ids)
    case CloseEnd => CClosed
    case _ => s.closer
  }

  function NextPool(s: State, t: Step): Pool
    requires Enabled(s, t)
  {
    match t
    case PoolWait(id) => s.pool.(waits := s.pool.waits + {id})
    case PoolWake(id) => s.pool.(waits := s.pool.waits - {id})
    case ShutPool => s.pool.(joined := true)
    case _ => s.pool
  }

  function Release(s: State, id: Id): Lock {
    if s.lock == BySender(id) then Unlocked else s.lock
  }

  function NextLock(s: State, t: Step): Lock
    requires Enabled(s, t)
  {
    match t
    case SendFail(id) => BySender(id)
    case FailExchange(id) => if id in s.completed then Release(s, id) else s.lock
    case SenderSettle(id) => Release(s, id)
    case ShutLock => ByCloser
    case CloseEnd => Unlocked
    case _ => s.lock
  }

  /** What the step settles, and how. */
  function Settles(s: State, t: Step): seq<(Id, Outcome)>
    requires Enabled(s, t)
  {
    match t
    case SenderSettle(id) => [(id, s.senders[id].outcome)]
    case WorkerSettle => [(s.worker.id, Answer(s.worker.msg.body))]
    case SweepSettle => [(s.sweeper.id, TimedOut)]
    case CloseSettle => [(s.closer.id, ShutDown)]
    case _ => []
  }

  /** The request a response takes out of the table. */
  function Takes(s: State, t: Step): seq<(Id, Message)>
    requires Enabled(s, t)
  {
    if t.WorkerFind? && Found(s) != {} then [(Key(s.worker.msg) - 1, s.worker.msg)] else []
  }

  function Next(s: State, t: Step): State
    requires Enabled(s, t)
  {
    State(NextSenders(s, t), s.completed + Exchanges(s, t), NextPending(s, t), NextWorker(s, t), NextSweeper(s, t),
          NextCloser(s, t), NextPool(s, t), NextLock(s, t), s.shutdown || t.ShutFlag?, s.settled + Settles(s, t),
          s.answered + Takes(s, t),
          if t.Register? && s.closer.CClosed? then s.late + {t.id} else s.late,
          if t.SendOk? then s.sent + {t.id} else s.sent)
  }

  // ---------------------------------------------------------------------------------------------
  // Invariant
  // ---------------------------------------------------------------------------------------------

  predicate SenderWon(s: State, id: Id) { id < |s.senders| && s.senders[id].Won? }
  predicate WorkerWon(s: State, id: Id) { s.worker.WWon? && s.worker.id == id }
  predicate SweeperWon(s: State, id: Id) { s.sweeper.SWon? && s.sweeper.id == id }
  predicate CloserWon(s: State, id: Id) { s.closer.CWon? && s.closer.id == id }

  /** Some thread has exchanged `completed` of this request and settles it next. */
  predicate MustSettle(s: State, id: Id) {
    SenderWon(s, id) || WorkerWon(s, id) || SweeperWon(s, id) || CloserWon(s, id)
  }

  /** Some thread holds the request and exchanges `completed` next. */
  predicate Held(s: State, id: Id) {
    || At(s, id, Refusing) || At(s, id, Failing)
    || (s.worker.WHolds? && s.worker.id == id)
    || (s.sweeper.SHolds? && id in s.sweeper.ids) || (s.sweeper.SWon? && id in s.sweeper.ids)
  }

  predicate NotYetRegistered(s: State, id: Id) {
    At(s, id, Created) || At(s, id, Cleared)
  }

  /** Every promise is settled at most once. */
  predicate AtMostOnce(s: State) {
    forall k, l | 0 <= k < l < |s.settled| :: s.settled[k].0 != s.settled[l].0
  }

  /** At most one thread has won the exchange of a request. */
  predicate OneWinner(s: State) {
    && (s.worker.WWon? ==> !SenderWon(s, s.worker.id) && !SweeperWon(s, s.worker.id) && !CloserWon(s, s.worker.id))
    && (s.sweeper.SWon? ==> !SenderWon(s, s.sweeper.id) && !CloserWon(s, s.sweeper.id))
    && (s.closer.CWon? ==> !SenderWon(s, s.closer.id))
  }

  /** `completed` says exactly that the promise is settled or about to be. */
  ghost predicate CompletedMeans(s: State) {
    forall id: Id :: id in s.completed <==> IsSettled(s, id) || MustSettle(s, id)
  }

  /** A winner's promise is not settled yet. */
  ghost predicate WinnersUnsettled(s: State) {
    forall id: Id :: MustSettle(s, id) ==> !IsSettled(s, id)
  }

  /** No request is lost: until it is completed it is with its sender, in the table, or held by a thread. */
  predicate NoneLost(s: State) {
    forall id | 0 <= id < |s.senders| ::
      id in s.completed || NotYetRegistered(s, id) || id in s.pending || Held(s, id)
  }

  predicate PendingRegistered(s: State) {
    forall id | id in s.pending :: At(s, id, Registered) || (At(s, id, Returned) && id in s.sent)
  }

  /** A response takes only the request it is looked up by, and settles it with what the message says. */
  predicate OwnAnswers(s: State) {
    && (forall a | a in s.answered :: Key(a.1) == WireId(a.0))
    && (s.worker.WHolds? || s.worker.WWon? ==> (s.worker.id, s.worker.msg) in s.answered)
    && forall k | 0 <= k < |s.settled| && FromMessage(s.settled[k].1) ::
         exists a | a in s.answered :: a.0 == s.settled[k].0 && Says(a.1, s.settled[k].1)
  }

  /** A result fulfils the promise, an error and a message with neither break it. */
  predicate Says(m: Message, o: Outcome) {
    match o
    case Value(v) => m.body == Result(v)
    case CdpError(t) => m.body == Error(t)
    case InvalidResponse => m.body == Neither
    case _ => false
  }

  predicate FromMessage(o: Outcome) {
    o.Value? || o.CdpError? || o.InvalidResponse?
  }

  predicate InHand(p: Sender) {
    p.Created? || p.Refusing? || p.Cleared?
  }

  /** What a sender still has in its own hands is not completed, and what it sent it has finished with. */
  predicate SendersAhead(s: State) {
    && (forall id | id in s.completed :: id < |s.senders| && !InHand(s.senders[id]))
    && (forall id | id in s.sent :: At(s, id, Returned))
  }

  predicate SenderOutcomes(s: State) {
    forall id | 0 <= id < |s.senders| && s.senders[id].Won? ::
      s.senders[id].outcome.ClientShutdown? || s.senders[id].outcome.SendFailed?
  }

  /** The lock, the flag and the phases of shutdown. */
  predicate Phases(s: State) {
    && (s.lock.BySender? ==>
          s.lock.id < |s.senders| && (s.senders[s.lock.id].Failing? || s.senders[s.lock.id] == Won(SendFailed)))
    && (forall id | 0 <= id < |s.senders| && (s.senders[id].Failing? || s.senders[id] == Won(SendFailed)) ::
          s.lock == BySender(id))
    && (s.lock.ByCloser? <==> s.closer.CClosing? || s.closer.CWon?)
    && (s.shutdown <==> !s.closer.COpen?)
    && (s.pool.joined ==> !s.closer.COpen? && s.worker.WExited? && s.sweeper.SExited?)
    && (s.closer.CClosing? || s.closer.CWon? || s.closer.CClosed? ==> s.pool.joined)
    && (s.closer.CClosing? || s.closer.CWon? ==>
          s.closer.ids <= s.pending && forall id | id in s.pending && id !in s.closer.ids :: id in s.completed)
    && (s.closer.CWon? ==> s.closer.id in s.pending && s.closer.id !in s.closer.ids)
  }

  /** Registered at some time, or never to be registered any more. */
  predicate PastRegistration(s: State, id: Id) {
    id < |s.senders| && !InHand(s.senders[id]) && s.senders[id] != Won(ClientShutdown)
  }

  /** A request taken from the table does not return to it. */
  predicate TakenGone(s: State) {
    && (s.worker.WHolds? || s.worker.WWon? ==> s.worker.id !in s.pending && PastRegistration(s, s.worker.id))
    && (s.sweeper.SHolds? || s.sweeper.SWon? ==>
          s.sweeper.ids !! s.pending && forall id | id in s.sweeper.ids :: PastRegistration(s, id))
    && (s.sweeper.SWon? ==> s.sweeper.id !in s.pending && PastRegistration(s, s.sweeper.id))
  }

  /** A request in the table is not completed, except for those shutdown has just failed. */
  predicate TableFresh(s: State) {
    forall id | id in s.pending && id in s.completed :: Failed(s, id)
  }

  /** In the table, and already failed by the shutdown that is about to empty it. */
  predicate Failed(s: State, id: Id) {
    (s.closer.CClosing? || s.closer.CWon?) && id !in s.closer.ids
  }

  /** Requests registered after shutdown had emptied the table. */
  predicate LateOnes(s: State) {
    && (s.closer.CClosed? ==> s.pending <= s.late)
    && (s.late != {} ==> s.closer.CClosed?)
    && (forall id | id in s.late && (At(s, id, Registered) || id in s.sent) :: id in s.pending)
  }

  /** Pool threads wait on futures that `send_host` has returned, and none waits once the pool is joined. */
  predicate PoolWaits(s: State) {
    (forall id | id in s.pool.waits :: At(s, id, Returned)) && (s.pool.joined ==> s.pool.waits == {})
  }

  ghost predicate Inv(s: State) {
    && AtMostOnce(s) && OneWinner(s) && CompletedMeans(s) && WinnersUnsettled(s) && NoneLost(s)
    && PendingRegistered(s) && OwnAnswers(s) && SendersAhead(s) && SenderOutcomes(s)
    && Phases(s) && TakenGone(s) && TableFresh(s) && LateOnes(s) && PoolWaits(s)
  }

  lemma InitInv()
    ensures Inv(INIT)
  {
  }

  lemma StepSettles(s: State, t: Step)
    requires Enabled(s, t)
    ensures forall i: Id :: IsSettled(Next(s, t), i) <==> IsSettled(s, i) || IsSettling(s, t, i)
  {
    hide Enabled;
    var (was, more) := (s.settled, Settles(s, t));
    forall i: Id ensures IsSettled(Next(s, t), i) <==> IsSettled(s, i) || IsSettling(s, t, i) {
      if k :| 0 <= k < |was| && was[k].0 == i { assert (was + more)[k].0 == i; }
      if IsSettling(s, t, i) { assert (was + more)[|was|].0 == i; }
    }
  }

  predicate IsSettling(s: State, t: Step, i: Id)
    requires Enabled(s, t)
  {
    Settles(s, t) != [] && Settles(s, t)[0].0 == i
  }

  /** A step settles only what its thread has won. */
  lemma SettlesWon(s: State, t: Step, i: Id)
    requires Enabled(s, t) && IsSettling(s, t, i)
    ensures MustSettle(s, i)
  {
  }

  /** Which requests some thread has won after a step. */
  lemma WonAfter(s: State, t: Step, i: Id)
    requires Enabled(s, t) && OneWinner(s) && Phases(s)
    ensures MustSettle(Next(s, t), i) <==>
            (MustSettle(s, i) && !IsSettling(s, t, i)) || (i in Exchanges(s, t) && i !in s.completed)
  {
    hide NextSenders, NextPending, NextWorker, NextSweeper, NextCloser, NextLock;
    SenderWonAfter(s, t, i);
    OthersWonAfter(s, t, i);
  }

  lemma SenderWonAfter(s: State, t: Step, i: Id)
    requires Enabled(s, t)
    ensures SenderWon(Next(s, t), i) <==>
            (SenderWon(s, i) && t != SenderSettle(i)) ||
            ((t == RefuseExchange(i) || t == FailExchange(i)) && i !in s.completed)
  {
    hide NextPending, NextWorker, NextSweeper, NextCloser, NextLock;
  }

  lemma OthersWonAfter(s: State, t: Step, i: Id)
    requires Enabled(s, t) && Phases(s)
    ensures var n := Next(s, t);
            && (WorkerWon(n, i) <==> (WorkerWon(s, i) && t != WorkerSettle) ||
                                     (t.WorkerExchange? && s.worker.id == i && i !in s.completed))
            && (SweeperWon(n, i) <==> (SweeperWon(s, i) && t != SweepSettle) ||
                                      (t == SweepExchange(i) && i !in s.completed))
            && (CloserWon(n, i) <==> (CloserWon(s, i) && t != CloseSettle) ||
                                     (t == CloseExchange(i) && i !in s.completed))
  {
    hide NextSenders, NextPending, NextLock;
  }

  lemma KeepsAtMostOnce(s: State, t: Step)
    requires Enabled(s, t) && AtMostOnce(s) && WinnersUnsettled(s)
    ensures AtMostOnce(Next(s, t))
  {
    hide NextSenders, Exchanges, NextPending, NextWorker, NextSweeper, NextCloser, NextLock, Settles, MustSettle,
         Enabled;
    var more := Settles(s, t);
    if more != [] {
      SettlesWon(s, t, more[0].0);
      SettlesOne(s, t);
      forall k | 0 <= k < |s.settled| ensures s.settled[k].0 != more[0].0 { assert !IsSettled(s, more[0].0); }
    }
  }

  lemma SettlesOne(s: State, t: Step)
    requires Enabled(s, t)
    ensures |Settles(s, t)| <= 1
  {
  }

  lemma KeepsOneWinner(s: State, t: Step)
    requires Enabled(s, t) && OneWinner(s) && CompletedMeans(s)
    ensures OneWinner(Next(s, t))
  {
    hide NextPending, NextLock, Settles, IsSettled;
  }

  lemma KeepsCompletedMeans(s: State, t: Step)
    requires Enabled(s, t) && OneWinner(s) && CompletedMeans(s) && Phases(s)
    ensures CompletedMeans(Next(s, t))
  {
    hide NextSenders, Exchanges, NextPending, NextWorker, NextSweeper, NextCloser, NextLock, Settles, Enabled,
         IsSettled, MustSettle, IsSettling, OneWinner, Phases;
    var n := Next(s, t);
    StepSettles(s, t);
    forall i: Id ensures i in n.completed <==> IsSettled(n, i) || MustSettle(n, i) {
      WonAfter(s, t, i);
      if IsSettling(s, t, i) { SettlesWon(s, t, i); }
    }
  }

  lemma KeepsWinnersUnsettled(s: State, t: Step)
    requires Enabled(s, t) && OneWinner(s) && CompletedMeans(s) && WinnersUnsettled(s) && Phases(s)
    ensures WinnersUnsettled(Next(s, t))
  {
    hide NextSenders, Exchanges, NextPending, NextWorker, NextSweeper, NextCloser, NextLock, Settles, Enabled,
         IsSettled, MustSettle, IsSettling, OneWinner, Phases;
    var n := Next(s, t);
    StepSettles(s, t);
    forall i: Id | MustSettle(n, i) ensures !IsSettled(n, i) {
      WonAfter(s, t, i);
      if IsSettling(s, t, i) { SettlesWon(s, t, i); }
    }
  }

  lemma KeepsNoneLost(s: State, t: Step)
    requires Enabled(s, t) && NoneLost(s) && Phases(s)
    ensures NoneLost(Next(s, t))
  {
    hide NextCloser, NextLock, Settles;
  }

  lemma KeepsPendingRegistered(s: State, t: Step)
    requires Enabled(s, t) && PendingRegistered(s)
    ensures PendingRegistered(Next(s, t))
  {
    hide Exchanges, NextWorker, NextSweeper, NextCloser, NextLock, Settles;
  }

  lemma KeepsOwnAnswers(s: State, t: Step)
    requires Enabled(s, t) && OwnAnswers(s) && SenderOutcomes(s)
    ensures OwnAnswers(Next(s, t))
  {
    hide NextSenders, Exchanges, NextPending, NextSweeper, NextCloser, NextLock;
  }

  lemma KeepsSendersAhead(s: State, t: Step)
    requires Enabled(s, t) && SendersAhead(s) && TakenGone(s) && Phases(s) && PendingRegistered(s)
    ensures SendersAhead(Next(s, t))
  {
    hide NextPending, NextWorker, NextSweeper, NextCloser, NextLock, Settles;
  }

  lemma KeepsSenderOutcomes(s: State, t: Step)
    requires Enabled(s, t) && SenderOutcomes(s)
    ensures SenderOutcomes(Next(s, t))
  {
    hide Exchanges, NextPending, NextWorker, NextSweeper, NextCloser, NextLock, Settles;
  }

  lemma KeepsPhases(s: State, t: Step)
    requires Enabled(s, t) && Phases(s)
    ensures Phases(Next(s, t))
  {
    hide Settles;
  }

  lemma KeepsTakenGone(s: State, t: Step)
    requires Enabled(s, t) && TakenGone(s) && PendingRegistered(s) && Phases(s)
    ensures TakenGone(Next(s, t))
  {
    hide Exchanges, NextCloser, NextLock, Settles;
  }

  lemma KeepsTableFresh(s: State, t: Step)
    requires Enabled(s, t) && TableFresh(s) && SendersAhead(s) && TakenGone(s) && Phases(s) && PendingRegistered(s)
    ensures TableFresh(Next(s, t))
  {
    hide NextSenders, NextWorker, NextSweeper, NextLock, Settles;
  }

  lemma KeepsLateOnes(s: State, t: Step)
    requires Enabled(s, t) && LateOnes(s) && SendersAhead(s) && Phases(s) && PendingRegistered(s)
    ensures LateOnes(Next(s, t))
  {
    hide Exchanges, NextWorker, NextSweeper, NextLock, Settles;
  }

  lemma KeepsPoolWaits(s: State, t: Step)
    requires Enabled(s, t) && PoolWaits(s)
    ensures PoolWaits(Next(s, t))
  {
    hide Exchanges, NextPending, NextWorker, NextSweeper, NextCloser, NextLock, Settles, IsSettled;
  }

  lemma StepKeepsInv(s: State, t: Step)
    requires Inv(s) && Enabled(s, t)
    ensures Inv(Next(s, t))
  {
    hide Enabled, Next, AtMostOnce, OneWinner, CompletedMeans, WinnersUnsettled, NoneLost, PendingRegistered,
         OwnAnswers, SendersAhead, SenderOutcomes, Phases, TakenGone, TableFresh, LateOnes, PoolWaits;
    KeepsAtMostOnce(s, t);
    KeepsOneWinner(s, t);
    KeepsCompletedMeans(s, t);
    KeepsWinnersUnsettled(s, t);
    KeepsNoneLost(s, t);
    KeepsPendingRegistered(s, t);
    KeepsOwnAnswers(s, t);
    KeepsSendersAhead(s, t);
    KeepsSenderOutcomes(s, t);
    KeepsPhases(s, t);
    KeepsTakenGone(s, t);
    KeepsTableFresh(s, t);
    KeepsLateOnes(s, t);
    KeepsPoolWaits(s, t);
  }

  // ---------------------------------------------------------------------------------------------
  // Whole runs
  // ---------------------------------------------------------------------------------------------

  /** Some interleaving of the threads, from the start: `steps` leads to `s`. */
  ghost predicate Leads(steps: seq<Step>, s: State)
    decreases |steps|
  {
    if steps == [] then s == INIT
    else
      var n := |steps| - 1;
      exists r :: Leads(steps[..n], r) && Enabled(r, steps[n]) && s == Next(r, steps[n])
  }

  /**
   In every interleaving of sends, responses, timeouts, send failures and shutdown: each promise is
   settled at most once; a result or an error comes from a message looked up by the request's id; and a
   request whose promise is not settled is with its sender, in the table, or with a thread that is
   about to complete or to settle it.
   */
  lemma {:induction false} RunsAreSafe(steps: seq<Step>, s: State)
    requires Leads(steps, s)
    ensures Inv(s)
    ensures AtMostOnce(s) && OwnAnswers(s)
    ensures forall id | 0 <= id < |s.senders| ::
              IsSettled(s, id) || MustSettle(s, id) || NotYetRegistered(s, id) || id in s.pending || Held(s, id)
    decreases |steps|
  {
    hide Inv, Enabled, AtMostOnce, OwnAnswers;
    if steps == [] {
      InitInv();
    } else {
      var n := |steps| - 1;
      var r :| Leads(steps[..n], r) && Enabled(r, steps[n]) && s == Next(r, steps[n]);
      RunsAreSafe(steps[..n], r);
      StepKeepsInv(r, steps[n]);
    }
    InvConsequences(s);
  }

  lemma InvConsequences(s: State)
    requires Inv(s)
    ensures AtMostOnce(s) && OwnAnswers(s)
    ensures forall id | 0 <= id < |s.senders| ::
              IsSettled(s, id) || MustSettle(s, id) || NotYetRegistered(s, id) || id in s.pending || Held(s, id)
  {
    hide AtMostOnce, OwnAnswers, Phases, TakenGone, LateOnes;
  }

  /**
   In every run, the message a request was taken for carries the request's own id exactly when the id it
   carries fits in an `int`.
   */
  lemma OwnIdIff(steps: seq<Step>, s: State, a: (Id, Message))
    requires Leads(steps, s) && a in s.answered
    ensures a.1.wire == WireId(a.0) <==> FitsInt(a.1.wire)
  {
    hide Leads, Key;
    RunsAreSafe(steps, s);
    KeyIff(a.1);
    KeyFits(a.1);
  }

  lemma KeyFits(m: Message)
    ensures FitsInt(Key(m))
  {
  }

  lemma KeyIff(m: Message)
    ensures Key(m) == m.wire <==> FitsInt(m.wire)
  {
  }

  /** Request 0 registered and handed to the transport. */
  const SENT := State([Returned], {}, {0}, WIdle, SIdle, COpen, POOL, Unlocked, false, [], [], {}, {0})

  lemma ReachSent() returns (a: seq<Step>)
    ensures Leads(a, SENT)
  {
    hide Leads;
    a := ReachCleared();
    Extend(a, CLEARED, Register(0));
    var s1 := Next(CLEARED, Register(0));
    Extend(a + [Register(0)], s1, SendOk(0));
    assert Next(s1, SendOk(0)) == SENT;
    a := a + [Register(0)] + [SendOk(0)];
  }

  /** Taking request 0 for a message, and settling it. */
  lemma TakeFirst(a: seq<Step>, s: State, m: Message)
    requires Leads(a, s) && s == SENT.(worker := WChecked(m)) && Key(m) == WireId(0)
    ensures Leads(a + [WorkerFind], SENT.(worker := WHolds(0, m), pending := {}, answered := [(0, m)]))
  {
    hide Leads, Key;
    Extend(a, s, WorkerFind);
    assert Next(s, WorkerFind) == SENT.(worker := WHolds(0, m), pending := {}, answered := [(0, m)]);
  }

  lemma WinTaken(a: seq<Step>, s: State, m: Message)
    requires Leads(a, s) && s == SENT.(worker := WHolds(0, m), pending := {}, answered := [(0, m)])
    ensures Leads(a + [WorkerExchange],
                  SENT.(worker := WWon(0, m), pending := {}, answered := [(0, m)], completed := {0}))
  {
    hide Leads, Key, IsSettled;
    Extend(a, s, WorkerExchange);
    assert Next(s, WorkerExchange) ==
           SENT.(worker := WWon(0, m), pending := {}, answered := [(0, m)], completed := {0});
  }

  lemma SettleTaken(a: seq<Step>, s: State, m: Message, v: string)
    requires Leads(a, s) && m.body == Result(v)
    requires s == SENT.(worker := WWon(0, m), pending := {}, answered := [(0, m)], completed := {0})
    ensures exists steps, n :: Leads(steps, n) && n.answered == [(0, m)] && n.settled == [(0, Value(v))]
  {
    hide Leads, Key, IsSettled;
    Extend(a, s, WorkerSettle);
    var n := Next(s, WorkerSettle);
    assert n.answered == [(0, m)] && n.settled == [(0, Value(v))];
  }

  /** A run in which request 0 gets the result of a message with another id. */
  lemma ForeignAnswer()
    ensures exists steps, s, m: Message ::
              Leads(steps, s) && s.answered == [(0, m)] && m.wire == 0x1_0000_0000 + WireId(0) &&
              m.body == Result("x") && s.settled == [(0, Value("x"))]
  {
    hide Leads;
    var m := Message(0x1_0000_0000 + WireId(0), Result("x"));
    var a := ReachSent();
    Extend(a, SENT, WorkerCheck(m));
    TakeFirst(a + [WorkerCheck(m)], Next(SENT, WorkerCheck(m)), m);
    WinTaken(a + [WorkerCheck(m)] + [WorkerFind],
             SENT.(worker := WHolds(0, m), pending := {}, answered := [(0, m)]), m);
    SettleTaken(a + [WorkerCheck(m)] + [WorkerFind] + [WorkerExchange],
                SENT.(worker := WWon(0, m), pending := {}, answered := [(0, m)], completed := {0}), m, "x");
  }

  /** A thread that must settle a request can do so at once, whatever the others do. */
  lemma SettlersNeverWait(s: State, id: Id)
    requires MustSettle(s, id)
    ensures exists t :: Enabled(s, t) && IsSettling(s, t, id)
  {
    if SenderWon(s, id) {
      assert IsSettling(s, SenderSettle(id), id);
    } else if WorkerWon(s, id) {
      assert IsSettling(s, WorkerSettle, id);
    } else if SweeperWon(s, id) {
      assert IsSettling(s, SweepSettle, id);
    } else {
      assert IsSettling(s, CloseSettle, id);
    }
  }

  // ---------------------------------------------------------------------------------------------
  // Shutdown and the callback pool
  // ---------------------------------------------------------------------------------------------

  /** The threads go on from `s` with these steps, to `n`. */
  ghost predicate Follows(s: State, more: seq<Step>, n: State)
    decreases |more|
  {
    if more == [] then n == s
    else
      var k := |more| - 1;
      exists r :: Follows(s, more[..k], r) && Enabled(r, more[k]) && n == Next(r, more[k])
  }

  /** Shutdown can get to the requests in the table. */
  ghost predicate CanClose(s: State) {
    exists more, n :: Follows(s, more, n) && n.closer.CClosing?
  }

  /** Shutdown waits for the pool, and worker and sweeper have exited. */
  predicate Joining(s: State) {
    s.closer.CJoining? && s.worker.WExited? && s.sweeper.SExited?
  }

  /** A pool thread waits on a request that nobody settles any more. */
  predicate Stuck(s: State, id: Id) {
    Joining(s) && !s.pool.joined && id in s.pool.waits && At(s, id, Returned) && !IsSettled(s, id)
  }

  lemma StuckStays(s: State, t: Step, id: Id)
    requires Stuck(s, id) && Enabled(s, t)
    ensures Stuck(Next(s, t), id)
  {
    hide Exchanges, NextPending, NextLock, IsSettled, IsSettling, Settles;
    StepSettles(s, t);
    if IsSettling(s, t, id) { SettlesWon(s, t, id); }
  }

  lemma {:induction false} StuckForever(s: State, more: seq<Step>, n: State, id: Id)
    requires Stuck(s, id) && Follows(s, more, n)
    ensures Stuck(n, id)
    decreases |more|
  {
    hide Stuck, Enabled, Next;
    if more != [] {
      var k := |more| - 1;
      var r :| Follows(s, more[..k], r) && Enabled(r, more[k]) && n == Next(r, more[k]);
      StuckForever(s, more[..k], r, id);
      StuckStays(r, more[k], id);
    }
  }

  lemma FollowsNothing(s: State)
    ensures Follows(s, [], s)
  {
  }

  lemma FollowsMore(s: State, more: seq<Step>, r: State, t: Step)
    requires Follows(s, more, r) && Enabled(r, t)
    ensures Follows(s, more + [t], Next(r, t))
  {
    hide Enabled, Next;
    var all := more + [t];
    assert all[..|more|] == more && all[|more|] == t;
  }

  /** The pool's threads wake up one by one. */
  lemma {:induction false} PoolDrains(s: State, more: seq<Step>, r: State)
    requires Follows(s, more, r) && forall id | id in r.pool.waits :: IsSettled(r, id)
    ensures exists all :: Follows(s, all, r.(pool := r.pool.(waits := {})))
    decreases |r.pool.waits|
  {
    hide Follows, IsSettled;
    if r.pool.waits == {} {
      assert r.(pool := r.pool.(waits := {})) == r;
    } else {
      var id :| id in r.pool.waits;
      var n := Next(r, PoolWake(id));
      FollowsMore(s, more, r, PoolWake(id));
      assert n == r.(pool := r.pool.(waits := r.pool.waits - {id}));
      forall k | k in n.pool.waits ensures IsSettled(n, k) { SameSettled(r, n, k); }
      PoolDrains(s, more + [PoolWake(id)], n);
    }
  }

  lemma SameSettled(r: State, n: State, id: Id)
    requires n.settled == r.settled && IsSettled(r, id)
    ensures IsSettled(n, id)
  {
  }

  /** A sender that holds the lock lets go of it. */
  lemma LockIsReleased(s: State, more: seq<Step>, r: State)
    requires Follows(s, more, r) && Phases(r) && Joining(r)
    ensures exists all, n :: Follows(s, all, n) && Joining(n) && n.pool == r.pool && n.lock.Unlocked?
  {
    hide Follows, Exchanges, NextPending, Settles, IsSettled;
    if r.lock.BySender? {
      var id := r.lock.id;
      if r.senders[id].Failing? {
        var n := Next(r, FailExchange(id));
        FollowsMore(s, more, r, FailExchange(id));
        if !n.lock.Unlocked? { FollowsMore(s, more + [FailExchange(id)], n, SenderSettle(id)); }
      } else {
        FollowsMore(s, more, r, SenderSettle(id));
      }
    }
  }

  /** With no pool thread waiting, shutdown gets on. */
  lemma DrainedCloses(s: State, more: seq<Step>, r: State)
    requires Follows(s, more, r) && Phases(r) && Joining(r) && r.pool.waits == {}
    ensures CanClose(s)
  {
    hide Follows, Phases, Exchanges, NextPending, NextSenders, Settles, IsSettled;
    LockIsReleased(s, more, r);
    var all, n :| Follows(s, all, n) && Joining(n) && n.pool == r.pool && n.lock.Unlocked?;
    if n.pool.joined {
      FollowsMore(s, all, n, ShutLock);
    } else {
      var m := Next(n, ShutPool);
      FollowsMore(s, all, n, ShutPool);
      FollowsMore(s, all + [ShutPool], m, ShutLock);
    }
  }

  /**
   Once worker and sweeper have exited, shutdown can get to the requests in the table, which it is to fail, if and
   only if no pool thread waits on an unsettled request.
   */
  lemma ClosesIff(steps: seq<Step>, s: State)
    requires Leads(steps, s) && Joining(s)
    ensures CanClose(s) <==> forall id | id in s.pool.waits :: IsSettled(s, id)
  {
    hide Leads, Follows, IsSettled, Enabled, Next, AtMostOnce, OwnAnswers;
    RunsAreSafe(steps, s);
    if id :| id in s.pool.waits && !IsSettled(s, id) {
      if CanClose(s) {
        var more, n :| Follows(s, more, n) && n.closer.CClosing?;
        StuckForever(s, more, n, id);
      }
    } else {
      FollowsNothing(s);
      PoolDrains(s, [], s);
      var r := s.(pool := s.pool.(waits := {}));
      var all :| Follows(s, all, r);
      PhasesOfDrained(s);
      DrainedCloses(s, all, r);
    }
  }

  lemma PhasesOfDrained(s: State)
    requires Phases(s)
    ensures Phases(s.(pool := s.pool.(waits := {})))
  {
  }

  /** A run after which shutdown never ends: a callback waits for an answer that nobody is left to read. */
  lemma CallbackBlocksShutdown()
    ensures exists steps, s :: Leads(steps, s) && Joining(s) && 0 in s.pending && !CanClose(s)
  {
    hide Leads, IsSettled, CanClose;
    var a := ReachSent();
    Extend(a, SENT, PoolWait(0));
    var s1 := Next(SENT, PoolWait(0));
    Extend(a + [PoolWait(0)], s1, ShutFlag);
    var s2 := Next(s1, ShutFlag);
    a := a + [PoolWait(0)] + [ShutFlag];
    ExitBoth(a, s2);
    var s3 := Next(s2, WorkerExit);
    var s4 := Next(s3, SweepExit);
    NoneSettled(s4);
    ClosesIff(a + [WorkerExit] + [SweepExit], s4);
  }

  lemma ExitBoth(a: seq<Step>, s: State)
    requires Leads(a, s) && s.worker.WIdle? && s.sweeper.SIdle? && s.shutdown
    ensures Enabled(s, WorkerExit) && Enabled(Next(s, WorkerExit), SweepExit)
    ensures Leads(a + [WorkerExit] + [SweepExit], Next(Next(s, WorkerExit), SweepExit))
  {
    hide Leads, IsSettled;
    Extend(a, s, WorkerExit);
    Extend(a + [WorkerExit], Next(s, WorkerExit), SweepExit);
  }

  /** Shutdown has finished and no call of `send_host` is under way. */
  predicate Quiet(s: State) {
    s.closer.CClosed? && forall id | 0 <= id < |s.senders| :: s.senders[id].Returned?
  }

  /**
   What shutdown leaves unsettled: exactly the requests that were registered after it had emptied
   the table and were then handed to the transport.
   */
  lemma UnsettledAfterShutdown(steps: seq<Step>, s: State, id: Id)
    requires Leads(steps, s) && Quiet(s) && id < |s.senders|
    ensures !IsSettled(s, id) <==> id in s.late && id in s.sent
  {
    RunsAreSafe(steps, s);
    hide Leads, IsSettled, AtMostOnce, OwnAnswers;
    assert !MustSettle(s, id) && !Held(s, id);
  }

  /** Such a request exists: `send_host` reads the flag before it registers. */
  lemma LateRegistrationIsStuck()
    ensures exists steps, s :: Leads(steps, s) && Quiet(s) && |s.senders| == 1 && !IsSettled(s, 0)
  {
    hide Leads, IsSettled;
    var a := ReachClosed();
    var s1 := Next(CLOSED, Register(0));
    Extend(a, CLOSED, Register(0));
    var s2 := Next(s1, SendOk(0));
    Extend(a + [Register(0)], s1, SendOk(0));
    assert s2.senders == [Returned];
    NoneSettled(s2);
  }

  const CLEARED := State([Cleared], {}, {}, WIdle, SIdle, COpen, POOL, Unlocked, false, [], [], {}, {})
  const FLAGGED := State([Cleared], {}, {}, WIdle, SIdle, CJoining, POOL, Unlocked, true, [], [], {}, {})
  const JOINED := State([Cleared], {}, {}, WExited, SExited, CJoining, Pool({}, true), Unlocked, true, [], [], {}, {})
  const CLOSED := State([Cleared], {}, {}, WExited, SExited, CClosed, Pool({}, true), Unlocked, true, [], [], {}, {})

  lemma ReachCleared() returns (a: seq<Step>)
    ensures Leads(a, CLEARED)
  {
    hide Leads;
    LeadsInit();
    Extend([], INIT, Create);
    var s1 := Next(INIT, Create);
    Extend([] + [Create], s1, CheckShutdown(0));
    assert Next(s1, CheckShutdown(0)) == CLEARED;
    a := [] + [Create] + [CheckShutdown(0)];
  }

  lemma ReachFlagged() returns (a: seq<Step>)
    ensures Leads(a, FLAGGED)
  {
    hide Leads;
    a := ReachCleared();
    Extend(a, CLEARED, ShutFlag);
    assert Next(CLEARED, ShutFlag) == FLAGGED;
    a := a + [ShutFlag];
  }

  lemma ReachJoined() returns (a: seq<Step>)
    ensures Leads(a, JOINED)
  {
    hide Leads;
    a := ReachFlagged();
    Extend(a, FLAGGED, WorkerExit);
    var s1 := Next(FLAGGED, WorkerExit);
    Extend(a + [WorkerExit], s1, SweepExit);
    var s2 := Next(s1, SweepExit);
    Extend(a + [WorkerExit] + [SweepExit], s2, ShutPool);
    assert Next(s2, ShutPool) == JOINED;
    a := a + [WorkerExit] + [SweepExit] + [ShutPool];
  }

  lemma ReachClosed() returns (a: seq<Step>)
    ensures Leads(a, CLOSED)
  {
    hide Leads;
    a := ReachJoined();
    Extend(a, JOINED, ShutLock);
    var s1 := Next(JOINED, ShutLock);
    Extend(a + [ShutLock], s1, CloseEnd);
    assert Next(s1, CloseEnd) == CLOSED;
    a := a + [ShutLock] + [CloseEnd];
  }

  lemma LeadsInit()
    ensures Leads([], INIT)
  {
  }

  lemma NoneSettled(s: State)
    requires s.settled == []
    ensures !IsSettled(s, 0)
  {
  }

  lemma Extend(steps: seq<Step>, s: State, t: Step)
    requires Leads(steps, s) && Enabled(s, t)
    ensures Leads(steps + [t], Next(s, t))
  {
    hide Enabled, Next;
    var all := steps + [t];
    assert all[..|all| - 1] == steps && all[|all| - 1] == t;
  }
}
