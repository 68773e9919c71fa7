/** Where every settlement of a request comes from, told by the steps of the run. */
module CdpOutcomes {
  import opened CdpRequests

  /** Among the steps is one that accounts for the outcome of request `id`. */
  ghost predicate ComesFrom(steps: seq<Step>, id: Id, o: Outcome) {
    match o
    case Value(v) => exists m :: Received(steps, id, m) && m.body == Result(v)
    case CdpError(t) => exists m :: Received(steps, id, m) && m.body == Error(t)
    case InvalidResponse => exists m :: Received(steps, id, m) && m.body == Neither
    case ClientShutdown => RefuseExchange(id) in steps && ShutFlag in steps
    case SendFailed => SendFail(id) in steps
    case TimedOut => SweepExchange(id) in steps
    case ShutDown => CloseExchange(id) in steps && ShutFlag in steps
  }

  /** A message that is looked up by the request's id. */
  predicate Received(steps: seq<Step>, id: Id, m: Message) {
    WorkerCheck(m) in steps && Key(m) == WireId(id)
  }

  /** What each sender is about to do has its reason among the steps. */
  ghost predicate SendersHaveReasons(steps: seq<Step>, s: State) {
    forall id: Id | id < |s.senders| ::
      && (s.senders[id].Refusing? ==> ShutFlag in steps)
      && (s.senders[id].Failing? ==> SendFail(id) in steps)
      && (s.senders[id].Won? ==> ComesFrom(steps, id, s.senders[id].outcome))
  }

  ghost predicate OthersHaveReasons(steps: seq<Step>, s: State) {
    && (s.shutdown ==> ShutFlag in steps) && (!s.closer.COpen? ==> s.shutdown)
    && (s.worker.WChecked? || s.worker.WHolds? || s.worker.WWon? ==> WorkerCheck(s.worker.msg) in steps)
    && (s.worker.WHolds? || s.worker.WWon? ==> Key(s.worker.msg) == WireId(s.worker.id))
    && (s.sweeper.SWon? ==> SweepExchange(s.sweeper.id) in steps)
    && (s.closer.CWon? ==> CloseExchange(s.closer.id) in steps)
  }

  ghost predicate SettledForReasons(steps: seq<Step>, s: State) {
    forall k | 0 <= k < |s.settled| :: ComesFrom(steps, s.settled[k].0, s.settled[k].1)
  }

  lemma ComesFromMore(steps: seq<Step>, t: Step, id: Id, o: Outcome)
    requires ComesFrom(steps, id, o)
    ensures ComesFrom(steps + [t], id, o)
  {
    hide Key;
    if m :| Received(steps, id, m) && Says(m, o) { assert Received(steps + [t], id, m); }
  }

  lemma SendersAfter(steps: seq<Step>, s: State, t: Step)
    requires Enabled(s, t) && SendersHaveReasons(steps, s) && OthersHaveReasons(steps, s)
    ensures SendersHaveReasons(steps + [t], Next(s, t))
  {
    hide NextPending, NextWorker, NextSweeper, NextCloser, NextLock, NextPool, Settles, IsSettled, Key, Takes;
    var n := Next(s, t);
    forall id: Id | id < |n.senders|
      ensures (n.senders[id].Refusing? ==> ShutFlag in steps + [t])
      ensures (n.senders[id].Failing? ==> SendFail(id) in steps + [t])
      ensures (n.senders[id].Won? ==> ComesFrom(steps + [t], id, n.senders[id].outcome))
    {
      if id < |s.senders| && n.senders[id] == s.senders[id] && s.senders[id].Won? {
        ComesFromMore(steps, t, id, s.senders[id].outcome);
      }
    }
  }

  lemma OthersAfter(steps: seq<Step>, s: State, t: Step)
    requires Enabled(s, t) && OthersHaveReasons(steps, s)
    ensures OthersHaveReasons(steps + [t], Next(s, t))
  {
    hide NextSenders, NextPending, NextLock, NextPool, Settles, IsSettled, Takes, Key;
  }

  lemma SettledAfter(steps: seq<Step>, s: State, t: Step)
    requires Enabled(s, t)
    requires SendersHaveReasons(steps, s) && OthersHaveReasons(steps, s) && SettledForReasons(steps, s)
    ensures SettledForReasons(steps + [t], Next(s, t))
  {
    hide NextSenders, NextPending, NextWorker, NextSweeper, NextCloser, NextLock, NextPool, IsSettled;
    hide Takes, ComesFrom, Key;
    var n := Next(s, t);
    forall k | 0 <= k < |n.settled| ensures ComesFrom(steps + [t], n.settled[k].0, n.settled[k].1) {
      if k < |s.settled| {
        ComesFromMore(steps, t, s.settled[k].0, s.settled[k].1);
      } else {
        NewSettlement(steps, s, t, n.settled[k].0, n.settled[k].1);
        ComesFromMore(steps, t, n.settled[k].0, n.settled[k].1);
      }
    }
  }

  lemma NewSettlement(steps: seq<Step>, s: State, t: Step, id: Id, o: Outcome)
    requires Enabled(s, t) && (id, o) in Settles(s, t)
    requires SendersHaveReasons(steps, s) && OthersHaveReasons(steps, s)
    ensures ComesFrom(steps, id, o)
  {
    hide IsSettled, Key;
    if t.WorkerSettle? { assert Received(steps, id, s.worker.msg); }
  }

  /**
   In every run, every promise that was fulfilled got the result of a message for it, every error and malformed answer
   was that of one, and the other failures come from where they say: a refused or failed send, the timeout sweep,
   or shutdown.
   */
  lemma {:induction false} OutcomesComeFrom(steps: seq<Step>, s: State)
    requires Leads(steps, s)
    ensures SettledForReasons(steps, s)
    ensures SendersHaveReasons(steps, s) && OthersHaveReasons(steps, s)
    decreases |steps|
  {
    hide SettledForReasons, SendersHaveReasons, OthersHaveReasons, Enabled, Next;
    if steps == [] {
      NothingSettled();
    } else {
      var n := |steps| - 1;
      var r :| Leads(steps[..n], r) && Enabled(r, steps[n]) && s == Next(r, steps[n]);
      OutcomesComeFrom(steps[..n], r);
      SendersAfter(steps[..n], r, steps[n]);
      OthersAfter(steps[..n], r, steps[n]);
      SettledAfter(steps[..n], r, steps[n]);
      assert steps == steps[..n] + [steps[n]];
    }
  }

  lemma NothingSettled()
    ensures SettledForReasons([], INIT) && SendersHaveReasons([], INIT) && OthersHaveReasons([], INIT)
  {
  }
}
