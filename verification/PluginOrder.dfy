/**
 When a plugin sees its notifications in the order of their arrival, said of the steps of a run: a
 coroutine that calls the parent may defer notifications that the loop overtakes.
 */
module PluginOrder {
  import opened PluginRpc

  // ---------------------------------------------------------------------------------------------
  // Steps of a run
  // ---------------------------------------------------------------------------------------------

  /** The coroutine that runs calls the parent. */
  predicate Calls(p: State, t: Step) {
    t.ChildCall? && p.child.phase.Coroutine?
  }

  /** While such a call waits, it reads a notification, which is deferred. */
  predicate Defers(p: State, t: Step) {
    t.ChildReads? && p.child.phase.Coroutine? && p.wire.toChild != [] && p.wire.toChild[0].Notify?
  }

  /** The loop reads a notification and dispatches it at once. */
  predicate Tells(p: State, t: Step) {
    t.Loop? && p.wire.toChild != [] && p.wire.toChild[0].Notify?
  }

  ghost predicate CallsAt(steps: seq<Step>, i: int)
    requires 0 <= i < |steps|
  {
    exists p :: Leads(steps[..i], p) && Calls(p, steps[i])
  }

  ghost predicate DefersAt(steps: seq<Step>, i: int)
    requires 0 <= i < |steps|
  {
    exists p :: Leads(steps[..i], p) && Defers(p, steps[i])
  }

  ghost predicate TellsAt(steps: seq<Step>, i: int)
    requires 0 <= i < |steps|
  {
    exists p :: Leads(steps[..i], p) && Tells(p, steps[i])
  }

  ghost predicate NoLoop(steps: seq<Step>, i: int, j: int)
    requires 0 <= i <= j <= |steps|
  {
    forall k | i < k < j :: !steps[k].Loop?
  }

  /** A coroutine deferred a notification, and the loop has not read anything since. */
  ghost predicate Owing(steps: seq<Step>) {
    exists i | 0 <= i < |steps| :: DefersAt(steps, i) && NoLoop(steps, i, |steps|)
  }

  /** The loop dispatched a notification that it read first after a coroutine had deferred one. */
  ghost predicate Overtakes(steps: seq<Step>) {
    exists i, j | 0 <= i < j < |steps| :: DefersAt(steps, i) && TellsAt(steps, j) && NoLoop(steps, i, j)
  }

  // ---------------------------------------------------------------------------------------------
  // One step more
  // ---------------------------------------------------------------------------------------------

  lemma SameBefore(steps: seq<Step>, t: Step, i: int)
    requires 0 <= i < |steps|
    ensures CallsAt(steps + [t], i) <==> CallsAt(steps, i)
    ensures DefersAt(steps + [t], i) <==> DefersAt(steps, i)
    ensures TellsAt(steps + [t], i) <==> TellsAt(steps, i)
  {
    hide Leads, Calls, Defers, Tells;
    assert (steps + [t])[..i] == steps[..i] && (steps + [t])[i] == steps[i];
  }

  lemma AtLast(steps: seq<Step>, s: State, t: Step)
    requires Leads(steps, s)
    ensures var n := |steps|;
            && (CallsAt(steps + [t], n) <==> Calls(s, t))
            && (DefersAt(steps + [t], n) <==> Defers(s, t))
            && (TellsAt(steps + [t], n) <==> Tells(s, t))
  {
    hide Leads, Calls, Defers, Tells;
    var n := |steps|;
    assert (steps + [t])[..n] == steps && (steps + [t])[n] == t;
    forall p | Leads(steps, p) ensures p == s { OneState(steps, p, s); }
  }

  lemma OwingAfter(steps: seq<Step>, s: State, t: Step)
    requires Leads(steps, s)
    ensures Owing(steps + [t]) <==> Defers(s, t) || (Owing(steps) && !t.Loop?)
  {
    hide Leads, DefersAt, Defers;
    var (all, n) := (steps + [t], |steps|);
    AtLast(steps, s, t);
    if Owing(all) {
      var i :| 0 <= i < |all| && DefersAt(all, i) && NoLoop(all, i, |all|);
      if i < n {
        SameBefore(steps, t, i);
        assert !all[n].Loop?;
        assert forall k | i < k < n :: all[k] == steps[k];
        assert NoLoop(steps, i, n);
      }
    }
    if Owing(steps) && !t.Loop? {
      var i :| 0 <= i < |steps| && DefersAt(steps, i) && NoLoop(steps, i, |steps|);
      SameBefore(steps, t, i);
      assert NoLoop(all, i, |all|);
    }
    if Defers(s, t) { assert NoLoop(all, n, |all|); }
  }

  lemma OvertakesAfter(steps: seq<Step>, s: State, t: Step)
    requires Leads(steps, s)
    ensures Overtakes(steps + [t]) <==> Overtakes(steps) || (Owing(steps) && Tells(s, t))
  {
    hide Leads, DefersAt, TellsAt, Tells;
    var (all, n) := (steps + [t], |steps|);
    AtLast(steps, s, t);
    if Overtakes(all) {
      var i, j :| 0 <= i < j < |all| && DefersAt(all, i) && TellsAt(all, j) && NoLoop(all, i, j);
      SameBefore(steps, t, i);
      assert forall k | i < k < j :: all[k] == steps[k];
      assert NoLoop(steps, i, j);
      if j < n { SameBefore(steps, t, j); }
    }
    if Overtakes(steps) {
      var i, j :| 0 <= i < j < |steps| && DefersAt(steps, i) && TellsAt(steps, j) && NoLoop(steps, i, j);
      SameBefore(steps, t, i);
      SameBefore(steps, t, j);
      assert forall k | i < k < j :: all[k] == steps[k];
      assert NoLoop(all, i, j);
    }
    if Owing(steps) && Tells(s, t) {
      var i :| 0 <= i < |steps| && DefersAt(steps, i) && NoLoop(steps, i, |steps|);
      SameBefore(steps, t, i);
      assert forall k | i < k < n :: all[k] == steps[k];
      assert NoLoop(all, i, n);
    }
  }

  // ---------------------------------------------------------------------------------------------
  // What the history's marks mean
  // ---------------------------------------------------------------------------------------------

  /** Between two messages of the loop. */
  predicate Between(p: Phase) {
    p.Idle? || p.Coroutine?
  }

  /**
   Between two messages something is deferred exactly when a coroutine owes it; while the loop works on
   a message nothing is owed.
   */
  ghost predicate DeferredMeans(steps: seq<Step>, s: State) {
    && (Between(s.child.phase) ==> (s.notes.deferred != [] <==> Owing(steps)))
    && (!Between(s.child.phase) && !s.child.phase.Dead? ==> !Owing(steps))
    && (s.child.wait.WaitingFor? ==> Running(s.child.phase))
  }

  lemma DeferredAfter(steps: seq<Step>, s: State, t: Step)
    requires Leads(steps, s) && Enabled(s, t) && DeferredMeans(steps, s)
    ensures DeferredMeans(steps + [t], Next(s, t))
  {
    hide Leads, Owing, NextParent, NextWire, NextHistory;
    OwingAfter(steps, s, t);
  }

  lemma {:induction false} MarksMean(steps: seq<Step>, s: State)
    requires Leads(steps, s)
    ensures DeferredMeans(steps, s)
    ensures s.notes.overtaken <==> Overtakes(steps)
    decreases |steps|
  {
    hide Enabled, Next, Overtakes;
    if steps == [] {
      NothingYet();
    } else {
      var n := |steps| - 1;
      var r :| Leads(steps[..n], r) && Enabled(r, steps[n]) && s == Next(r, steps[n]);
      assert steps == steps[..n] + [steps[n]];
      MarksMean(steps[..n], r);
      DeferredAfter(steps[..n], r, steps[n]);
      OvertakesAfter(steps[..n], r, steps[n]);
      OvertakenAfter(r, steps[n]);
    }
  }

  lemma NothingYet()
    ensures DeferredMeans([], INIT) && !Overtakes([]) && !INIT.notes.overtaken
  {
  }

  lemma OvertakenAfter(s: State, t: Step)
    requires Enabled(s, t)
    ensures Next(s, t).notes.overtaken <==> s.notes.overtaken || (Tells(s, t) && s.notes.deferred != [])
    ensures t.Loop? ==> s.child.phase.Idle?
  {
    hide NextParent, NextWire, NextHistory, NextChild;
  }

  /**
   All notifications together are dispatched in the order of their arrival, in every run, exactly when
   the loop never reads a notification as its first message after a coroutine deferred one.
   */
  lemma ArrivalOrderIff(steps: seq<Step>, s: State)
    requires Leads(steps, s)
    ensures Increasing(s.notes.log + Waiting(s)) <==> !Overtakes(steps)
  {
    hide Leads, Overtakes, Increasing, Waiting;
    MarksMean(steps, s);
    OvertakenBreaksOrder(steps, s);
  }

  // ---------------------------------------------------------------------------------------------
  // Plugins whose coroutines do not call
  // ---------------------------------------------------------------------------------------------

  ghost predicate SomeCall(steps: seq<Step>) {
    exists i | 0 <= i < |steps| :: CallsAt(steps, i)
  }

  lemma SomeCallAfter(steps: seq<Step>, s: State, t: Step)
    requires Leads(steps, s)
    ensures SomeCall(steps + [t]) <==> SomeCall(steps) || Calls(s, t)
  {
    hide Leads, CallsAt, Calls;
    AtLast(steps, s, t);
    if SomeCall(steps + [t]) {
      var i :| 0 <= i < |steps + [t]| && CallsAt(steps + [t], i);
      if i < |steps| { SameBefore(steps, t, i); }
    }
    if SomeCall(steps) {
      var i :| 0 <= i < |steps| && CallsAt(steps, i);
      SameBefore(steps, t, i);
      assert 0 <= i < |steps + [t]|;
    }
  }

  /** A coroutine that waits has called. */
  lemma {:induction false} WaitingHasCalled(steps: seq<Step>, s: State)
    requires Leads(steps, s) && s.child.phase.Coroutine? && s.child.wait.WaitingFor?
    ensures SomeCall(steps)
    decreases |steps|
  {
    hide SomeCall;
    if steps != [] {
      var n := |steps| - 1;
      var r :| Leads(steps[..n], r) && Enabled(r, steps[n]) && s == Next(r, steps[n]);
      assert steps == steps[..n] + [steps[n]];
      SomeCallAfter(steps[..n], r, steps[n]);
      MarksMean(steps[..n], r);
      WaitedBefore(r, steps[n]);
      if !Calls(r, steps[n]) { WaitingHasCalled(steps[..n], r); }
    }
  }

  lemma WaitedBefore(s: State, t: Step)
    requires Enabled(s, t) && (s.child.wait.WaitingFor? ==> Running(s.child.phase))
    requires Next(s, t).child.phase.Coroutine? && Next(s, t).child.wait.WaitingFor?
    ensures Calls(s, t) || (s.child.phase.Coroutine? && s.child.wait.WaitingFor?)
  {
    hide NextParent, NextWire, NextHistory, NextNotes;
  }

  lemma {:induction false} SomeCallGrows(steps: seq<Step>, s: State, i: nat)
    requires Leads(steps, s) && i <= |steps| && SomeCall(steps[..i])
    ensures SomeCall(steps)
    decreases |steps|
  {
    hide SomeCall;
    if i < |steps| {
      var n := |steps| - 1;
      var r :| Leads(steps[..n], r) && Enabled(r, steps[n]) && s == Next(r, steps[n]);
      assert steps[..n][..i] == steps[..i] && steps == steps[..n] + [steps[n]];
      SomeCallGrows(steps[..n], r, i);
      SomeCallAfter(steps[..n], r, steps[n]);
    } else {
      assert steps[..i] == steps;
    }
  }

  /** A plugin whose coroutines never call the parent gets its notifications in the order of their arrival. */
  lemma NoCallsKeepOrder(steps: seq<Step>, s: State)
    requires Leads(steps, s) && !SomeCall(steps)
    ensures Increasing(s.notes.log + Waiting(s))
  {
    hide Leads, Increasing, Waiting, SomeCall, NoLoop, TellsAt;
    ArrivalOrderIff(steps, s);
    if Overtakes(steps) {
      var i, j :| 0 <= i < j < |steps| && DefersAt(steps, i) && TellsAt(steps, j) && NoLoop(steps, i, j);
      var p :| Leads(steps[..i], p) && Defers(p, steps[i]);
      DeferringWaits(steps, s, i, p);
      WaitingHasCalled(steps[..i], p);
      SomeCallGrows(steps, s, i);
    }
  }

  /** The step that reads while a call waits was possible. */
  lemma {:induction false} DeferringWaits(steps: seq<Step>, s: State, i: nat, p: State)
    requires Leads(steps, s) && i < |steps| && Leads(steps[..i], p) && Defers(p, steps[i])
    ensures p.child.wait.WaitingFor?
    decreases |steps|
  {
    hide Next;
    var n := |steps| - 1;
    var r :| Leads(steps[..n], r) && Enabled(r, steps[n]) && s == Next(r, steps[n]);
    if i == n {
      OneState(steps[..n], r, p);
    } else {
      assert steps[..n][..i] == steps[..i] && steps[..n][i] == steps[i];
      DeferringWaits(steps[..n], r, i, p);
    }
  }
}
