/** What the client's threads can always do for a request in the table: answer it, and time it out. */
module CdpProgress {
  import opened CdpRequests

  lemma OpenInTable(s: State, id: Id)
    requires TableFresh(s) && Phases(s) && s.lock.Unlocked? && id in s.pending
    ensures id !in s.completed
  {
  }

  // ---------------------------------------------------------------------------------------------
  // The sweeper
  // ---------------------------------------------------------------------------------------------

  lemma SweepsTo(s: State, id: Id)
    requires s.sweeper.SIdle? && !s.shutdown && s.lock.Unlocked? && id in s.pending
    ensures Enabled(s, SweepCheck)
    ensures var a := Next(s, SweepCheck);
            && Enabled(a, SweepTake({id}))
            && Next(a, SweepTake({id})) == s.(sweeper := SHolds({id}), pending := s.pending - {id})
  {
    var a := Next(s, SweepCheck);
    assert a == s.(sweeper := SChecked);
  }

  lemma SweptOut(s: State, id: Id)
    requires s.sweeper == SHolds({id}) && id !in s.completed
    ensures Enabled(s, SweepExchange(id))
    ensures var a := Next(s, SweepExchange(id));
            && Enabled(a, SweepSettle)
            && Next(a, SweepSettle) ==
               s.(sweeper := SHolds({}), completed := s.completed + {id}, settled := s.settled + [(id, TimedOut)])
  {
    var a := Next(s, SweepExchange(id));
    assert {id} - {id} == {};
    assert a == s.(sweeper := SWon(id, {}), completed := s.completed + {id});
  }

  /**
   In every run in which the sweeper is between two rounds, a request in the table can be timed out by its next round,
   after which it is out of the table, settled once, and the sweeper is back where it was.
   */
  lemma PendingCanTimeOut(steps: seq<Step>, s: State, id: Id) returns (n: State)
    requires Leads(steps, s) && s.sweeper.SIdle? && !s.shutdown && s.lock.Unlocked? && id in s.pending
    ensures Leads(steps + [SweepCheck, SweepTake({id}), SweepExchange(id), SweepSettle, SweepEnd], n)
    ensures n == s.(pending := s.pending - {id}, completed := s.completed + {id},
                    settled := s.settled + [(id, TimedOut)])
  {
    hide Leads, Inv, Enabled, Next;
    RunsAreSafe(steps, s);
    assert id !in s.completed by { InvTable(s); OpenInTable(s, id); }
    SweepsTo(s, id);
    Extend(steps, s, SweepCheck);
    var a := Next(s, SweepCheck);
    Extend(steps + [SweepCheck], a, SweepTake({id}));
    var b := Next(a, SweepTake({id}));
    SweptOut(b, id);
    var two := steps + [SweepCheck] + [SweepTake({id})];
    Extend(two, b, SweepExchange(id));
    var c := Next(b, SweepExchange(id));
    Extend(two + [SweepExchange(id)], c, SweepSettle);
    var d := Next(c, SweepSettle);
    SweepEnds(d);
    Extend(two + [SweepExchange(id)] + [SweepSettle], d, SweepEnd);
    n := Next(d, SweepEnd);
    assert two + [SweepExchange(id)] + [SweepSettle] + [SweepEnd] ==
           steps + [SweepCheck, SweepTake({id}), SweepExchange(id), SweepSettle, SweepEnd];
  }

  lemma InvTable(s: State)
    requires Inv(s)
    ensures TableFresh(s) && Phases(s)
  {
  }

  lemma SweepEnds(s: State)
    requires s.sweeper == SHolds({})
    ensures Enabled(s, SweepEnd) && Next(s, SweepEnd) == s.(sweeper := SIdle)
  {
  }

  // ---------------------------------------------------------------------------------------------
  // The worker
  // ---------------------------------------------------------------------------------------------

  lemma WorksTo(s: State, id: Id, m: Message)
    requires s.worker.WIdle? && !s.shutdown && s.lock.Unlocked? && id in s.pending && Key(m) == WireId(id)
    ensures Enabled(s, WorkerCheck(m))
    ensures var a := Next(s, WorkerCheck(m));
            && Enabled(a, WorkerFind)
            && Next(a, WorkerFind) ==
               s.(worker := WHolds(id, m), pending := s.pending - {id}, answered := s.answered + [(id, m)])
  {
    hide Key;
    var a := Next(s, WorkerCheck(m));
    assert a == s.(worker := WChecked(m));
  }

  lemma WorkedOut(s: State, id: Id, m: Message)
    requires s.worker == WHolds(id, m) && id !in s.completed
    ensures Enabled(s, WorkerExchange)
    ensures var a := Next(s, WorkerExchange);
            && Enabled(a, WorkerSettle)
            && exists o :: Says(m, o) &&
                           Next(a, WorkerSettle) == s.(worker := WIdle, completed := s.completed + {id},
                                                       settled := s.settled + [(id, o)])
  {
    var a := Next(s, WorkerExchange);
    assert a == s.(worker := WWon(id, m), completed := s.completed + {id});
    assert Says(m, Answer(m.body));
  }

  /**
   In every run in which the worker is between two messages, a message with the number of a request in the table
   settles that request with what the message says, and nothing else.
   */
  lemma PendingCanBeAnswered(steps: seq<Step>, s: State, id: Id, m: Message) returns (n: State, o: Outcome)
    requires Leads(steps, s) && s.worker.WIdle? && !s.shutdown && s.lock.Unlocked? && id in s.pending
    requires Key(m) == WireId(id)
    ensures Leads(steps + [WorkerCheck(m), WorkerFind, WorkerExchange, WorkerSettle], n) && Says(m, o)
    ensures n == s.(pending := s.pending - {id}, completed := s.completed + {id}, answered := s.answered + [(id, m)],
                    settled := s.settled + [(id, o)])
  {
    hide Leads, Inv, Enabled, Next, Key, Says;
    RunsAreSafe(steps, s);
    assert id !in s.completed by { InvTable(s); OpenInTable(s, id); }
    WorksTo(s, id, m);
    Extend(steps, s, WorkerCheck(m));
    var a := Next(s, WorkerCheck(m));
    Extend(steps + [WorkerCheck(m)], a, WorkerFind);
    var b := Next(a, WorkerFind);
    WorkedOut(b, id, m);
    var two := steps + [WorkerCheck(m)] + [WorkerFind];
    Extend(two, b, WorkerExchange);
    var c := Next(b, WorkerExchange);
    Extend(two + [WorkerExchange], c, WorkerSettle);
    n := Next(c, WorkerSettle);
    o :| Says(m, o) && n == b.(worker := WIdle, completed := b.completed + {id}, settled := b.settled + [(id, o)]);
    assert two + [WorkerExchange] + [WorkerSettle] ==
           steps + [WorkerCheck(m), WorkerFind, WorkerExchange, WorkerSettle];
  }
}
