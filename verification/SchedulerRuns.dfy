/**
 What a finished execution leaves behind, seen from the broadcasts of the runs that go on: a one-shot job is over, an
 interval job waits out its interval and then fires, an unpaid fee and a reached limit stop a job for good.
 */
module SchedulerRuns {
  import opened Prelude
  import opened Scheduler

  lemma {:induction false} RunAppend(job: Job, m: Machine, a: seq<Event>, b: seq<Event>)
    ensures Run(job, m, a + b) == Run(job, Run(job, m, a), b)
    decreases a
  {
    hide Step;
    if a == [] {
      assert a + b == b;
    } else {
      RunAppend(job, Step(job, m, a[0]), a[1..], b);
      assert (a + b)[1..] == a[1..] + b;
    }
  }

  // ----- Jobs that are over -----

  /** Between jobs, with a row that no filter yields any more. */
  predicate Over(m: Machine) {
    m.phase.Idle? && m.row.status != Active && !IsReclaimable(m.row)
  }

  lemma {:induction false} OverRun(job: Job, m: Machine, events: seq<Event>)
    requires Over(m)
    ensures Over(Run(job, m, events)) && Run(job, m, events).broadcast == m.broadcast
    decreases events
  {
    if events != [] {
      OverRun(job, Step(job, m, events[0]), events[1..]);
    }
  }

  /** Once a one-shot job's finalising write has returned, or landed before a crash, nothing is ever broadcast again. */
  lemma OneShotIsOver(job: Job, m: Machine, took: nat, ending: Ending, events: seq<Event>)
    requires job.trigger.OneShot? && m.phase.AwaitFinalize?
    requires ending.Returns? || (ending.Crashes? && ending.landed)
    ensures Run(job, m, [Ends(took, ending)] + events).broadcast == m.broadcast
  {
    assert ([Ends(took, ending)] + events)[1..] == events;
    OverRun(job, Step(job, m, Ends(took, ending)), events);
  }

  /** So is a limited job whose last execution was finalised. */
  lemma LimitedJobIsOver(job: Job, m: Machine, took: nat, ending: Ending, events: seq<Event>)
    requires job.maxExecutions.Some? && m.phase.AwaitFinalize? && m.phase.dispatch.next >= job.maxExecutions.value
    requires ending.Returns? || (ending.Crashes? && ending.landed)
    ensures Run(job, m, [Ends(took, ending)] + events).broadcast == m.broadcast
  {
    assert ([Ends(took, ending)] + events)[1..] == events;
    OverRun(job, Step(job, m, Ends(took, ending)), events);
  }

  /** An unpaid request fee stops the job wherever it is reported, once the error handler's write has landed. */
  lemma UnpaidFeeStops(job: Job, m: Machine, took: nat, thrown: Ending, later: nat, recovery: Ending,
                       events: seq<Event>)
    requires !m.phase.Idle? && !m.phase.AwaitFailure? && thrown.Throws? && thrown.feeNotPaid && Lands(recovery)
    ensures Run(job, m, [Ends(took, thrown), Ends(later, recovery)] + events).broadcast == m.broadcast
  {
    RunAppend(job, m, [Ends(took, thrown), Ends(later, recovery)], events);
    RunTwo(job, m, Ends(took, thrown), Ends(later, recovery));
    OverRun(job, Step(job, Step(job, m, Ends(took, thrown)), Ends(later, recovery)), events);
  }

  /** An error before the claim lands puts the row back in the active lane, at the same count and pin. */
  lemma EarlyErrorReactivates(job: Job, m: Machine, took: nat, thrown: Ending, later: nat, recovery: Ending)
    requires m.phase.AwaitPatch? || m.phase.AwaitClaim?
    requires thrown.Throws? && !thrown.landed && !thrown.feeNotPaid && Lands(recovery)
    ensures var m' := Run(job, m, [Ends(took, thrown), Ends(later, recovery)]);
            && m'.phase.Idle? && m'.row.status == Active && m'.broadcast == m.broadcast
            && (m'.row.count, m'.row.pinned, m'.row.nextRunAt) == (m.row.count, m.row.pinned, m.row.nextRunAt)
  {
    RunTwo(job, m, Ends(took, thrown), Ends(later, recovery));
  }

  // ----- One uninterrupted execution -----

  /** The four awaits of an execution without an evaluation patch: claim, queue, record, finalise. */
  function FourReturns(t: (nat, nat, nat, nat), legacy: bool): seq<Event> {
    var ok := Returns(true, legacy);
    [Ends(t.0, ok), Ends(t.1, ok)] + [Ends(t.2, ok), Ends(t.3, ok)]
  }

  /** A due clock job's uninterrupted execution broadcasts one new id and returns with the row finalised. */
  lemma ClockJobExecutes(job: Job, m: Machine, wait: nat, lag: nat, feed: Feed, t: (nat, nat, nat, nat), legacy: bool)
    requires job.chain == "neo_n3" && (job.trigger.OneShot? || job.trigger.Interval?) && feed.Price?
    requires m.phase.Idle? && m.row.status == Active && !MaxReached(job, m.row)
    requires m.row.nextRunAt.Some? && m.row.nextRunAt.value <= m.clock + wait
    ensures var m' := Run(job, Step(job, m, Tick(wait, lag, feed)), FourReturns(t, legacy));
            && m'.broadcast == m.broadcast + [RequestId(job, m.row.count + 1)]
            && m'.phase.Idle? && m'.row.count == m.row.count + 1
            && m'.row.status == (if job.trigger.OneShot? || MaxReached(job, m'.row) then Completed else Active)
            && (m'.row.status == Active && job.trigger.intervalMs > 0 ==>
                  m'.row.nextRunAt == Some(m.clock + wait + lag + job.trigger.intervalMs))
  {
    hide RequestId;
    var ok := Returns(true, legacy);
    var m0 := Step(job, m, Tick(wait, lag, feed));
    RunAppend(job, m0, [Ends(t.0, ok), Ends(t.1, ok)], [Ends(t.2, ok), Ends(t.3, ok)]);
    RunTwo(job, m0, Ends(t.0, ok), Ends(t.1, ok));
    var m2 := Step(job, Step(job, m0, Ends(t.0, ok)), Ends(t.1, ok));
    RunTwo(job, m2, Ends(t.2, ok), Ends(t.3, ok));
    Claims(job, m0, t.0, t.1, legacy, m.row.count + 1);
    Finalises(job, m2, t.2, t.3, legacy);
  }

  lemma Claims(job: Job, m: Machine, took: nat, later: nat, legacy: bool, next: nat)
    requires job.chain == "neo_n3" && m.phase.AwaitClaim? && !m.phase.advanced && ClaimLands(job, m.row, m.phase.plan)
    ensures var m' := Step(job, Step(job, m, Ends(took, Returns(true, legacy))), Ends(later, Returns(true, legacy)));
            && m'.phase == AwaitRecord(m.phase.plan, m.phase.dispatch)
            && m'.broadcast == m.broadcast + [m.phase.dispatch.requestId]
  {
  }

  lemma Finalises(job: Job, m: Machine, took: nat, later: nat, legacy: bool)
    requires m.phase.AwaitRecord? && (job.trigger.OneShot? || job.trigger.Interval?)
    ensures var m' := Step(job, Step(job, m, Ends(took, Returns(true, legacy))), Ends(later, Returns(true, legacy)));
            && m'.phase.Idle? && m'.broadcast == m.broadcast && m'.row.count == m.phase.dispatch.next
            && m'.row.status == (if job.trigger.OneShot? || MaxReached(job, m'.row) then Completed else Active)
            && (m'.row.status == Active && job.trigger.intervalMs > 0 ==>
                  m'.row.nextRunAt == Some(m.phase.plan.nowMs + job.trigger.intervalMs))
  {
  }

  /** A one-shot job that is not interrupted broadcasts exactly one id, however the run goes on. */
  lemma OneShotFiresOnce(job: Job, startAt: int, at: int, wait: nat, lag: nat, feed: Feed, t: (nat, nat, nat, nat),
                         legacy: bool, events: seq<Event>)
    requires job.chain == "neo_n3" && job.trigger.OneShot? && feed.Price? && startAt <= at + wait
    requires job.maxExecutions.Some? ==> job.maxExecutions.value > 0
    ensures Run(job, Step(job, Registered(Some(startAt), at), Tick(wait, lag, feed)), FourReturns(t, legacy) + events)
            .broadcast == [RequestId(job, 1)]
  {
    hide Step, Run, RequestId;
    var m := Registered(Some(startAt), at);
    ClockJobExecutes(job, m, wait, lag, feed, t, legacy);
    RunAppend(job, Step(job, m, Tick(wait, lag, feed)), FourReturns(t, legacy), events);
    OverRun(job, Run(job, Step(job, m, Tick(wait, lag, feed)), FourReturns(t, legacy)), events);
    assert [] + [RequestId(job, 1)] == [RequestId(job, 1)];
  }

  // ----- Intervals -----

  predicate Waiting(m: Machine, until: int) {
    m.phase.Idle? && (m.row.status == Completed || (m.row.status == Active && m.row.nextRunAt == Some(until)))
  }

  lemma {:induction false} WaitingRun(job: Job, m: Machine, until: int, events: seq<Event>)
    requires Waiting(m, until) && Run(job, m, events).clock < until
    ensures Run(job, m, events).broadcast == m.broadcast
    decreases events
  {
    if events != [] {
      RunClock(job, Step(job, m, events[0]), events[1..]);
      WaitingRun(job, Step(job, m, events[0]), until, events[1..]);
    }
  }

  lemma {:induction false} RunClock(job: Job, m: Machine, events: seq<Event>)
    ensures Run(job, m, events).clock >= m.clock
    decreases events
  {
    if events != [] {
      RunClock(job, Step(job, m, events[0]), events[1..]);
    }
  }

  /** After a finalised execution, nothing is broadcast until the evaluation time plus the interval has come. */
  lemma IntervalWaits(job: Job, m: Machine, took: nat, ending: Ending, events: seq<Event>)
    requires job.trigger.Interval? && job.trigger.intervalMs > 0 && m.phase.AwaitFinalize?
    requires ending.Returns? || (ending.Crashes? && ending.landed)
    requires Run(job, m, [Ends(took, ending)] + events).clock < m.phase.plan.nowMs + job.trigger.intervalMs
    ensures Run(job, m, [Ends(took, ending)] + events).broadcast == m.broadcast
  {
    assert ([Ends(took, ending)] + events)[1..] == events;
    WaitingRun(job, Step(job, m, Ends(took, ending)), m.phase.plan.nowMs + job.trigger.intervalMs, events);
  }

  /** And the next tick after it, if its awaits succeed, broadcasts the next id exactly when that time has come. */
  lemma IntervalFiresExactlyWhen(job: Job, m: Machine, took: nat, wait: nat, lag: nat, price: int, later: nat,
                                 legacy: bool)
    requires Inv(job, m) && job.chain == "neo_n3" && m.phase.AwaitFinalize?
    requires job.trigger.Interval? && job.trigger.intervalMs > 0 && !MaxReached(job, m.row)
    ensures var ok := Returns(true, legacy);
            var m1 := Step(job, m, Ends(took, ok));
            var m' := Run(job, m1, [Tick(wait, lag, Price(price)), Ends(later, ok)]);
            m'.broadcast == if m.phase.plan.nowMs + job.trigger.intervalMs <= m1.clock + wait
                            then m.broadcast + [RequestId(job, m.row.count + 1)] else m.broadcast
  {
    hide RequestId;
    var ok := Returns(true, legacy);
    RunTwo(job, Step(job, m, Ends(took, ok)), Tick(wait, lag, Price(price)), Ends(later, ok));
  }
}
