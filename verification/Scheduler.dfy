/**
 workers/morpheus-relayer/src/automation.js, processAutomationJobs, for one job row and one relayer. The
 machine stops at every await: the awaited write may land or not, the await may return, throw, or never
 come back because the process died. Only the row, and what was broadcast, survive a crash. Times are in
 milliseconds on one clock that never runs backwards.
 */
module Scheduler {
  import opened Prelude
  import opened Decimals

  // ----- Count-based request ids (packages/shared/src/automation-supervisor.js) -----

  datatype Job = Job(
    automationId: string,
    chain: string,
    trigger: Trigger,
    maxExecutions: Option<nat>,
    claimStaleMs: int)

  datatype Trigger =
    | OneShot(startAt: Option<int>)
    | Interval(startAt: Option<int>, intervalMs: int)
    | PriceThreshold(pair: string, comparator: Comparator, threshold: int, cooldownMs: int)
    | Unsupported

  datatype Comparator = Gte | Lte | CrossAbove | CrossBelow | Unknown

  function RequestId(job: Job, k: nat): string {
    "automation:" + (if job.chain == "" then "unknown" else job.chain) + ":" + job.automationId + ":" + Decimal(k)
  }

  /** Two executions of a job never share an id. */
  lemma RequestIdInjective(job: Job, k: nat, l: nat)
    requires RequestId(job, k) == RequestId(job, l)
    ensures k == l
  {
    var prefix := "automation:" + (if job.chain == "" then "unknown" else job.chain) + ":" + job.automationId + ":";
    assert RequestId(job, k) == prefix + Decimal(k) && RequestId(job, l) == prefix + Decimal(l);
    assert (prefix + Decimal(k))[|prefix|..] == Decimal(k) && (prefix + Decimal(l))[|prefix|..] == Decimal(l);
    DecimalInjective(k, l);
  }

  /** What an id looks like. */
  lemma RequestIdExample(job: Job)
    requires job.chain == "neo_n3" && job.automationId == "a1"
    ensures RequestId(job, 12) == "automation:neo_n3:a1:12"
  {
    assert Decimal(12) == Decimal(1) + ['2'] == "12";
  }

  // ----- The durable row -----

  datatype Status = Active | Processing | Paused | Completed | Error | OtherStatus

  const CLAIM_MARKER := "__morpheus_automation_processing_claim__"

  datatype Row = Row(
    status: Status,
    lastError: string,
    count: nat,
    pinned: string,
    nextRunAt: Option<int>,
    lastObserved: Option<int>,
    updatedAt: int)

  datatype Dispatch = Dispatch(next: nat, requestId: string)

  /** buildUpkeepDispatch: a negative count, as after subtracting one from zero, counts as zero. */
  function UpkeepDispatch(job: Job, count: int): Dispatch {
    var n := if count < 0 then 0 else count;
    Dispatch(n + 1, RequestId(job, n + 1))
  }

  predicate IsReclaimable(row: Row) {
    row.status == Processing || (row.status == Paused && row.lastError == CLAIM_MARKER)
  }

  /**
   The row filter shared by the fetch and by the conditional claim (persistence.js): an active row whose time
   has come, or one left mid-flight and not written to since staleBefore.
   */
  predicate Eligible(row: Row, dueAt: int, staleBefore: int) {
    || (row.status == Active && (row.nextRunAt.None? || row.nextRunAt.value <= dueAt))
    || (IsReclaimable(row) && row.updatedAt < staleBefore)
  }

  const FETCH_STALE_MS := 120000

  function ClaimStaleMs(job: Job): int {
    if job.claimStaleMs < 1000 then 1000 else job.claimStaleMs
  }

  /** The dispatch of the next execution, and whether the row was already advanced for it. */
  function ResolveDispatch(job: Job, row: Row): (Dispatch, bool) {
    var advanced := UpkeepDispatch(job, row.count - 1);
    if IsReclaimable(row) && row.count > 0 && row.pinned != "" && row.pinned == advanced.requestId
    then (advanced, true)
    else (UpkeepDispatch(job, row.count), false)
  }

  // ----- Evaluation -----

  /** A write to the row; fields left out stay. */
  datatype Patch = Patch(
    status: Option<Status>,
    lastError: Option<string>,
    nextRunAt: Option<Option<int>>,
    lastObserved: Option<int>)

  const NO_PATCH := Patch(None, None, None, None)

  function Patched(row: Row, p: Patch, at: int): Row {
    row.(updatedAt := at,
         status := if p.status.Some? then p.status.value else row.status,
         lastError := if p.lastError.Some? then p.lastError.value else row.lastError,
         nextRunAt := if p.nextRunAt.Some? then p.nextRunAt.value else row.nextRunAt,
         lastObserved := if p.lastObserved.Some? then p.lastObserved else row.lastObserved)
  }

  datatype Evaluation = Evaluation(due: bool, patch: Option<Patch>)

  predicate Triggered(comparator: Comparator, previous: Option<int>, current: int, threshold: int) {
    match comparator
    case Gte => current >= threshold
    case Lte => current <= threshold
    case CrossAbove => previous.Some? && previous.value < threshold <= current
    case CrossBelow => previous.Some? && previous.value > threshold >= current
    case Unknown => false
  }

  predicate MaxReached(job: Job, row: Row) {
    job.maxExecutions.Some? && row.count >= job.maxExecutions.value
  }

  function ErrorPatch(message: string): Patch {
    NO_PATCH.(status := Some(Error), lastError := Some(message))
  }

  /** evaluateAutomationJob on the fetched row, a reclaimable one being taken for active; price is the feed's answer. */
  function Evaluate(job: Job, row: Row, nowMs: int, price: int): Evaluation {
    if row.status != Active && !IsReclaimable(row) then Evaluation(false, None)
    else if MaxReached(job, row) then
      Evaluation(false, Some(NO_PATCH.(status := Some(Completed), nextRunAt := Some(None))))
    else
      match job.trigger
      case PriceThreshold(pair, comparator, threshold, cooldownMs) =>
        if pair == "" then Evaluation(false, Some(ErrorPatch("price_threshold pair missing")))
        else if row.nextRunAt.Some? && row.nextRunAt.value > nowMs then Evaluation(false, None)
        else
          var due := Triggered(comparator, row.lastObserved, price, threshold);
          var nextRunAt := if due && cooldownMs > 0 then Some(nowMs + cooldownMs) else row.nextRunAt;
          Evaluation(due, Some(NO_PATCH.(nextRunAt := Some(nextRunAt), lastObserved := Some(price))))
      case Unsupported => Evaluation(false, Some(ErrorPatch("unsupported trigger type")))
      case _ =>
        var nextRun := if row.nextRunAt.Some? then row.nextRunAt else job.trigger.startAt;
        if nextRun.None? then Evaluation(false, Some(ErrorPatch("invalid next_run_at")))
        else Evaluation(nextRun.value <= nowMs, None)
  }

  /** buildQueuedAutomationPatch: the row once its execution is queued. */
  function Finalized(job: Job, row: Row, evaluation: Evaluation, nowMs: int, d: Dispatch, at: int): Row {
    var base := Patched(row, if evaluation.patch.Some? then evaluation.patch.value else NO_PATCH, at);
    var nextRunAt :=
      match job.trigger
      case OneShot(_) => None
      case Interval(_, intervalMs) => if intervalMs > 0 then Some(nowMs + intervalMs) else None
      case _ => base.nextRunAt;
    var done := job.trigger.OneShot? || (job.maxExecutions.Some? && d.next >= job.maxExecutions.value);
    base.(count := d.next, pinned := d.requestId, lastError := "",
          status := if done then Completed else Active,
          nextRunAt := if done then None else nextRunAt)
  }

  // ----- The machine -----

  /** What one tick settled on for the job: the fetch time, the evaluation time and the verdict. */
  datatype Plan = Plan(dueAt: int, nowMs: int, evaluation: Evaluation)

  /** Where the relayer is: between jobs, or at an await, with the locals it would go on with. */
  datatype Phase =
    | Idle
    | AwaitPatch(seen: Row, plan: Plan)
    | AwaitClaim(plan: Plan, dispatch: Dispatch, advanced: bool)
    | AwaitQueue(plan: Plan, dispatch: Dispatch)
    | AwaitRecord(plan: Plan, dispatch: Dispatch)
    | AwaitFinalize(plan: Plan, dispatch: Dispatch)
    | AwaitFailure(patch: Patch)

  datatype Machine = Machine(row: Row, phase: Phase, broadcast: seq<string>, clock: int)

  /**
   How an await ends. A claim that landed may still come back without its row (found is false), and
   legacySchema says that a status constraint forced the claim into its paused form.
   */
  datatype Ending =
    | Returns(found: bool, legacySchema: bool)
    | Throws(landed: bool, legacySchema: bool, message: string, feeNotPaid: bool)
    | Crashes(landed: bool, legacySchema: bool)

  /** How evaluateAutomationJob ends: with the feed's price at hand, or with an error. */
  datatype Feed = Price(price: int) | FeedThrows(message: string)

  datatype Event =
    | Tick(wait: nat, lag: nat, feed: Feed)
    | Ends(took: nat, ending: Ending)

  predicate Lands(ending: Ending) {
    ending.Returns? || ending.landed
  }

  predicate InFlight(phase: Phase) {
    phase.AwaitQueue? || phase.AwaitRecord? || phase.AwaitFinalize?
  }

  predicate ClaimLands(job: Job, row: Row, plan: Plan) {
    Eligible(row, plan.dueAt, plan.dueAt - ClaimStaleMs(job))
  }

  /** claimAutomationJob: the conditional write that advances the count and pins the id in one go. */
  function Claimed(row: Row, d: Dispatch, advanced: bool, legacySchema: bool, at: int): Row {
    var base := (if advanced then row else row.(count := d.next, pinned := d.requestId)).(updatedAt := at);
    if legacySchema then base.(status := Paused, lastError := CLAIM_MARKER)
    else base.(status := Processing, lastError := "")
  }

  /** The row once the awaited write, if there is one, has landed. */
  function Landed(job: Job, row: Row, phase: Phase, legacySchema: bool, at: int): Row {
    match phase
    case AwaitPatch(_, plan) =>
      Patched(row, if plan.evaluation.patch.Some? then plan.evaluation.patch.value else NO_PATCH, at)
    case AwaitClaim(plan, d, advanced) =>
      if ClaimLands(job, row, plan) then Claimed(row, d, advanced, legacySchema, at) else row
    case AwaitFinalize(plan, d) => Finalized(job, row, plan.evaluation, plan.nowMs, d, at)
    case AwaitFailure(patch) => Patched(row, patch, at)
    case _ => row
  }

  /** classifyAutomationExecutionFailure. */
  function FailurePatch(message: string, feeNotPaid: bool, inFlight: bool): Patch {
    if feeNotPaid then NO_PATCH.(status := Some(Error), nextRunAt := Some(None), lastError := Some(message))
    else if inFlight then NO_PATCH.(status := Some(Processing), lastError := Some(message))
    else NO_PATCH.(status := Some(Active), lastError := Some(message))
  }

  function AfterPatch(job: Job, seen: Row, plan: Plan): Phase {
    if !plan.evaluation.due then Idle
    else
      var (d, advanced) := ResolveDispatch(job, seen);
      AwaitClaim(plan, d, advanced)
  }

  /** queueAutomationExecution refuses a foreign chain before it sends anything. */
  function AfterClaim(job: Job, plan: Plan, d: Dispatch): Phase {
    if job.chain == "neo_n3" then AwaitQueue(plan, d)
    else AwaitFailure(FailurePatch("Invalid automation job chain: " + job.chain, false, true))
  }

  /** What comes after an await that returned. Entering AwaitQueue is the broadcast. */
  function Next(job: Job, row: Row, phase: Phase, found: bool): Phase {
    match phase
    case AwaitPatch(seen, plan) => AfterPatch(job, seen, plan)
    case AwaitClaim(plan, d, _) => if found && ClaimLands(job, row, plan) then AfterClaim(job, plan, d) else Idle
    case AwaitQueue(plan, d) => AwaitRecord(plan, d)
    case AwaitRecord(plan, d) => AwaitFinalize(plan, d)
    case _ => Idle
  }

  function Sent(broadcast: seq<string>, phase: Phase): seq<string> {
    if phase.AwaitQueue? then broadcast + [phase.dispatch.requestId] else broadcast
  }

  /** The first await of a tick, if the filter yields the row at all. */
  function Start(job: Job, row: Row, dueAt: int, nowMs: int, feed: Feed): Phase {
    if !Eligible(row, dueAt, dueAt - FETCH_STALE_MS) then Idle
    else if feed.FeedThrows? then AwaitFailure(FailurePatch(feed.message, false, false))
    else
      var plan := Plan(dueAt, nowMs, Evaluate(job, row, nowMs, feed.price));
      if plan.evaluation.patch.Some? then AwaitPatch(row, plan) else AfterPatch(job, row, plan)
  }

  function Ended(job: Job, m: Machine, ending: Ending, at: int): Machine {
    match ending
    case Returns(found, legacySchema) =>
      var phase := Next(job, m.row, m.phase, found);
      Machine(Landed(job, m.row, m.phase, legacySchema, at), phase, Sent(m.broadcast, phase), at)
    case Throws(landed, legacySchema, message, feeNotPaid) =>
      Machine(if landed then Landed(job, m.row, m.phase, legacySchema, at) else m.row,
              if m.phase.AwaitFailure? then Idle
              else AwaitFailure(FailurePatch(message, feeNotPaid, InFlight(m.phase))),
              m.broadcast, at)
    case Crashes(landed, legacySchema) =>
      Machine(if landed then Landed(job, m.row, m.phase, legacySchema, at) else m.row, Idle, m.broadcast, at)
  }

  function Step(job: Job, m: Machine, event: Event): Machine {
    match event
    case Tick(wait, lag, feed) =>
      if m.phase.Idle? then
        var dueAt := m.clock + wait;
        Machine(m.row, Start(job, m.row, dueAt, dueAt + lag, feed), m.broadcast, dueAt + lag)
      else m
    case Ends(took, ending) =>
      if m.phase.Idle? then m else Ended(job, m, ending, m.clock + took)
  }

  function Run(job: Job, m: Machine, events: seq<Event>): Machine
    decreases events
  {
    if events == [] then m else Run(job, Step(job, m, events[0]), events[1..])
  }

  /** A freshly registered job. */
  function Registered(nextRunAt: Option<int>, at: int): Machine {
    Machine(Row(Active, "", 0, "", nextRunAt, None, at), Idle, [], at)
  }

  // ----- The invariant -----

  predicate WithinMax(job: Job, count: nat) {
    job.maxExecutions.Some? ==> count <= job.maxExecutions.value
  }

  /** A broadcast id is the id of an execution the durable count has already reached. */
  ghost predicate IsCounted(job: Job, row: Row, id: string) {
    exists k: nat :: 1 <= k <= row.count && id == RequestId(job, k)
  }

  /** The execution in hand is the one the row was advanced to and has pinned. */
  predicate Pinned(job: Job, row: Row, d: Dispatch) {
    d == Dispatch(row.count, RequestId(job, row.count)) && row.count >= 1 && row.pinned == d.requestId
  }

  predicate MidFlight(job: Job, m: Machine) {
    && InFlight(m.phase)
    && Pinned(job, m.row, m.phase.dispatch) && IsReclaimable(m.row) && m.phase.dispatch.requestId in m.broadcast
  }

  predicate PhaseInv(job: Job, m: Machine) {
    match m.phase
    case AwaitPatch(seen, plan) =>
      && seen.count == m.row.count && seen.pinned == m.row.pinned
      && plan.dueAt <= m.clock
      && (plan.evaluation.due ==> !MaxReached(job, seen))
    case AwaitClaim(plan, d, advanced) =>
      && plan.dueAt <= m.clock
      && !MaxReached(job, m.row)
      && (if advanced then Pinned(job, m.row, d)
          else d == Dispatch(m.row.count + 1, RequestId(job, m.row.count + 1)))
    case AwaitFailure(_) => true
    case Idle => true
    case _ => MidFlight(job, m)
  }

  ghost predicate Inv(job: Job, m: Machine) {
    && WithinMax(job, m.row.count)
    && PhaseInv(job, m)
    && forall id :: id in m.broadcast ==> IsCounted(job, m.row, id)
  }

  /** The event is the landing of a fresh claim whose filter the row still passes. */
  predicate Advances(job: Job, m: Machine, event: Event) {
    && m.phase.AwaitClaim? && !m.phase.advanced
    && event.Ends? && Lands(event.ending) && ClaimLands(job, m.row, m.phase.plan)
  }

  lemma StepCounts(job: Job, m: Machine, event: Event)
    requires PhaseInv(job, m)
    ensures Step(job, m, event).row.count == m.row.count + if Advances(job, m, event) then 1 else 0
    ensures m.broadcast <= Step(job, m, event).broadcast
  {
    hide RequestId, Evaluate;
  }

  lemma StepKeepsInv(job: Job, m: Machine, event: Event)
    requires Inv(job, m)
    ensures Inv(job, Step(job, m, event))
    ensures Step(job, m, event).row.count == m.row.count + if Advances(job, m, event) then 1 else 0
    ensures m.broadcast <= Step(job, m, event).broadcast
  {
    hide RequestId;
    StepCounts(job, m, event);
    var m' := Step(job, m, event);
    forall id | id in m'.broadcast
      ensures IsCounted(job, m'.row, id)
    {
      if id in m.broadcast {
        assert IsCounted(job, m.row, id);
      } else {
        assert id == RequestId(job, m'.row.count);
      }
    }
  }

  lemma {:induction false} RunKeepsInv(job: Job, m: Machine, events: seq<Event>)
    requires Inv(job, m)
    ensures Inv(job, Run(job, m, events))
    ensures m.row.count <= Run(job, m, events).row.count
    ensures m.broadcast <= Run(job, m, events).broadcast
    decreases events
  {
    hide Step, Inv;
    if events != [] {
      StepKeepsInv(job, m, events[0]);
      RunKeepsInv(job, Step(job, m, events[0]), events[1..]);
    }
  }

  // ----- What it buys -----

  lemma {:induction false} FewIds(job: Job, ids: set<string>, count: nat)
    requires forall id :: id in ids ==> exists k: nat :: 1 <= k <= count && id == RequestId(job, k)
    ensures |ids| <= count
    decreases count
  {
    hide RequestId;
    if count == 0 {
      assert forall id :: id !in ids;
    } else {
      FewIds(job, ids - {RequestId(job, count)}, count - 1);
    }
  }

  /**
   Whatever crashes and errors come between, every broadcast id is that of an execution the durable count
   covers, so a job limited to M executions broadcasts at most M distinct ids.
   */
  lemma BroadcastsAreCounted(job: Job, nextRunAt: Option<int>, at: int, events: seq<Event>)
    ensures var m := Run(job, Registered(nextRunAt, at), events);
            && (forall id :: id in m.broadcast ==> IsCounted(job, m.row, id))
            && |set id | id in m.broadcast| <= m.row.count
            && WithinMax(job, m.row.count)
  {
    hide Run, RequestId;
    RunKeepsInv(job, Registered(nextRunAt, at), events);
    var m := Run(job, Registered(nextRunAt, at), events);
    var ids := set id | id in m.broadcast;
    forall id | id in ids
      ensures exists k: nat :: 1 <= k <= m.row.count && id == RequestId(job, k)
    {
      assert IsCounted(job, m.row, id);
    }
    FewIds(job, ids, m.row.count);
  }

  /** The step that broadcasts: the id is already pinned in the durable row, and the row is mid-flight. */
  lemma PinnedBeforeBroadcast(job: Job, m: Machine, event: Event)
    requires Inv(job, m) && Step(job, m, event).broadcast != m.broadcast
    ensures var m' := Step(job, m, event);
            && m'.broadcast == m.broadcast + [m'.row.pinned]
            && m'.row.pinned == RequestId(job, m'.row.count)
            && IsReclaimable(m'.row)
  {
    hide RequestId;
  }

  /** A fresh claim mints an id never broadcast before. */
  lemma FreshClaimMintsNewId(job: Job, m: Machine)
    requires Inv(job, m) && m.phase.AwaitClaim? && !m.phase.advanced
    ensures m.phase.dispatch.requestId !in m.broadcast
  {
    hide RequestId;
    var d := m.phase.dispatch;
    if d.requestId in m.broadcast {
      assert IsCounted(job, m.row, d.requestId);
      var k: nat :| 1 <= k <= m.row.count && d.requestId == RequestId(job, k);
      RequestIdInjective(job, d.next, k);
    }
  }

  lemma RequestIdIsNotEmpty(job: Job, k: nat)
    ensures RequestId(job, k) != ""
  {
    assert RequestId(job, k)[..11] == "automation:";
  }

  /** A row left mid-flight re-derives the very id it has pinned, and the claim does not advance it again. */
  lemma ReclaimReDerives(job: Job, row: Row)
    requires IsReclaimable(row) && row.count >= 1 && row.pinned == RequestId(job, row.count)
    ensures ResolveDispatch(job, row) == (Dispatch(row.count, row.pinned), true)
  {
    hide RequestId;
    RequestIdIsNotEmpty(job, row.count);
  }

  /**
   Interrupt an execution anywhere between its claim and its finalising write, by a crash or by an error
   other than an unpaid fee: the row is left reclaimable, pinned to the same execution. The one exception is
   a finalising write that landed all the same, unless the error handler's own write lands after it.
   */
  lemma InterruptedRowIsReclaimable(job: Job, m: Machine, took: nat, ending: Ending, later: nat, recovery: Ending)
    requires Inv(job, m) && InFlight(m.phase)
    requires ending.Crashes? || (ending.Throws? && !ending.feeNotPaid)
    requires m.phase.AwaitFinalize? && ending.landed ==> ending.Throws? && Lands(recovery)
    ensures var m' := Run(job, m, [Ends(took, ending), Ends(later, recovery)]);
            && m'.phase.Idle? && IsReclaimable(m'.row) && Pinned(job, m'.row, m.phase.dispatch)
            && m'.broadcast == m.broadcast
  {
    hide RequestId;
    RunTwo(job, m, Ends(took, ending), Ends(later, recovery));
  }

  lemma RunTwo(job: Job, m: Machine, e: Event, f: Event)
    ensures Run(job, m, [e, f]) == Step(job, Step(job, m, e), f)
  {
    hide Step;
    assert [e, f][1..] == [f] && [f][1..] == [];
    assert Run(job, Step(job, m, e), [f]) == Step(job, Step(job, m, e), f);
  }

  predicate ScheduledTimeReached(job: Job, row: Row, nowMs: int) {
    (job.trigger.OneShot? || job.trigger.Interval?) &&
    var at := if row.nextRunAt.Some? then row.nextRunAt else job.trigger.startAt;
    at.Some? && at.value <= nowMs
  }

  /** When a row left mid-flight is picked up and broadcast again. */
  predicate Rebroadcasts(job: Job, row: Row, dueAt: int, nowMs: int) {
    && dueAt - row.updatedAt > 120000 && dueAt - row.updatedAt > job.claimStaleMs
    && (job.maxExecutions.Some? ==> row.count < job.maxExecutions.value)
    && ScheduledTimeReached(job, row, nowMs)
  }

  /**
   A tick over a row left mid-flight, with awaits that all succeed, broadcasts the pinned id again exactly
   when the row has gone stale, the job has executions left and it runs on a clock. So the interrupted last
   execution of a limited job is never retried, and neither is any execution of a price job.
   */
  lemma ReclaimedExactlyWhen(job: Job, m: Machine, wait: nat, lag: nat, price: int, took: nat, later: nat, legacy: bool)
    requires Inv(job, m) && m.phase.Idle? && job.chain == "neo_n3"
    requires IsReclaimable(m.row) && m.row.count >= 1 && m.row.pinned == RequestId(job, m.row.count)
    ensures var dueAt := m.clock + wait;
            var ok := Returns(true, legacy);
            var m' := Run(job, Step(job, m, Tick(wait, lag, Price(price))), [Ends(took, ok), Ends(later, ok)]);
            m'.broadcast == if Rebroadcasts(job, m.row, dueAt, dueAt + lag) then m.broadcast + [m.row.pinned]
                            else m.broadcast
  {
    hide RequestId;
    var ok := Returns(true, legacy);
    var m1 := Step(job, m, Tick(wait, lag, Price(price)));
    RunTwo(job, m1, Ends(took, ok), Ends(later, ok));
    ReclaimReDerives(job, m.row);
  }

  // ----- Price jobs: the evaluation patch comes between the fetch and the claim -----

  /** What is special about a price job at each await. */
  predicate PricePhase(m: Machine) {
    match m.phase
    case AwaitPatch(seen, plan) =>
      && plan.dueAt <= m.clock && seen == m.row
      && (plan.evaluation.due ==>
            && plan.evaluation.patch.Some?
            && plan.evaluation.patch.value.status.None? && plan.evaluation.patch.value.lastError.None?)
    case AwaitClaim(plan, _, advanced) => advanced ==> IsReclaimable(m.row) && m.row.updatedAt >= plan.dueAt
    case _ => true
  }

  predicate Distinct(ids: seq<string>) {
    forall i, j :: 0 <= i < j < |ids| ==> ids[i] != ids[j]
  }

  lemma PriceStep(job: Job, m: Machine, event: Event)
    requires job.trigger.PriceThreshold? && Inv(job, m) && PricePhase(m) && Distinct(m.broadcast)
    ensures PricePhase(Step(job, m, event)) && Distinct(Step(job, m, event).broadcast)
  {
    hide RequestId;
    if Step(job, m, event).broadcast != m.broadcast {
      FreshClaimMintsNewId(job, m);
    }
  }

  lemma {:induction false} PriceRunIsDistinct(job: Job, m: Machine, events: seq<Event>)
    requires job.trigger.PriceThreshold? && Inv(job, m) && PricePhase(m) && Distinct(m.broadcast)
    ensures Distinct(Run(job, m, events).broadcast)
    decreases events
  {
    hide Step, Inv, PricePhase, Distinct;
    if events != [] {
      StepKeepsInv(job, m, events[0]);
      PriceStep(job, m, events[0]);
      PriceRunIsDistinct(job, Step(job, m, events[0]), events[1..]);
    }
  }

  /**
   A price job never broadcasts an id twice, whatever happens: its evaluation patch refreshes the row before
   the claim, so an interrupted execution stays too fresh to be reclaimed in the tick that evaluates it.
   */
  lemma PriceJobsNeverRetry(job: Job, nextRunAt: Option<int>, at: int, events: seq<Event>)
    requires job.trigger.PriceThreshold?
    ensures Distinct(Run(job, Registered(nextRunAt, at), events).broadcast)
  {
    hide Run;
    PriceRunIsDistinct(job, Registered(nextRunAt, at), events);
  }

  /** With a cooldown, a due price job has pushed its own next run past the claim filter's time. */
  predicate Starved(m: Machine) {
    && m.broadcast == []
    && (m.row.status.Active? || m.row.status.Error? || m.row.status.Completed?)
    && match m.phase
       case AwaitPatch(seen, plan) =>
         && seen == m.row && plan.dueAt <= plan.nowMs && plan.evaluation.patch.Some?
         && var patch := plan.evaluation.patch.value;
            && (patch.status.Some? ==> patch.status.value.Error? || patch.status.value.Completed?)
            && (plan.evaluation.due ==>
                  patch.nextRunAt.Some? && patch.nextRunAt.value.Some? && patch.nextRunAt.value.value > plan.dueAt)
       case AwaitClaim(plan, _, _) => m.row.nextRunAt.Some? && m.row.nextRunAt.value > plan.dueAt
       case AwaitFailure(patch) => patch.status.Some? && (patch.status.value.Active? || patch.status.value.Error?)
       case Idle => true
       case _ => false
  }

  lemma StarvedStep(job: Job, m: Machine, event: Event)
    requires job.trigger.PriceThreshold? && job.trigger.cooldownMs > 0 && Starved(m)
    ensures Starved(Step(job, m, event))
  {
    hide RequestId;
  }

  lemma {:induction false} StarvedRun(job: Job, m: Machine, events: seq<Event>)
    requires job.trigger.PriceThreshold? && job.trigger.cooldownMs > 0 && Starved(m)
    ensures Run(job, m, events).broadcast == []
    decreases events
  {
    hide Step;
    if events != [] {
      StarvedStep(job, m, events[0]);
      StarvedRun(job, Step(job, m, events[0]), events[1..]);
    }
  }

  /** So a price job with a cooldown never broadcasts anything, in any run from registration. */
  lemma CooldownStarves(job: Job, nextRunAt: Option<int>, at: int, events: seq<Event>)
    requires job.trigger.PriceThreshold? && job.trigger.cooldownMs > 0
    ensures Run(job, Registered(nextRunAt, at), events).broadcast == []
  {
    hide Run;
    StarvedRun(job, Registered(nextRunAt, at), events);
  }

  /** Whether the price fires the comparator, against the threshold and the price observed before. */
  predicate Fires(comparator: Comparator, before: Option<int>, price: int, threshold: int) {
    || (comparator.Gte? && threshold <= price)
    || (comparator.Lte? && price <= threshold)
    || (comparator.CrossAbove? && before.Some? && before.value < threshold && threshold <= price)
    || (comparator.CrossBelow? && before.Some? && threshold < before.value && price <= threshold)
  }

  /**
   The exact condition: a fetched price job whose awaits succeed is broadcast iff its comparator fires and it has no
   cooldown. Either way the price is what the next tick compares with.
   */
  lemma PriceJobFiresExactlyWhen(job: Job, m: Machine, wait: nat, lag: nat, price: int, took: nat, later: nat,
                                 legacy: bool)
    requires Inv(job, m) && m.phase.Idle? && job.chain == "neo_n3" && m.row.status == Active
    requires job.trigger.PriceThreshold? && job.trigger.pair != "" && !MaxReached(job, m.row)
    requires m.row.nextRunAt.Some? ==> m.row.nextRunAt.value <= m.clock + wait
    ensures var ok := Returns(true, legacy);
            var m' := Run(job, Step(job, m, Tick(wait, lag, Price(price))), [Ends(took, ok), Ends(later, ok)]);
            var fires := Fires(job.trigger.comparator, m.row.lastObserved, price, job.trigger.threshold);
            var id := RequestId(job, m.row.count + 1);
            && m'.broadcast == (if fires && job.trigger.cooldownMs <= 0 then m.broadcast + [id] else m.broadcast)
            && m'.row.lastObserved == Some(price)
  {
    hide RequestId;
    var ok := Returns(true, legacy);
    RunTwo(job, Step(job, m, Tick(wait, lag, Price(price))), Ends(took, ok), Ends(later, ok));
  }

  // ----- The relayer itself -----

  predicate AllEnds(events: seq<Event>) {
    forall e :: e in events ==> e.Ends?
  }

  lemma {:induction false} IdleIgnoresEndings(job: Job, m: Machine, events: seq<Event>)
    requires m.phase.Idle? && AllEnds(events)
    ensures Run(job, m, events) == m
    decreases events
  {
    if events != [] {
      assert events[0] in events;
      IdleIgnoresEndings(job, m, events[1..]);
    }
  }

  lemma RunHead(job: Job, m: Machine, events: seq<Event>, i: nat)
    requires i < |events|
    ensures Run(job, m, events[i..]) == Run(job, Step(job, m, events[i]), events[i + 1..])
  {
    hide Step;
    assert events[i..][1..] == events[i + 1..];
  }

  /** What the relayer learns from an await: nothing at all if the process died. */
  datatype Reply = Came(found: bool) | Failed(message: string, feeNotPaid: bool) | Died

  class Relayer {
    const job: Job
    var row: Row
    var broadcast: seq<string>
    var clock: int

    constructor (job: Job, nextRunAt: Option<int>, at: int)
      ensures this.job == job && State(Idle) == Registered(nextRunAt, at)
    {
      this.job := job;
      row := Row(Active, "", 0, "", nextRunAt, None, at);
      broadcast := [];
      clock := at;
    }

    ghost function State(phase: Phase): Machine
      reads this
    {
      Machine(row, phase, broadcast, clock)
    }

    /** An await without a write to the row. */
    method Wait(answer: Event) returns (reply: Reply)
      requires answer.Ends?
      modifies `clock
      ensures clock == old(clock) + answer.took
      ensures reply == ReplyTo(answer.ending)
    {
      clock := clock + answer.took;
      reply := ReplyTo(answer.ending);
    }

    static function ReplyTo(ending: Ending): Reply {
      match ending
      case Returns(found, _) => Came(found)
      case Throws(_, _, message, feeNotPaid) => Failed(message, feeNotPaid)
      case Crashes(_, _) => Died
    }

    method PatchJob(patch: Patch, answer: Event) returns (reply: Reply)
      requires answer.Ends?
      modifies `clock, `row
      ensures clock == old(clock) + answer.took
      ensures row == if Lands(answer.ending) then Patched(old(row), patch, clock) else old(row)
      ensures reply == ReplyTo(answer.ending)
    {
      reply := Wait(answer);
      if Lands(answer.ending) {
        row := Patched(row, patch, clock);
      }
    }

    /** The conditional write of the claim; its reply carries a row only if the condition held. */
    method ClaimJob(plan: Plan, d: Dispatch, advanced: bool, answer: Event) returns (reply: Reply)
      requires answer.Ends?
      modifies `clock, `row
      ensures clock == old(clock) + answer.took
      ensures row == if Lands(answer.ending) && ClaimLands(job, old(row), plan)
                     then Claimed(old(row), d, advanced, answer.ending.legacySchema, clock) else old(row)
      ensures reply == if answer.ending.Returns? then Came(answer.ending.found && ClaimLands(job, old(row), plan))
                       else ReplyTo(answer.ending)
    {
      var matched := ClaimLands(job, row, plan);
      reply := Wait(answer);
      if Lands(answer.ending) && matched {
        row := Claimed(row, d, advanced, answer.ending.legacySchema, clock);
      }
      if reply.Came? {
        reply := Came(reply.found && matched);
      }
    }

    method FinalizeJob(plan: Plan, d: Dispatch, answer: Event) returns (reply: Reply)
      requires answer.Ends?
      modifies `clock, `row
      ensures clock == old(clock) + answer.took
      ensures row == if Lands(answer.ending) then Finalized(job, old(row), plan.evaluation, plan.nowMs, d, clock)
                     else old(row)
      ensures reply == ReplyTo(answer.ending)
    {
      reply := Wait(answer);
      if Lands(answer.ending) {
        row := Finalized(job, row, plan.evaluation, plan.nowMs, d, clock);
      }
    }

    /** After a pass or part of one: back to Idle, or on to the error handler. */
    static function Settled(reply: Reply, inFlight: bool): Phase {
      if reply.Failed? then AwaitFailure(FailurePatch(reply.message, reply.feeNotPaid, inFlight)) else Idle
    }

    /** Queue, record and finalise a claimed execution; used counts the awaits that took place. */
    method QueueExecution(plan: Plan, d: Dispatch, answers: seq<Event>) returns (reply: Reply, used: nat)
      requires |answers| >= 3 && AllEnds(answers)
      modifies this
      ensures used <= 3
      ensures Run(job, State(Settled(reply, true)), answers[used..])
           == var m := old(State(AfterClaim(job, plan, d)));
              Run(job, m.(broadcast := Sent(m.broadcast, m.phase)), answers)
    {
      hide RequestId, Run, FailurePatch, Finalized, ClaimLands;
      assert answers[0..] == answers;
      if job.chain != "neo_n3" {
        return Failed("Invalid automation job chain: " + job.chain, false), 0;
      }
      broadcast := broadcast + [d.requestId];
      RunHead(job, State(AwaitQueue(plan, d)), answers, 0);
      reply := Wait(answers[0]);
      used := 1;
      if !reply.Came? {
        return;
      }
      RunHead(job, State(AwaitRecord(plan, d)), answers, 1);
      reply := Wait(answers[1]);
      used := 2;
      if !reply.Came? {
        return;
      }
      RunHead(job, State(AwaitFinalize(plan, d)), answers, 2);
      reply := FinalizeJob(plan, d, answers[2]);
      used := 3;
    }

    /** The claim and, if it yields the row, the execution. */
    method ClaimAndQueue(seen: Row, plan: Plan, answers: seq<Event>) returns (reply: Reply, inFlight: bool, used: nat)
      requires |answers| >= 4 && AllEnds(answers) && plan.evaluation.due
      modifies this
      ensures used <= 4
      ensures Run(job, State(Settled(reply, inFlight)), answers[used..])
           == Run(job, old(State(AfterPatch(job, seen, plan))), answers)
    {
      hide RequestId, Run, FailurePatch, Finalized, Claimed, ClaimLands, ResolveDispatch, AfterClaim;
      assert answers[0..] == answers;
      var (d, advanced) := ResolveDispatch(job, seen);
      RunHead(job, State(AwaitClaim(plan, d, advanced)), answers, 0);
      reply := ClaimJob(plan, d, advanced, answers[0]);
      inFlight := false;
      used := 1;
      if reply.Came? && reply.found {
        inFlight := true;
        reply, used := QueueExecution(plan, d, answers[1..]);
        assert answers[1..][used..] == answers[used + 1..];
        used := used + 1;
      }
    }

    /** The error handler, if there is an error to handle. */
    method Settle(reply: Reply, inFlight: bool, answers: seq<Event>)
      requires |answers| >= 1 && AllEnds(answers)
      modifies this
      ensures State(Idle) == Run(job, old(State(Settled(reply, inFlight))), answers)
    {
      hide FailurePatch;
      if reply.Failed? {
        RunHead(job, State(Settled(reply, inFlight)), answers, 0);
        assert answers[0..] == answers;
        var _ := PatchJob(FailurePatch(reply.message, reply.feeNotPaid, inFlight), answers[0]);
        IdleIgnoresEndings(job, State(Idle), answers[1..]);
      } else {
        IdleIgnoresEndings(job, State(Idle), answers);
      }
    }

    /** The evaluation's own write, if it has one, and all that follows. */
    method PatchAndClaim(seen: Row, plan: Plan, answers: seq<Event>) returns (reply: Reply, inFlight: bool, used: nat)
      requires |answers| >= 5 && AllEnds(answers)
      modifies this
      ensures used <= 5
      ensures Run(job, State(Settled(reply, inFlight)), answers[used..])
           == var phase := if plan.evaluation.patch.Some? then AwaitPatch(seen, plan) else AfterPatch(job, seen, plan);
              Run(job, old(State(phase)), answers)
    {
      hide RequestId, Run, FailurePatch, ResolveDispatch;
      assert answers[0..] == answers;
      reply, inFlight, used := Came(true), false, 0;
      if plan.evaluation.patch.Some? {
        RunHead(job, State(AwaitPatch(seen, plan)), answers, 0);
        reply := PatchJob(plan.evaluation.patch.value, answers[0]);
        used := 1;
      }
      if reply.Came? && plan.evaluation.due {
        var before := used;
        reply, inFlight, used := ClaimAndQueue(seen, plan, answers[before..]);
        assert answers[before..][used..] == answers[before + used..];
        used := before + used;
      }
    }

    /** One pass of the loop body for this job, as a run of the machine; answers says how its awaits end. */
    method ProcessJob(wait: nat, lag: nat, feed: Feed, answers: seq<Event>)
      requires |answers| >= 6 && AllEnds(answers)
      modifies this
      ensures State(Idle) == Run(job, Step(job, old(State(Idle)), Tick(wait, lag, feed)), answers)
    {
      hide RequestId, Run, FailurePatch, AfterPatch, Evaluate, Eligible;
      var dueAt := clock + wait;
      clock := dueAt + lag;
      assert answers[0..] == answers;
      if !Eligible(row, dueAt, dueAt - FETCH_STALE_MS) {
        IdleIgnoresEndings(job, State(Idle), answers);
        return;
      }
      var reply, inFlight, used := Came(true), false, 0;
      if feed.FeedThrows? {
        reply := Failed(feed.message, false);
      } else {
        var plan := Plan(dueAt, clock, Evaluate(job, row, clock, feed.price));
        reply, inFlight, used := PatchAndClaim(row, plan, answers);
      }
      Settle(reply, inFlight, answers[used..]);
    }
  }
}
