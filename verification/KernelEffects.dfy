/**
 What each accepted call leaves behind, in stored fields: who pays, who is credited, what a request records, what
 its inbox item says. Stated on the step a call takes, so that neither the transitions nor the contract that refines
 them can settle these things otherwise.
 */
module KernelEffects {
  import opened Prelude
  import opened KernelSums
  import opened KernelState
  import opened KernelInvariant
  import opened KernelTheorems

  predicate Witnessed(env: Env, h: Hash160) {
    h.Account? && h in env.witnesses
  }

  // ----- Submissions -----

  /**
   Whether the app's fee payer, and not the requester, is to be charged: a proper account other than the requester,
   with enough credit, of an app that sponsors everyone, or allows the requester, or whose cap still has room.
   */
  predicate SponsorPays(k: Kernel, appId: AppId, requester: Hash160)
    requires appId in k.registry.apps
  {
    var sponsor, key := k.registry.apps[appId].feePayer, (k.config.sha(appId), requester);
    var fee, s := k.config.fee, k.sponsorship;
    && sponsor.Account? && sponsor != requester
    && Get(k.ledger.credits, sponsor) >= fee
    && (|| appId !in s.gated
        || key in s.allowed
        || (key in s.caps && s.caps[key] > 0 && Get(s.spent, key) + fee <= s.caps[key]))
  }

  /** A positive fee is taken from exactly one account, and recorded as sponsored spend if it is the fee payer's. */
  ghost predicate Charged(k: Kernel, k': Kernel, appId: AppId, requester: Hash160)
    requires appId in k.registry.apps
  {
    var fee, key := k.config.fee, (k.config.sha(appId), requester);
    var sponsored := fee > 0 && SponsorPays(k, appId, requester);
    var payer := if sponsored then k.registry.apps[appId].feePayer else requester;
    && (forall h :: Get(k'.ledger.credits, h) ==
                    Get(k.ledger.credits, h) - if h == payer && fee > 0 then fee else 0)
    && k'.ledger.accrued == k.ledger.accrued + (if fee > 0 then fee else 0)
    && k'.ledger.reserved == k.ledger.reserved + (if fee > 0 then fee else 0)
    && k'.ledger.gas == k.ledger.gas
    && (forall other :: Get(k'.sponsorship.spent, other) ==
                        Get(k.sponsorship.spent, other) + if other == key && sponsored then fee else 0)
    && (k'.sponsorship.gated, k'.sponsorship.allowed, k'.sponsorship.caps)
       == (k.sponsorship.gated, k.sponsorship.allowed, k.sponsorship.caps)
  }

  /** The new request, the only one that changes, and what it records. */
  ghost predicate Recorded(k: Kernel, k': Kernel, appId: AppId, requester: Hash160, task: Task, time: Time)
    requires appId in k.registry.apps
  {
    var id := k.queue.counter + 1;
    && k'.queue.counter == id && id in k'.queue.requests
    && (forall other :: other != id ==>
          (other in k'.queue.requests <==> other in k.queue.requests)
          && (other in k.queue.requests ==> k'.queue.requests[other] == k.queue.requests[other]))
    && var r := k'.queue.requests[id];
       && r.appId == appId && r.requester == requester && r.task == task
       && r.status == Pending && r.createdAt == time && !r.expired
       && r.callback == k.registry.apps[appId].callback
       && r.feePaid == (if k.config.fee > 0 then k.config.fee else 0)
       && k'.queue.inbox == k.queue.inbox
  }

  lemma SubmissionEffects(k: Kernel, time: Time, requester: Hash160, appId: AppId, task: Task)
    requires Inv(k) && CanSubmit(k, requester, appId, task)
    ensures var k' := Submitted(k, time, requester, appId, task);
            Charged(k, k', appId, requester) && Recorded(k, k', appId, requester, task, time)
  {
    assert AppOk(k.registry, appId);
    assert k.queue.counter + 1 !in k.queue.requests;
  }

  /** Whom a modern route submits for, and that it may: a witnessed sender, the app's own contract, or the updater. */
  predicate MaySubmit(k: Kernel, env: Env, route: Route, requester: Hash160, appId: AppId)
    requires appId in k.registry.apps
  {
    match route
    case Direct(app) => appId == app && requester == env.sender && Witnessed(env, env.sender)
    case Integration(r, app) =>
      appId == app && requester == r && env.caller.Account? && env.caller == k.registry.apps[appId].callback
    case System(r, app) => appId == app && requester == r && Witnessed(env, k.config.updater)
    case LegacyDirect(c, _) =>
      c.Account? && k.registry.apps[appId].callback == c && requester == env.sender && Witnessed(env, env.sender)
    case LegacyIntegration(r, c, _) =>
      c.Account? && k.registry.apps[appId].callback == c && requester == r && env.caller == c
    case LegacySystem(r, c, _) =>
      c.Account? && k.registry.apps[appId].callback == c && requester == r && Witnessed(env, k.config.updater)
  }

  /** The modules behind the legacy request types; any other type names its module itself. */
  const LEGACY_MODULES: map<string, string> := map[
    "oracle" := "oracle.fetch", "privacy_oracle" := "oracle.fetch",
    "compute" := "compute.run",
    "datafeed" := "feed.read", "pricefeed" := "feed.read", "feed" := "feed.read",
    "neodid_bind" := "identity.verify", "neodid_action_ticket" := "identity.verify",
    "neodid_recovery_ticket" := "identity.verify",
    "automation_register" := "automation.run", "automation_cancel" := "automation.run",
    "automation_execute" := "automation.run"]

  function ModuleOf(requestType: string): string {
    if requestType in LEGACY_MODULES then LEGACY_MODULES[requestType] else requestType
  }

  lemma LegacyModules(requestType: string)
    ensures LegacyModuleId(requestType) == ModuleOf(requestType)
  {
  }

  /** The account and the app behind an accepted submission, and the limits it keeps. */
  lemma SubmissionIsAuthorised(k: Kernel, i: Invocation, requester: Hash160, appId: AppId)
    requires Inv(k) && i.call.Submit? && Accepts(k, i)
    requires var modern := Modern(k.registry, i.call.route, i.call.task).value;
             appId == modern.appId && requester == Requester(k, i.env, modern).value
    ensures appId in k.registry.apps && k.registry.apps[appId].active && requester.Account?
    ensures MaySubmit(k, i.env, i.call.route, requester, appId)
    ensures var task := i.call.task; 0 < |task.operation| <= 64 && |task.payload| <= 4096 && task.granted
  {
    hide LegacyModuleId, Payer, Inv;
  }

  /**
   An accepted submission, by any route: it is for an active registered app and within the limits, authorised for its
   requester, charges the right account, and records what was asked for.
   */
  lemma SubmissionChargesAndRecords(k: Kernel, i: Invocation)
    requires Inv(k) && i.call.Submit? && Accepts(k, i)
    ensures var k', task := Step(k, i), i.call.task;
            && k.queue.counter + 1 in k'.queue.requests
            && var r := k'.queue.requests[k.queue.counter + 1];
               && r.appId in k.registry.apps && k.registry.apps[r.appId].active && r.requester.Account?
               && MaySubmit(k, i.env, i.call.route, r.requester, r.appId)
               && 0 < |task.operation| <= 64 && |task.payload| <= 4096 && task.granted
               && (r.task.operation, r.task.payload) == (task.operation, task.payload)
               && r.task.moduleId == (if i.call.route.IsLegacy() then ModuleOf(task.operation) else task.moduleId)
               && Charged(k, k', r.appId, r.requester)
               && Recorded(k, k', r.appId, r.requester, r.task, i.env.time)
  {
    var route, task := i.call.route, i.call.task;
    var modern := Modern(k.registry, route, task).value;
    var requester := Requester(k, i.env, modern).value;
    SubmissionIsAuthorised(k, i, requester, modern.appId);
    LegacyModules(task.operation);
    hide Submitted, ModuleOf, LegacyModuleId, Charged, Recorded, Payer, MaySubmit, Inv, FindByCallback;
    SubmissionEffects(k, i.env.time, requester, modern.appId, EffectiveTask(route, task));
    RecordedFields(k, i.env.time, requester, modern.appId, EffectiveTask(route, task));
  }

  lemma RecordedFields(k: Kernel, time: Time, requester: Hash160, appId: AppId, task: Task)
    requires appId in k.registry.apps
    ensures var k', id := Submitted(k, time, requester, appId, task), k.queue.counter + 1;
            && id in k'.queue.requests && k'.queue.requests[id].appId == appId
            && k'.queue.requests[id].requester == requester && k'.queue.requests[id].task == task
  {
  }

  // ----- Fulfilment and expiry -----

  /** The item delivered for a request, and the request as it is left. */
  predicate Delivered(k: Kernel, k': Kernel, id: int, success: bool, result: string, error: string, time: Time)
    requires id in k.queue.requests
  {
    var r, at := k.queue.requests[id], (k.config.sha(k.queue.requests[id].appId), id);
    && at in k'.queue.inbox && id in k'.queue.requests
    && k'.queue.inbox[at] == InboxItem(r.appId, r.task.moduleId, r.task.operation, r.requester, success, result, error,
                                       time)
    && k'.queue.requests[id] == r.(status := if success then Succeeded else Failed, closedAt := time,
                                   success := success, result := result, error := error,
                                   expired := k'.queue.requests[id].expired)
  }

  /**
   An accepted fulfilment: signed by the updater and over exactly this request and this answer, it delivers the
   call's success, result and error, whatever its callback goes on to do.
   */
  lemma FulfilmentDelivers(k: Kernel, i: Invocation)
    requires Inv(k) && i.call.FulfillRequest? && Accepts(k, i)
    ensures var (c, k') := (i.call, Step(k, i));
            && c.id in k.queue.requests && k.queue.requests[c.id].status == Pending
            && Delivered(k, k', c.id, c.success, c.result, c.error, i.env.time)
            && !k'.queue.requests[c.id].expired
            && Witnessed(i.env, k.config.updater)
            && var r := k.queue.requests[c.id];
               && |c.result| <= 4096 && |c.error| <= 256 && |c.signature| == 64
               && i.env.verifies(Answer(c.id, r.appId, r.task.moduleId, r.task.operation, c.success, c.result, c.error),
                                 c.signature)
  {
    hide Run, Inv;
    var FulfillRequest(id, success, result, error, _, rich, legacy) := i.call;
    var closed := Fulfilled(k, i.env.time, id, success, result, error);
    FulfilledKeepsInv(k, i.env.time, id, success, result, error);
    FulfilledFields(k, i.env.time, id, success, result, error);
    if k.queue.requests[id].callback.Account? && rich.Returns? {
      ClosedStays(closed, rich.calls, id);
    } else if k.queue.requests[id].callback.Account? && legacy.Returns? {
      ClosedStays(closed, legacy.calls, id);
    }
  }

  lemma FulfilledFields(k: Kernel, time: Time, id: int, success: bool, result: string, error: string)
    requires Inv(k) && IsPending(k, id)
    ensures var k' := Fulfilled(k, time, id, success, result, error);
            && Delivered(k, k', id, success, result, error, time) && !k'.queue.requests[id].expired
            && k'.config == k.config
  {
    assert RequestOk(k.queue.requests[id]);
  }

  /** A closed request and its item outlive any calls. */
  lemma ClosedStays(k: Kernel, calls: seq<Invocation>, id: int)
    requires Inv(k) && id in k.queue.requests && k.queue.requests[id].status != Pending
    ensures var k', at := Run(k, calls), (k.config.sha(k.queue.requests[id].appId), id);
            && id in k'.queue.requests && k'.queue.requests[id] == k.queue.requests[id]
            && at in k.queue.inbox && at in k'.queue.inbox && k'.queue.inbox[at] == k.queue.inbox[at]
  {
    hide Run;
    RunGrows(k, calls);
    assert Keeps(k, Run(k, calls), id);
    InboxIsFinal(k, calls, k.config.sha(k.queue.requests[id].appId), id);
  }

  /** An accepted expiry comes after the TTL, delivers a failure with no result, and refunds the fee and the spend. */
  lemma ExpiryDelivers(k: Kernel, i: Invocation)
    requires Inv(k) && i.call.ExpireStaleRequest? && Accepts(k, i)
    ensures var (id, k') := (i.call.id, Step(k, i));
            && id in k.queue.requests && k.queue.requests[id].status == Pending
            && Delivered(k, k', id, false, "", "request expired: TTL exceeded", i.env.time)
            && k'.queue.requests[id].expired
            && (Witnessed(i.env, k.config.admin) || Witnessed(i.env, k.config.updater))
            && var r := k.queue.requests[id];
               && i.env.time - r.createdAt > k.config.ttl
               && forall h :: Get(k'.ledger.credits, h) ==
                              Get(k.ledger.credits, h) + if h == r.sponsor then r.feePaid else 0
  {
    assert RequestOk(k.queue.requests[i.call.id]);
  }

  /** From a submission to its item: what was asked for comes back with the answer that was given. */
  lemma AnswerReachesRequester(k: Kernel, s: Invocation, calls: seq<Invocation>, i: Invocation)
    requires Inv(k) && s.call.Submit? && !s.call.route.IsLegacy() && Accepts(k, s)
    requires i.call.FulfillRequest? && i.call.id == k.queue.counter + 1 && Accepts(Run(Step(k, s), calls), i)
    ensures var (k1, c) := (Step(k, s), i.call);
            && c.id in k1.queue.requests
            && var r, at := k1.queue.requests[c.id], (k.config.sha(k1.queue.requests[c.id].appId), c.id);
               && r.task.moduleId == s.call.task.moduleId && r.task.operation == s.call.task.operation
               && var k3 := Step(Run(k1, calls), i);
                  && at in k3.queue.inbox
                  && k3.queue.inbox[at] == InboxItem(r.appId, s.call.task.moduleId, s.call.task.operation, r.requester,
                                                     c.success, c.result, c.error, i.env.time)
  {
    hide Run, Inv, Accepts, Step, Charged, MaySubmit;
    SubmissionChargesAndRecords(k, s);
    StepKeepsInv(k, s);
    StepKeepsSha(k, s);
    var k1 := Step(k, s);
    RunGrows(k1, calls);
    RunKeepsInv(k1, calls);
    assert Keeps(k1, Run(k1, calls), i.call.id);
    FulfilmentDelivers(Run(k1, calls), i);
  }

  lemma StepKeepsSha(k: Kernel, i: Invocation)
    requires Inv(k)
    ensures Step(k, i).config.sha == k.config.sha
  {
    StepGrows(k, i);
  }

  // ----- Deposits and withdrawals -----

  /** A deposit credits the account it names, or its sender, and names no stranger without that account's witness. */
  lemma DepositCredits(k: Kernel, i: Invocation)
    requires i.call.OnNep17Payment? && Accepts(k, i)
    ensures var (c, k') := (i.call, Step(k, i));
            var beneficiary := if c.target.Some? then c.target.value else c.from;
            && i.env.caller == k.config.gasToken && c.amount > 0 && beneficiary.Account?
            && (beneficiary == c.from || beneficiary in k.registry.accounts || Witnessed(i.env, beneficiary))
            && (forall h :: Get(k'.ledger.credits, h) ==
                            Get(k.ledger.credits, h) + if h == beneficiary then c.amount else 0)
            && k'.ledger.gas == k.ledger.gas + c.amount
            && (k'.ledger.accrued, k'.ledger.reserved) == (k.ledger.accrued, k.ledger.reserved)
            && (k'.queue, k'.registry, k'.sponsorship, k'.config) == (k.queue, k.registry, k.sponsorship, k.config)
  {
  }

  /** A withdrawal is the admin's, takes only what is not reserved, and touches nobody's credit but the kernel's own. */
  lemma WithdrawalTakesSurplus(k: Kernel, i: Invocation)
    requires i.call.WithdrawAccruedFees? && Accepts(k, i)
    ensures var (c, k') := (i.call, Step(k, i));
            && Witnessed(i.env, k.config.admin) && 0 < c.amount <= k.ledger.accrued - k.ledger.reserved
            && k'.ledger.accrued == k.ledger.accrued - c.amount && k'.ledger.reserved == k.ledger.reserved
            && k'.ledger.gas == k.ledger.gas - (if c.to == k.config.self then 0 else c.amount)
            && (forall h :: Get(k'.ledger.credits, h) ==
                            Get(k.ledger.credits, h) + if h == c.to == k.config.self then c.amount else 0)
            && (k'.queue, k'.registry, k'.sponsorship, k'.config) == (k.queue, k.registry, k.sponsorship, k.config)
  {
  }

  // ----- Settings, apps and sponsorship controls -----

  lemma SettingsTakeHold(k: Kernel, i: Invocation)
    requires Accepts(k, i)
    requires i.call.SetAdmin? || i.call.SetUpdater? || i.call.SetRequestFee? || i.call.SetRequestTtl?
    ensures var (c, k') := (i.call, Step(k, i));
            && Witnessed(i.env, k.config.admin)
            && k'.config.admin == (if c.SetAdmin? then c.newAdmin else k.config.admin)
            && k'.config.updater == (if c.SetUpdater? then c.newUpdater else k.config.updater)
            && k'.config.fee == (if c.SetRequestFee? then c.amount else k.config.fee)
            && k'.config.ttl == (if c.SetRequestTtl? then c.ttl else k.config.ttl)
            && (k'.queue, k'.registry, k'.sponsorship, k'.ledger) == (k.queue, k.registry, k.sponsorship, k.ledger)
  {
  }

  /** The record an accepted registration or configuration leaves; no other record, and no balance, changes. */
  lemma AppIsStored(k: Kernel, i: Invocation)
    requires Inv(k) && (i.call.RegisterMiniApp? || i.call.ConfigureMiniApp?) && Accepts(k, i)
    ensures var (c, k') := (i.call, Step(k, i));
            && c.appId in k'.registry.apps
            && (k'.queue, k'.sponsorship, k'.ledger, k'.config) == (k.queue, k.sponsorship, k.ledger, k.config)
            && (forall other :: other != c.appId ==>
                  (other in k'.registry.apps <==> other in k.registry.apps)
                  && (other in k.registry.apps ==> k'.registry.apps[other] == k.registry.apps[other]))
            && var app := k'.registry.apps[c.appId];
               && app.feePayer == c.feePayer && app.callback == c.callback && app.metadata == c.metadata
               && (c.feePayer == Account(0) || Witnessed(i.env, c.feePayer))
               && |c.metadata.uri| <= 256 && |c.metadata.hash| <= 128
               && (c.RegisterMiniApp? ==>
                     && c.appId !in k.registry.apps
                     && app.admin == c.appAdmin && app.active && app.createdAt == i.env.time
                     && (Witnessed(i.env, c.appAdmin) || Witnessed(i.env, k.config.admin)))
               && (c.ConfigureMiniApp? ==>
                     && c.appId in k.registry.apps && app.active == c.active
                     && app.admin == k.registry.apps[c.appId].admin
                     && app.createdAt == k.registry.apps[c.appId].createdAt
                     && (Witnessed(i.env, app.admin) || Witnessed(i.env, k.config.admin)))
               && (forall h :: h in k'.registry.accounts <==>
                     h in k.registry.accounts || (h.Account? && h != Account(0) && (h == app.admin || h == c.feePayer)))
  {
  }

  /** The controls: who may set them, what they set, and that the first one gates the app. */
  lemma ControlsTakeHold(k: Kernel, i: Invocation)
    requires (i.call.SetSponsoredRequesterAllowed? || i.call.SetSponsoredRequesterCap?) && Accepts(k, i)
    ensures var (c, k') := (i.call, Step(k, i));
            var key := (k.config.sha(c.appId), c.requester);
            && c.appId in k.registry.apps
            && (Witnessed(i.env, k.registry.apps[c.appId].admin) || Witnessed(i.env, k.config.admin))
            && (forall other :: other != key ==>
                  && (other in k'.sponsorship.allowed <==> other in k.sponsorship.allowed)
                  && Get(k'.sponsorship.caps, other) == Get(k.sponsorship.caps, other))
            && (key in k'.sponsorship.allowed <==>
                  if c.SetSponsoredRequesterAllowed? then c.allowed else key in k.sponsorship.allowed)
            && Get(k'.sponsorship.caps, key) ==
               (if c.SetSponsoredRequesterCap? then c.cap else Get(k.sponsorship.caps, key))
            && (forall app :: app in k'.sponsorship.gated <==>
                  || app in k.sponsorship.gated
                  || (app == c.appId && if c.SetSponsoredRequesterAllowed? then c.allowed else c.cap > 0))
            && k'.sponsorship.spent == k.sponsorship.spent
            && (k'.queue, k'.registry, k'.ledger, k'.config) == (k.queue, k.registry, k.ledger, k.config)
  {
  }

  // ----- Exactly when a call is accepted -----

  /** Whether a positive fee is covered, by the fee payer or else by the requester. */
  predicate FeeIsCovered(k: Kernel, appId: AppId, requester: Hash160)
    requires appId in k.registry.apps
  {
    k.config.fee > 0 ==> SponsorPays(k, appId, requester) || Get(k.ledger.credits, requester) >= k.config.fee
  }

  predicate WithinLimits(task: Task) {
    0 < |task.operation| <= 64 && |task.payload| <= 4096 && task.granted
  }

  lemma SubmittableExactlyWhen(k: Kernel, requester: Hash160, appId: AppId, task: Task)
    requires Inv(k)
    ensures CanSubmit(k, requester, appId, task) <==>
              && requester.Account? && 0 < |appId| <= 64 && appId in k.registry.apps && k.registry.apps[appId].active
              && WithinLimits(task) && FeeIsCovered(k, appId, requester)
  {
  }

  /** The three modern routes: the requester and the app are in the call. */
  lemma SubmissionAcceptedExactlyWhen(k: Kernel, i: Invocation)
    requires Inv(k) && i.call.Submit? && !i.call.route.IsLegacy()
    ensures var route := i.call.route;
            var requester := if route.Direct? then i.env.sender else route.requester;
            Accepts(k, i) <==>
              && 0 < |route.appId| <= 64 && route.appId in k.registry.apps && k.registry.apps[route.appId].active
              && requester.Account? && MaySubmit(k, i.env, route, requester, route.appId)
              && WithinLimits(i.call.task) && FeeIsCovered(k, route.appId, requester)
  {
    var route := i.call.route;
    SubmittableExactlyWhen(k, if route.Direct? then i.env.sender else route.requester, route.appId, i.call.task);
    hide LegacyModuleId, FindByCallback, CanSubmit, FeeIsCovered, Inv;
  }

  /** In an intact registry a callback belongs to one app, and looking it up finds that app. */
  lemma CallbackOwner(k: Kernel, c: Hash160, appId: AppId)
    requires Inv(k)
    ensures FindByCallback(k.registry, c) == Some(appId) <==>
            c.Account? && appId in k.registry.apps && k.registry.apps[appId].callback == c
  {
    assert Maps(k.registry, c, appId) <==> Names(k.registry, appId, c);
  }

  /** The modern route a legacy one stands for. */
  function RouteOf(route: Route, appId: AppId): (modern: Route)
    ensures !modern.IsLegacy()
  {
    match route
    case LegacyDirect(_, _) => Direct(appId)
    case LegacyIntegration(requester, _, _) => Integration(requester, appId)
    case LegacySystem(requester, _, _) => System(requester, appId)
    case _ => Direct(appId)
  }

  predicate KnownAlias(route: Route, task: Task)
    requires route.IsLegacy()
  {
    && (route.callbackMethod == "onMiniAppResult" || route.callbackMethod == "onOracleResult")
    && 0 < |task.operation| <= 64
  }

  lemma AliasResolves(k: Kernel, route: Route, task: Task, appId: AppId)
    requires Inv(k) && route.IsLegacy() && route.callback.Account?
    requires appId in k.registry.apps && k.registry.apps[appId].callback == route.callback
    ensures Modern(k.registry, route, task) == if KnownAlias(route, task) then Some(RouteOf(route, appId)) else None
    ensures EffectiveTask(route, task) == task.(moduleId := ModuleOf(task.operation))
  {
    CallbackOwner(k, route.callback, appId);
    LegacyModules(task.operation);
    hide LegacyModuleId, ModuleOf, FindByCallback, Inv;
  }

  lemma AliasSubmits(k: Kernel, env: Env, route: Route, task: Task, appId: AppId)
    requires Inv(k) && route.IsLegacy() && route.callback.Account?
    requires appId in k.registry.apps && k.registry.apps[appId].callback == route.callback
    ensures var modern, task' := RouteOf(route, appId), task.(moduleId := ModuleOf(task.operation));
            && CanSubmitBy(k, env, route, task) == (KnownAlias(route, task) && CanSubmitBy(k, env, modern, task'))
            && (CanSubmitBy(k, env, route, task) ==>
                  SubmittedBy(k, env, route, task) == SubmittedBy(k, env, modern, task'))
  {
    var modern, task' := RouteOf(route, appId), task.(moduleId := ModuleOf(task.operation));
    AliasResolves(k, route, task, appId);
    assert Modern(k.registry, modern, task') == Some(modern) && EffectiveTask(modern, task') == task';
    hide Modern, EffectiveTask, Requester, ModuleOf, CanSubmit, Submitted, RouteOf, KnownAlias, Inv;
  }

  /**
   A legacy alias with a known callback method and a proper request type is the modern call for the app its callback
   belongs to: accepted when that is, with the same outcome. With any other method or type it is refused.
   */
  lemma AliasIsItsModernCall(k: Kernel, i: Invocation, appId: AppId)
    requires Inv(k) && i.call.Submit? && i.call.route.IsLegacy() && i.call.route.callback.Account?
    requires appId in k.registry.apps && k.registry.apps[appId].callback == i.call.route.callback
    ensures var (route, task) := (i.call.route, i.call.task);
            var modern := Submit(RouteOf(route, appId), task.(moduleId := ModuleOf(task.operation)));
            var j := Invocation(i.env, modern);
            if KnownAlias(route, task) then Accepts(k, i) == Accepts(k, j) && Step(k, i) == Step(k, j)
            else !Accepts(k, i)
  {
    AliasSubmits(k, i.env, i.call.route, i.call.task, appId);
    hide CanSubmitBy, SubmittedBy, ModuleOf, RouteOf, KnownAlias, Inv;
  }

  /** An alias for a callback that belongs to no app is refused. */
  lemma StrangerAliasIsRefused(k: Kernel, i: Invocation)
    requires i.call.Submit? && i.call.route.IsLegacy() && FindByCallback(k.registry, i.call.route.callback) == None
    ensures !Accepts(k, i)
  {
  }

  lemma ClosingAcceptedExactlyWhen(k: Kernel, i: Invocation)
    ensures i.call.FulfillRequest? ==>
              (Accepts(k, i) <==>
                 var c := i.call;
                 && Witnessed(i.env, k.config.updater)
                 && c.id in k.queue.requests && k.queue.requests[c.id].status == Pending
                 && |c.result| <= 4096 && |c.error| <= 256 && |c.signature| == 64
                 && var r := k.queue.requests[c.id];
                    var answer := Answer(c.id, r.appId, r.task.moduleId, r.task.operation, c.success, c.result,
                                         c.error);
                    i.env.verifies(answer, c.signature))
    ensures i.call.ExpireStaleRequest? ==>
              (Accepts(k, i) <==>
                 && (Witnessed(i.env, k.config.admin) || Witnessed(i.env, k.config.updater))
                 && i.call.id in k.queue.requests && k.queue.requests[i.call.id].status == Pending
                 && i.env.time > k.queue.requests[i.call.id].createdAt + k.config.ttl)
  {
  }

  lemma PaymentAcceptedExactlyWhen(k: Kernel, i: Invocation)
    ensures i.call.OnNep17Payment? ==>
              (Accepts(k, i) <==>
                 var c := i.call;
                 && i.env.caller == k.config.gasToken && c.from.Account? && c.amount > 0
                 && (c.target.None? ||
                     (&& c.target.value.Account? && c.target.value != Account(0)
                      && (|| c.target.value == c.from || c.target.value in k.registry.accounts
                          || Witnessed(i.env, c.target.value)))))
    ensures i.call.WithdrawAccruedFees? && Inv(k) ==>
              (Accepts(k, i) <==>
                 && Witnessed(i.env, k.config.admin) && i.call.to.Account?
                 && 0 < i.call.amount <= k.ledger.accrued - k.ledger.reserved)
  {
    if i.call.WithdrawAccruedFees? && Inv(k) && k.ledger.accrued - k.ledger.reserved >= i.call.amount {
      WithdrawalIsFunded(k, i.call.amount);
    }
  }

  /** Apps and controls: who may, and within which limits. */
  lemma AdministrationAcceptedExactlyWhen(k: Kernel, i: Invocation)
    ensures i.call.RegisterMiniApp? ==>
              (Accepts(k, i) <==>
                 var c := i.call;
                 && 0 < |c.appId| <= 64 && c.appId !in k.registry.apps && c.appAdmin.Account? && c.feePayer.Account?
                 && (Witnessed(i.env, c.appAdmin) || Witnessed(i.env, k.config.admin))
                 && (c.feePayer == Account(0) || Witnessed(i.env, c.feePayer))
                 && |c.metadata.uri| <= 256 && |c.metadata.hash| <= 128
                 && (c.callback.Null? || (c.callback.Account? && c.callback !in k.registry.callbacks)
                     || (c.callback.Account? && k.registry.callbacks[c.callback] == c.appId)))
    ensures i.call.SetSponsoredRequesterAllowed? || i.call.SetSponsoredRequesterCap? ==>
              (Accepts(k, i) <==>
                 var c := i.call;
                 && 0 < |c.appId| <= 64 && c.appId in k.registry.apps && c.requester.Account?
                 && (Witnessed(i.env, k.config.admin) || Witnessed(i.env, k.registry.apps[c.appId].admin))
                 && (c.SetSponsoredRequesterCap? ==> c.cap >= 0))
  {
  }
}
