/** What every reachable kernel satisfies, and the proof that every step of every run keeps it. */
module KernelInvariant {
  import opened Prelude
  import opened KernelSums
  import opened KernelState

  // ----- Measures of the request queue -----

  datatype Kind = AnyRequest | PendingRequest | FulfilledRequest | ExpiredRequest

  datatype Measure =
    | Fees(kind: Kind)
    | Count(kind: Kind)
    | AppCount(kind: Kind, appId: AppId)
    | SponsoredFees(sha: string -> nat, key: (nat, Hash160))

  predicate Is(kind: Kind, r: Request) {
    match kind
    case AnyRequest => true
    case PendingRequest => r.status == Pending
    case FulfilledRequest => r.status != Pending && !r.expired
    case ExpiredRequest => r.status != Pending && r.expired
  }

  function Weight(m: Measure, r: Request): int {
    match m
    case Fees(kind) => if Is(kind, r) then r.feePaid else 0
    case Count(kind) => if Is(kind, r) then 1 else 0
    case AppCount(kind, appId) => if Is(kind, r) && r.appId == appId then 1 else 0
    case SponsoredFees(sha, key) =>
      if !r.expired && r.sponsor != r.requester && key == (sha(r.appId), r.requester) then r.feePaid else 0
  }

  /** The measure summed over requests 1 to n. */
  function TotalTo(m: Measure, requests: map<int, Request>, n: nat): int {
    if n == 0 then 0
    else TotalTo(m, requests, n - 1) + if n in requests then Weight(m, requests[n]) else 0
  }

  function Total(m: Measure, q: Queue): int {
    TotalTo(m, q.requests, q.counter)
  }

  lemma {:induction false} TotalPut(m: Measure, requests: map<int, Request>, n: nat, id: int, r: Request)
    ensures TotalTo(m, requests[id := r], n) ==
            TotalTo(m, requests, n) +
            if 1 <= id <= n then Weight(m, r) - (if id in requests then Weight(m, requests[id]) else 0) else 0
  {
    if n > 0 {
      TotalPut(m, requests, n - 1, id, r);
    }
  }

  lemma {:induction false} TotalAtLeast(m: Measure, requests: map<int, Request>, n: nat, id: int)
    requires forall i :: i in requests ==> Weight(m, requests[i]) >= 0
    ensures TotalTo(m, requests, n) >= if 1 <= id <= n && id in requests then Weight(m, requests[id]) else 0
  {
    if n > 0 {
      TotalAtLeast(m, requests, n - 1, id);
    }
  }

  /** Every request is pending, fulfilled or expired, so each measure is the sum over the three kinds. */
  lemma {:induction false} KindsPartition(requests: map<int, Request>, n: nat, appId: AppId)
    ensures TotalTo(Fees(AnyRequest), requests, n) ==
            TotalTo(Fees(PendingRequest), requests, n) + TotalTo(Fees(FulfilledRequest), requests, n)
            + TotalTo(Fees(ExpiredRequest), requests, n)
    ensures TotalTo(Count(AnyRequest), requests, n) ==
            TotalTo(Count(PendingRequest), requests, n) + TotalTo(Count(FulfilledRequest), requests, n)
            + TotalTo(Count(ExpiredRequest), requests, n)
    ensures TotalTo(AppCount(AnyRequest, appId), requests, n) ==
            TotalTo(AppCount(PendingRequest, appId), requests, n)
            + TotalTo(AppCount(FulfilledRequest, appId), requests, n)
            + TotalTo(AppCount(ExpiredRequest, appId), requests, n)
  {
    if n > 0 {
      KindsPartition(requests, n - 1, appId);
    }
  }

  // ----- The invariant -----

  /** The contract's GAS is what it owes: credits, refundable fees, and the surplus not yet withdrawn. */
  ghost predicate LedgerInv(l: Ledger, q: Queue) {
    && (forall h :: h in l.credits ==> l.credits[h] >= 0)
    && l.gas == SumValues(l.credits) + l.accrued
    && l.reserved == Total(Fees(PendingRequest), q)
    && l.accrued - l.reserved == Total(Fees(FulfilledRequest), q) - l.withdrawn
    && l.accrued >= l.reserved
    && l.deposited == l.gas + l.withdrawn
  }

  predicate RequestOk(r: Request) {
    && r.feePaid >= 0
    && r.requester.Account?
    && r.sponsor.Account?
    && (r.expired ==> r.status == Failed)
    && (r.success <==> r.status == Succeeded)
    && (r.status == Pending ==> r.result == "")
  }

  ghost predicate QueueInv(q: Queue, sha: string -> nat) {
    && IdsInv(q)
    && InboxInv(q, sha)
    && CountersInv(q)
  }

  /** Request ids are exactly 1 to counter. */
  ghost predicate IdsInv(q: Queue) {
    && (forall id :: id in q.requests <==> 1 <= id <= q.counter)
    && (forall id :: id in q.requests ==> RequestOk(q.requests[id]))
  }

  /** An inbox item exists exactly for a closed request, and carries its outcome. */
  ghost predicate InboxInv(q: Queue, sha: string -> nat) {
    forall d, id {:trigger (d, id) in q.inbox} ::
      && ((d, id) in q.inbox <==>
            id in q.requests && q.requests[id].status != Pending && d == sha(q.requests[id].appId))
      && ((d, id) in q.inbox ==> q.inbox[(d, id)] == Delivery(q.requests[id]))
  }

  ghost predicate CountersInv(q: Queue) {
    && q.totalRequests == q.counter
    && q.totalFulfilled == Total(Count(FulfilledRequest), q)
    && SumValues(q.appRequests) == q.totalRequests
    && SumValues(q.appFulfilled) == q.totalFulfilled
    && forall appId :: AppCountersOk(q, appId)
  }

  predicate AppCountersOk(q: Queue, appId: AppId) {
    && Get(q.appRequests, appId) == Total(AppCount(AnyRequest, appId), q)
    && Get(q.appFulfilled, appId) == Total(AppCount(FulfilledRequest, appId), q)
  }

  /** Recorded spend is what sponsors are still out of pocket for, key by key. */
  ghost predicate SponsorInv(spent: map<(nat, Hash160), int>, q: Queue, sha: string -> nat) {
    forall key :: SpendOk(spent, q, sha, key)
  }

  predicate SpendOk(spent: map<(nat, Hash160), int>, q: Queue, sha: string -> nat, key: (nat, Hash160)) {
    Get(spent, key) == Total(SponsoredFees(sha, key), q)
  }

  predicate AppOk(g: Registry, appId: AppId)
    requires appId in g.apps
  {
    var app := g.apps[appId];
    && ValidId(appId)
    && app.createdAt > 0
    && app.admin.Account?
    && app.feePayer.Account?
    && !app.callback.Malformed?
    && Marked(Marked(g.accounts, app.admin), app.feePayer) == g.accounts
  }

  /** The callback index is the exact inverse of the records' callbacks. */
  ghost predicate CallbacksInv(g: Registry) {
    forall c, appId :: Maps(g, c, appId) <==> Names(g, appId, c)
  }

  predicate Maps(g: Registry, c: Hash160, appId: AppId) {
    c in g.callbacks && g.callbacks[c] == appId
  }

  predicate Names(g: Registry, appId: AppId, c: Hash160) {
    c.Account? && appId in g.apps && g.apps[appId].callback == c
  }

  /** The index lists each registered app once. */
  ghost predicate IndexInv(g: Registry) {
    && (forall i, j :: 0 <= i < j < |g.index| ==> g.index[i] != g.index[j])
    && (forall appId :: appId in g.apps <==> appId in g.index)
  }

  ghost predicate RegistryInv(g: Registry) {
    && IndexInv(g)
    && (forall appId :: appId in g.apps ==> AppOk(g, appId))
    && CallbacksInv(g)
  }

  ghost predicate Inv(k: Kernel) {
    && LedgerInv(k.ledger, k.queue)
    && QueueInv(k.queue, k.config.sha)
    && SponsorInv(k.sponsorship.spent, k.queue, k.config.sha)
    && RegistryInv(k.registry)
  }

  // ----- Submission keeps it -----

  lemma CreditsPut(l: Ledger, h: Hash160, amount: int)
    requires forall a :: a in l.credits ==> l.credits[a] >= 0
    requires Get(l.credits, h) + amount >= 0
    ensures SumValues(AddTo(l.credits, h, amount)) == SumValues(l.credits) + amount
    ensures forall a :: a in AddTo(l.credits, h, amount) ==> AddTo(l.credits, h, amount)[a] >= 0
  {
    SumPut(l.credits, h, Get(l.credits, h) + amount);
  }

  lemma TotalSubmitted(k: Kernel, time: Time, requester: Hash160, appId: AppId, task: Task, m: Measure)
    requires QueueInv(k.queue, k.config.sha) && appId in k.registry.apps
    ensures Total(m, Submitted(k, time, requester, appId, task).queue) ==
            Total(m, k.queue) + Weight(m, NewRequest(k, time, requester, appId, task))
  {
    var n := k.queue.counter + 1;
    TotalPut(m, k.queue.requests, n - 1, n, NewRequest(k, time, requester, appId, task));
  }

  lemma SubmittedKeepsInv(k: Kernel, time: Time, requester: Hash160, appId: AppId, task: Task)
    requires Inv(k) && CanSubmit(k, requester, appId, task)
    ensures Inv(Submitted(k, time, requester, appId, task))
  {
    var k' := Submitted(k, time, requester, appId, task);
    SubmittedKeepsLedger(k, time, requester, appId, task);
    SubmittedKeepsQueue(k, time, requester, appId, task);
    forall key
      ensures SpendOk(k'.sponsorship.spent, k'.queue, k'.config.sha, key)
    {
      assert SpendOk(k.sponsorship.spent, k.queue, k.config.sha, key);
      TotalSubmitted(k, time, requester, appId, task, SponsoredFees(k.config.sha, key));
    }
  }

  lemma SubmittedKeepsLedger(k: Kernel, time: Time, requester: Hash160, appId: AppId, task: Task)
    requires Inv(k) && CanSubmit(k, requester, appId, task)
    ensures var k' := Submitted(k, time, requester, appId, task); LedgerInv(k'.ledger, k'.queue)
  {
    var r := NewRequest(k, time, requester, appId, task);
    assert AppOk(k.registry, appId);
    CreditsPut(k.ledger, r.sponsor, -r.feePaid);
    TotalSubmitted(k, time, requester, appId, task, Fees(PendingRequest));
    TotalSubmitted(k, time, requester, appId, task, Fees(FulfilledRequest));
  }

  lemma SubmittedKeepsQueue(k: Kernel, time: Time, requester: Hash160, appId: AppId, task: Task)
    requires QueueInv(k.queue, k.config.sha) && CanSubmit(k, requester, appId, task)
    ensures QueueInv(Submitted(k, time, requester, appId, task).queue, k.config.sha)
  {
    var q' := Submitted(k, time, requester, appId, task).queue;
    assert IdsInv(q');
    assert InboxInv(q', k.config.sha);
    TotalSubmitted(k, time, requester, appId, task, Count(FulfilledRequest));
    SumPut(k.queue.appRequests, appId, Get(k.queue.appRequests, appId) + 1);
    forall a
      ensures AppCountersOk(q', a)
    {
      assert AppCountersOk(k.queue, a);
      TotalSubmitted(k, time, requester, appId, task, AppCount(AnyRequest, a));
      TotalSubmitted(k, time, requester, appId, task, AppCount(FulfilledRequest, a));
    }
  }

  // ----- Closing keeps it -----

  lemma TotalClosed(k: Kernel, id: int, r: Request, m: Measure)
    requires QueueInv(k.queue, k.config.sha) && id in k.queue.requests
    ensures Total(m, Closed(k, id, r)) == Total(m, k.queue) - Weight(m, k.queue.requests[id]) + Weight(m, r)
  {
    TotalPut(m, k.queue.requests, k.queue.counter, id, r);
  }

  /** A pending request's fee is inside the reserved pool, so no release can underflow. */
  lemma PendingFeeIsReserved(k: Kernel, id: int)
    requires LedgerInv(k.ledger, k.queue) && QueueInv(k.queue, k.config.sha) && IsPending(k, id)
    ensures 0 <= k.queue.requests[id].feePaid <= k.ledger.reserved <= k.ledger.accrued
  {
    TotalAtLeast(Fees(PendingRequest), k.queue.requests, k.queue.counter, id);
  }

  /** Likewise the recorded spend covers the fee of every open sponsored request. */
  lemma SponsoredFeeIsRecorded(k: Kernel, id: int)
    requires QueueInv(k.queue, k.config.sha) && SponsorInv(k.sponsorship.spent, k.queue, k.config.sha)
    requires IsPending(k, id)
    requires k.queue.requests[id].sponsor != k.queue.requests[id].requester
    ensures var r := k.queue.requests[id];
            Get(k.sponsorship.spent, Key(k, r.appId, r.requester)) >= r.feePaid
  {
    var r := k.queue.requests[id];
    assert SpendOk(k.sponsorship.spent, k.queue, k.config.sha, Key(k, r.appId, r.requester));
    TotalAtLeast(SponsoredFees(k.config.sha, Key(k, r.appId, r.requester)), k.queue.requests, k.queue.counter, id);
  }

  /** r' is how the pending request id ends. */
  predicate Closes(k: Kernel, id: int, r': Request) {
    && IsPending(k, id)
    && RequestOk(r')
    && r'.status != Pending
    && var r := k.queue.requests[id];
       r'.appId == r.appId && r'.requester == r.requester && r'.sponsor == r.sponsor && r'.feePaid == r.feePaid
  }

  lemma ClosedKeepsInbox(k: Kernel, id: int, r': Request)
    requires QueueInv(k.queue, k.config.sha) && Closes(k, id, r')
    ensures IdsInv(Closed(k, id, r')) && InboxInv(Closed(k, id, r'), k.config.sha)
  {
  }

  lemma ClosedKeepsSpend(k: Kernel, id: int, r': Request, spent': map<(nat, Hash160), int>)
    requires QueueInv(k.queue, k.config.sha) && SponsorInv(k.sponsorship.spent, k.queue, k.config.sha)
    requires Closes(k, id, r')
    requires spent' == if r'.expired && r'.sponsor != r'.requester
                       then AddTo(k.sponsorship.spent, Key(k, r'.appId, r'.requester), -r'.feePaid)
                       else k.sponsorship.spent
    requires !k.queue.requests[id].expired
    ensures SponsorInv(spent', Closed(k, id, r'), k.config.sha)
  {
    forall key
      ensures SpendOk(spent', Closed(k, id, r'), k.config.sha, key)
    {
      assert SpendOk(k.sponsorship.spent, k.queue, k.config.sha, key);
      TotalClosed(k, id, r', SponsoredFees(k.config.sha, key));
    }
  }

  lemma ClosedAppCounters(k: Kernel, id: int, r': Request, q': Queue, appId: AppId)
    requires QueueInv(k.queue, k.config.sha) && Closes(k, id, r')
    requires q'.requests == Closed(k, id, r').requests && q'.counter == k.queue.counter
    requires q'.appRequests == k.queue.appRequests
    requires q'.appFulfilled == if r'.expired then k.queue.appFulfilled else AddTo(k.queue.appFulfilled, r'.appId, 1)
    ensures AppCountersOk(q', appId)
  {
    assert AppCountersOk(k.queue, appId);
    TotalClosed(k, id, r', AppCount(AnyRequest, appId));
    TotalClosed(k, id, r', AppCount(FulfilledRequest, appId));
  }

  lemma ExpiredKeepsInv(k: Kernel, time: Time, id: int)
    requires Inv(k) && IsPending(k, id)
    ensures Inv(Expired(k, time, id))
  {
    var k' := Expired(k, time, id);
    var r' := k'.queue.requests[id];
    ExpiredKeepsLedger(k, time, id);
    ClosedKeepsInbox(k, id, r');
    TotalClosed(k, id, r', Count(FulfilledRequest));
    forall a
      ensures AppCountersOk(k'.queue, a)
    {
      ClosedAppCounters(k, id, r', k'.queue, a);
    }
    ClosedKeepsSpend(k, id, r', k'.sponsorship.spent);
  }

  lemma ExpiredKeepsLedger(k: Kernel, time: Time, id: int)
    requires Inv(k) && IsPending(k, id)
    ensures var k' := Expired(k, time, id); LedgerInv(k'.ledger, k'.queue)
  {
    var r, r' := k.queue.requests[id], Expired(k, time, id).queue.requests[id];
    PendingFeeIsReserved(k, id);
    CreditsPut(k.ledger, r.sponsor, r.feePaid);
    TotalClosed(k, id, r', Fees(PendingRequest));
    TotalClosed(k, id, r', Fees(FulfilledRequest));
  }

  lemma FulfilledKeepsInv(k: Kernel, time: Time, id: int, success: bool, result: string, error: string)
    requires Inv(k) && IsPending(k, id)
    ensures Inv(Fulfilled(k, time, id, success, result, error))
  {
    var k' := Fulfilled(k, time, id, success, result, error);
    var r' := k'.queue.requests[id];
    FulfilledKeepsLedger(k, time, id, success, result, error);
    ClosedKeepsInbox(k, id, r');
    TotalClosed(k, id, r', Count(FulfilledRequest));
    SumPut(k.queue.appFulfilled, r'.appId, Get(k.queue.appFulfilled, r'.appId) + 1);
    forall a
      ensures AppCountersOk(k'.queue, a)
    {
      ClosedAppCounters(k, id, r', k'.queue, a);
    }
    ClosedKeepsSpend(k, id, r', k'.sponsorship.spent);
    assert SponsorInv(k'.sponsorship.spent, k'.queue, k'.config.sha) by {
      forall key
        ensures SpendOk(k'.sponsorship.spent, k'.queue, k'.config.sha, key)
      {
        assert SpendOk(k'.sponsorship.spent, Closed(k, id, r'), k.config.sha, key);
      }
    }
  }

  lemma FulfilledKeepsLedger(k: Kernel, time: Time, id: int, success: bool, result: string, error: string)
    requires Inv(k) && IsPending(k, id)
    ensures var k' := Fulfilled(k, time, id, success, result, error); LedgerInv(k'.ledger, k'.queue)
  {
    var r' := Fulfilled(k, time, id, success, result, error).queue.requests[id];
    PendingFeeIsReserved(k, id);
    TotalClosed(k, id, r', Fees(PendingRequest));
    TotalClosed(k, id, r', Fees(FulfilledRequest));
  }

  // ----- Deposits and withdrawals keep it -----

  lemma DepositedKeepsInv(k: Kernel, env: Env, from: Hash160, amount: int, target: Option<Hash160>)
    requires Inv(k) && CanDeposit(k, env, from, amount, target)
    ensures Inv(Deposited(k, from, amount, target))
  {
    CreditsPut(k.ledger, Beneficiary(from, target), amount);
  }

  lemma WithdrawnKeepsInv(k: Kernel, env: Env, to: Hash160, amount: int)
    requires Inv(k) && CanWithdraw(k, env, to, amount)
    ensures Inv(Withdrawn(k, to, amount))
  {
    CreditsPut(k.ledger, to, amount);
  }

  // ----- Registry -----

  lemma WithMiniAppKeepsInv(g: Registry, appId: AppId, app: MiniApp)
    requires RegistryInv(g) && ValidId(appId)
    requires app.createdAt > 0 && app.admin.Account? && app.feePayer.Account?
    requires CallbackFree(g, appId, app.callback)
    ensures RegistryInv(WithMiniApp(g, appId, app))
  {
    var g' := WithMiniApp(g, appId, app);
    WithMiniAppKeepsIndex(g, appId, app);
    WithMiniAppKeepsCallbacks(g, appId, app);
    forall a | a in g'.apps
      ensures AppOk(g', a)
    {
      if a != appId {
        assert AppOk(g, a);
      }
    }
  }

  lemma WithMiniAppKeepsIndex(g: Registry, appId: AppId, app: MiniApp)
    requires IndexInv(g)
    ensures IndexInv(WithMiniApp(g, appId, app))
  {
    var g' := WithMiniApp(g, appId, app);
    assert forall a :: a in g.index + [appId] <==> a in g.index || a == appId;
    if appId !in g.apps {
      forall i | 0 <= i < |g.index|
        ensures g'.index[i] != appId
      {
        assert g.index[i] in g.index;
      }
    }
  }

  lemma WithMiniAppKeepsCallbacks(g: Registry, appId: AppId, app: MiniApp)
    requires CallbacksInv(g) && CallbackFree(g, appId, app.callback)
    ensures CallbacksInv(WithMiniApp(g, appId, app))
  {
    var g' := WithMiniApp(g, appId, app);
    forall c, a
      ensures Maps(g', c, a) <==> Names(g', a, c)
    {
      assert Maps(g, c, a) <==> Names(g, a, c);
      assert Maps(g, c, appId) <==> Names(g, appId, c);
    }
  }

  /** On such a registry the backfill finds nothing to do. */
  lemma {:induction false} RebuildIsNoOp(g: Registry, start: nat, end: nat)
    requires RegistryInv(g) && end <= |g.index|
    ensures Rebuilt(g, start, end) == g
    decreases end - start
  {
    if start < end {
      var appId := g.index[start];
      assert appId in g.index;
      var app := g.apps[appId];
      assert AppOk(g, appId);
      assert Names(g, appId, app.callback) ==> Maps(g, app.callback, appId);
      RebuildIsNoOp(g, start + 1, end);
    }
  }

  // ----- Every step and every run -----

  lemma DeployedInv(k: Kernel, self: Hash160, gasToken: Hash160, sha: string -> nat, deployer: Hash160)
    requires k == Deployed(self, gasToken, sha, deployer)
    ensures Inv(k)
  {
    EmptyQueueInv(k.ledger, k.queue, sha, k.sponsorship.spent);
    EmptyRegistryInv(k.registry);
  }

  lemma EmptyRegistryInv(g: Registry)
    requires g.apps == map[] && g.index == [] && g.callbacks == map[]
    ensures RegistryInv(g)
  {
  }

  lemma EmptyQueueInv(l: Ledger, q: Queue, sha: string -> nat, spent: map<(nat, Hash160), int>)
    requires l == Ledger(0, map[], 0, 0, 0, 0) && q == Queue(0, map[], map[], 0, 0, map[], map[]) && spent == map[]
    ensures QueueInv(q, sha) && SponsorInv(spent, q, sha) && LedgerInv(l, q)
  {
    assert IdsInv(q);
    assert InboxInv(q, sha);
    forall a
      ensures AppCountersOk(q, a)
    {
    }
    assert CountersInv(q);
    forall key
      ensures SpendOk(spent, q, sha, key)
    {
    }
  }

  lemma {:induction false} StepKeepsInv(k: Kernel, i: Invocation)
    requires Inv(k)
    ensures Inv(Step(k, i)) && Step(k, i).config.sha == k.config.sha
    decreases i, 1
  {
    if Accepts(k, i) {
      if i.call.FulfillRequest? {
        var FulfillRequest(id, success, result, error, _, rich, legacy) := i.call;
        var closed := Fulfilled(k, i.env.time, id, success, result, error);
        FulfilledKeepsInv(k, i.env.time, id, success, result, error);
        if k.queue.requests[id].callback.Account? && rich.Returns? {
          RunKeepsInv(closed, rich.calls);
        } else if k.queue.requests[id].callback.Account? && legacy.Returns? {
          RunKeepsInv(closed, legacy.calls);
        }
      } else if i.call.RegisterMiniApp? || i.call.ConfigureMiniApp? || i.call.RebuildIndexes? {
        RegistryEffectKeepsInv(k, i);
      } else {
        EffectKeepsInv(k, i);
      }
    }
  }

  lemma RegistryEffectKeepsInv(k: Kernel, i: Invocation)
    requires Inv(k) && Accepts(k, i)
    requires i.call.RegisterMiniApp? || i.call.ConfigureMiniApp? || i.call.RebuildIndexes?
    ensures Inv(Effect(k, i)) && Effect(k, i).config == k.config
  {
    match i.call
    case RegisterMiniApp(appId, appAdmin, feePayer, callback, metadata) =>
      WithMiniAppKeepsInv(k.registry, appId, MiniApp(appAdmin, feePayer, callback, metadata, true, i.env.time));
    case ConfigureMiniApp(appId, feePayer, callback, metadata, active) =>
      assert AppOk(k.registry, appId);
      var app := k.registry.apps[appId].(feePayer := feePayer, callback := callback, metadata := metadata,
                                               active := active);
      WithMiniAppKeepsInv(k.registry, appId, app);
    case RebuildIndexes(start, count) =>
      RebuildIsNoOp(k.registry, start, SliceEnd(k.registry, start, count));
    case _ =>
  }

  lemma EffectKeepsInv(k: Kernel, i: Invocation)
    requires Inv(k) && Accepts(k, i)
    requires !i.call.FulfillRequest? && !i.call.RegisterMiniApp? && !i.call.ConfigureMiniApp? && !i.call.RebuildIndexes?
    ensures Inv(Effect(k, i)) && Effect(k, i).config.sha == k.config.sha
  {
    match i.call
    case WithdrawAccruedFees(to, amount) => WithdrawnKeepsInv(k, i.env, to, amount);
    case ExpireStaleRequest(id) => ExpiredKeepsInv(k, i.env.time, id);
    case Submit(route, task) =>
      var modern := Modern(k.registry, route, task).value;
      SubmittedKeepsInv(k, i.env.time, Requester(k, i.env, modern).value, modern.appId, EffectiveTask(route, task));
    case OnNep17Payment(from, amount, target) => DepositedKeepsInv(k, i.env, from, amount, target);
    case _ =>
  }

  lemma {:induction false} RunKeepsInv(k: Kernel, calls: seq<Invocation>)
    requires Inv(k)
    ensures Inv(Run(k, calls)) && Run(k, calls).config.sha == k.config.sha
    decreases calls, 2
  {
    if calls != [] {
      StepKeepsInv(k, calls[0]);
      RunKeepsInv(Step(k, calls[0]), calls[1..]);
    }
  }
}
