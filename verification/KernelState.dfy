/**
 The storage of contracts/MorpheusOracle as values, and what each committed public call does to it.
 These transitions have no clamps and no defensive branches: the imperative contract in
 KernelContract.dfy keeps them, and is proved to behave like this.
 */
module KernelState {
  import opened Prelude
  import opened KernelSums

  type AppId = string
  type Time = t: int | t > 0 witness 1

  /** A 160-bit script hash as the contract sees it: null, of the wrong size, or proper. */
  datatype Hash160 = Null | Malformed | Account(id: nat)

  const ZERO := Account(0)
  const MAX_APP_ID_LENGTH := 64
  const MAX_OPERATION_LENGTH := 64
  const MAX_PAYLOAD_LENGTH := 4096
  const MAX_RESULT_LENGTH := 4096
  const MAX_ERROR_LENGTH := 256
  const MAX_METADATA_URI_LENGTH := 256
  const MAX_METADATA_HASH_LENGTH := 128
  const SIGNATURE_LENGTH := 64
  const DEFAULT_REQUEST_FEE := 1_000_000
  const DEFAULT_REQUEST_TTL := 3_600_000
  const EXPIRY_ERROR := "request expired: TTL exceeded"

  datatype Status = Pending | Succeeded | Failed

  /** Where an app describes itself; null texts are stored as empty ones. */
  datatype Metadata = Metadata(uri: string, hash: string)

  datatype MiniApp = MiniApp(
    admin: Hash160,
    feePayer: Hash160,
    callback: Hash160,
    metadata: Metadata,
    active: bool,
    createdAt: int)

  /** What a requester asks for. granted: the module is active and granted to the app. */
  datatype Task = Task(moduleId: string, operation: string, payload: string, granted: bool)

  /** expired is not stored on chain: it tells an expiry from a failed fulfilment, which share a status. */
  datatype Request = Request(
    appId: AppId,
    task: Task,
    requester: Hash160,
    sponsor: Hash160,
    callback: Hash160,
    createdAt: int,
    feePaid: int,
    status: Status,
    closedAt: int,
    success: bool,
    result: string,
    error: string,
    expired: bool)

  datatype InboxItem = InboxItem(
    appId: AppId,
    moduleId: string,
    operation: string,
    requester: Hash160,
    success: bool,
    result: string,
    error: string,
    deliveredAt: int)

  /** sha stands for SHA-256 of an app id; nothing is assumed about it. */
  datatype Config = Config(
    self: Hash160,
    gasToken: Hash160,
    sha: string -> nat,
    admin: Hash160,
    updater: Hash160,
    fee: int,
    ttl: int)

  datatype Registry = Registry(
    apps: map<AppId, MiniApp>,
    index: seq<AppId>,
    callbacks: map<Hash160, AppId>,
    accounts: set<Hash160>)

  /** gas is the GAS the contract holds; deposited and withdrawn are running totals for the proofs. */
  datatype Ledger = Ledger(
    gas: int,
    credits: map<Hash160, int>,
    accrued: int,
    reserved: int,
    deposited: int,
    withdrawn: int)

  datatype Queue = Queue(
    counter: nat,
    requests: map<int, Request>,
    inbox: map<(nat, int), InboxItem>,
    totalRequests: int,
    totalFulfilled: int,
    appRequests: map<AppId, int>,
    appFulfilled: map<AppId, int>)

  datatype Sponsorship = Sponsorship(
    gated: set<AppId>,
    allowed: set<(nat, Hash160)>,
    caps: map<(nat, Hash160), int>,
    spent: map<(nat, Hash160), int>)

  datatype Kernel = Kernel(
    config: Config,
    registry: Registry,
    ledger: Ledger,
    queue: Queue,
    sponsorship: Sponsorship)

  /** What a fulfilment signature covers; Words.Preimage is how its digest lays it out. */
  datatype Answer = Answer(
    id: int,
    appId: AppId,
    moduleId: string,
    operation: string,
    success: bool,
    result: string,
    error: string)

  /** What the virtual machine supplies to a call. verifies checks a signature under the key then set, if any. */
  datatype Env = Env(
    witnesses: set<Hash160>,
    caller: Hash160,
    sender: Hash160,
    time: Time,
    verifies: (Answer, string) -> bool)

  predicate ValidId(appId: AppId) {
    0 < |appId| <= MAX_APP_ID_LENGTH
  }

  predicate Signed(env: Env, h: Hash160) {
    h.Account? && h in env.witnesses
  }

  // ----- Fees -----

  function CreditOf(l: Ledger, h: Hash160): int {
    if h.Account? then Get(l.credits, h) else 0
  }

  function Charge(fee: int): int {
    if fee <= 0 then 0 else fee
  }

  function AddTo<K(==)>(m: map<K, int>, k: K, amount: int): map<K, int> {
    if amount == 0 then m else m[k := Get(m, k) + amount]
  }

  // ----- Submission -----

  function Key(k: Kernel, appId: AppId, requester: Hash160): (nat, Hash160) {
    (k.config.sha(appId), requester)
  }

  predicate Sponsorable(k: Kernel, appId: AppId, requester: Hash160, fee: int) {
    var s, key := k.sponsorship, Key(k, appId, requester);
    || appId !in s.gated
    || key in s.allowed
    || (Get(s.caps, key) > 0 && Get(s.spent, key) + fee <= Get(s.caps, key))
  }

  /** Who is charged for a request of this requester. */
  function Payer(k: Kernel, appId: AppId, requester: Hash160): Hash160
    requires appId in k.registry.apps
  {
    var sponsor := k.registry.apps[appId].feePayer;
    if && k.config.fee > 0
       && sponsor.Account?
       && sponsor != requester
       && CreditOf(k.ledger, sponsor) >= k.config.fee
       && Sponsorable(k, appId, requester, k.config.fee)
    then sponsor
    else requester
  }

  predicate CanSubmit(k: Kernel, requester: Hash160, appId: AppId, task: Task) {
    && requester.Account?
    && ValidId(appId)
    && appId in k.registry.apps
    && k.registry.apps[appId].active
    && 0 < |task.operation| <= MAX_OPERATION_LENGTH
    && |task.payload| <= MAX_PAYLOAD_LENGTH
    && task.granted
    && (k.config.fee > 0 ==> CreditOf(k.ledger, Payer(k, appId, requester)) >= k.config.fee)
  }

  function NewRequest(k: Kernel, time: Time, requester: Hash160, appId: AppId, task: Task): Request
    requires appId in k.registry.apps
  {
    Request(appId, task, requester, Payer(k, appId, requester), k.registry.apps[appId].callback, time,
            Charge(k.config.fee), Pending, 0, false, "", "", false)
  }

  function Submitted(k: Kernel, time: Time, requester: Hash160, appId: AppId, task: Task): Kernel
    requires appId in k.registry.apps
  {
    var r := NewRequest(k, time, requester, appId, task);
    var l, q, s := k.ledger, k.queue, k.sponsorship;
    k.(ledger := l.(credits := AddTo(l.credits, r.sponsor, -r.feePaid),
                    accrued := l.accrued + r.feePaid,
                    reserved := l.reserved + r.feePaid),
       sponsorship := if r.sponsor == requester then s
                      else s.(spent := AddTo(s.spent, Key(k, appId, requester), r.feePaid)),
       queue := q.(counter := q.counter + 1,
                   requests := q.requests[q.counter + 1 := r],
                   totalRequests := q.totalRequests + 1,
                   appRequests := AddTo(q.appRequests, appId, 1)))
  }

  // ----- Closing a request -----

  function Delivery(r: Request): InboxItem {
    InboxItem(r.appId, r.task.moduleId, r.task.operation, r.requester, r.success, r.result, r.error, r.closedAt)
  }

  function Closed(k: Kernel, id: int, r: Request): Queue {
    k.queue.(requests := k.queue.requests[id := r],
             inbox := k.queue.inbox[(k.config.sha(r.appId), id) := Delivery(r)])
  }

  predicate IsPending(k: Kernel, id: int) {
    id in k.queue.requests && k.queue.requests[id].status == Pending
  }

  predicate CanExpire(k: Kernel, env: Env, id: int) {
    && (Signed(env, k.config.admin) || Signed(env, k.config.updater))
    && IsPending(k, id)
    && env.time - k.queue.requests[id].createdAt > k.config.ttl
  }

  /** An expiry gives the whole fee back to whoever paid it, and the spend back to the budget. */
  function Expired(k: Kernel, time: Time, id: int): Kernel
    requires IsPending(k, id)
  {
    var r := k.queue.requests[id];
    var l, s := k.ledger, k.sponsorship;
    k.(queue := Closed(k, id, r.(status := Failed, closedAt := time, success := false, error := EXPIRY_ERROR,
                                 expired := true)),
       ledger := l.(credits := AddTo(l.credits, r.sponsor, r.feePaid),
                    accrued := l.accrued - r.feePaid,
                    reserved := l.reserved - r.feePaid),
       sponsorship := if r.sponsor == r.requester then s
                      else s.(spent := AddTo(s.spent, Key(k, r.appId, r.requester), -r.feePaid)))
  }

  function AnswerTo(r: Request, id: int, success: bool, result: string, error: string): Answer {
    Answer(id, r.appId, r.task.moduleId, r.task.operation, success, result, error)
  }

  predicate CanFulfill(k: Kernel, env: Env, id: int, success: bool, result: string, error: string, signature: string) {
    && Signed(env, k.config.updater)
    && IsPending(k, id)
    && |result| <= MAX_RESULT_LENGTH
    && |error| <= MAX_ERROR_LENGTH
    && |signature| == SIGNATURE_LENGTH
    && env.verifies(AnswerTo(k.queue.requests[id], id, success, result, error), signature)
  }

  /** A fulfilment turns the reserved fee into earned surplus; the callback has not run yet. */
  function Fulfilled(k: Kernel, time: Time, id: int, success: bool, result: string, error: string): Kernel
    requires IsPending(k, id)
  {
    var r := k.queue.requests[id];
    var q := Closed(k, id, r.(status := if success then Succeeded else Failed, closedAt := time, success := success,
                              result := result, error := error));
    k.(queue := q.(totalFulfilled := q.totalFulfilled + 1,
                   appFulfilled := AddTo(q.appFulfilled, r.appId, 1)),
       ledger := k.ledger.(reserved := k.ledger.reserved - r.feePaid))
  }

  // ----- Deposits and withdrawals -----

  function Beneficiary(from: Hash160, target: Option<Hash160>): Hash160 {
    if target.Some? then target.value else from
  }

  predicate CanDeposit(k: Kernel, env: Env, from: Hash160, amount: int, target: Option<Hash160>) {
    && env.caller == k.config.gasToken
    && from.Account?
    && amount > 0
    && (target.Some? ==>
          && target.value.Account?
          && target.value != ZERO
          && (target.value == from || Signed(env, target.value) || target.value in k.registry.accounts))
  }

  function Deposited(k: Kernel, from: Hash160, amount: int, target: Option<Hash160>): Kernel {
    var l := k.ledger;
    k.(ledger := l.(gas := l.gas + amount,
                    deposited := l.deposited + amount,
                    credits := AddTo(l.credits, Beneficiary(from, target), amount)))
  }

  predicate CanWithdraw(k: Kernel, env: Env, to: Hash160, amount: int) {
    && Signed(env, k.config.admin)
    && to.Account?
    && amount > 0
    && k.ledger.accrued - k.ledger.reserved >= amount
    && k.ledger.gas >= amount
  }

  /** Paying itself, the contract receives its own payment notice and credits itself. */
  function Withdrawn(k: Kernel, to: Hash160, amount: int): Kernel {
    var l := k.ledger;
    var paid := l.(accrued := l.accrued - amount, withdrawn := l.withdrawn + amount);
    k.(ledger := if to == k.config.self
                 then paid.(credits := AddTo(l.credits, to, amount), deposited := l.deposited + amount)
                 else paid.(gas := l.gas - amount))
  }

  // ----- Registry -----

  predicate FeePayerAuthorized(env: Env, feePayer: Hash160) {
    feePayer == ZERO || Signed(env, feePayer)
  }

  predicate CallbackFree(g: Registry, appId: AppId, callback: Hash160) {
    callback.Null? || (callback.Account? && (callback in g.callbacks ==> g.callbacks[callback] == appId))
  }

  predicate ValidMetadata(m: Metadata) {
    |m.uri| <= MAX_METADATA_URI_LENGTH && |m.hash| <= MAX_METADATA_HASH_LENGTH
  }

  predicate CanRegister(k: Kernel, env: Env, appId: AppId, admin: Hash160, feePayer: Hash160, callback: Hash160,
                        metadata: Metadata)
  {
    && ValidMetadata(metadata)
    && ValidId(appId)
    && admin.Account?
    && feePayer.Account?
    && (Signed(env, admin) || Signed(env, k.config.admin))
    && FeePayerAuthorized(env, feePayer)
    && appId !in k.registry.apps
    && CallbackFree(k.registry, appId, callback)
  }

  predicate CanConfigure(k: Kernel, env: Env, appId: AppId, feePayer: Hash160, callback: Hash160, metadata: Metadata) {
    && ValidMetadata(metadata)
    && CanAdminister(k, env, appId)
    && feePayer.Account?
    && FeePayerAuthorized(env, feePayer)
    && CallbackFree(k.registry, appId, callback)
  }

  predicate CanAdminister(k: Kernel, env: Env, appId: AppId) {
    && ValidId(appId)
    && appId in k.registry.apps
    && (Signed(env, k.config.admin) || Signed(env, k.registry.apps[appId].admin))
  }

  function CallbackOf(apps: map<AppId, MiniApp>, appId: AppId): Hash160 {
    if appId in apps then apps[appId].callback else Null
  }

  function Marked(accounts: set<Hash160>, h: Hash160): set<Hash160> {
    if h.Account? && h != ZERO then accounts + {h} else accounts
  }

  /** The record is stored, and the callback index follows it. */
  function WithMiniApp(g: Registry, appId: AppId, app: MiniApp): Registry {
    var prior := CallbackOf(g.apps, appId);
    var kept := if prior != app.callback && prior in g.callbacks && g.callbacks[prior] == appId
                then g.callbacks - {prior} else g.callbacks;
    Registry(
      g.apps[appId := app],
      if appId in g.apps then g.index else g.index + [appId],
      if app.callback.Account? then kept[app.callback := appId] else kept,
      Marked(Marked(g.accounts, app.admin), app.feePayer))
  }

  function RebuiltOne(g: Registry, i: nat): Registry
    requires i < |g.index|
  {
    var appId := g.index[i];
    if appId !in g.apps then g
    else
      var app := g.apps[appId];
      g.(callbacks := if app.callback.Account? && app.callback !in g.callbacks
                      then g.callbacks[app.callback := appId] else g.callbacks,
         accounts := Marked(Marked(g.accounts, app.admin), app.feePayer))
  }

  function Rebuilt(g: Registry, start: nat, end: nat): Registry
    requires end <= |g.index|
    decreases end - start
  {
    if start >= end then g else Rebuilt(RebuiltOne(g, start), start + 1, end)
  }

  predicate CanRebuild(k: Kernel, env: Env, start: int, count: int) {
    Signed(env, k.config.admin) && start >= 0 && count > 0
  }

  function SliceEnd(g: Registry, start: nat, count: nat): nat {
    if start + count > |g.index| then |g.index| else start + count
  }

  /** The app an integration contract belongs to, by the reverse index. */
  function FindByCallback(g: Registry, callback: Hash160): Option<AppId> {
    if callback.Account? && callback in g.callbacks then
      var appId := g.callbacks[callback];
      if appId in g.apps && g.apps[appId].callback == callback then Some(appId) else None
    else None
  }

  /** The same by the linear scan the index replaced: the earliest of the first n apps with this callback. */
  function ScanByCallback(apps: map<AppId, MiniApp>, index: seq<AppId>, callback: Hash160, n: nat): Option<AppId>
    requires n <= |index|
  {
    if n == 0 then None
    else
      var earlier := ScanByCallback(apps, index, callback, n - 1);
      if earlier.Some? then earlier
      else if callback.Account? && CallbackOf(apps, index[n - 1]) == callback then Some(index[n - 1])
      else None
  }

  function LegacyModuleId(requestType: string): string {
    if requestType == "oracle" || requestType == "privacy_oracle" then "oracle.fetch"
    else if requestType == "compute" then "compute.run"
    else if requestType == "datafeed" || requestType == "pricefeed" || requestType == "feed" then "feed.read"
    else if requestType == "neodid_bind" || requestType == "neodid_action_ticket" ||
            requestType == "neodid_recovery_ticket" then "identity.verify"
    else if requestType == "automation_register" || requestType == "automation_cancel" ||
            requestType == "automation_execute" then "automation.run"
    else requestType
  }

  // ----- Calls and runs -----

  /** How a submission reaches the queue. The legacy routes name the integration contract, not the app. */
  datatype Route =
    | Direct(appId: AppId)
    | Integration(requester: Hash160, appId: AppId)
    | System(requester: Hash160, appId: AppId)
    | LegacyDirect(callback: Hash160, callbackMethod: string)
    | LegacyIntegration(requester: Hash160, callback: Hash160, callbackMethod: string)
    | LegacySystem(requester: Hash160, callback: Hash160, callbackMethod: string)
  {
    predicate IsLegacy() {
      LegacyDirect? || LegacyIntegration? || LegacySystem?
    }
  }

  /** The modern route a legacy one is an alias of, if the alias is accepted. */
  function Modern(g: Registry, route: Route, task: Task): Option<Route> {
    if !route.IsLegacy() then Some(route)
    else if && route.callbackMethod in {"onMiniAppResult", "onOracleResult"}
            && FindByCallback(g, route.callback).Some?
            && 0 < |task.operation| <= MAX_OPERATION_LENGTH
    then
      var appId := FindByCallback(g, route.callback).value;
      Some(match route
           case LegacyDirect(_, _) => Direct(appId)
           case LegacyIntegration(requester, _, _) => Integration(requester, appId)
           case LegacySystem(requester, _, _) => System(requester, appId)
           case _ => route)
    else None
  }

  function EffectiveTask(route: Route, task: Task): Task {
    if route.IsLegacy() then task.(moduleId := LegacyModuleId(task.operation)) else task
  }

  /** The requester a modern route submits for, if it authorises the call. */
  function Requester(k: Kernel, env: Env, route: Route): Option<Hash160>
    requires !route.IsLegacy()
  {
    match route
    case Direct(appId) => if Signed(env, env.sender) then Some(env.sender) else None
    case Integration(requester, appId) =>
      if && requester.Account?
         && ValidId(appId)
         && appId in k.registry.apps
         && k.registry.apps[appId].active
         && k.registry.apps[appId].callback.Account?
         && env.caller == k.registry.apps[appId].callback
      then Some(requester) else None
    case System(requester, appId) =>
      if Signed(env, k.config.updater) && requester.Account? then Some(requester) else None
  }

  predicate CanSubmitBy(k: Kernel, env: Env, route: Route, task: Task) {
    match Modern(k.registry, route, task)
    case None => false
    case Some(modern) =>
      && !modern.IsLegacy()
      && Requester(k, env, modern).Some?
      && CanSubmit(k, Requester(k, env, modern).value, modern.appId, EffectiveTask(route, task))
  }

  function SubmittedBy(k: Kernel, env: Env, route: Route, task: Task): Kernel
    requires CanSubmitBy(k, env, route, task)
  {
    var modern := Modern(k.registry, route, task).value;
    Submitted(k, env.time, Requester(k, env, modern).value, modern.appId, EffectiveTask(route, task))
  }

  datatype Call =
    | SetAdmin(newAdmin: Hash160)
    | SetUpdater(newUpdater: Hash160)
    | SetRequestFee(amount: int)
    | SetRequestTtl(ttl: int)
    | WithdrawAccruedFees(to: Hash160, amount: int)
    | ExpireStaleRequest(id: int)
    | RegisterMiniApp(appId: AppId, appAdmin: Hash160, feePayer: Hash160, callback: Hash160, metadata: Metadata)
    | ConfigureMiniApp(appId: AppId, feePayer: Hash160, callback: Hash160, metadata: Metadata, active: bool)
    | SetSponsoredRequesterAllowed(appId: AppId, requester: Hash160, allowed: bool)
    | SetSponsoredRequesterCap(appId: AppId, requester: Hash160, cap: int)
    | Submit(route: Route, task: Task)
    | OnNep17Payment(from: Hash160, amount: int, target: Option<Hash160>)
    | FulfillRequest(id: int, success: bool, result: string, error: string, signature: string,
                     rich: Callback, legacy: Callback)
    | RebuildIndexes(start: int, count: int)

  /** What an app's callback does: it reverts, or it returns having made some calls back into the kernel. */
  datatype Callback = Reverts | Returns(calls: seq<Invocation>)

  datatype Invocation = Invocation(env: Env, call: Call)

  /** Whether the call passes all its checks; if not, it leaves no trace. */
  predicate Accepts(k: Kernel, i: Invocation) {
    var env := i.env;
    match i.call
    case SetAdmin(newAdmin) => Signed(env, k.config.admin) && newAdmin.Account?
    case SetUpdater(newUpdater) => Signed(env, k.config.admin) && newUpdater.Account?
    case SetRequestFee(amount) => Signed(env, k.config.admin) && amount > 0
    case SetRequestTtl(ttl) => Signed(env, k.config.admin) && ttl > 0
    case WithdrawAccruedFees(to, amount) => CanWithdraw(k, env, to, amount)
    case ExpireStaleRequest(id) => CanExpire(k, env, id)
    case RegisterMiniApp(appId, appAdmin, feePayer, callback, metadata) =>
      CanRegister(k, env, appId, appAdmin, feePayer, callback, metadata)
    case ConfigureMiniApp(appId, feePayer, callback, metadata, _) =>
      CanConfigure(k, env, appId, feePayer, callback, metadata)
    case SetSponsoredRequesterAllowed(appId, requester, _) => CanAdminister(k, env, appId) && requester.Account?
    case SetSponsoredRequesterCap(appId, requester, cap) =>
      CanAdminister(k, env, appId) && requester.Account? && cap >= 0
    case Submit(route, task) => CanSubmitBy(k, env, route, task)
    case OnNep17Payment(from, amount, target) => CanDeposit(k, env, from, amount, target)
    case FulfillRequest(id, success, result, error, signature, _, _) =>
      CanFulfill(k, env, id, success, result, error, signature)
    case RebuildIndexes(start, count) => CanRebuild(k, env, start, count)
  }

  function Step(k: Kernel, i: Invocation): Kernel
    decreases i, 1
  {
    if Accepts(k, i) then Effect(k, i) else k
  }

  function Effect(k: Kernel, i: Invocation): Kernel
    requires Accepts(k, i)
    decreases i, 0
  {
    var env := i.env;
    match i.call
    case SetAdmin(newAdmin) => k.(config := k.config.(admin := newAdmin))
    case SetUpdater(newUpdater) => k.(config := k.config.(updater := newUpdater))
    case SetRequestFee(amount) => k.(config := k.config.(fee := amount))
    case SetRequestTtl(ttl) => k.(config := k.config.(ttl := ttl))
    case WithdrawAccruedFees(to, amount) => Withdrawn(k, to, amount)
    case ExpireStaleRequest(id) => Expired(k, env.time, id)
    case RegisterMiniApp(appId, appAdmin, feePayer, callback, metadata) =>
      k.(registry := WithMiniApp(k.registry, appId, MiniApp(appAdmin, feePayer, callback, metadata, true, env.time)))
    case ConfigureMiniApp(appId, feePayer, callback, metadata, active) =>
      k.(registry := WithMiniApp(k.registry, appId, k.registry.apps[appId].(feePayer := feePayer,
                                                                           callback := callback,
                                                                           metadata := metadata,
                                                                           active := active)))
    case SetSponsoredRequesterAllowed(appId, requester, allowed) =>
      k.(sponsorship := AllowedSet(k.sponsorship, appId, Key(k, appId, requester), allowed))
    case SetSponsoredRequesterCap(appId, requester, cap) =>
      k.(sponsorship := CapSet(k.sponsorship, appId, Key(k, appId, requester), cap))
    case Submit(route, task) => SubmittedBy(k, env, route, task)
    case OnNep17Payment(from, amount, target) => Deposited(k, from, amount, target)
    case FulfillRequest(id, success, result, error, _, rich, legacy) =>
      // The rich callback is tried first; if it reverts, so does all it did, and the legacy one is tried.
      var closed := Fulfilled(k, env.time, id, success, result, error);
      if !k.queue.requests[id].callback.Account? then closed
      else if rich.Returns? then Run(closed, rich.calls)
      else if legacy.Returns? then Run(closed, legacy.calls)
      else closed
    case RebuildIndexes(start, count) =>
      k.(registry := Rebuilt(k.registry, start, SliceEnd(k.registry, start, count)))
  }

  function AllowedSet(s: Sponsorship, appId: AppId, key: (nat, Hash160), allowed: bool): Sponsorship {
    if allowed then s.(allowed := s.allowed + {key}, gated := s.gated + {appId}) else s.(allowed := s.allowed - {key})
  }

  function CapSet(s: Sponsorship, appId: AppId, key: (nat, Hash160), cap: int): Sponsorship {
    if cap > 0 then s.(caps := s.caps[key := cap], gated := s.gated + {appId}) else s.(caps := s.caps - {key})
  }

  function Run(k: Kernel, calls: seq<Invocation>): Kernel
    decreases calls, 2
  {
    if calls == [] then k else Run(Step(k, calls[0]), calls[1..])
  }

  /** The kernel as _deploy leaves it. */
  function Deployed(self: Hash160, gasToken: Hash160, sha: string -> nat, deployer: Hash160): Kernel {
    Kernel(
      Config(self, gasToken, sha, deployer, Null, DEFAULT_REQUEST_FEE, DEFAULT_REQUEST_TTL),
      Registry(map[], [], map[], {}),
      Ledger(0, map[], 0, 0, 0, 0),
      Queue(0, map[], map[], 0, 0, map[], map[]),
      Sponsorship({}, {}, map[], map[]))
  }
}
