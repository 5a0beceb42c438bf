/**
 contracts/MorpheusOracle as a mutable contract: storage, and the public entry points that read, check
 and overwrite it, clamps and defensive branches included. A call that fails a check returns false having
 changed nothing, as an aborted transaction does. Each entry point is proved to do exactly what the
 clamp-free transition of KernelState says, so in a valid contract no clamp ever takes effect.
 */
module KernelContract {
  import opened Prelude
  import opened KernelSums
  import opened KernelState
  import opened KernelInvariant

  class MorpheusOracle {
    var config: Config
    var registry: Registry
    var ledger: Ledger
    var queue: Queue
    var sponsorship: Sponsorship

    ghost function Snap(): Kernel
      reads this
    {
      Kernel(config, registry, ledger, queue, sponsorship)
    }

    ghost predicate Valid()
      reads this
    {
      Inv(Snap())
    }

    constructor (self: Hash160, gasToken: Hash160, sha: string -> nat, deployer: Hash160)
      ensures Snap() == Deployed(self, gasToken, sha, deployer)
      ensures Valid()
    {
      config := Config(self, gasToken, sha, deployer, Null, DEFAULT_REQUEST_FEE, DEFAULT_REQUEST_TTL);
      registry := Registry(map[], [], map[], {});
      ledger := Ledger(0, map[], 0, 0, 0, 0);
      queue := Queue(0, map[], map[], 0, 0, map[], map[]);
      sponsorship := Sponsorship({}, {}, map[], map[]);
      new;
      DeployedInv(Snap(), self, gasToken, sha, deployer);
    }

    // ----- Reading storage -----

    function GetMiniApp(appId: AppId): MiniApp
      reads this
    {
      if appId in registry.apps then registry.apps[appId] else MiniApp(Null, Null, Null, Metadata("", ""), false, 0)
    }

    function FeeCreditOf(h: Hash160): int
      reads this
    {
      if h.Account? then Get(ledger.credits, h) else 0
    }

    /** In a valid contract a record's creation time tells whether the app exists. */
    lemma AppsAreOk(appId: AppId)
      requires Valid()
      ensures appId in registry.apps ==> AppOk(registry, appId)
      ensures appId in registry.apps <==> GetMiniApp(appId).createdAt != 0
      ensures CallbackOf(registry.apps, appId) in registry.callbacks ==> CallbackOf(registry.apps, appId).Account?
    {
      OwnedCallbacks(registry, CallbackOf(registry.apps, appId));
    }

    lemma OwnedCallbacks(g: Registry, c: Hash160)
      requires RegistryInv(g)
      ensures c in g.callbacks ==> c.Account?
    {
      if c in g.callbacks {
        assert Maps(g, c, g.callbacks[c]) && Names(g, g.callbacks[c], c);
      }
    }

    // ----- Administration -----

    method SetAdmin(env: Env, newAdmin: Hash160) returns (ok: bool)
      modifies this`config
      ensures ok == (Signed(env, old(config).admin) && newAdmin.Account?)
      ensures config == if ok then old(config).(admin := newAdmin) else old(config)
    {
      if !Signed(env, config.admin) || !newAdmin.Account? {
        return false;
      }
      config := config.(admin := newAdmin);
      return true;
    }

    method SetUpdater(env: Env, newUpdater: Hash160) returns (ok: bool)
      modifies this`config
      ensures ok == (Signed(env, old(config).admin) && newUpdater.Account?)
      ensures config == if ok then old(config).(updater := newUpdater) else old(config)
    {
      if !Signed(env, config.admin) || !newUpdater.Account? {
        return false;
      }
      config := config.(updater := newUpdater);
      return true;
    }

    method SetRequestFee(env: Env, amount: int) returns (ok: bool)
      modifies this`config
      ensures ok == (Signed(env, old(config).admin) && amount > 0)
      ensures config == if ok then old(config).(fee := amount) else old(config)
    {
      if !Signed(env, config.admin) || amount <= 0 {
        return false;
      }
      config := config.(fee := amount);
      return true;
    }

    method SetRequestTtl(env: Env, ttl: int) returns (ok: bool)
      modifies this`config
      ensures ok == (Signed(env, old(config).admin) && ttl > 0)
      ensures config == if ok then old(config).(ttl := ttl) else old(config)
    {
      if !Signed(env, config.admin) || ttl <= 0 {
        return false;
      }
      config := config.(ttl := ttl);
      return true;
    }

    // ----- Deposits and withdrawals -----

    /** None when a directed deposit is refused. */
    function ResolveCreditBeneficiary(env: Env, from: Hash160, target: Option<Hash160>): Option<Hash160>
      reads this
    {
      match target
      case None => Some(from)
      case Some(beneficiary) =>
        if !beneficiary.Account? || beneficiary == ZERO then None
        else if beneficiary == from || Signed(env, beneficiary) || beneficiary in registry.accounts
        then Some(beneficiary)
        else None
    }

    method OnNep17Payment(env: Env, from: Hash160, amount: int, target: Option<Hash160>) returns (ok: bool)
      modifies this`ledger
      ensures ok == CanDeposit(old(Snap()), env, from, amount, target)
      ensures ledger == if ok then Deposited(old(Snap()), from, amount, target).ledger else old(ledger)
    {
      if env.caller != config.gasToken || !from.Account? || amount <= 0 {
        return false;
      }
      var beneficiary := ResolveCreditBeneficiary(env, from, target);
      if beneficiary.None? {
        return false;
      }
      var nextCredit := FeeCreditOf(beneficiary.value) + amount;
      ledger := ledger.(gas := ledger.gas + amount, deposited := ledger.deposited + amount);
      ledger := ledger.(credits := ledger.credits[beneficiary.value := nextCredit]);
      return true;
    }

    /** The native token's transfer out of the contract; a transfer to itself comes back as a payment. */
    method GasTransfer(to: Hash160, amount: int) returns (paid: bool)
      requires to.Account? && amount > 0
      modifies this`ledger
      ensures paid == (old(ledger).gas >= amount)
      ensures var l := old(ledger);
              ledger == if !paid then l
                        else if to == config.self
                        then l.(withdrawn := l.withdrawn + amount, deposited := l.deposited + amount,
                                credits := AddTo(l.credits, to, amount))
                        else l.(withdrawn := l.withdrawn + amount, gas := l.gas - amount)
    {
      if ledger.gas < amount {
        return false;
      }
      ledger := ledger.(withdrawn := ledger.withdrawn + amount);
      if to == config.self {
        ledger := ledger.(deposited := ledger.deposited + amount,
                          credits := ledger.credits[to := FeeCreditOf(to) + amount]);
      } else {
        ledger := ledger.(gas := ledger.gas - amount);
      }
      return true;
    }

    method WithdrawAccruedFees(env: Env, to: Hash160, amount: int) returns (ok: bool)
      modifies this`ledger
      ensures ok == CanWithdraw(old(Snap()), env, to, amount)
      ensures ledger == if ok then Withdrawn(old(Snap()), to, amount).ledger else old(ledger)
    {
      if !Signed(env, config.admin) || !to.Account? || amount <= 0 {
        return false;
      }
      var accrued := ledger.accrued;
      if accrued - ledger.reserved < amount {
        return false;
      }
      var paid := GasTransfer(to, amount);
      if !paid {
        return false;
      }
      ledger := ledger.(accrued := accrued - amount);
      return true;
    }

    // ----- Registry -----

    method MarkAccountRegistered(account: Hash160)
      modifies this`registry
      ensures registry == old(registry).(accounts := Marked(old(registry).accounts, account))
    {
      if account.Account? && account != ZERO {
        registry := registry.(accounts := registry.accounts + {account});
      }
    }

    /** The callback check comes first here: the stale entry the source drops before it is another key. */
    method PutMiniApp(appId: AppId, app: MiniApp) returns (ok: bool)
      requires !app.callback.Malformed?
      requires appId in registry.apps ==> registry.apps[appId].createdAt != 0
      requires CallbackOf(registry.apps, appId) in registry.callbacks ==> CallbackOf(registry.apps, appId).Account?
      modifies this`registry
      ensures ok == CallbackFree(old(registry), appId, app.callback)
      ensures registry == if ok then WithMiniApp(old(registry), appId, app) else old(registry)
    {
      var next := app.callback;
      if next.Account? && next in registry.callbacks && registry.callbacks[next] != appId {
        return false;
      }
      var prior := GetMiniApp(appId);
      if prior.createdAt == 0 {
        registry := registry.(index := registry.index + [appId]);
      }
      if prior.callback.Account? && prior.callback != next {
        if prior.callback in registry.callbacks && registry.callbacks[prior.callback] == appId {
          registry := registry.(callbacks := registry.callbacks - {prior.callback});
        }
      }
      if next.Account? {
        registry := registry.(callbacks := registry.callbacks[next := appId]);
      }
      MarkAccountRegistered(app.admin);
      MarkAccountRegistered(app.feePayer);
      registry := registry.(apps := registry.apps[appId := app]);
      return true;
    }

    predicate ValidFeePayerAuthorization(env: Env, appAdmin: Hash160, feePayer: Hash160)
      reads this
    {
      || feePayer == ZERO
      || Signed(env, feePayer)
      || (config.admin.Account? && feePayer == config.admin && Signed(env, config.admin))
      || (appAdmin.Account? && feePayer == appAdmin && Signed(env, appAdmin))
    }

    predicate ValidMiniAppDefinition(appId: AppId, appAdmin: Hash160, feePayer: Hash160, callback: Hash160,
                                     metadata: Metadata)
    {
      && ValidId(appId) && appAdmin.Account? && feePayer.Account? && !callback.Malformed?
      && |metadata.uri| <= MAX_METADATA_URI_LENGTH && |metadata.hash| <= MAX_METADATA_HASH_LENGTH
    }

    method RegisterMiniApp(env: Env, appId: AppId, appAdmin: Hash160, feePayer: Hash160, callback: Hash160,
                           metadata: Metadata)
      returns (ok: bool)
      requires Valid()
      modifies this`registry
      ensures ok == CanRegister(old(Snap()), env, appId, appAdmin, feePayer, callback, metadata)
      ensures registry == if ok then WithMiniApp(old(registry), appId,
                                                 MiniApp(appAdmin, feePayer, callback, metadata, true, env.time))
                          else old(registry)
    {
      if !ValidMiniAppDefinition(appId, appAdmin, feePayer, callback, metadata) {
        return false;
      }
      if !Signed(env, appAdmin) && !Signed(env, config.admin) {
        return false;
      }
      if !ValidFeePayerAuthorization(env, appAdmin, feePayer) {
        return false;
      }
      AppsAreOk(appId);
      if GetMiniApp(appId).createdAt != 0 {
        return false;
      }
      ok := PutMiniApp(appId, MiniApp(appAdmin, feePayer, callback, metadata, true, env.time));
    }

    method ConfigureMiniApp(env: Env, appId: AppId, feePayer: Hash160, callback: Hash160, metadata: Metadata,
                            active: bool)
      returns (ok: bool)
      requires Valid()
      modifies this`registry
      ensures ok == CanConfigure(old(Snap()), env, appId, feePayer, callback, metadata)
      ensures registry == if ok then WithMiniApp(old(registry), appId,
                                                 old(registry).apps[appId].(feePayer := feePayer, callback := callback,
                                                                            metadata := metadata, active := active))
                          else old(registry)
    {
      AppsAreOk(appId);
      var app := GetMiniApp(appId);
      if !ValidId(appId) || app.createdAt <= 0 {
        return false;
      }
      if !Signed(env, config.admin) && !Signed(env, app.admin) {
        return false;
      }
      if !ValidMiniAppDefinition(appId, app.admin, feePayer, callback, metadata) {
        return false;
      }
      if !ValidFeePayerAuthorization(env, app.admin, feePayer) {
        return false;
      }
      ok := PutMiniApp(appId, app.(feePayer := feePayer, callback := callback, metadata := metadata, active := active));
    }

    /** Usable on a registry older than the index: nothing is asked of the callbacks. */
    method RebuildIndexes(env: Env, startIndex: int, count: int) returns (ok: bool)
      requires forall appId :: appId in registry.apps ==> registry.apps[appId].createdAt != 0
      requires forall i :: 0 <= i < |registry.index| ==> ValidId(registry.index[i])
      modifies this`registry
      ensures ok == CanRebuild(old(Snap()), env, startIndex, count)
      ensures registry == if ok then Rebuilt(old(registry), startIndex, SliceEnd(old(registry), startIndex, count))
                          else old(registry)
    {
      if !Signed(env, config.admin) || startIndex < 0 || count <= 0 {
        return false;
      }
      var end := startIndex + count;
      if end > |registry.index| {
        end := |registry.index|;
      }
      var i := startIndex;
      while i < end
        invariant startIndex <= i && end <= |registry.index|
        invariant registry.apps == old(registry).apps && registry.index == old(registry).index
        invariant Rebuilt(registry, i, end) == Rebuilt(old(registry), startIndex, end)
      {
        ghost var before := registry;
        var appId := registry.index[i];
        var app := GetMiniApp(appId);
        if app.createdAt != 0 {
          if app.callback.Account? {
            if app.callback !in registry.callbacks || registry.callbacks[app.callback] == appId {
              registry := registry.(callbacks := registry.callbacks[app.callback := appId]);
            }
          }
          MarkAccountRegistered(app.admin);
          MarkAccountRegistered(app.feePayer);
        }
        assert registry == RebuiltOne(before, i);
        i := i + 1;
      }
      return true;
    }

    // ----- Sponsorship controls -----

    method SetSponsoredRequesterAllowed(env: Env, appId: AppId, requester: Hash160, allow: bool) returns (ok: bool)
      requires Valid()
      modifies this`sponsorship
      ensures ok == (CanAdminister(old(Snap()), env, appId) && requester.Account?)
      ensures sponsorship == if ok then AllowedSet(old(sponsorship), appId, (config.sha(appId), requester), allow)
                             else old(sponsorship)
    {
      AppsAreOk(appId);
      var app := GetMiniApp(appId);
      if !ValidId(appId) || app.createdAt <= 0 {
        return false;
      }
      if (!Signed(env, config.admin) && !Signed(env, app.admin)) || !requester.Account? {
        return false;
      }
      var key := (config.sha(appId), requester);
      if allow {
        sponsorship := sponsorship.(allowed := sponsorship.allowed + {key});
        sponsorship := sponsorship.(gated := sponsorship.gated + {appId});
      } else {
        sponsorship := sponsorship.(allowed := sponsorship.allowed - {key});
      }
      return true;
    }

    method SetSponsoredRequesterCap(env: Env, appId: AppId, requester: Hash160, cap: int) returns (ok: bool)
      requires Valid()
      modifies this`sponsorship
      ensures ok == (CanAdminister(old(Snap()), env, appId) && requester.Account? && cap >= 0)
      ensures sponsorship == if ok then CapSet(old(sponsorship), appId, (config.sha(appId), requester), cap)
                             else old(sponsorship)
    {
      AppsAreOk(appId);
      var app := GetMiniApp(appId);
      if !ValidId(appId) || app.createdAt <= 0 {
        return false;
      }
      if (!Signed(env, config.admin) && !Signed(env, app.admin)) || !requester.Account? || cap < 0 {
        return false;
      }
      var key := (config.sha(appId), requester);
      if cap > 0 {
        sponsorship := sponsorship.(caps := sponsorship.caps[key := cap]);
        sponsorship := sponsorship.(gated := sponsorship.gated + {appId});
      } else {
        sponsorship := sponsorship.(caps := sponsorship.caps - {key});
      }
      return true;
    }

    // ----- Fees -----

    method ReserveRequestFee(amount: int)
      modifies this`ledger
      ensures ledger == old(ledger).(reserved := old(ledger).reserved + Charge(amount))
    {
      if amount <= 0 {
        return;
      }
      ledger := ledger.(reserved := ledger.reserved + amount);
    }

    /** Clamped at zero; exact whenever the amount really was reserved. */
    method ReleaseReservedFee(amount: int)
      modifies this`ledger
      ensures var l := old(ledger);
              ledger == if amount <= 0 then l
                        else l.(reserved := if amount <= l.reserved then l.reserved - amount else 0)
    {
      if amount <= 0 {
        return;
      }
      var reserved := ledger.reserved;
      var next := if reserved > amount then reserved - amount else 0;
      ledger := ledger.(reserved := next);
    }

    predicate IsRequesterSponsorable(appId: AppId, requester: Hash160, fee: int)
      reads this
    {
      if appId !in sponsorship.gated then true
      else
        var key := (config.sha(appId), requester);
        if key in sponsorship.allowed then true
        else if key !in sponsorship.caps || sponsorship.caps[key] <= 0 then false
        else Get(sponsorship.spent, key) + fee <= sponsorship.caps[key]
    }

    function ResolveFeePayer(appId: AppId, requester: Hash160, sponsor: Hash160): Hash160
      reads this
    {
      if config.fee <= 0 then requester
      else if && sponsor.Account?
              && sponsor != requester
              && FeeCreditOf(sponsor) >= config.fee
              && IsRequesterSponsorable(appId, requester, config.fee)
      then sponsor
      else requester
    }

    /** None: the fee is not covered, and the whole call aborts. */
    method ConsumeRequestFeeFromPayer(feePayer: Hash160) returns (paid: Option<int>)
      requires feePayer.Account?
      modifies this`ledger
      ensures var fee, l := config.fee, old(ledger);
              if fee > 0 && old(FeeCreditOf(feePayer)) < fee
              then paid == None && ledger == l
              else && paid == Some(Charge(fee))
                   && ledger == l.(credits := AddTo(l.credits, feePayer, -Charge(fee)),
                                   accrued := l.accrued + Charge(fee),
                                   reserved := l.reserved + Charge(fee))
    {
      var fee := config.fee;
      if fee <= 0 {
        return Some(0);
      }
      var credit := FeeCreditOf(feePayer);
      if credit < fee {
        return None;
      }
      ledger := ledger.(credits := ledger.credits[feePayer := credit - fee]);
      ledger := ledger.(accrued := ledger.accrued + fee);
      ReserveRequestFee(fee);
      return Some(fee);
    }

    method RecordSponsoredSpend(appId: AppId, requester: Hash160, amount: int)
      modifies this`sponsorship
      ensures var key, s := (config.sha(appId), requester), old(sponsorship);
              sponsorship == if amount <= 0 || !requester.Account? then s
                             else s.(spent := AddTo(s.spent, key, amount))
    {
      if amount <= 0 || !requester.Account? {
        return;
      }
      var key := (config.sha(appId), requester);
      sponsorship := sponsorship.(spent := sponsorship.spent[key := Get(sponsorship.spent, key) + amount]);
    }

    /** Clamped at zero; exact whenever the amount really was recorded. */
    method ReleaseSponsoredSpend(appId: AppId, requester: Hash160, amount: int)
      modifies this`sponsorship
      ensures var key, s := (config.sha(appId), requester), old(sponsorship);
              var spent := Get(s.spent, key);
              sponsorship == if amount <= 0 || !requester.Account? then s
                             else s.(spent := s.spent[key := if amount <= spent then spent - amount else 0])
    {
      if amount <= 0 || !requester.Account? {
        return;
      }
      var key := (config.sha(appId), requester);
      var next := Get(sponsorship.spent, key) - amount;
      if next < 0 {
        next := 0;
      }
      sponsorship := sponsorship.(spent := sponsorship.spent[key := next]);
    }

    // ----- Requests -----

    predicate ValidRequestInputs(appId: AppId, task: Task)
      reads this
    {
      && ValidId(appId)
      && GetMiniApp(appId).createdAt > 0
      && GetMiniApp(appId).active
      && 0 < |task.operation| <= MAX_OPERATION_LENGTH
      && |task.payload| <= MAX_PAYLOAD_LENGTH
      && task.granted
    }

    method SubmitMiniAppRequestInternal(time: Time, requester: Hash160, appId: AppId, task: Task) returns (ok: bool)
      requires requester.Account?
      requires appId in registry.apps ==> registry.apps[appId].createdAt > 0
      modifies this`ledger, this`queue, this`sponsorship
      ensures ok == CanSubmit(old(Snap()), requester, appId, task)
      ensures Snap() == if ok then Submitted(old(Snap()), time, requester, appId, task) else old(Snap())
    {
      if !ValidRequestInputs(appId, task) {
        return false;
      }
      var app := GetMiniApp(appId);
      var sponsor := ResolveFeePayer(appId, requester, app.feePayer);
      assert sponsor == Payer(Snap(), appId, requester);
      var paid := ConsumeRequestFeeFromPayer(sponsor);
      if paid.None? {
        return false;
      }
      var feePaid := paid.value;
      if feePaid > 0 && sponsor != requester {
        RecordSponsoredSpend(appId, requester, feePaid);
      }
      var requestId := queue.counter + 1;
      queue := queue.(counter := requestId);
      queue := queue.(requests := queue.requests[requestId := Request(appId, task, requester, sponsor, app.callback,
                                                                      time, feePaid, Pending, 0, false, "", "",
                                                                      false)]);
      queue := queue.(totalRequests := queue.totalRequests + 1);
      queue := queue.(appRequests := queue.appRequests[appId := Get(queue.appRequests, appId) + 1]);
      return true;
    }

    method ExpireStaleRequest(env: Env, id: int) returns (ok: bool)
      requires Valid()
      modifies this`ledger, this`queue, this`sponsorship
      ensures ok == CanExpire(old(Snap()), env, id)
      ensures Snap() == if ok then Expired(old(Snap()), env.time, id) else old(Snap())
    {
      if !Signed(env, config.admin) && !Signed(env, config.updater) {
        return false;
      }
      if id !in queue.requests || queue.requests[id].status != Pending {
        return false;
      }
      if env.time - queue.requests[id].createdAt <= config.ttl {
        return false;
      }
      PendingFeeIsReserved(Snap(), id);
      if queue.requests[id].sponsor != queue.requests[id].requester {
        SponsoredFeeIsRecorded(Snap(), id);
      }
      ExpirePending(env.time, id);
      return true;
    }

    method ExpirePending(time: Time, id: int)
      requires IsPending(Snap(), id) && RequestOk(queue.requests[id])
      requires queue.requests[id].feePaid <= ledger.reserved <= ledger.accrued
      requires var r := queue.requests[id];
               r.sponsor != r.requester ==> Get(sponsorship.spent, Key(Snap(), r.appId, r.requester)) >= r.feePaid
      modifies this`ledger, this`queue, this`sponsorship
      ensures Snap() == Expired(old(Snap()), time, id)
    {
      var req := queue.requests[id].(status := Failed, closedAt := time, success := false, error := EXPIRY_ERROR,
                                     expired := true);
      queue := queue.(requests := queue.requests[id := req]);
      if req.sponsor.Account? && req.feePaid > 0 {
        var accrued := ledger.accrued;
        var refund := if accrued < req.feePaid then accrued else req.feePaid;
        if refund > 0 {
          ledger := ledger.(credits := ledger.credits[req.sponsor := FeeCreditOf(req.sponsor) + refund]);
          ledger := ledger.(accrued := accrued - refund);
        }
      }
      if req.sponsor.Account? && req.sponsor != req.requester && req.feePaid > 0 {
        ReleaseSponsoredSpend(req.appId, req.requester, req.feePaid);
      }
      ReleaseReservedFee(req.feePaid);
      queue := queue.(inbox := queue.inbox[(config.sha(req.appId), id) :=
        InboxItem(req.appId, req.task.moduleId, req.task.operation, req.requester, false, "", req.error, time)]);
    }

    /** The public submission entry points; each resolves its requester and app, then submits. */
    method Submit(env: Env, route: Route, task: Task) returns (ok: bool)
      requires Valid()
      modifies this`ledger, this`queue, this`sponsorship
      ensures ok == CanSubmitBy(old(Snap()), env, route, task)
      ensures Snap() == if ok then SubmittedBy(old(Snap()), env, route, task) else old(Snap())
    {
      hide Submitted, CanSubmit, Inv, RegistryInv;
      var modern := ResolveRoute(route, task);
      if modern.None? {
        return false;
      }
      var requester := Authorize(env, modern.value);
      if requester.None? {
        return false;
      }
      AppsAreOk(modern.value.appId);
      ok := SubmitMiniAppRequestInternal(env.time, requester.value, modern.value.appId, EffectiveTask(route, task));
    }

    /** The legacy aliases look their app up by its callback contract. */
    function ResolveRoute(route: Route, task: Task): (r: Option<Route>)
      reads this
      ensures r.Some? ==> !r.value.IsLegacy()
    {
      if !route.IsLegacy() then Some(route)
      else if route.callbackMethod != "onMiniAppResult" && route.callbackMethod != "onOracleResult" then None
      else
        var app := FindByCallback(registry, route.callback);
        if app.None? || |task.operation| == 0 || |task.operation| > MAX_OPERATION_LENGTH then None
        else Some(match route
                  case LegacyDirect(_, _) => Direct(app.value)
                  case LegacyIntegration(requester, _, _) => Integration(requester, app.value)
                  case LegacySystem(requester, _, _) => System(requester, app.value)
                  case _ => route)
    }

    function Authorize(env: Env, route: Route): (r: Option<Hash160>)
      requires !route.IsLegacy()
      reads this
      ensures r.Some? ==> r.value.Account?
    {
      match route
      case Direct(_) => if Signed(env, env.sender) then Some(env.sender) else None
      case Integration(requester, appId) =>
        if !requester.Account? || !ValidId(appId) || !GetMiniApp(appId).active then None
        else if !GetMiniApp(appId).callback.Account? || env.caller != GetMiniApp(appId).callback then None
        else Some(requester)
      case System(requester, _) =>
        if !Signed(env, config.updater) || !requester.Account? then None else Some(requester)
    }

    /** The checks of a fulfilment, the signature over the answer included. */
    method CheckFulfilment(env: Env, id: int, success: bool, result: string, error: string, signature: string)
      returns (ok: bool)
      ensures ok == CanFulfill(Snap(), env, id, success, result, error, signature)
      ensures ok ==> IsPending(Snap(), id)
    {
      if !Signed(env, config.updater) {
        return false;
      }
      if id !in queue.requests || queue.requests[id].status != Pending {
        return false;
      }
      if |result| > MAX_RESULT_LENGTH || |error| > MAX_ERROR_LENGTH || |signature| != SIGNATURE_LENGTH {
        return false;
      }
      var req := queue.requests[id];
      var answer := Answer(id, req.appId, req.task.moduleId, req.task.operation, success, result, error);
      return env.verifies(answer, signature);
    }

    method FulfillRequest(env: Env, id: int, success: bool, result: string, error: string, signature: string,
                          rich: Callback, legacy: Callback)
      returns (ok: bool)
      requires Valid()
      modifies this
      ensures var call := Call.FulfillRequest(id, success, result, error, signature, rich, legacy);
              ok == Accepts(old(Snap()), Invocation(env, call)) && Snap() == Step(old(Snap()), Invocation(env, call))
      ensures Valid()
      decreases Invocation(env, Call.FulfillRequest(id, success, result, error, signature, rich, legacy)), 0
    {
      hide CanFulfill, Fulfilled;
      ok := CheckFulfilment(env, id, success, result, error, signature);
      if !ok {
        return;
      }
      PendingFeeIsReserved(Snap(), id);
      FulfilledKeepsInv(Snap(), env.time, id, success, result, error);
      var callback := queue.requests[id].callback;
      FulfillPending(env.time, id, success, result, error);
      if callback.Account? {
        if rich.Returns? {
          RunCalls(rich.calls);
        } else if legacy.Returns? {
          RunCalls(legacy.calls);
        }
      }
    }

    method FulfillPending(time: Time, id: int, success: bool, result: string, error: string)
      requires IsPending(Snap(), id) && 0 <= queue.requests[id].feePaid <= ledger.reserved
      modifies this`ledger, this`queue
      ensures Snap() == Fulfilled(old(Snap()), time, id, success, result, error)
    {
      var req := queue.requests[id].(status := if success then Succeeded else Failed, closedAt := time,
                                     success := success, result := result, error := error);
      queue := queue.(requests := queue.requests[id := req]);
      ReleaseReservedFee(req.feePaid);
      queue := queue.(totalFulfilled := queue.totalFulfilled + 1);
      queue := queue.(appFulfilled := queue.appFulfilled[req.appId := Get(queue.appFulfilled, req.appId) + 1]);
      queue := queue.(inbox := queue.inbox[(config.sha(req.appId), id) :=
        InboxItem(req.appId, req.task.moduleId, req.task.operation, req.requester, req.success, req.result, req.error,
                  time)]);
    }

    /** The calls a callback makes back into the kernel, one after the other. */
    method RunCalls(calls: seq<Invocation>)
      requires Valid()
      modifies this
      ensures Snap() == Run(old(Snap()), calls)
      ensures Valid()
      decreases calls, 2
    {
      if calls != [] {
        var _ := Execute(calls[0]);
        RunCalls(calls[1..]);
      }
    }

    /** Any public call: it does what the transition system says, and a valid contract stays valid. */
    method Execute(i: Invocation) returns (ok: bool)
      requires Valid()
      modifies this
      ensures ok == Accepts(old(Snap()), i) && Snap() == Step(old(Snap()), i)
      ensures Valid()
      decreases i, 1
    {
      StepKeepsInv(Snap(), i);
      match i.call
      case FulfillRequest(id, success, result, error, signature, rich, legacy) =>
        ok := FulfillRequest(i.env, id, success, result, error, signature, rich, legacy);
      case SetAdmin(_) => ok := Configure(i);
      case SetUpdater(_) => ok := Configure(i);
      case SetRequestFee(_) => ok := Configure(i);
      case SetRequestTtl(_) => ok := Configure(i);
      case RegisterMiniApp(_, _, _, _, _) => ok := Administer(i);
      case ConfigureMiniApp(_, _, _, _, _) => ok := Administer(i);
      case RebuildIndexes(_, _) => ok := Administer(i);
      case _ => ok := Transact(i);
    }

    method Configure(i: Invocation) returns (ok: bool)
      requires i.call.SetAdmin? || i.call.SetUpdater? || i.call.SetRequestFee? || i.call.SetRequestTtl?
      modifies this`config
      ensures ok == Accepts(old(Snap()), i) && Snap() == Step(old(Snap()), i)
    {
      match i.call
      case SetAdmin(newAdmin) => ok := SetAdmin(i.env, newAdmin);
      case SetUpdater(newUpdater) => ok := SetUpdater(i.env, newUpdater);
      case SetRequestFee(amount) => ok := SetRequestFee(i.env, amount);
      case SetRequestTtl(ttl) => ok := SetRequestTtl(i.env, ttl);
    }

    method Administer(i: Invocation) returns (ok: bool)
      requires Valid()
      requires i.call.RegisterMiniApp? || i.call.ConfigureMiniApp? || i.call.RebuildIndexes?
      modifies this`registry
      ensures ok == Accepts(old(Snap()), i) && Snap() == Step(old(Snap()), i)
    {
      match i.call
      case RegisterMiniApp(appId, appAdmin, feePayer, callback, metadata) =>
        ok := RegisterMiniApp(i.env, appId, appAdmin, feePayer, callback, metadata);
      case ConfigureMiniApp(appId, feePayer, callback, metadata, active) =>
        ok := ConfigureMiniApp(i.env, appId, feePayer, callback, metadata, active);
      case RebuildIndexes(start, count) =>
        IndexedIdsAreValid();
        ok := RebuildIndexes(i.env, start, count);
    }

    method Transact(i: Invocation) returns (ok: bool)
      requires Valid()
      requires || i.call.WithdrawAccruedFees? || i.call.OnNep17Payment? || i.call.Submit? || i.call.ExpireStaleRequest?
               || i.call.SetSponsoredRequesterAllowed? || i.call.SetSponsoredRequesterCap?
      modifies this`ledger, this`queue, this`sponsorship
      ensures ok == Accepts(old(Snap()), i) && Snap() == Step(old(Snap()), i)
    {
      match i.call
      case WithdrawAccruedFees(to, amount) => ok := WithdrawAccruedFees(i.env, to, amount);
      case OnNep17Payment(from, amount, target) => ok := OnNep17Payment(i.env, from, amount, target);
      case Submit(route, task) => ok := Submit(i.env, route, task);
      case ExpireStaleRequest(id) => ok := ExpireStaleRequest(i.env, id);
      case SetSponsoredRequesterAllowed(appId, requester, allow) =>
        ok := SetSponsoredRequesterAllowed(i.env, appId, requester, allow);
      case SetSponsoredRequesterCap(appId, requester, cap) =>
        ok := SetSponsoredRequesterCap(i.env, appId, requester, cap);
    }

    lemma IndexedIdsAreValid()
      requires Valid()
      ensures forall appId :: appId in registry.apps ==> registry.apps[appId].createdAt != 0
      ensures forall i :: 0 <= i < |registry.index| ==> ValidId(registry.index[i])
    {
      forall appId | appId in registry.apps
        ensures AppOk(registry, appId)
      {
      }
      forall i | 0 <= i < |registry.index|
        ensures ValidId(registry.index[i])
      {
        assert registry.index[i] in registry.index;
      }
    }
  }
}
