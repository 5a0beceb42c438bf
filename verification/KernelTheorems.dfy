/** What the kernel promises its users, over every run. */
module KernelTheorems {
  import opened Prelude
  import opened KernelSums
  import opened KernelState
  import opened KernelInvariant

  ghost predicate Reachable(k: Kernel) {
    exists self, gasToken, sha, deployer, calls :: k == Run(Deployed(self, gasToken, sha, deployer), calls)
  }

  lemma ReachableInv(k: Kernel)
    requires Reachable(k)
    ensures Inv(k)
  {
    var self, gasToken, sha, deployer, calls :| k == Run(Deployed(self, gasToken, sha, deployer), calls);
    var k0 := Deployed(self, gasToken, sha, deployer);
    DeployedInv(k0, self, gasToken, sha, deployer);
    RunKeepsInv(k0, calls);
  }

  // ----- Conservation -----

  /** Every unit of GAS that came in is a credit, a refundable fee, an earned fee, or was withdrawn from earned fees. */
  lemma Conservation(k: Kernel)
    requires Reachable(k)
    ensures var l, q := k.ledger, k.queue;
            var earned, refunded := Total(Fees(FulfilledRequest), q), Total(Fees(ExpiredRequest), q);
            && l.gas == SumValues(l.credits) + l.accrued
            && Total(Fees(AnyRequest), q) == l.reserved + earned + refunded
            && l.accrued - l.reserved == earned - l.withdrawn
            && l.accrued >= l.reserved
            && l.deposited == SumValues(l.credits) + l.reserved + earned
  {
    ReachableInv(k);
    KindsPartition(k.queue.requests, k.queue.counter, "");
  }

  /** Requests are pending, fulfilled or expired, and the counters say how many, globally and app by app. */
  lemma Accounting(k: Kernel, appId: AppId)
    requires Reachable(k)
    ensures var q := k.queue;
            && q.totalRequests == q.counter == |q.requests|
            && q.totalRequests == Total(Count(PendingRequest), q) + q.totalFulfilled + Total(Count(ExpiredRequest), q)
            && Get(q.appRequests, appId) == Total(AppCount(PendingRequest, appId), q) + Get(q.appFulfilled, appId)
                                            + Total(AppCount(ExpiredRequest, appId), q)
            && SumValues(q.appRequests) == q.totalRequests
            && SumValues(q.appFulfilled) == q.totalFulfilled
  {
    ReachableInv(k);
    var q := k.queue;
    KindsPartition(q.requests, q.counter, appId);
    TotalOfAll(q.requests, q.counter);
    assert AppCountersOk(q, appId);
    CountIds(q.requests.Keys, q.counter);
  }

  lemma {:induction false} TotalOfAll(requests: map<int, Request>, n: nat)
    requires forall id :: 1 <= id <= n ==> id in requests
    ensures TotalTo(Count(AnyRequest), requests, n) == n
  {
    if n > 0 {
      TotalOfAll(requests, n - 1);
    }
  }

  lemma {:induction false} CountIds(ids: set<int>, n: nat)
    requires forall id :: id in ids <==> 1 <= id <= n
    ensures |ids| == n
  {
    if n == 0 {
      assert forall id :: id !in ids;
    } else {
      CountIds(ids - {n}, n - 1);
    }
  }

  /** The GAS transfer of an allowed withdrawal cannot fail for want of balance. */
  lemma WithdrawalIsFunded(k: Kernel, amount: int)
    requires Inv(k) && k.ledger.accrued - k.ledger.reserved >= amount
    ensures k.ledger.gas >= amount
  {
    SumNonNegative(k.ledger.credits.Keys, k.ledger.credits);
    TotalAtLeast(Fees(PendingRequest), k.queue.requests, k.queue.counter, 0);
  }

  // ----- The life of a request -----

  predicate SameOrder(r: Request, r': Request) {
    r' == r.(status := r'.status, closedAt := r'.closedAt, success := r'.success, result := r'.result,
             error := r'.error, expired := r'.expired)
  }

  /** Requests are never lost or re-priced, and closed ones never change again. */
  ghost predicate Grows(k: Kernel, k': Kernel) {
    && k'.config.sha == k.config.sha
    && forall id :: id in k.queue.requests ==> Keeps(k, k', id)
  }

  predicate Keeps(k: Kernel, k': Kernel, id: int)
    requires id in k.queue.requests
  {
    var r := k.queue.requests[id];
    && id in k'.queue.requests
    && SameOrder(r, k'.queue.requests[id])
    && (r.status != Pending ==> k'.queue.requests[id] == r)
  }

  lemma {:induction false} StepGrows(k: Kernel, i: Invocation)
    requires Inv(k)
    ensures Grows(k, Step(k, i))
    decreases i, 1
  {
    if Accepts(k, i) && i.call.FulfillRequest? {
      var FulfillRequest(id, success, result, error, _, rich, legacy) := i.call;
      var closed := Fulfilled(k, i.env.time, id, success, result, error);
      FulfilledKeepsInv(k, i.env.time, id, success, result, error);
      assert Grows(k, closed);
      if k.queue.requests[id].callback.Account? && rich.Returns? {
        RunGrows(closed, rich.calls);
        GrowsTransitive(k, closed, Run(closed, rich.calls));
      } else if k.queue.requests[id].callback.Account? && legacy.Returns? {
        RunGrows(closed, legacy.calls);
        GrowsTransitive(k, closed, Run(closed, legacy.calls));
      }
    } else if Accepts(k, i) {
      EffectGrows(k, i);
    }
  }

  lemma EffectGrows(k: Kernel, i: Invocation)
    requires Inv(k) && Accepts(k, i) && !i.call.FulfillRequest?
    ensures Grows(k, Effect(k, i))
  {
    if i.call.Submit? {
      assert k.queue.counter + 1 !in k.queue.requests;
    }
  }

  lemma GrowsTransitive(k: Kernel, k': Kernel, k'': Kernel)
    requires Grows(k, k') && Grows(k', k'')
    ensures Grows(k, k'')
  {
    forall id | id in k.queue.requests
      ensures Keeps(k, k'', id)
    {
      assert Keeps(k, k', id) && Keeps(k', k'', id);
    }
  }

  lemma {:induction false} RunGrows(k: Kernel, calls: seq<Invocation>)
    requires Inv(k)
    ensures Grows(k, Run(k, calls))
    decreases calls, 2
  {
    if calls != [] {
      StepGrows(k, calls[0]);
      StepKeepsInv(k, calls[0]);
      RunGrows(Step(k, calls[0]), calls[1..]);
      GrowsTransitive(k, Step(k, calls[0]), Run(k, calls));
    }
  }

  /** Once delivered, an inbox item stays as it is. */
  lemma InboxIsFinal(k: Kernel, calls: seq<Invocation>, d: nat, id: int)
    requires Inv(k) && (d, id) in k.queue.inbox
    ensures (d, id) in Run(k, calls).queue.inbox
    ensures Run(k, calls).queue.inbox[(d, id)] == k.queue.inbox[(d, id)] == Delivery(k.queue.requests[id])
  {
    RunKeepsInv(k, calls);
    RunGrows(k, calls);
    assert Keeps(k, Run(k, calls), id);
  }

  /**
   A submission debits the payer by the fee of the moment. Whatever happens next, fee changes and
   withdrawals included, an expiry of that request credits the same payer with the same amount.
   */
  lemma FullRefund(k: Kernel, time: Time, requester: Hash160, appId: AppId, task: Task,
                   calls: seq<Invocation>, env: Env)
    requires Inv(k) && CanSubmit(k, requester, appId, task)
    requires var k1 := Submitted(k, time, requester, appId, task);
             CanExpire(Run(k1, calls), env, k1.queue.counter)
    ensures var k1 := Submitted(k, time, requester, appId, task);
            var payer, fee := Payer(k, appId, requester), Charge(k.config.fee);
            var k2 := Run(k1, calls);
            var k3 := Expired(k2, env.time, k1.queue.counter);
            && CreditOf(k1.ledger, payer) == CreditOf(k.ledger, payer) - fee
            && CreditOf(k3.ledger, payer) == CreditOf(k2.ledger, payer) + fee
            && (forall h :: h != payer ==> CreditOf(k3.ledger, h) == CreditOf(k2.ledger, h))
            && k3.ledger.accrued == k2.ledger.accrued - fee && k3.ledger.reserved == k2.ledger.reserved - fee
  {
    var k1 := Submitted(k, time, requester, appId, task);
    SubmittedKeepsInv(k, time, requester, appId, task);
    RunGrows(k1, calls);
    assert Keeps(k1, Run(k1, calls), k1.queue.counter);
    assert AppOk(k.registry, appId);
  }

  // ----- Sponsorship budget -----

  /**
   The call, if it is accepted, and all it causes do not put the key on the allowlist, change its cap, or register
   a new ungated app under it.
   */
  predicate Quiet(k: Kernel, i: Invocation, key: (nat, Hash160))
    decreases i, 0
  {
    Accepts(k, i) ==>
      match i.call
      case SetSponsoredRequesterAllowed(appId, requester, allowed) => allowed ==> Key(k, appId, requester) != key
      case SetSponsoredRequesterCap(appId, requester, cap) =>
        Key(k, appId, requester) == key ==> cap == Get(k.sponsorship.caps, key)
      case RegisterMiniApp(appId, _, _, _, _) => k.config.sha(appId) == key.0 ==> appId in k.sponsorship.gated
      case FulfillRequest(id, success, result, error, _, rich, legacy) =>
        k.queue.requests[id].callback.Account? ==>
          var closed := Fulfilled(k, i.env.time, id, success, result, error);
          if rich.Returns? then AllQuiet(closed, rich.calls, key)
          else legacy.Returns? ==> AllQuiet(closed, legacy.calls, key)
      case _ => true
  }

  predicate AllQuiet(k: Kernel, calls: seq<Invocation>, key: (nat, Hash160))
    decreases calls, 1
  {
    calls == [] || (Quiet(k, calls[0], key) && AllQuiet(Step(k, calls[0]), calls[1..], key))
  }

  /** Sponsorship for the key is gated, off the allowlist, and capped at cap. */
  ghost predicate Capped(k: Kernel, key: (nat, Hash160), cap: int) {
    && (forall appId :: appId in k.registry.apps && k.config.sha(appId) == key.0 ==> appId in k.sponsorship.gated)
    && key !in k.sponsorship.allowed
    && Get(k.sponsorship.caps, key) == cap
  }

  /** Spend so far is at most bound, and the cap does not exceed bound either. */
  ghost predicate Bounded(k: Kernel, key: (nat, Hash160), cap: int, bound: int) {
    Inv(k) && Capped(k, key, cap) && Get(k.sponsorship.spent, key) <= bound && cap <= bound
  }

  lemma SubmitStaysBounded(k: Kernel, i: Invocation, key: (nat, Hash160), cap: int, bound: int)
    requires Bounded(k, key, cap, bound) && Accepts(k, i) && i.call.Submit?
    ensures Capped(Effect(k, i), key, cap) && Get(Effect(k, i).sponsorship.spent, key) <= bound
  {
    hide FindByCallback, LegacyModuleId;
  }

  lemma EffectStaysBounded(k: Kernel, i: Invocation, key: (nat, Hash160), cap: int, bound: int)
    requires Bounded(k, key, cap, bound) && Accepts(k, i) && Quiet(k, i, key) && !i.call.FulfillRequest?
    ensures Capped(Effect(k, i), key, cap) && Get(Effect(k, i).sponsorship.spent, key) <= bound
  {
    hide CanFulfill, CanDeposit, CanWithdraw, CanSubmitBy, SubmittedBy;
    match i.call
    case Submit(_, _) => SubmitStaysBounded(k, i, key, cap, bound);
    case RebuildIndexes(start, count) =>
      RebuildIsNoOp(k.registry, start, SliceEnd(k.registry, start, count));
    case _ =>
  }

  lemma {:induction false} StepStaysBounded(k: Kernel, i: Invocation, key: (nat, Hash160), cap: int, bound: int)
    requires Bounded(k, key, cap, bound) && Quiet(k, i, key)
    ensures Bounded(Step(k, i), key, cap, bound)
    decreases i, 1
  {
    StepKeepsInv(k, i);
    if Accepts(k, i) && i.call.FulfillRequest? {
      var FulfillRequest(id, success, result, error, _, rich, legacy) := i.call;
      var closed := Fulfilled(k, i.env.time, id, success, result, error);
      FulfilledKeepsInv(k, i.env.time, id, success, result, error);
      if k.queue.requests[id].callback.Account? && rich.Returns? {
        RunStaysBounded(closed, rich.calls, key, cap, bound);
      } else if k.queue.requests[id].callback.Account? && legacy.Returns? {
        RunStaysBounded(closed, legacy.calls, key, cap, bound);
      }
    } else if Accepts(k, i) {
      EffectStaysBounded(k, i, key, cap, bound);
    }
  }

  lemma {:induction false} RunStaysBounded(k: Kernel, calls: seq<Invocation>, key: (nat, Hash160), cap: int, bound: int)
    requires Bounded(k, key, cap, bound) && AllQuiet(k, calls, key)
    ensures Bounded(Run(k, calls), key, cap, bound)
    decreases calls, 2
  {
    if calls != [] {
      StepKeepsInv(k, calls[0]);
      StepStaysBounded(k, calls[0], key, cap, bound);
      RunStaysBounded(Step(k, calls[0]), calls[1..], key, cap, bound);
    }
  }

  /**
   While an app stays gated, the requester off its allowlist and the cap unchanged, the requester's
   recorded spend never passes the cap, or what it already was. And the record is exact.
   */
  lemma BudgetHolds(k: Kernel, calls: seq<Invocation>, key: (nat, Hash160), cap: int)
    requires Inv(k) && Capped(k, key, cap) && AllQuiet(k, calls, key)
    ensures var k' := Run(k, calls);
            var spent, spent' := Get(k.sponsorship.spent, key), Get(k'.sponsorship.spent, key);
            && spent' <= (if spent > cap then spent else cap)
            && spent' == Total(SponsoredFees(k.config.sha, key), k'.queue)
  {
    var spent := Get(k.sponsorship.spent, key);
    RunStaysBounded(k, calls, key, cap, if spent > cap then spent else cap);
    RunKeepsInv(k, calls);
    assert SpendOk(Run(k, calls).sponsorship.spent, Run(k, calls).queue, k.config.sha, key);
  }

  // ----- The callback index -----

  lemma {:induction false} ScanExact(apps: map<AppId, MiniApp>, index: seq<AppId>, c: Hash160, n: nat)
    requires n <= |index|
    ensures var found := ScanByCallback(apps, index, c, n);
            && (found.None? ==> forall i :: 0 <= i < n ==> !(c.Account? && CallbackOf(apps, index[i]) == c))
            && (found.Some? ==> c.Account? && exists i :: 0 <= i < n && index[i] == found.value &&
                                                         CallbackOf(apps, index[i]) == c &&
                                                         forall j :: 0 <= j < i ==> CallbackOf(apps, index[j]) != c)
  {
    if n > 0 {
      ScanExact(apps, index, c, n - 1);
    }
  }

  /** In every reachable state the index answers as the linear scan over all apps would. */
  lemma IndexAgreesWithScan(k: Kernel, c: Hash160)
    requires Inv(k)
    ensures FindByCallback(k.registry, c) ==
            ScanByCallback(k.registry.apps, k.registry.index, c, |k.registry.index|)
  {
    var g := k.registry;
    ScanExact(g.apps, g.index, c, |g.index|);
    if c in g.callbacks {
      var appId := g.callbacks[c];
      assert Maps(g, c, appId) && Names(g, appId, c);
      assert appId in g.index;
    }
    var found := ScanByCallback(g.apps, g.index, c, |g.index|);
    if found.Some? {
      var i :| 0 <= i < |g.index| && g.index[i] == found.value && CallbackOf(g.apps, g.index[i]) == c;
      assert g.index[i] in g.index;
      assert Names(g, found.value, c) && Maps(g, c, found.value);
    }
  }

  /** The callback map sends each callback of the first n records to the earliest of them, and nothing else. */
  ghost predicate FirstWins(g: Registry, n: nat) {
    n <= |g.index| &&
    forall c :: (if c in g.callbacks then Some(g.callbacks[c]) else None) == ScanByCallback(g.apps, g.index, c, n)
  }

  function Max(a: nat, b: nat): nat {
    if a < b then b else a
  }

  lemma RebuiltOneKeepsFirstWins(g: Registry, n: nat, i: nat)
    requires FirstWins(g, n) && i <= n && i < |g.index|
    ensures FirstWins(RebuiltOne(g, i), Max(n, i + 1))
  {
    var g' := RebuiltOne(g, i);
    forall c
      ensures (if c in g'.callbacks then Some(g'.callbacks[c]) else None) ==
              ScanByCallback(g.apps, g.index, c, Max(n, i + 1))
    {
      assert (if c in g.callbacks then Some(g.callbacks[c]) else None) == ScanByCallback(g.apps, g.index, c, n);
      ScanExact(g.apps, g.index, c, n);
    }
  }

  lemma {:induction false} SliceKeepsFirstWins(g: Registry, n: nat, start: nat, end: nat)
    requires FirstWins(g, n) && start <= n && end <= |g.index|
    ensures FirstWins(Rebuilt(g, start, end), Max(n, end))
    ensures Rebuilt(g, start, end).apps == g.apps && Rebuilt(g, start, end).index == g.index
    decreases end - start
  {
    if start < end {
      RebuiltOneKeepsFirstWins(g, n, start);
      SliceKeepsFirstWins(RebuiltOne(g, start), Max(n, start + 1), start + 1, end);
    }
  }

  /** A series of RebuildIndexes slices, each a start and a count. */
  function RebuiltBy(g: Registry, slices: seq<(nat, nat)>): Registry
    decreases slices
  {
    if slices == [] then g
    else
      var (start, count) := slices[0];
      RebuiltBy(Rebuilt(g, start, SliceEnd(g, start, count)), slices[1..])
  }

  /** How far the slices have covered a registry of size total, if each starts within what is already covered. */
  function Covered(total: nat, n: nat, slices: seq<(nat, nat)>): (r: Option<nat>)
    requires n <= total
    ensures r.Some? ==> r.value <= total
    decreases slices
  {
    if slices == [] then Some(n)
    else
      var (start, count) := slices[0];
      if start > n then None
      else Covered(total, Max(n, if start + count > total then total else start + count), slices[1..])
  }

  /**
   Backfilling a registry whose records may share callbacks, slice by slice, with overlaps and repeats:
   each covered callback goes to the earliest-registered of its apps.
   */
  lemma {:induction false} BackfillFirstWins(g: Registry, n: nat, slices: seq<(nat, nat)>)
    requires FirstWins(g, n) && Covered(|g.index|, n, slices).Some?
    ensures FirstWins(RebuiltBy(g, slices), Covered(|g.index|, n, slices).value)
    decreases slices
  {
    if slices != [] {
      var (start, count) := slices[0];
      var end := SliceEnd(g, start, count);
      SliceKeepsFirstWins(g, n, start, end);
      BackfillFirstWins(Rebuilt(g, start, end), Max(n, end), slices[1..]);
    }
  }

  /** From an empty index, as after the upgrade that introduced it; and lookups then agree with the scan. */
  lemma BackfillFromEmpty(g: Registry, slices: seq<(nat, nat)>, c: Hash160)
    requires g.callbacks == map[] && Covered(|g.index|, 0, slices).Some?
    ensures FindByCallback(RebuiltBy(g, slices), c) ==
            ScanByCallback(g.apps, g.index, c, Covered(|g.index|, 0, slices).value)
  {
    var g' := RebuiltBy(g, slices);
    var n := Covered(|g.index|, 0, slices).value;
    BackfillFirstWins(g, 0, slices);
    RebuiltByKeepsRecords(g, slices);
    assert (if c in g'.callbacks then Some(g'.callbacks[c]) else None) == ScanByCallback(g.apps, g.index, c, n);
    ScanExact(g.apps, g.index, c, n);
  }

  lemma {:induction false} RebuiltByKeepsRecords(g: Registry, slices: seq<(nat, nat)>)
    ensures RebuiltBy(g, slices).apps == g.apps && RebuiltBy(g, slices).index == g.index
    decreases slices
  {
    if slices != [] {
      var (start, count) := slices[0];
      var end := SliceEnd(g, start, count);
      RebuiltKeepsRecords(g, start, end);
      RebuiltByKeepsRecords(Rebuilt(g, start, end), slices[1..]);
    }
  }

  lemma {:induction false} RebuiltKeepsRecords(g: Registry, start: nat, end: nat)
    requires end <= |g.index|
    ensures Rebuilt(g, start, end).apps == g.apps && Rebuilt(g, start, end).index == g.index
    decreases end - start
  {
    if start < end {
      RebuiltKeepsRecords(RebuiltOne(g, start), start + 1, end);
    }
  }

  // ----- The account membership that a backfill restores -----

  /** The admin and the fee payer of the record at position i, where they are proper accounts other than zero. */
  function Named(apps: map<AppId, MiniApp>, index: seq<AppId>, i: nat): set<Hash160>
    requires i < |index|
  {
    if index[i] in apps then Marked(Marked({}, apps[index[i]].admin), apps[index[i]].feePayer) else {}
  }

  /** All those of the first n records. */
  function NamedBy(apps: map<AppId, MiniApp>, index: seq<AppId>, n: nat): set<Hash160>
    requires n <= |index|
  {
    if n == 0 then {} else NamedBy(apps, index, n - 1) + Named(apps, index, n - 1)
  }

  lemma {:induction false} NamedByGrows(apps: map<AppId, MiniApp>, index: seq<AppId>, m: nat, n: nat)
    requires m <= n <= |index|
    ensures NamedBy(apps, index, m) <= NamedBy(apps, index, n)
  {
    if m < n {
      NamedByGrows(apps, index, m, n - 1);
    }
  }

  lemma {:induction false} SliceEnrols(g: Registry, n: nat, start: nat, end: nat)
    requires start <= n <= |g.index| && end <= |g.index| && NamedBy(g.apps, g.index, n) <= g.accounts
    ensures Rebuilt(g, start, end).accounts == g.accounts + NamedBy(g.apps, g.index, Max(n, end))
    decreases end - start
  {
    if start < end {
      hide NamedBy, Named;
      var g' := RebuiltOne(g, start);
      var m := Max(n, start + 1);
      EnrolsOne(g, n, start);
      SliceEnrols(g', m, start + 1, end);
      NamedByGrows(g.apps, g.index, m, Max(m, end));
    }
  }

  lemma EnrolsOne(g: Registry, n: nat, i: nat)
    requires i <= n <= |g.index| && i < |g.index| && NamedBy(g.apps, g.index, n) <= g.accounts
    ensures var g', m := RebuiltOne(g, i), Max(n, i + 1);
            && g'.apps == g.apps && g'.index == g.index
            && g'.accounts == g.accounts + NamedBy(g.apps, g.index, m)
  {
    assert RebuiltOne(g, i).accounts == g.accounts + Named(g.apps, g.index, i);
    if i < n {
      NamedByGrows(g.apps, g.index, i + 1, n);
    }
  }

  /** After any series of slices, the membership holds what it held and exactly the accounts of the covered records. */
  lemma {:induction false} BackfillEnrols(g: Registry, n: nat, slices: seq<(nat, nat)>)
    requires n <= |g.index| && NamedBy(g.apps, g.index, n) <= g.accounts && Covered(|g.index|, n, slices).Some?
    ensures RebuiltBy(g, slices).accounts ==
            g.accounts + NamedBy(g.apps, g.index, Covered(|g.index|, n, slices).value)
    decreases slices
  {
    hide NamedBy;
    if slices != [] {
      var (start, count) := slices[0];
      var end := SliceEnd(g, start, count);
      var m := Max(n, end);
      SliceEnrols(g, n, start, end);
      RebuiltKeepsRecords(g, start, end);
      BackfillEnrols(Rebuilt(g, start, end), m, slices[1..]);
      CoveredGrows(|g.index|, m, slices[1..]);
      NamedByGrows(g.apps, g.index, m, Covered(|g.index|, m, slices[1..]).value);
    }
  }

  lemma {:induction false} CoveredGrows(total: nat, n: nat, slices: seq<(nat, nat)>)
    requires n <= total && Covered(total, n, slices).Some?
    ensures Covered(total, n, slices).value >= n
    decreases slices
  {
    if slices != [] {
      var (start, count) := slices[0];
      CoveredGrows(total, Max(n, if start + count > total then total else start + count), slices[1..]);
    }
  }
}
