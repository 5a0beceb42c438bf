/**
 apps/web/lib/rate-limit.ts: the fixed-window limiter kept in process memory, and what its clean-up of idle
 records changes. Each request reads the clock twice, once for itself and once in the clean-up; gap bounds how
 far the clock moves between the two reads.
 */
module RateLimiter {

  const CLEANUP_INTERVAL_MS := 300000
  const MAX_AGE_MS := 600000
  const STALE_AFTER_MS := MAX_AGE_MS + 1

  datatype Record = Record(count: nat, windowStart: int, lastAccessed: int)

  datatype State = State(records: map<string, Record>, lastCleanup: int)

  datatype Request = Request(key: string, now: int, later: int)

  datatype Limits = Limits(windowMs: int, maxRequests: nat)

  predicate Valid(l: Limits) {
    l.windowMs > 0 && l.maxRequests > 0
  }

  predicate Stale(record: Record, at: int) {
    at - record.lastAccessed > MAX_AGE_MS
  }

  function Cleaned(st: State, at: int): State {
    if at - st.lastCleanup < CLEANUP_INTERVAL_MS then st
    else State(map key | key in st.records && !Stale(st.records[key], at) :: st.records[key], at)
  }

  function Counted(st: State, key: string, windowMs: int, now: int): State {
    var record :=
      if key !in st.records || st.records[key].windowStart < now - windowMs then Record(1, now, now)
      else Record(st.records[key].count + 1, st.records[key].windowStart, now);
    st.(records := st.records[key := record])
  }

  /** incrementLocalCounter: clean up, then count. */
  function Hit(l: Limits, st: State, r: Request): (st': State)
    ensures r.key in st'.records
  {
    Counted(Cleaned(st, r.later), r.key, l.windowMs, r.now)
  }

  predicate Admits(l: Limits, st: State, r: Request) {
    Hit(l, st, r).records[r.key].count <= l.maxRequests
  }

  /** When a run admits requests of a key. */
  function Admitted(l: Limits, st: State, requests: seq<Request>, key: string): seq<int>
    decreases requests
  {
    if requests == [] then []
    else
      var r := requests[0];
      (if r.key == key && Admits(l, st, r) then [r.now] else []) + Admitted(l, Hit(l, st, r), requests[1..], key)
  }

  /** The clock never runs backwards, and moves by at most gap between the two reads of a request. */
  predicate Timed(requests: seq<Request>, clock: int, gap: nat)
    decreases requests
  {
    requests != [] ==>
      && clock <= requests[0].now <= requests[0].later <= requests[0].now + gap
      && Timed(requests[1..], requests[0].later, gap)
  }

  function Fresh(at: int): State {
    State(map[], at)
  }

  // ----- Requests for runs -----

  function At(key: string, now: int): Request {
    Request(key, now, now)
  }

  /** n requests at one moment. */
  function Burst(now: int, n: nat): seq<Request> {
    if n == 0 then [] else [At("", now)] + Burst(now, n - 1)
  }

  lemma TimedCons(r: Request, rest: seq<Request>, clock: int, gap: nat)
    requires clock <= r.now <= r.later <= r.now + gap && Timed(rest, r.later, gap)
    ensures Timed([r] + rest, clock, gap)
  {
    assert ([r] + rest)[1..] == rest;
  }

  lemma {:induction false} TimedBurst(now: int, n: nat, rest: seq<Request>, gap: nat)
    requires Timed(rest, now, gap)
    ensures Timed(Burst(now, n) + rest, now, gap)
  {
    if n == 0 {
      assert Burst(now, n) + rest == rest;
    } else {
      TimedBurst(now, n - 1, rest, gap);
      TimedCons(At("", now), Burst(now, n - 1) + rest, now, gap);
      assert Burst(now, n) + rest == [At("", now)] + (Burst(now, n - 1) + rest);
    }
  }

  // ----- The clean-up is invisible -----

  function Decisions(l: Limits, st: State, requests: seq<Request>): seq<bool>
    decreases requests
  {
    if requests == [] then []
    else [Admits(l, st, requests[0])] + Decisions(l, Hit(l, st, requests[0]), requests[1..])
  }

  /** The same limiter without its clean-up. */
  function DecisionsKept(l: Limits, st: State, requests: seq<Request>): seq<bool>
    decreases requests
  {
    if requests == [] then []
    else
      var r := requests[0];
      var st' := Counted(st, r.key, l.windowMs, r.now);
      [st'.records[r.key].count <= l.maxRequests] + DecisionsKept(l, st', requests[1..])
  }

  /** The two differ only in records that went stale. */
  predicate Alike(st: State, kept: State, clock: int) {
    && (forall key :: key in kept.records ==> kept.records[key].windowStart <= kept.records[key].lastAccessed <= clock)
    && (forall key :: key in st.records ==> key in kept.records && st.records[key] == kept.records[key])
    && (forall key :: key in kept.records && key !in st.records ==> Stale(kept.records[key], clock))
  }

  /** Decisions are those of a limiter that never cleans up, if the window and the clock gap fit the clean-up age. */
  lemma {:induction false} CleanupIsInvisible(l: Limits, st: State, kept: State, requests: seq<Request>,
                                              clock: int, gap: nat)
    requires l.windowMs + gap <= MAX_AGE_MS && Timed(requests, clock, gap) && Alike(st, kept, clock)
    ensures Decisions(l, st, requests) == DecisionsKept(l, kept, requests)
    decreases requests
  {
    if requests != [] {
      var r := requests[0];
      HitAlike(l, st, kept, r, clock, gap);
      CleanupIsInvisible(l, Hit(l, st, r), Counted(kept, r.key, l.windowMs, r.now), requests[1..], r.later, gap);
    }
  }

  lemma HitAlike(l: Limits, st: State, kept: State, r: Request, clock: int, gap: nat)
    requires l.windowMs + gap <= MAX_AGE_MS && Alike(st, kept, clock)
    requires clock <= r.now <= r.later <= r.now + gap
    ensures var kept' := Counted(kept, r.key, l.windowMs, r.now);
            Alike(Hit(l, st, r), kept', r.later) && Hit(l, st, r).records[r.key] == kept'.records[r.key]
  {
    assert Alike(Cleaned(st, r.later), kept, r.later);
  }

  /** A full window, then a request that finds it gone: with the clean-up it is admitted, without it is not. */
  lemma {:induction false} LateRequestShows(l: Limits, st: State, kept: State, now: int, n: nat, r: Request)
    requires n < l.maxRequests && st.lastCleanup == now
    requires "" in st.records && "" in kept.records
    requires st.records[""] == kept.records[""] == Record(l.maxRequests - n, now, now)
    requires r.key == "" && now <= r.now <= now + l.windowMs && r.later - now >= STALE_AFTER_MS
    ensures Decisions(l, st, Burst(now, n) + [r]) != DecisionsKept(l, kept, Burst(now, n) + [r])
    decreases n
  {
    var requests := Burst(now, n) + [r];
    if n == 0 {
      assert requests == [r] && requests[1..] == [];
      assert Decisions(l, st, requests)[0] != DecisionsKept(l, kept, requests)[0];
    } else {
      assert requests[0] == At("", now) && requests[1..] == Burst(now, n - 1) + [r];
      var st', kept' := Hit(l, st, requests[0]), Counted(kept, "", l.windowMs, now);
      LateRequestShows(l, st', kept', now, n - 1, r);
      var d, k := Decisions(l, st', requests[1..]), DecisionsKept(l, kept', requests[1..]);
      assert ([true] + d)[1..] == d && ([true] + k)[1..] == k;
    }
  }

  /** With a longer window it shows, whatever the maximum: this run is decided differently. */
  lemma CleanupShows(l: Limits, gap: nat) returns (requests: seq<Request>)
    requires Valid(l) && l.windowMs + gap > MAX_AGE_MS
    ensures Timed(requests, 0, gap) && Decisions(l, Fresh(0), requests) != DecisionsKept(l, Fresh(0), requests)
  {
    hide Timed;
    var a, r := At("", 0), Request("", if gap <= STALE_AFTER_MS then STALE_AFTER_MS - gap else 0, STALE_AFTER_MS);
    var rest := Burst(0, l.maxRequests - 1) + [r];
    requests := [a] + rest;
    assert Timed([], r.later, gap) by { TimedNone(r.later, gap); }
    TimedCons(r, [], 0, gap);
    TimedBurst(0, l.maxRequests - 1, [r] + [], gap);
    assert [r] + [] == [r];
    TimedCons(a, rest, 0, gap);
    var st, kept := Hit(l, Fresh(0), a), Counted(Fresh(0), "", l.windowMs, 0);
    LateRequestShows(l, st, kept, 0, l.maxRequests - 1, r);
    assert requests[1..] == rest;
    var d, k := Decisions(l, st, rest), DecisionsKept(l, kept, rest);
    assert ([true] + d)[1..] == d && ([true] + k)[1..] == k;
  }

  lemma TimedNone(clock: int, gap: nat)
    ensures Timed([], clock, gap)
  {
  }

  ghost predicate SameDecisions(l: Limits, clock: int, requests: seq<Request>) {
    Decisions(l, Fresh(clock), requests) == DecisionsKept(l, Fresh(clock), requests)
  }

  /** The clean-up changes no decision of any run exactly when window and clock gap fit the clean-up age. */
  lemma CleanupExact(l: Limits, gap: nat)
    requires Valid(l)
    ensures (forall clock, requests :: Timed(requests, clock, gap) ==> SameDecisions(l, clock, requests))
            <==> l.windowMs + gap <= MAX_AGE_MS
  {
    if l.windowMs + gap <= MAX_AGE_MS {
      forall clock, requests | Timed(requests, clock, gap)
        ensures SameDecisions(l, clock, requests)
      {
        CleanupIsInvisible(l, Fresh(clock), Fresh(clock), requests, clock, gap);
      }
    } else {
      var requests := CleanupShows(l, gap);
      assert !SameDecisions(l, 0, requests);
    }
  }

  // ----- The limiter -----

  class RateLimiter {
    var rateLimitMap: map<string, Record>
    var lastCleanup: int

    constructor (at: int)
      ensures Contents() == Fresh(at)
    {
      rateLimitMap := map[];
      lastCleanup := at;
    }

    ghost function Contents(): State
      reads this
    {
      State(rateLimitMap, lastCleanup)
    }

    method CleanupStaleEntries(now: int)
      modifies this
      ensures Contents() == Cleaned(old(Contents()), now)
    {
      if now - lastCleanup < CLEANUP_INTERVAL_MS {
        return;
      }
      lastCleanup := now;
      var todo := rateLimitMap.Keys;
      while todo != {}
        invariant todo <= old(rateLimitMap).Keys && lastCleanup == now
        invariant forall key :: key in rateLimitMap <==>
                    key in old(rateLimitMap) && (key in todo || !Stale(old(rateLimitMap)[key], now))
        invariant forall key :: key in rateLimitMap ==> rateLimitMap[key] == old(rateLimitMap)[key]
        decreases |todo|
      {
        var key :| key in todo;
        if now - rateLimitMap[key].lastAccessed > MAX_AGE_MS {
          rateLimitMap := rateLimitMap - {key};
        }
        todo := todo - {key};
      }
    }

    method IncrementLocalCounter(l: Limits, r: Request) returns (count: nat, resetAt: int)
      modifies this
      ensures Contents() == Hit(l, old(Contents()), r)
      ensures count == rateLimitMap[r.key].count && resetAt == rateLimitMap[r.key].windowStart + l.windowMs
    {
      CleanupStaleEntries(r.later);
      var windowStart := r.now - l.windowMs;
      var record := Record(0, r.now, r.now);
      if r.key in rateLimitMap && rateLimitMap[r.key].windowStart >= windowStart {
        record := rateLimitMap[r.key].(lastAccessed := r.now);
      }
      record := record.(count := record.count + 1);
      rateLimitMap := rateLimitMap[r.key := record];
      return record.count, record.windowStart + l.windowMs;
    }

    method Allow(l: Limits, r: Request) returns (allowed: bool)
      modifies this
      ensures Contents() == Hit(l, old(Contents()), r)
      ensures allowed == Admits(l, old(Contents()), r)
    {
      var count, resetAt := IncrementLocalCounter(l, r);
      return count <= l.maxRequests;
    }
  }
}
