/**
 How many requests of a key the limiter of apps/web/lib/rate-limit.ts admits in an interval as long as its
 window: at most twice its maximum, exactly when Suits holds. The clean-up is what limits the bound, because
 it may drop an idle record whose window is still open.
 */
module RateBounds {
  import opened RateLimiter

  // ----- The statement -----

  function CountIn(times: seq<int>, lo: int, hi: int): nat {
    if times == [] then 0
    else CountIn(times[..|times| - 1], lo, hi) + if lo <= times[|times| - 1] <= hi then 1 else 0
  }

  ghost predicate RunBounded(l: Limits, requests: seq<Request>, key: string, clock: int, lo: int) {
    CountIn(Admitted(l, Fresh(clock), requests, key), lo, lo + l.windowMs) <= 2 * l.maxRequests
  }

  /** In every run, every key and every closed interval of a window's length sees at most twice the maximum. */
  ghost predicate Bounded(l: Limits, gap: nat) {
    forall requests, key, clock, lo :: Timed(requests, clock, gap) ==> RunBounded(l, requests, key, clock, lo)
  }

  /** The soonest that two clean-ups can bring a third window, after the first one begins. */
  function SoonestThird(gap: nat): (t: int)
    ensures t >= STALE_AFTER_MS && t >= 2 * (STALE_AFTER_MS - gap)
    ensures t >= STALE_AFTER_MS + CLEANUP_INTERVAL_MS - gap
  {
    var t := if gap < STALE_AFTER_MS then 2 * (STALE_AFTER_MS - gap) else STALE_AFTER_MS;
    var u := STALE_AFTER_MS + CLEANUP_INTERVAL_MS - gap;
    var v := if t < u then u else t;
    if v < STALE_AFTER_MS then STALE_AFTER_MS else v
  }

  predicate Suits(l: Limits, gap: nat) {
    if l.maxRequests == 1 then l.windowMs < SoonestThird(gap)
    else l.windowMs <= MAX_AGE_MS || (l.windowMs == STALE_AFTER_MS && gap <= MAX_AGE_MS)
  }

  // ----- From spacing to counting -----

  predicate Spaced(l: Limits, times: seq<int>) {
    forall i, j :: 0 <= i && i + 2 * l.maxRequests <= j < |times| ==> times[j] - times[i] > l.windowMs
  }

  predicate Sorted(times: seq<int>) {
    forall i, j :: 0 <= i <= j < |times| ==> times[i] <= times[j]
  }

  lemma {:induction false} CountBelow(times: seq<int>, lo: int, hi: int, n: nat)
    requires n <= |times| && forall i :: 0 <= i < n ==> times[i] < lo
    ensures CountIn(times, lo, hi) <= |times| - n
    decreases times
  {
    if times != [] {
      CountBelow(times[..|times| - 1], lo, hi, if n == |times| then n - 1 else n);
    }
  }

  lemma {:induction false} SpacedCount(l: Limits, times: seq<int>, lo: int)
    requires Valid(l) && Sorted(times) && Spaced(l, times)
    ensures CountIn(times, lo, lo + l.windowMs) <= 2 * l.maxRequests
    decreases times
  {
    if times != [] {
      var n := |times| - 1;
      if times[n] > lo + l.windowMs {
        SpacedCount(l, times[..n], lo);
      } else if n < 2 * l.maxRequests {
        CountBelow(times, lo, lo + l.windowMs, 0);
      } else {
        CountBelow(times, lo, lo + l.windowMs, n - 2 * l.maxRequests + 1);
      }
    }
  }

  // ----- Maxima above one -----

  /** The admissions of one key so far: those of the current window begin at cur, of the one before it at prev. */
  datatype Past = Past(times: seq<int>, prev: nat, cur: nat, start: int, last: int)

  predicate Shape(l: Limits, p: Past) {
    && p.prev <= p.cur <= |p.times| <= p.cur + l.maxRequests && p.cur <= p.prev + l.maxRequests
    && (p.times != [] ==> p.cur < |p.times| && p.times[p.cur] == p.start <= p.last)
    && (forall i :: p.cur <= i < |p.times| ==> p.start <= p.times[i] <= p.last && p.times[i] <= p.start + l.windowMs)
  }

  /** How far the earlier admissions lie back, given when the last clean-up ran. */
  predicate Aged(l: Limits, p: Past, cleanup: int, clock: int)
    requires p.prev <= p.cur <= |p.times|
  {
    && (forall i :: 0 <= i < p.prev ==> clock - p.times[i] > l.windowMs)
    && (forall i :: 0 <= i < p.cur ==>
          p.times[i] <= p.start && (p.times[i] < p.start || cleanup >= p.times[i] + STALE_AFTER_MS))
    && (p.prev < p.cur ==>
          || clock - p.times[p.prev] > l.windowMs
          || (&& cleanup >= p.times[p.prev] + STALE_AFTER_MS
              && (|p.times| - p.cur >= 2 ==> p.last >= p.times[p.prev] + STALE_AFTER_MS)))
  }

  /** The state's record of the key is its current window; without one, a clean-up ended the window. */
  predicate Matches(l: Limits, st: State, key: string, p: Past, clock: int)
    requires p.cur <= |p.times|
  {
    if key in st.records then
      && p.times != [] && st.records[key].count > 0
      && st.records[key].windowStart == p.start && st.records[key].lastAccessed == p.last
      && |p.times| - p.cur == if st.records[key].count <= l.maxRequests then st.records[key].count else l.maxRequests
    else
      p.times != [] ==>
        && st.lastCleanup >= p.last + STALE_AFTER_MS
        && forall i :: 0 <= i < p.cur ==> clock - p.times[i] > l.windowMs
  }

  predicate PastInv(l: Limits, st: State, key: string, p: Past, clock: int) {
    && Shape(l, p) && Sorted(p.times) && Spaced(l, p.times)
    && st.lastCleanup <= clock && (p.times != [] ==> p.last <= clock)
    && Aged(l, p, st.lastCleanup, clock) && Matches(l, st, key, p, clock)
  }

  predicate WideEnough(l: Limits, gap: nat) {
    && l.maxRequests > 1 && l.windowMs > 0
    && (l.windowMs <= MAX_AGE_MS || (l.windowMs == STALE_AFTER_MS && gap <= MAX_AGE_MS))
  }

  /** A clean-up, whoever causes it, leaves a window or ends it. */
  lemma CleanedKeeps(l: Limits, st: State, key: string, p: Past, clock: int, at: int)
    requires l.windowMs <= STALE_AFTER_MS && PastInv(l, st, key, p, clock) && clock <= at
    ensures PastInv(l, Cleaned(st, at), key, p, at)
  {
    hide Sorted, Spaced;
  }

  lemma OtherHit(l: Limits, st: State, r: Request, key: string, p: Past, clock: int)
    requires l.windowMs <= STALE_AFTER_MS && PastInv(l, st, key, p, clock) && clock <= r.later && r.key != key
    ensures PastInv(l, Hit(l, st, r), key, p, r.later)
  {
    hide Sorted, Spaced, Shape, Aged;
    CleanedKeeps(l, st, key, p, clock, r.later);
  }

  predicate Continues(l: Limits, st: State, r: Request) {
    var records := Cleaned(st, r.later).records;
    r.key in records && records[r.key].windowStart >= r.now - l.windowMs
  }

  /** The admissions after one more request of the key. */
  function After(l: Limits, st: State, r: Request, p: Past): Past {
    var times := if Admits(l, st, r) then p.times + [r.now] else p.times;
    if Continues(l, st, r) then Past(times, p.prev, p.cur, p.start, r.now)
    else Past(times, p.cur, |p.times|, r.now, r.now)
  }

  lemma SameWindow(l: Limits, st: State, r: Request, p: Past, clock: int)
    requires Valid(l) && Continues(l, st, r) && clock <= r.now <= r.later
    requires PastInv(l, st, r.key, p, clock)
    ensures PastInv(l, Hit(l, st, r), r.key, After(l, st, r, p), r.later)
  {
    hide Sorted, Spaced;
    assert Cleaned(st, r.later).records[r.key] == st.records[r.key];
    Append(l, p, r.now, clock);
  }

  /** One more admission, in the current window or as the first of a new one. */
  lemma Append(l: Limits, p: Past, now: int, clock: int)
    requires Valid(l) && Shape(l, p) && Sorted(p.times) && Spaced(l, p.times)
    requires clock <= now && (p.times != [] ==> p.last <= clock)
    requires forall i :: 0 <= i < p.cur ==> p.times[i] <= p.start
    requires forall i :: 0 <= i < p.prev ==> clock - p.times[i] > l.windowMs
    ensures Sorted(p.times + [now])
    ensures |p.times| < p.cur + l.maxRequests ==> Spaced(l, p.times + [now])
    ensures (|p.times| == p.cur + l.maxRequests && p.prev < p.cur ==> now - p.times[p.prev] > l.windowMs) ==>
              Spaced(l, p.times + [now])
  {
  }

  /** A window that begins because the last one is over by the clock. */
  lemma NextWindow(l: Limits, st: State, r: Request, p: Past, clock: int)
    requires Valid(l) && clock <= r.now <= r.later && p.times != [] && r.now > p.start + l.windowMs
    requires PastInv(l, st, r.key, p, clock)
    ensures PastInv(l, Hit(l, st, r), r.key, After(l, st, r, p), r.later)
  {
    hide Sorted, Spaced;
    Append(l, p, r.now, clock);
    NewRecord(l, st, r, p, clock);
  }

  /** A window that begins because a clean-up ended the last one before its time, now or earlier. */
  lemma EarlyWindow(l: Limits, st: State, r: Request, p: Past, clock: int, gap: nat)
    requires WideEnough(l, gap) && clock <= r.now <= r.later <= r.now + gap
    requires p.times != [] && r.now <= p.start + l.windowMs && !Continues(l, st, r)
    requires PastInv(l, st, r.key, p, clock)
    ensures PastInv(l, Hit(l, st, r), r.key, After(l, st, r, p), r.later)
  {
    hide Sorted, Spaced;
    var cleaned := Cleaned(st, r.later);
    CleanedKeeps(l, st, r.key, p, clock, r.later);
    assert r.key !in cleaned.records;
    assert cleaned.lastCleanup >= p.last + STALE_AFTER_MS;
    Append(l, p, r.now, clock);
    NewRecord(l, st, r, p, clock);
  }

  lemma FirstWindow(l: Limits, st: State, r: Request, p: Past, clock: int)
    requires Valid(l) && clock <= r.now <= r.later && p.times == []
    requires PastInv(l, st, r.key, p, clock)
    ensures PastInv(l, Hit(l, st, r), r.key, After(l, st, r, p), r.later)
  {
    Append(l, p, r.now, clock);
    NewRecord(l, st, r, p, clock);
  }

  lemma NewRecord(l: Limits, st: State, r: Request, p: Past, clock: int)
    requires Valid(l) && Shape(l, p) && Matches(l, st, r.key, p, clock) && !Continues(l, st, r)
    ensures Admits(l, st, r) && Hit(l, st, r).records[r.key] == Record(1, r.now, r.now)
    ensures After(l, st, r, p) == Past(p.times + [r.now], p.cur, |p.times|, r.now, r.now)
    ensures Hit(l, st, r).lastCleanup == Cleaned(st, r.later).lastCleanup
  {
  }

  lemma HitKeeps(l: Limits, st: State, r: Request, key: string, p: Past, clock: int, gap: nat)
    requires WideEnough(l, gap) && clock <= r.now <= r.later <= r.now + gap
    requires PastInv(l, st, key, p, clock)
    ensures PastInv(l, Hit(l, st, r), key, if r.key == key then After(l, st, r, p) else p, r.later)
  {
    hide PastInv, After;
    if r.key != key {
      OtherHit(l, st, r, key, p, clock);
    } else if Continues(l, st, r) {
      SameWindow(l, st, r, p, clock);
    } else if p.times == [] {
      FirstWindow(l, st, r, p, clock);
    } else if r.now > p.start + l.windowMs {
      NextWindow(l, st, r, p, clock);
    } else {
      EarlyWindow(l, st, r, p, clock, gap);
    }
  }

  lemma {:induction false} RunIsSpaced(l: Limits, st: State, requests: seq<Request>, key: string, p: Past, clock: int,
                                       gap: nat)
    requires WideEnough(l, gap) && Timed(requests, clock, gap) && PastInv(l, st, key, p, clock)
    ensures var times := p.times + Admitted(l, st, requests, key); Spaced(l, times) && Sorted(times)
    decreases requests
  {
    hide Spaced, Sorted, Shape, Aged, Matches, Hit;
    var more := Admitted(l, st, requests, key);
    if requests == [] {
      assert p.times + more == p.times;
    } else {
      var r := requests[0];
      HitKeeps(l, st, r, key, p, clock, gap);
      var p' := if r.key == key then After(l, st, r, p) else p;
      RunIsSpaced(l, Hit(l, st, r), requests[1..], key, p', r.later, gap);
      assert p'.times + Admitted(l, Hit(l, st, r), requests[1..], key) == p.times + more;
    }
  }

  // ----- A maximum of one: every window admits the request that opens it -----

  /** Each admission opened a window; of the one before the last, either it is long ago or a clean-up ended it. */
  predicate Opened(l: Limits, st: State, key: string, times: seq<int>, clock: int, gap: nat) {
    var n := |times|;
    && st.lastCleanup <= clock && (n > 0 ==> times[n - 1] <= clock)
    && (n > 1 ==>
          || clock - times[n - 2] > l.windowMs
          || (st.lastCleanup >= times[n - 2] + STALE_AFTER_MS && times[n - 1] >= times[n - 2] + STALE_AFTER_MS - gap))
    && if key in st.records then
         && n > 0 && st.records[key].count > 0
         && st.records[key].windowStart == times[n - 1] <= st.records[key].lastAccessed
       else n > 0 ==> st.lastCleanup >= times[n - 1] + STALE_AFTER_MS
  }

  lemma OpenedHit(l: Limits, st: State, r: Request, key: string, times: seq<int>, clock: int, gap: nat)
    requires l.maxRequests == 1 && l.windowMs > 0 && l.windowMs < SoonestThird(gap)
    requires clock <= r.now <= r.later <= r.now + gap && Opened(l, st, key, times, clock, gap)
    ensures var times' := if r.key == key && Admits(l, st, r) then times + [r.now] else times;
            Opened(l, Hit(l, st, r), key, times', r.later, gap)
    ensures |times| > 0 ==> times[|times| - 1] <= r.now
    ensures r.key == key && Admits(l, st, r) && |times| > 1 ==> r.now - times[|times| - 2] > l.windowMs
  {
    var cleaned := Cleaned(st, r.later);
    if key in cleaned.records {
      assert cleaned.records[key] == st.records[key];
    }
  }

  lemma AppendOpening(l: Limits, times: seq<int>, now: int)
    requires l.maxRequests == 1 && Sorted(times) && Spaced(l, times)
    requires |times| > 0 ==> times[|times| - 1] <= now
    requires |times| > 1 ==> now - times[|times| - 2] > l.windowMs
    ensures Sorted(times + [now]) && Spaced(l, times + [now])
  {
  }

  lemma {:induction false} OpenedRun(l: Limits, st: State, requests: seq<Request>, key: string, times: seq<int>,
                                     clock: int, gap: nat)
    requires l.maxRequests == 1 && l.windowMs > 0 && l.windowMs < SoonestThird(gap)
    requires Timed(requests, clock, gap) && Opened(l, st, key, times, clock, gap)
    requires Sorted(times) && Spaced(l, times)
    ensures var all := times + Admitted(l, st, requests, key); Spaced(l, all) && Sorted(all)
    decreases requests
  {
    hide Opened, Hit, Admits, SoonestThird, Sorted, Spaced;
    var more := Admitted(l, st, requests, key);
    if requests == [] {
      assert times + more == times;
    } else {
      var r := requests[0];
      OpenedHit(l, st, r, key, times, clock, gap);
      var times' := times;
      if r.key == key && Admits(l, st, r) {
        times' := times + [r.now];
        AppendOpening(l, times, r.now);
      }
      OpenedRun(l, Hit(l, st, r), requests[1..], key, times', r.later, gap);
      assert times' + Admitted(l, Hit(l, st, r), requests[1..], key) == times + more;
    }
  }

  // ----- The bound -----

  lemma RateBound(l: Limits, requests: seq<Request>, key: string, clock: int, gap: nat, lo: int)
    requires Valid(l) && Suits(l, gap) && Timed(requests, clock, gap)
    ensures RunBounded(l, requests, key, clock, lo)
  {
    hide Admitted, CountIn, SoonestThird;
    var times := Admitted(l, Fresh(clock), requests, key);
    assert [] + times == times;
    if l.maxRequests == 1 {
      OpenedRun(l, Fresh(clock), requests, key, [], clock, gap);
    } else {
      RunIsSpaced(l, Fresh(clock), requests, key, Past([], 0, 0, clock, clock), clock, gap);
    }
    SpacedCount(l, times, lo);
  }

  // ----- Where it ends -----

  /** A request in the window of a record that no clean-up drops. */
  lemma Stays(l: Limits, st: State, r: Request, rest: seq<Request>)
    requires r.key in st.records && r.now == r.later && st.lastCleanup <= r.now
    requires !Stale(st.records[r.key], r.now) || r.now - st.lastCleanup < CLEANUP_INTERVAL_MS
    requires st.records[r.key].windowStart >= r.now - l.windowMs
    ensures var st' := Hit(l, st, r);
            && st'.records[r.key] == Record(st.records[r.key].count + 1, st.records[r.key].windowStart, r.now)
            && st'.lastCleanup <= r.now
            && Admitted(l, st, [r] + rest, r.key)
               == (if st.records[r.key].count < l.maxRequests then [r.now] else []) + Admitted(l, st', rest, r.key)
  {
    assert ([r] + rest)[1..] == rest;
  }

  /** A request that opens a window. */
  lemma Opens(l: Limits, st: State, r: Request, rest: seq<Request>)
    requires l.maxRequests > 0 && r.now <= r.later && st.lastCleanup <= r.later
    requires r.key in st.records ==>
               || st.records[r.key].windowStart < r.now - l.windowMs
               || (Stale(st.records[r.key], r.later) && r.later - st.lastCleanup >= CLEANUP_INTERVAL_MS)
    ensures var st' := Hit(l, st, r);
            && st'.records[r.key] == Record(1, r.now, r.now)
            && st'.lastCleanup == (if r.later - st.lastCleanup < CLEANUP_INTERVAL_MS then st.lastCleanup else r.later)
            && Admitted(l, st, [r] + rest, r.key) == [r.now] + Admitted(l, st', rest, r.key)
  {
    assert ([r] + rest)[1..] == rest;
  }

  lemma NothingLeft(l: Limits, st: State, clock: int, gap: nat)
    ensures Admitted(l, st, [], "") == [] && Timed([], clock, gap)
  {
  }

  lemma CountSnoc(times: seq<int>, t: int, lo: int, hi: int)
    ensures CountIn(times + [t], lo, hi) == CountIn(times, lo, hi) + if lo <= t <= hi then 1 else 0
  {
    assert (times + [t])[..|times + [t]| - 1] == times;
  }

  lemma {:induction false} CountAppend(times: seq<int>, more: seq<int>, lo: int, hi: int)
    requires forall t :: t in more ==> lo <= t <= hi
    ensures CountIn(times + more, lo, hi) == CountIn(times, lo, hi) + |more|
    decreases more
  {
    if more == [] {
      assert times + more == times;
    } else {
      var init, t := more[..|more| - 1], more[|more| - 1];
      assert forall x :: x in init ==> x in more;
      assert t in more;
      CountAppend(times, init, lo, hi);
      assert times + more == times + init + [t];
      CountSnoc(times + init, t, lo, hi);
    }
  }

  function Copies(t: int, n: nat): (s: seq<int>)
    ensures |s| == n && forall x :: x in s ==> x == t
  {
    if n == 0 then [] else [t] + Copies(t, n - 1)
  }

  /** n requests at one moment, all of which fit the window that is open. */
  lemma {:induction false} Bursts(l: Limits, st: State, now: int, n: nat, rest: seq<Request>, gap: nat)
    returns (st': State)
    requires "" in st.records && st.lastCleanup <= now && st.records[""].count + n <= l.maxRequests
    requires st.records[""].windowStart >= now - l.windowMs && st.records[""].lastAccessed == now
    ensures "" in st'.records && st'.lastCleanup <= now
    ensures st'.records[""] == Record(st.records[""].count + n, st.records[""].windowStart, now)
    ensures Admitted(l, st, Burst(now, n) + rest, "") == Copies(now, n) + Admitted(l, st', rest, "")
    ensures Timed(rest, now, gap) ==> Timed(Burst(now, n) + rest, now, gap)
    decreases n
  {
    hide Admitted, Hit, Timed;
    if Timed(rest, now, gap) {
      TimedBurst(now, n, rest, gap);
    }
    if n == 0 {
      assert Burst(now, n) + rest == rest;
      assert Copies(now, n) + Admitted(l, st, rest, "") == Admitted(l, st, rest, "");
      st' := st;
    } else {
      var r, tail := At("", now), Burst(now, n - 1) + rest;
      assert Burst(now, n) + rest == [r] + tail;
      Stays(l, st, r, tail);
      st' := Bursts(l, Hit(l, st, r), now, n - 1, rest, gap);
      assert [now] + (Copies(now, n - 1) + Admitted(l, st', rest, "")) == Copies(now, n) + Admitted(l, st', rest, "");
    }
  }

  /** A maximum of one: two clean-ups, each as late as the gap allows, and three windows. */
  lemma ThreeWindows(l: Limits, gap: nat) returns (requests: seq<Request>)
    requires l.maxRequests == 1 && l.windowMs >= SoonestThird(gap)
    ensures Timed(requests, 0, gap) && !RunBounded(l, requests, "", 0, 0)
  {
    hide Admitted, Hit, Timed, CountIn, SoonestThird;
    var t2 := if gap < STALE_AFTER_MS then STALE_AFTER_MS - gap else 0;
    var c2 := STALE_AFTER_MS + (if t2 < CLEANUP_INTERVAL_MS then CLEANUP_INTERVAL_MS else t2);
    var t3 := if c2 - gap < STALE_AFTER_MS then STALE_AFTER_MS else c2 - gap;
    ThirdIsSoonest(gap, t2, c2, t3);
    var a, b, c := At("", 0), Request("", t2, STALE_AFTER_MS), Request("", t3, c2);
    var none: seq<Request> := [];
    requests := [a] + ([b] + ([c] + none));
    Opens(l, Fresh(0), a, [b] + ([c] + none));
    var s1 := Hit(l, Fresh(0), a);
    Opens(l, s1, b, [c] + none);
    var s2 := Hit(l, s1, b);
    Opens(l, s2, c, none);
    NothingLeft(l, Hit(l, s2, c), c2, gap);
    var times := [a.now] + ([b.now] + ([c.now] + []));
    assert Admitted(l, Fresh(0), requests, "") == times == [] + times;
    CountAppend([], times, 0, 0 + l.windowMs);
    TimedCons(c, none, STALE_AFTER_MS, gap);
    TimedCons(b, [c] + none, 0, gap);
    TimedCons(a, [b] + ([c] + none), 0, gap);
    assert CountIn([], 0, 0 + l.windowMs) >= 0;
  }

  lemma ThirdIsSoonest(gap: nat, t2: int, c2: int, t3: int)
    requires t2 == if gap < STALE_AFTER_MS then STALE_AFTER_MS - gap else 0
    requires c2 == STALE_AFTER_MS + if t2 < CLEANUP_INTERVAL_MS then CLEANUP_INTERVAL_MS else t2
    requires t3 == if c2 - gap < STALE_AFTER_MS then STALE_AFTER_MS else c2 - gap
    ensures t2 <= t3 == SoonestThird(gap) <= c2
  {
  }

  const HALFWAY := 400000

  /** Another key's request cleans up just before the first window goes stale, which so outlives its idle age. */
  lemma KeptAlive(l: Limits, rest: seq<Request>) returns (st: State)
    requires l.maxRequests > 1
    ensures "" in st.records && st.records[""] == Record(1, 0, 0) && st.lastCleanup == HALFWAY
    ensures Admitted(l, Fresh(0), [At("", 0)] + ([At("b", HALFWAY)] + rest), "") == [0] + Admitted(l, st, rest, "")
  {
    var a, b := At("", 0), At("b", HALFWAY);
    Opens(l, Fresh(0), a, [b] + rest);
    var s1 := Hit(l, Fresh(0), a);
    st := Hit(l, s1, b);
    assert ([b] + rest)[1..] == rest && [] + Admitted(l, st, rest, "") == Admitted(l, st, rest, "");
  }

  /**
   Longer windows: the first window's remaining admissions, a second window as soon as the first is over, a
   third as soon as the second can go stale.
   */
  lemma LongWindow(l: Limits, gap: nat) returns (requests: seq<Request>)
    requires l.maxRequests > 1 && l.windowMs > STALE_AFTER_MS
    ensures Timed(requests, 0, gap) && !RunBounded(l, requests, "", 0, STALE_AFTER_MS + 1)
  {
    hide Admitted, Hit, Timed, CountIn, Burst, Copies;
    var m, t1, t2 := l.maxRequests, STALE_AFTER_MS + 1, l.windowMs + 1;
    var t3 := t2 + STALE_AFTER_MS;
    var none: seq<Request> := [];
    var r6 := Burst(t3, m - 1) + none;
    var r5 := [At("", t3)] + r6;
    var r4 := Burst(t2, m - 1) + r5;
    var r3 := [At("", t2)] + r4;
    var r2 := Burst(t1, m - 2) + r3;
    var r1 := [At("", t1)] + r2;
    requests := [At("", 0)] + ([At("b", HALFWAY)] + r1);
    var s1 := KeptAlive(l, r1);
    Stays(l, s1, At("", t1), r2);
    var s2 := Bursts(l, Hit(l, s1, At("", t1)), t1, m - 2, r3, gap);
    Opens(l, s2, At("", t2), r4);
    var s4 := Bursts(l, Hit(l, s2, At("", t2)), t2, m - 1, r5, gap);
    Opens(l, s4, At("", t3), r6);
    var s6 := Bursts(l, Hit(l, s4, At("", t3)), t3, m - 1, none, gap);
    NothingLeft(l, s6, t3, gap);
    TimedCons(At("", t3), r6, t2, gap);
    TimedCons(At("", t2), r4, t1, gap);
    TimedCons(At("", t1), r2, HALFWAY, gap);
    TimedCons(At("b", HALFWAY), r1, 0, gap);
    TimedCons(At("", 0), [At("b", HALFWAY)] + r1, 0, gap);
    var more := [t1] + (Copies(t1, m - 2) + ([t2] + (Copies(t2, m - 1) + ([t3] + (Copies(t3, m - 1) + [])))));
    assert Admitted(l, Fresh(0), requests, "") == [0] + more;
    CountAppend([0], more, t1, t1 + l.windowMs);
  }

  /** A wide gap: the request that opens the third window was sent long before the clean-up it caused. */
  lemma WideGap(l: Limits, gap: nat) returns (requests: seq<Request>)
    requires l.maxRequests > 1 && l.windowMs >= STALE_AFTER_MS && gap >= STALE_AFTER_MS
    ensures Timed(requests, 0, gap) && !RunBounded(l, requests, "", 0, 0)
  {
    hide Admitted, Hit, Timed, CountIn, Burst, Copies;
    var m, t := l.maxRequests, STALE_AFTER_MS;
    var late := Request("", t, 2 * t);
    var none: seq<Request> := [];
    var r4 := [late] + none;
    var r3 := Burst(t, m - 1) + r4;
    var r2 := [At("", t)] + r3;
    var r1 := Burst(0, m - 1) + r2;
    requests := [At("", 0)] + r1;
    Opens(l, Fresh(0), At("", 0), r1);
    var s1 := Bursts(l, Hit(l, Fresh(0), At("", 0)), 0, m - 1, r2, gap);
    Opens(l, s1, At("", t), r3);
    var s3 := Bursts(l, Hit(l, s1, At("", t)), t, m - 1, r4, gap);
    Opens(l, s3, late, none);
    NothingLeft(l, Hit(l, s3, late), 2 * t, gap);
    TimedCons(late, none, t, gap);
    TimedCons(At("", t), r3, 0, gap);
    TimedCons(At("", 0), r1, 0, gap);
    var more := [0] + (Copies(0, m - 1) + ([t] + (Copies(t, m - 1) + ([t] + []))));
    assert Admitted(l, Fresh(0), requests, "") == more == [] + more;
    CountAppend([], more, 0, 0 + l.windowMs);
    assert CountIn([], 0, 0 + l.windowMs) >= 0;
  }

  /** For every limiter that does not suit, a run that admits too many. */
  lemma BoundFails(l: Limits, gap: nat) returns (requests: seq<Request>, lo: int)
    requires Valid(l) && !Suits(l, gap)
    ensures Timed(requests, 0, gap) && !RunBounded(l, requests, "", 0, lo)
  {
    hide RunBounded, Timed, SoonestThird;
    if l.maxRequests == 1 {
      lo := 0;
      requests := ThreeWindows(l, gap);
    } else if l.windowMs > STALE_AFTER_MS {
      lo := STALE_AFTER_MS + 1;
      requests := LongWindow(l, gap);
    } else {
      lo := 0;
      requests := WideGap(l, gap);
    }
  }

  /** The bound holds of every run exactly for the limiters that suit. */
  lemma BoundExact(l: Limits, gap: nat)
    requires Valid(l)
    ensures Bounded(l, gap) <==> Suits(l, gap)
  {
    hide RunBounded, Timed, SoonestThird;
    if Suits(l, gap) {
      forall requests, key, clock, lo | Timed(requests, clock, gap)
        ensures RunBounded(l, requests, key, clock, lo)
      {
        RateBound(l, requests, key, clock, gap, lo);
      }
    } else {
      var requests, lo := BoundFails(l, gap);
    }
  }

  /** With a clock that stands still during a request, and with one that may do anything. */
  lemma BoundByClock(l: Limits)
    requires Valid(l)
    ensures Bounded(l, 0) <==> l.windowMs <= MAX_AGE_MS + 1 || (l.maxRequests == 1 && l.windowMs < 2 * STALE_AFTER_MS)
    ensures (forall gap: nat :: Bounded(l, gap)) <==> l.windowMs <= MAX_AGE_MS
  {
    hide Bounded;
    BoundExact(l, 0);
    BoundExact(l, STALE_AFTER_MS);
    forall gap: nat
      ensures Bounded(l, gap) <==> Suits(l, gap)
    {
      BoundExact(l, gap);
    }
  }
}
