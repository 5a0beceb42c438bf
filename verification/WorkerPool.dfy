/**
 packages/shared/src/utils.js, mapWithConcurrency: workers that share a cursor and a failed flag. The
 state machine takes one step of one worker at a time, in any order a scheduler likes.
 */
module WorkerPool {
  import opened Prelude

  /** What the worker function's promise for one item settles to. */
  datatype Outcome<+V> = Value(v: V) | Throws(error: string)

  datatype Worker = AtLoop | Running(index: nat) | Finished | Threw

  /** pulled is the order in which indices were taken, kept for the proofs. */
  datatype Pool<V> = Pool(
    cursor: nat,
    failed: bool,
    results: map<nat, V>,
    workers: seq<Worker>,
    pulled: seq<nat>,
    firstError: Option<string>)

  predicate Active(w: Worker) {
    w.AtLoop? || w.Running?
  }

  predicate CanStep<V>(p: Pool<V>, w: nat) {
    w < |p.workers| && Active(p.workers[w])
  }

  /** One worker runs to its next await, or settles what it awaited. */
  function Step<V>(p: Pool<V>, w: nat, n: nat, f: nat -> Outcome<V>): Pool<V>
    requires CanStep(p, w)
  {
    match p.workers[w]
    case Running(i) =>
      (match f(i)
       case Value(v) => p.(results := p.results[i := v], workers := p.workers[w := AtLoop])
       case Throws(e) => p.(failed := true, workers := p.workers[w := Threw],
                            firstError := if p.firstError.None? then Some(e) else p.firstError))
    case _ =>
      if p.failed then p.(workers := p.workers[w := Finished])
      else if p.cursor >= n then p.(cursor := p.cursor + 1, workers := p.workers[w := Finished])
      else p.(cursor := p.cursor + 1, workers := p.workers[w := Running(p.cursor)], pulled := p.pulled + [p.cursor])
  }

  function Width(limit: int, n: nat): nat {
    var width := if limit < n then limit else n;
    if width < 1 then 1 else width
  }

  function Start<V>(limit: int, n: nat): Pool<V> {
    Pool(0, false, map[], seq(Width(limit, n), _ => AtLoop), [], None)
  }

  predicate Settled<V>(p: Pool<V>) {
    forall w :: 0 <= w < |p.workers| ==> !Active(p.workers[w])
  }

  /** What the caller's promise settles to once every worker has settled. */
  function Settlement<V>(p: Pool<V>, n: nat): Outcome<seq<Option<V>>> {
    if p.firstError.Some? then Throws(p.firstError.value)
    else Value(seq(n, i => if i in p.results then Some(p.results[i]) else None))
  }

  // ----- The invariant -----

  function Taken<V>(p: Pool<V>, n: nat): nat {
    if p.cursor < n then p.cursor else n
  }

  /** Where an index that was pulled can be. */
  ghost predicate Accounted<V>(p: Pool<V>, i: nat, f: nat -> Outcome<V>) {
    || i in p.results
    || (exists w :: 0 <= w < |p.workers| && p.workers[w] == Running(i))
    || (p.failed && f(i).Throws?)
  }

  ghost predicate Inv<V>(p: Pool<V>, n: nat, f: nat -> Outcome<V>) {
    && |p.workers| >= 1
    && |p.pulled| == Taken(p, n)
    && (forall i :: 0 <= i < |p.pulled| ==> p.pulled[i] == i)
    && (forall i :: i in p.results ==> i < Taken(p, n) && f(i) == Value(p.results[i]))
    && (forall w :: 0 <= w < |p.workers| && p.workers[w].Running? ==>
          p.workers[w].index < Taken(p, n) && p.workers[w].index !in p.results)
    && (forall w, w' :: 0 <= w < w' < |p.workers| && p.workers[w].Running? ==> p.workers[w] != p.workers[w'])
    && (forall i: nat :: i < Taken(p, n) ==> Accounted(p, i, f))
    && (forall w :: 0 <= w < |p.workers| && p.workers[w].Finished? ==> p.failed || p.cursor >= n)
    && (forall w :: 0 <= w < |p.workers| && p.workers[w].Threw? ==> p.failed)
    && p.failed == p.firstError.Some?
    && (p.failed ==> exists i: nat :: i < Taken(p, n) && f(i) == Throws(p.firstError.value))
  }

  lemma StartInv<V>(limit: int, n: nat, f: nat -> Outcome<V>)
    ensures Inv(Start<V>(limit, n), n, f)
  {
  }

  lemma StepKeepsInv<V>(p: Pool<V>, w: nat, n: nat, f: nat -> Outcome<V>)
    requires Inv(p, n, f) && CanStep(p, w)
    ensures Inv(Step(p, w, n, f), n, f)
  {
    hide Accounted;
    forall i: nat | i < Taken(Step(p, w, n, f), n)
      ensures Accounted(Step(p, w, n, f), i, f)
    {
      if i < Taken(p, n) {
        StaysAccounted(p, w, n, f, i);
      } else {
        NewlyAccounted(p, w, n, f);
      }
    }
  }

  lemma StaysAccounted<V>(p: Pool<V>, w: nat, n: nat, f: nat -> Outcome<V>, i: nat)
    requires CanStep(p, w) && Accounted(p, i, f)
    ensures Accounted(Step(p, w, n, f), i, f)
  {
    if v :| 0 <= v < |p.workers| && p.workers[v] == Running(i) {
      assert v != w ==> Step(p, w, n, f).workers[v] == Running(i);
    }
  }

  lemma NewlyAccounted<V>(p: Pool<V>, w: nat, n: nat, f: nat -> Outcome<V>)
    requires CanStep(p, w) && Taken(p, n) < Taken(Step(p, w, n, f), n)
    ensures Taken(Step(p, w, n, f), n) == Taken(p, n) + 1 && Accounted(Step(p, w, n, f), Taken(p, n), f)
  {
    assert Step(p, w, n, f).workers[w] == Running(p.cursor);
  }

  // ----- Runs -----

  /** A schedule names, step by step, the worker that goes next. */
  ghost predicate CanRun<V>(p: Pool<V>, schedule: seq<nat>, n: nat, f: nat -> Outcome<V>)
    decreases schedule
  {
    schedule == [] || (CanStep(p, schedule[0]) && CanRun(Step(p, schedule[0], n, f), schedule[1..], n, f))
  }

  ghost function Run<V>(p: Pool<V>, schedule: seq<nat>, n: nat, f: nat -> Outcome<V>): Pool<V>
    requires CanRun(p, schedule, n, f)
    decreases schedule
  {
    if schedule == [] then p else Run(Step(p, schedule[0], n, f), schedule[1..], n, f)
  }

  /** Steps left at most: two for an index not yet pulled, one more for a pulled one, one for each worker's exit. */
  lemma {:induction false} RunSnoc<V>(p: Pool<V>, schedule: seq<nat>, w: nat, n: nat, f: nat -> Outcome<V>)
    requires CanRun(p, schedule, n, f) && CanStep(Run(p, schedule, n, f), w)
    ensures CanRun(p, schedule + [w], n, f)
    ensures Run(p, schedule + [w], n, f) == Step(Run(p, schedule, n, f), w, n, f)
    decreases schedule
  {
    hide Step;
    if schedule == [] {
      assert schedule + [w] == [w] && [w][1..] == [];
    } else {
      RunSnoc(Step(p, schedule[0], n, f), schedule[1..], w, n, f);
      assert (schedule + [w])[1..] == schedule[1..] + [w];
    }
  }

  function Fuel<V>(p: Pool<V>, n: nat): nat {
    2 * (n - Taken(p, n)) + WorkerFuel(p.workers)
  }

  function WorkerFuel(ws: seq<Worker>): nat {
    if ws == [] then 0
    else WorkerFuel(ws[..|ws| - 1]) +
         match ws[|ws| - 1]
         case Running(_) => 2
         case AtLoop => 1
         case _ => 0
  }

  lemma {:induction false} WorkerFuelUpdate(ws: seq<Worker>, w: nat, x: Worker)
    requires w < |ws|
    ensures WorkerFuel(ws[w := x]) == WorkerFuel(ws) - WorkerFuel([ws[w]]) + WorkerFuel([x])
  {
    var last := |ws| - 1;
    if w < last {
      assert ws[w := x][..last] == ws[..last][w := x];
      WorkerFuelUpdate(ws[..last], w, x);
    } else {
      assert ws[w := x][..last] == ws[..last];
    }
    assert [ws[w]][..0] == [] && [x][..0] == [];
  }

  lemma StepBurnsFuel<V>(p: Pool<V>, w: nat, n: nat, f: nat -> Outcome<V>)
    requires CanStep(p, w)
    ensures Fuel(Step(p, w, n, f), n) < Fuel(p, n)
  {
    var p' := Step(p, w, n, f);
    WorkerFuelUpdate(p.workers, w, p'.workers[w]);
    assert [p.workers[w]][..0] == [] && [p'.workers[w]][..0] == [];
  }

  lemma {:induction false} WorkerFuelOfIdle(k: nat)
    ensures WorkerFuel(seq(k, _ => AtLoop)) == k
  {
    if k > 0 {
      WorkerFuelOfIdle(k - 1);
      assert seq(k, _ => AtLoop)[..k - 1] == seq(k - 1, _ => AtLoop);
    }
  }

  lemma {:induction false} RunKeeps<V>(p: Pool<V>, schedule: seq<nat>, n: nat, f: nat -> Outcome<V>)
    requires Inv(p, n, f) && CanRun(p, schedule, n, f)
    ensures var p' := Run(p, schedule, n, f);
            && Inv(p', n, f)
            && |p'.workers| == |p.workers|
            && |schedule| + Fuel(p', n) <= Fuel(p, n)
            && (p.failed ==> p'.failed && p'.pulled == p.pulled && p'.firstError == p.firstError)
    decreases schedule
  {
    if schedule != [] {
      StepKeepsInv(p, schedule[0], n, f);
      StepBurnsFuel(p, schedule[0], n, f);
      RunKeeps(Step(p, schedule[0], n, f), schedule[1..], n, f);
    }
  }

  /**
   Every run is bounded, never more than limit items are in flight (or one, if the limit is less), nor more than
   there are items, and what was pulled is a prefix in order.
   */
  lemma EveryRun<V>(limit: int, n: nat, f: nat -> Outcome<V>, schedule: seq<nat>)
    requires CanRun(Start<V>(limit, n), schedule, n, f)
    ensures var p := Run(Start<V>(limit, n), schedule, n, f);
            && (|schedule| <= 2 * n + 1 || |schedule| <= 2 * n + limit) && |schedule| <= 3 * n + 1
            && p.pulled == seq(if p.cursor < n then p.cursor else n, i => i)
            && (|InFlight(p)| <= 1 || |InFlight(p)| <= limit) && |InFlight(p)| <= n
  {
    hide Run, CanRun, Accounted;
    var p0 := Start<V>(limit, n);
    StartInv(limit, n, f);
    StartFuel<V>(limit, n);
    RunKeeps(p0, schedule, n, f);
    InFlightWithin(Run(p0, schedule, n, f), n, f);
  }

  lemma StartFuel<V>(limit: int, n: nat)
    ensures Fuel(Start<V>(limit, n), n) == 2 * n + |Start<V>(limit, n).workers|
    ensures Fuel(Start<V>(limit, n), n) <= 2 * n + 1 || Fuel(Start<V>(limit, n), n) <= 2 * n + limit
    ensures Fuel(Start<V>(limit, n), n) <= 3 * n + 1
  {
    WorkerFuelOfIdle(Width(limit, n));
  }

  lemma InFlightWithin<V>(p: Pool<V>, n: nat, f: nat -> Outcome<V>)
    requires Inv(p, n, f)
    ensures |InFlight(p)| <= |p.workers| && |InFlight(p)| <= n
  {
    InFlightBound(p.workers, InFlight(p));
    BelowCount(InFlight(p), n);
  }

  lemma {:induction false} BelowCount(indices: set<nat>, n: nat)
    requires forall i :: i in indices ==> i < n
    ensures |indices| <= n
  {
    if n == 0 {
      assert forall i :: i !in indices;
    } else {
      BelowCount(indices - {n - 1}, n - 1);
    }
  }

  // ----- How many run at once -----

  /** The pool after each of the first k workers has pulled, none of their items having settled. */
  ghost function Pulled<V>(limit: int, n: nat, k: nat): Pool<V> {
    var workers := seq(Width(limit, n), w requires 0 <= w => if w < k then Running(w) else AtLoop);
    Pool(k, false, map[], workers, seq(k, i => i), None)
  }

  /** No pool is narrower than it need be: one worker pulls, and as many as there are items and the limit allows. */
  lemma FirstTurns<V>(limit: int, n: nat, f: nat -> Outcome<V>, k: nat)
    requires k <= n && (k <= 1 || k <= limit)
    ensures CanRun(Start<V>(limit, n), seq(k, i => i), n, f)
    ensures var running := InFlight(Run(Start<V>(limit, n), seq(k, i => i), n, f));
            forall i: nat :: i in running <==> i < k
  {
    assert Start<V>(limit, n) == Pulled<V>(limit, n, 0);
    assert seq(k, i => i) == seq(k - 0, i => 0 + i);
    NextTurns(limit, n, f, 0, k);
    var p := Pulled<V>(limit, n, k);
    forall i: nat | i < k
      ensures i in InFlight(p)
    {
      assert p.workers[i] == Running(i);
    }
  }

  lemma {:induction false} NextTurns<V>(limit: int, n: nat, f: nat -> Outcome<V>, j: nat, k: nat)
    requires j <= k <= n && (k <= 1 || k <= limit)
    ensures CanRun(Pulled<V>(limit, n, j), seq(k - j, i => j + i), n, f)
    ensures Run(Pulled<V>(limit, n, j), seq(k - j, i => j + i), n, f) == Pulled<V>(limit, n, k)
    decreases k - j
  {
    if j < k {
      var p, schedule := Pulled<V>(limit, n, j), seq(k - j, i => j + i);
      assert schedule[0] == j && schedule[1..] == seq(k - (j + 1), i => j + 1 + i);
      TurnPulls(limit, n, f, j);
      NextTurns(limit, n, f, j + 1, k);
    } else {
      assert seq(k - j, i => j + i) == [];
    }
  }

  lemma TurnPulls<V>(limit: int, n: nat, f: nat -> Outcome<V>, j: nat)
    requires j < n && (j < 1 || j < limit)
    ensures CanStep(Pulled<V>(limit, n, j), j) && Step(Pulled<V>(limit, n, j), j, n, f) == Pulled<V>(limit, n, j + 1)
  {
    var p, p' := Pulled<V>(limit, n, j), Pulled<V>(limit, n, j + 1);
    assert p.workers[j := Running(j)] == p'.workers;
    assert p.pulled + [j] == p'.pulled;
  }

  function InFlight<V>(p: Pool<V>): set<nat> {
    set w | 0 <= w < |p.workers| && p.workers[w].Running? :: p.workers[w].index
  }

  ghost predicate SomeoneRuns(ws: seq<Worker>, i: nat) {
    exists w :: 0 <= w < |ws| && ws[w] == Running(i)
  }

  lemma {:induction false} InFlightBound(ws: seq<Worker>, indices: set<nat>)
    requires forall i :: i in indices ==> SomeoneRuns(ws, i)
    ensures |indices| <= |ws|
  {
    if ws == [] {
      assert forall i :: i !in indices;
    } else {
      var front, last := ws[..|ws| - 1], ws[|ws| - 1];
      var rest := if last.Running? then indices - {last.index} else indices;
      forall i | i in rest
        ensures SomeoneRuns(front, i)
      {
        var w :| 0 <= w < |ws| && ws[w] == Running(i);
        assert front[w] == Running(i);
      }
      InFlightBound(front, rest);
    }
  }

  /** After a failure nothing more is pulled, and the first error stays the first. */
  lemma NothingPulledAfterFailure<V>(p: Pool<V>, schedule: seq<nat>, n: nat, f: nat -> Outcome<V>)
    requires Inv(p, n, f) && p.failed && CanRun(p, schedule, n, f)
    ensures Run(p, schedule, n, f).pulled == p.pulled && Run(p, schedule, n, f).firstError == p.firstError
  {
    RunKeeps(p, schedule, n, f);
  }

  /** A pool that is not settled can step, so a run that stops has settled. */
  lemma NoDeadlock<V>(p: Pool<V>)
    ensures Settled(p) <==> !exists w: nat :: CanStep(p, w)
  {
    if !Settled(p) {
      var w :| 0 <= w < |p.workers| && Active(p.workers[w]);
      assert CanStep(p, w);
    }
  }

  /**
   The pool refines the sequential map: however the workers were interleaved, a settled pool yields the
   values of all items in order if every item succeeds, and else the error of some item that was pulled.
   */
  lemma RefinesSequentialMap<V>(p: Pool<V>, n: nat, f: nat -> Outcome<V>)
    requires Inv(p, n, f) && Settled(p)
    ensures p.failed <==> exists i: nat :: i < n && f(i).Throws?
    ensures !p.failed ==> forall i: nat :: i < n ==> i in p.results
    ensures (forall i: nat :: i < n ==> f(i).Value?) ==>
              Settlement(p, n).Value? && |Settlement(p, n).v| == n &&
              forall i: nat :: i < n ==> f(i).Value? && Settlement(p, n).v[i] == Some(f(i).v)
    ensures (exists i: nat :: i < n && f(i).Throws?) ==>
              Settlement(p, n).Throws? && exists i: nat :: i in p.pulled && f(i) == Throws(Settlement(p, n).error)
  {
    if p.failed {
      var i: nat :| i < Taken(p, n) && f(i) == Throws(p.firstError.value);
      assert p.pulled[i] == i;
    } else {
      assert !Active(p.workers[0]);
      forall i: nat | i < n
        ensures i in p.results
      {
        assert Accounted(p, i, f);
      }
    }
  }

  // ----- The function as it runs -----

  ghost function Indexed<T, V>(items: seq<T>, worker: (T, nat) -> Outcome<V>): nat -> Outcome<V> {
    (i: nat) => if i < |items| then worker(items[i], i) else Throws("")
  }

  lemma RunNothing<V>(p: Pool<V>, n: nat, f: nat -> Outcome<V>)
    ensures CanRun(p, [], n, f) && Run(p, [], n, f) == p
  {
  }

  lemma RunningIndex<V>(p: Pool<V>, w: nat, n: nat, f: nat -> Outcome<V>)
    requires Inv(p, n, f) && w < |p.workers| && p.workers[w].Running?
    ensures p.workers[w].index < n
  {
  }

  lemma Settles<V>(p: Pool<V>, n: nat, results: seq<Option<V>>)
    requires |results| == n
    requires forall i :: 0 <= i < n ==> results[i] == if i in p.results then Some(p.results[i]) else None
    ensures Settlement(p, n) == if p.firstError.Some? then Throws(p.firstError.value) else Value(results)
  {
    assert results == seq(n, i => if i in p.results then Some(p.results[i]) else None);
  }

  lemma Delivers<T, V>(p: Pool<V>, items: seq<T>, worker: (T, nat) -> Outcome<V>, results: seq<Option<V>>)
    requires Inv(p, |items|, Indexed(items, worker)) && Settled(p) && |results| == |items|
    requires forall i :: 0 <= i < |items| ==> results[i] == if i in p.results then Some(p.results[i]) else None
    ensures p.failed == p.firstError.Some?
    ensures p.failed ==> exists i :: 0 <= i < |items| && worker(items[i], i) == Throws(p.firstError.value)
    ensures !p.failed ==> forall i :: 0 <= i < |items| ==>
      worker(items[i], i).Value? && results[i] == Some(worker(items[i], i).v)
  {
    var f := Indexed(items, worker);
    RefinesSequentialMap(p, |items|, f);
    if p.failed {
      var i: nat :| i < Taken(p, |items|) && f(i) == Throws(p.firstError.value);
      assert worker(items[i], i) == Throws(p.firstError.value);
    } else {
      forall i: nat | i < |items|
        ensures worker(items[i], i).Value? && results[i] == Some(worker(items[i], i).v)
      {
        assert i in p.results && f(i) == worker(items[i], i);
      }
    }
  }

  /**
   The scheduler's choice is arbitrary at every turn, so this holds of every interleaving; schedule is the one taken,
   a run of the pool, so that all that is proved of runs is proved of the loop.
   */
  method MapWithConcurrency<T, V>(items: seq<T>, limit: int, worker: (T, nat) -> Outcome<V>)
    returns (outcome: Outcome<seq<Option<V>>>, ghost schedule: seq<nat>)
    ensures var f := Indexed(items, worker);
            && CanRun(Start<V>(limit, |items|), schedule, |items|, f)
            && outcome == Settlement(Run(Start<V>(limit, |items|), schedule, |items|, f), |items|)
            && Settled(Run(Start<V>(limit, |items|), schedule, |items|, f))
    ensures (forall i :: 0 <= i < |items| ==> worker(items[i], i).Value?) ==>
              outcome.Value? && |outcome.v| == |items| &&
              forall i :: 0 <= i < |items| ==>
                worker(items[i], i).Value? && outcome.v[i] == Some(worker(items[i], i).v)
    ensures (exists i :: 0 <= i < |items| && worker(items[i], i).Throws?) ==>
              outcome.Throws? && exists i :: 0 <= i < |items| && worker(items[i], i) == Throws(outcome.error)
  {
    hide Inv, Accounted, Run, CanRun, Fuel, Settlement;
    var n := |items|;
    ghost var f := Indexed(items, worker);
    var results: array<Option<V>> := new Option<V>[n](_ => None);
    var cursor, failed, firstError := 0, false, None;
    var width := Width(limit, n);
    var workers := seq(width, _ => AtLoop);
    ghost var p := Start<V>(limit, n);
    schedule := [];
    StartInv(limit, n, f);
    RunNothing(Start<V>(limit, n), n, f);
    while exists w :: 0 <= w < |workers| && Active(workers[w])
      invariant Inv(p, n, f)
      invariant CanRun(Start<V>(limit, n), schedule, n, f) && Run(Start<V>(limit, n), schedule, n, f) == p
      invariant p.cursor == cursor && p.failed == failed && p.workers == workers && p.firstError == firstError
      invariant forall i :: 0 <= i < n ==> results[i] == if i in p.results then Some(p.results[i]) else None
      decreases Fuel(p, n)
    {
      var w: nat :| w < |workers| && Active(workers[w]);
      StepKeepsInv(p, w, n, f);
      StepBurnsFuel(p, w, n, f);
      if workers[w].Running? {
        var index := workers[w].index;
        RunningIndex(p, w, n, f);
        match worker(items[index], index) {
          case Value(v) =>
            results[index] := Some(v);
            workers := workers[w := AtLoop];
          case Throws(e) =>
            failed := true;
            workers := workers[w := Threw];
            firstError := if firstError.None? then Some(e) else firstError;
        }
      } else if failed {
        workers := workers[w := Finished];
      } else {
        var index := cursor;
        cursor := cursor + 1;
        workers := workers[w := if index >= n then Finished else Running(index)];
      }
      RunSnoc(Start<V>(limit, n), schedule, w, n, f);
      schedule := schedule + [w];
      p := Step(p, w, n, f);
    }
    Delivers(p, items, worker, results[..]);
    Settles(p, n, results[..]);
    if firstError.Some? {
      return Throws(firstError.value), schedule;
    }
    return Value(results[..]), schedule;
  }
}
