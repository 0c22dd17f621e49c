/** Mapping over a list with bounded concurrency: `mapBounded` (src/services/bundle-import.ts:128-139) and
    `mapLimit` (src/services/network-scan.ts:119-137). The workers are coroutines that share the counter
    `next`; each step below is what one of them does between two awaits, and the steps interleave in any
    order. `mapBounded` is the case in which no take finds the deadline expired. */
module FanOut {

  datatype Pool<R> = Pool(
    next: nat,
    running: map<nat, nat>,     // worker -> the item it awaits
    stopped: set<nat>,          // workers that returned
    dropped: set<nat>,          // items taken after the deadline
    calls: seq<nat>,            // the items `fn` was called on, in order
    results: map<nat, R>)

  datatype Event =
    | Take(worker: nat, expired: bool)
    | Finish(worker: nat)

  function Empty<R>(): Pool<R> { Pool(0, map[], {}, {}, [], map[]) }

  function Workers(limit: nat, n: nat): nat { if limit < n then limit else n }

  predicate Enabled<R>(p: Pool<R>, e: Event, w: nat) {
    match e
    case Take(worker, _) => worker < w && worker !in p.running && worker !in p.stopped
    case Finish(worker) => worker in p.running
  }

  /** `f` gives what the call on each item resolves to. */
  function Step<R>(p: Pool<R>, e: Event, n: nat, f: nat -> R): Pool<R> {
    match e
    case Take(worker, expired) =>
      var i := p.next;
      if i >= n then p.(next := i + 1, stopped := p.stopped + {worker})
      else if expired then p.(next := i + 1, stopped := p.stopped + {worker}, dropped := p.dropped + {i})
      else p.(next := i + 1, running := p.running[worker := i], calls := p.calls + [i])
    case Finish(worker) =>
      if worker !in p.running then p
      else
        var i := p.running[worker];
        p.(running := p.running - {worker}, results := p.results[i := f(i)])
  }

  function Run<R>(events: seq<Event>, n: nat, f: nat -> R): Pool<R> {
    if events == [] then Empty()
    else Step(Run(events[..|events| - 1], n, f), events[|events| - 1], n, f)
  }

  /** Every event was possible when it happened. */
  predicate IsRun<R>(events: seq<Event>, n: nat, w: nat, f: nat -> R) {
    events == []
    || (var front := events[..|events| - 1];
        IsRun(front, n, w, f) && Enabled(Run(front, n, f), events[|events| - 1], w))
  }

  predicate Finished<R>(p: Pool<R>, w: nat) { forall worker :: 0 <= worker < w ==> worker in p.stopped }

  // ------------------------------------------------------------------
  // What every interleaving keeps
  // ------------------------------------------------------------------

  predicate Awaited<R>(p: Pool<R>, i: nat) { exists worker :: worker in p.running && p.running[worker] == i }

  /** Where the items below the counter are. */
  ghost predicate Placed<R>(p: Pool<R>, n: nat) {
    && (forall i: nat :: i < p.next && i < n ==> Awaited(p, i) || i in p.results || i in p.dropped)
    && (forall i :: i in p.calls <==> Awaited(p, i) || i in p.results)
    && (forall i :: i in p.calls || i in p.dropped ==> i < p.next && i < n)
    && (forall i :: i in p.calls ==> i !in p.dropped)
  }

  ghost predicate Separate<R>(p: Pool<R>) {
    && (forall v, u :: v in p.running && u in p.running && v != u ==> p.running[v] != p.running[u])
    && (forall v :: v in p.running ==> p.running[v] !in p.results)
  }

  predicate Increasing(s: seq<nat>) { forall i, j :: 0 <= i < j < |s| ==> s[i] < s[j] }

  ghost predicate Orderly<R>(p: Pool<R>, n: nat, w: nat, f: nat -> R) {
    && Increasing(p.calls)
    && (forall v :: v in p.running ==> v < w && v !in p.stopped)
    && (forall v :: v in p.stopped ==> v < w)
    && (p.stopped != {} ==> p.next > n || p.dropped != {})
    && (forall i :: i in p.results ==> p.results[i] == f(i))
  }

  lemma StartPlaces<R>(p: Pool<R>, e: Event, n: nat, w: nat, f: nat -> R)
    requires Placed(p, n) && e.Take? && Enabled(p, e, w)
    requires p.next < n && !e.expired
    ensures Placed(Step(p, e, n, f), n)
  {
    var q := Step(p, e, n, f);
    forall i ensures Awaited(q, i) <==> Awaited(p, i) || i == p.next {
      if Awaited(p, i) {
        var v :| v in p.running && p.running[v] == i;
        assert v in q.running && q.running[v] == i;
      }
      if i == p.next { assert e.worker in q.running && q.running[e.worker] == i; }
    }
  }

  lemma StartSeparates<R>(p: Pool<R>, e: Event, n: nat, w: nat, f: nat -> R)
    requires Placed(p, n) && Separate(p) && e.Take? && Enabled(p, e, w)
    requires p.next < n && !e.expired
    ensures Separate(Step(p, e, n, f))
  {
    forall v | v in p.running ensures p.running[v] < p.next { assert Awaited(p, p.running[v]); }
    assert p.next !in p.results by { assert p.next in p.results ==> p.next in p.calls; }
  }

  lemma StopPlaces<R>(p: Pool<R>, e: Event, n: nat, w: nat, f: nat -> R)
    requires Placed(p, n) && Separate(p) && e.Take? && Enabled(p, e, w)
    requires p.next >= n || e.expired
    ensures Placed(Step(p, e, n, f), n) && Separate(Step(p, e, n, f))
  {
    var q := Step(p, e, n, f);
    forall i ensures Awaited(q, i) <==> Awaited(p, i) {}
  }

  lemma TakeIsOrderly<R>(p: Pool<R>, e: Event, n: nat, w: nat, f: nat -> R)
    requires Placed(p, n) && Orderly(p, n, w, f) && e.Take? && Enabled(p, e, w)
    ensures Orderly(Step(p, e, n, f), n, w, f)
  {
    forall k | 0 <= k < |p.calls| ensures p.calls[k] < p.next { assert p.calls[k] in p.calls; }
  }

  lemma FinishPlaces<R>(p: Pool<R>, e: Event, n: nat, w: nat, f: nat -> R)
    requires Placed(p, n) && Separate(p) && e.Finish? && Enabled(p, e, w)
    ensures Placed(Step(p, e, n, f), n) && Separate(Step(p, e, n, f))
  {
    var q := Step(p, e, n, f);
    var item := p.running[e.worker];
    forall i ensures Awaited(q, i) <==> Awaited(p, i) && i != item {
      if Awaited(p, i) && i != item {
        var v :| v in p.running && p.running[v] == i;
        assert v in q.running && q.running[v] == i;
      }
      if Awaited(q, i) {
        var v :| v in q.running && q.running[v] == i;
        assert v in p.running && p.running[v] == i;
      }
    }
  }

  lemma FinishIsOrderly<R>(p: Pool<R>, e: Event, n: nat, w: nat, f: nat -> R)
    requires Orderly(p, n, w, f) && e.Finish? && Enabled(p, e, w)
    ensures Orderly(Step(p, e, n, f), n, w, f)
  {
  }

  lemma {:induction false} RunKeepsOrder<R>(events: seq<Event>, n: nat, w: nat, f: nat -> R)
    requires IsRun(events, n, w, f)
    ensures var p := Run(events, n, f); Placed(p, n) && Separate(p) && Orderly(p, n, w, f)
  {
    if events != [] {
      var (front, e) := (events[..|events| - 1], events[|events| - 1]);
      RunKeepsOrder(front, n, w, f);
      var p := Run(front, n, f);
      match e
      case Take(_, _) =>
        if p.next < n && !e.expired {
          StartPlaces(p, e, n, w, f);
          StartSeparates(p, e, n, w, f);
        } else {
          StopPlaces(p, e, n, w, f);
        }
        TakeIsOrderly(p, e, n, w, f);
      case Finish(_) =>
        FinishPlaces(p, e, n, w, f);
        FinishIsOrderly(p, e, n, w, f);
    }
  }

  lemma {:induction false} BoundedSet(s: set<nat>, w: nat)
    requires forall v :: v in s ==> v < w
    ensures |s| <= w
  {
    if w == 0 {
      assert s == {};
    } else {
      BoundedSet(s - {w - 1}, w - 1);
    }
  }

  /** Never more than the limit in flight, and `fn` is called on no item twice, always in list order. */
  lemma InFlightIsBounded<R>(events: seq<Event>, n: nat, limit: nat, f: nat -> R)
    requires IsRun(events, n, Workers(limit, n), f)
    ensures var p := Run(events, n, f);
            |p.running.Keys| <= limit && Increasing(p.calls)
  {
    var w := Workers(limit, n);
    RunKeepsOrder(events, n, w, f);
    BoundedSet(Run(events, n, f).running.Keys, w);
  }

  /** When all workers have returned, every item has its result if and only if no item was taken after the
      deadline; and results are never of another item. */
  lemma CompleteIff<R>(events: seq<Event>, n: nat, limit: nat, f: nat -> R)
    requires limit > 0 && IsRun(events, n, Workers(limit, n), f)
    requires Finished(Run(events, n, f), Workers(limit, n))
    ensures var p := Run(events, n, f);
            && ((forall i: nat :: i < n ==> i in p.results) <==> p.dropped == {})
            && (forall i :: i in p.results ==> i < n && p.results[i] == f(i))
            && (forall i :: i in p.calls <==> i in p.results)
  {
    var w := Workers(limit, n);
    RunKeepsOrder(events, n, w, f);
    var p := Run(events, n, f);
    assert forall i :: !Awaited(p, i);
    if n > 0 {
      assert 0 in p.stopped;
    }
    if p.dropped == {} {
      assert n > 0 ==> p.next > n;
    }
    NoneDropped(p, n);
  }

  lemma NoneDropped<R>(p: Pool<R>, n: nat)
    requires Placed(p, n)
    ensures (forall i: nat :: i < n ==> i in p.results) ==> p.dropped == {}
  {
    forall i | i in p.dropped
      ensures i < n && i !in p.results
    {
      assert i in p.results ==> i in p.calls;
    }
  }

  predicate NeverExpired(events: seq<Event>) { forall k :: 0 <= k < |events| && events[k].Take? ==> !events[k].expired }

  lemma {:induction false} NothingDropped<R>(events: seq<Event>, n: nat, w: nat, f: nat -> R)
    requires IsRun(events, n, w, f) && NeverExpired(events)
    ensures Run(events, n, f).dropped == {}
  {
    if events != [] {
      NothingDropped(events[..|events| - 1], n, w, f);
    }
  }

  /** `mapBounded` returns the results of all items in list order, having called `fn` once on each, in list
      order, whatever the interleaving. */
  lemma MapBoundedIsMap<R>(events: seq<Event>, n: nat, limit: nat, f: nat -> R)
    requires limit > 0 && IsRun(events, n, Workers(limit, n), f) && NeverExpired(events)
    requires Finished(Run(events, n, f), Workers(limit, n))
    ensures var p := Run(events, n, f);
            && p.results == (map i: nat | i < n :: f(i))
            && p.calls == seq(n, i => i)
  {
    var w := Workers(limit, n);
    NothingDropped(events, n, w, f);
    CompleteIff(events, n, limit, f);
    RunKeepsOrder(events, n, w, f);
    var p := Run(events, n, f);
    AllInOrder(p.calls, n);
  }

  lemma {:induction false} AllInOrder(s: seq<nat>, n: nat)
    requires Increasing(s) && forall i: nat :: i in s <==> i < n
    ensures s == seq(n, i => i)
  {
    assert s != [] ==> s[0] in s;
    if n > 0 {
      assert n - 1 in s;
      var k :| 0 <= k < |s| && s[k] == n - 1;
      assert s[|s| - 1] in s;
      var front := s[..|s| - 1];
      forall i: nat ensures i in front <==> i < n - 1 {
        if i < n - 1 { assert i in s; }
        if i in front { assert i in s; }
      }
      AllInOrder(front, n - 1);
      assert s == front + [n - 1];
    }
  }
}
