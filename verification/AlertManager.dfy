/** The alert manager's cycle over its store (src/services/alerts/manager.ts). Cycles are serialised by the
    promise chain of `runCycle`, so one runs to its end before the next starts. */
module AlertManagerObject {
  import opened Wrappers
  import opened Alerts
  import AlertHistories
  import Sets

  datatype CycleResult = CycleResult(sent: nat, suppressed: nat, resolved: nat, overflow: nat, failed: nat)

  // ------------------------------------------------------------------
  // The store half way through a cycle
  // ------------------------------------------------------------------

  function KeySet(alerts: seq<Alert>): set<string> {
    set i | 0 <= i < |alerts| :: alerts[i].key
  }

  /** The store when `alerts` have been noted. */
  function NotedStore(store: Store, alerts: seq<Alert>, now: int, c: Config): Store {
    map key | key in store.Keys + KeySet(alerts) ::
      if HasKey(alerts, key) then Noted(Find(store, key), AlertFor(alerts, key), now, c.cooldownMs) else store[key]
  }

  predicate NotifiedUpTo(queue: seq<Alert>, key: string, n: nat, max: nat, slack: Slack)
    requires n <= |queue|
  {
    exists i :: 0 <= i < n && queue[i].key == key && Delivered(queue, i, max, slack)
  }

  /** The store when the first `n` of the queue have been sent. */
  function SentStore(noted: Store, queue: seq<Alert>, n: nat, cycle: Cycle, c: Config): Store
    requires n <= |queue|
  {
    map key | key in noted ::
      if NotifiedUpTo(queue, key, n, c.maxPerCycle, cycle.slack) then Sent(noted[key], cycle.now) else noted[key]
  }

  /** The store when the records under `done` have been looked at for closing. */
  function ClosedStore(messaged: Store, done: set<string>, cycle: Cycle, c: Config): Store {
    map key | key in messaged :: if key in done then CloseIfStale(messaged[key], cycle, c) else messaged[key]
  }

  /** How many of the first `n` direct messages Slack accepted. */
  function Accepted(queue: seq<Alert>, n: nat, slack: Slack): nat
    requires n <= |queue|
  {
    if n == 0 then 0 else Accepted(queue, n - 1, slack) + if slack.direct(queue[n - 1].key) then 1 else 0
  }

  /** It counts the queued alerts among the first `n` that Slack took. */
  lemma {:induction false} AcceptedAreTaken(queue: seq<Alert>, n: nat, slack: Slack)
    requires n <= |queue|
    ensures Accepted(queue, n, slack) == |TakenOf(queue, n, slack)|
  {
    if n > 0 {
      AcceptedAreTaken(queue, n - 1, slack);
      if slack.direct(queue[n - 1].key) {
        assert TakenOf(queue, n, slack) == TakenOf(queue, n - 1, slack) + {n - 1};
      } else {
        assert TakenOf(queue, n, slack) == TakenOf(queue, n - 1, slack);
      }
    }
  }

  function TakenOf(queue: seq<Alert>, n: nat, slack: Slack): set<int>
    requires n <= |queue|
  {
    set i | 0 <= i < n && slack.direct(queue[i].key)
  }

  /** The keys whose closing was announced. */
  function Announced(messaged: Store, keys: set<string>, cycle: Cycle, c: Config): set<string> {
    set key | key in keys && key in messaged && messaged[key].lastSent.Some?
              && Closes(messaged[key], cycle.alerts, cycle.scanned, cycle.now, c, cycle.slack)
  }

  predicate SameColumns(a: Record, b: Record) {
    a.key == b.key && a.category == b.category && a.service == b.service && a.scope == b.scope
  }

  /** Saving a record that agrees on the columns an upsert leaves alone stores exactly it. */
  lemma SaveStores(store: Store, r: Record)
    requires r.key in store ==> SameColumns(r, store[r.key])
    ensures Save(store, r) == store[r.key := r]
  {
  }

  lemma AlertForSnoc(front: seq<Alert>, a: Alert, key: string)
    requires HasKey(front + [a], key)
    ensures AlertFor(front + [a], key) == if HasKey(front, key) then AlertFor(front, key) else a
    decreases |front|
  {
    HasKeySnoc(front, a, key);
    if front != [] && front[0].key != key {
      assert (front + [a])[1..] == front[1..] + [a];
      HasKeySnoc(front[1..], a, key);
      if HasKey(front, key) {
        var i :| 0 <= i < |front| && front[i].key == key;
        assert front[1..][i - 1].key == key;
      }
      if HasKey(front[1..], key) {
        var i :| 0 <= i < |front[1..]| && front[1..][i].key == key;
        assert front[i + 1].key == key;
      }
      AlertForSnoc(front[1..], a, key);
    }
  }

  lemma NotedSnoc(store: Store, front: seq<Alert>, a: Alert, now: int, c: Config)
    requires RecordKeysMatch(store) && !HasKey(front, a.key)
    ensures var before := NotedStore(store, front, now, c);
            NotedStore(store, front + [a], now, c) == before[a.key := Noted(Find(store, a.key), a, now, c.cooldownMs)]
    ensures Find(NotedStore(store, front, now, c), a.key) == Find(store, a.key)
  {
    hide Noted, HasKey, KeySet, AlertFor;
    var all := front + [a];
    var before := NotedStore(store, front, now, c);
    var after := NotedStore(store, all, now, c);
    assert KeySet(all) == KeySet(front) + {a.key} by {
      forall k ensures k in KeySet(all) <==> k in KeySet(front) + {a.key} {
        HasKeySnoc(front, a, k);
        KeySetHasKey(all, k);
        KeySetHasKey(front, k);
      }
    }
    KeySetHasKey(front, a.key);
    forall k | k in after
      ensures after[k] == before[a.key := Noted(Find(store, a.key), a, now, c.cooldownMs)][k]
    {
      HasKeySnoc(front, a, k);
      KeySetHasKey(front, k);
      if HasKey(all, k) { AlertForSnoc(front, a, k); }
    }
  }

  lemma KeySetHasKey(alerts: seq<Alert>, key: string)
    ensures key in KeySet(alerts) <==> HasKey(alerts, key)
  {
    if HasKey(alerts, key) {
      var i :| 0 <= i < |alerts| && alerts[i].key == key;
    }
  }

  lemma NotedKeysMatch(store: Store, alerts: seq<Alert>, now: int, c: Config)
    requires RecordKeysMatch(store)
    ensures RecordKeysMatch(NotedStore(store, alerts, now, c))
  {
    var after := NotedStore(store, alerts, now, c);
    forall k | k in after ensures after[k].key == k { KeySetHasKey(alerts, k); }
  }

  lemma NothingSent(noted: Store, queue: seq<Alert>, cycle: Cycle, c: Config)
    ensures SentStore(noted, queue, 0, cycle, c) == noted
  {
  }

  lemma SentSnoc(noted: Store, queue: seq<Alert>, n: nat, cycle: Cycle, c: Config)
    requires RecordKeysMatch(noted) && n < |queue| && queue[n].key in noted
    ensures var before, after := SentStore(noted, queue, n, cycle, c), SentStore(noted, queue, n + 1, cycle, c);
            var key := queue[n].key;
            if Delivered(queue, n, c.maxPerCycle, cycle.slack)
            then after == Save(before, Sent(noted[key], cycle.now)) else after == before
  {
    var before, after := SentStore(noted, queue, n, cycle, c), SentStore(noted, queue, n + 1, cycle, c);
    var key := queue[n].key;
    SaveStores(before, Sent(noted[key], cycle.now));
    var delivered := Delivered(queue, n, c.maxPerCycle, cycle.slack);
    var expected := if delivered then before[key := Sent(noted[key], cycle.now)] else before;
    forall k | k in noted ensures after[k] == expected[k] {
      assert NotifiedUpTo(queue, k, n + 1, c.maxPerCycle, cycle.slack)
        <==> NotifiedUpTo(queue, k, n, c.maxPerCycle, cycle.slack)
             || (k == key && Delivered(queue, n, c.maxPerCycle, cycle.slack));
    }
    assert after == expected;
  }

  // ------------------------------------------------------------------
  // The manager
  // ------------------------------------------------------------------

  class AlertStore {
    var alerts: Store

    constructor ()
      ensures alerts == map[]
    {
      alerts := map[];
    }

    method SaveAlert(r: Record)
      modifies this
      ensures alerts == Save(old(alerts), r)
    {
      if r.key in alerts {
        var was := alerts[r.key];
        alerts := alerts[r.key := r.(category := was.category, service := was.service, scope := was.scope)];
      } else {
        alerts := alerts[r.key := r];
      }
    }
  }

  class AlertManager {
    const store: AlertStore
    const config: Config
    var pending: seq<Alert>

    constructor (store: AlertStore, config: Config)
      ensures this.store == store && this.config == config && pending == []
    {
      this.store, this.config, pending := store, config, [];
    }

    /** At most 500 alerts wait; more are dropped. */
    method Enqueue(alert: Alert)
      modifies this`pending
      ensures pending == if |old(pending)| >= 500 then old(pending) else old(pending) + [alert]
    {
      if |pending| >= 500 {
        return;
      }
      pending := pending + [alert];
    }

    /** Save one alert's record; tell whether to notify it. */
    method NoteOne(a: Alert, now: int) returns (due: bool)
      requires RecordKeysMatch(store.alerts)
      modifies store
      ensures var was := Find(old(store.alerts), a.key);
              && store.alerts == old(store.alerts)[a.key := Noted(was, a, now, config.cooldownMs)]
              && due == Due(was, now, config.cooldownMs)
    {
      var existing := Find(store.alerts, a.key);
      var record := Touched(existing, a, now);
      due := Due(existing, now, config.cooldownMs);
      if due {
        if Reopened(existing) {
          record := record.(firstSeen := now);
        }
      } else {
        record := record.(suppressed := record.suppressed + 1);
      }
      SaveStores(store.alerts, record);
      store.SaveAlert(record);
    }

    /** Note every alert of a cycle. */
    method NoteAll(unique: seq<Alert>, now: int) returns (toSend: seq<Alert>, seen: set<string>, suppressed: nat)
      requires RecordKeysMatch(store.alerts) && DistinctKeys(unique)
      modifies store
      ensures store.alerts == NotedStore(old(store.alerts), unique, now, config)
      ensures toSend == DueAlerts(old(store.alerts), unique, now, config.cooldownMs)
      ensures suppressed == |unique| - |toSend|
      ensures forall key :: key in seen <==> SawCondition(unique, key)
    {
      toSend, seen, suppressed := [], {}, 0;
      ghost var start := store.alerts;
      assert NotedStore(start, [], now, config) == start;
      for i := 0 to |unique|
        invariant store.alerts == NotedStore(start, unique[..i], now, config)
        invariant toSend == DueAlerts(start, unique[..i], now, config.cooldownMs)
        invariant suppressed == i - |toSend|
        invariant forall key :: key in seen <==> SawCondition(unique[..i], key)
      {
        var a := unique[i];
        NextAlert(start, unique, i, now);
        NextSeen(unique, i);
        var due := NoteOne(a, now);
        if a.condition {
          seen := seen + {a.key};
        }
        if due {
          toSend := toSend + [a];
        } else {
          suppressed := suppressed + 1;
        }
      }
      assert unique[..|unique|] == unique;
    }

    /** How noting alert `i` extends what the loop has done so far. */
    lemma NextAlert(start: Store, unique: seq<Alert>, i: nat, now: int)
      requires RecordKeysMatch(start) && DistinctKeys(unique) && i < |unique|
      ensures var a := unique[i];
              var before := NotedStore(start, unique[..i], now, config);
              var due := Due(Find(start, a.key), now, config.cooldownMs);
              && RecordKeysMatch(before)
              && Find(before, a.key) == Find(start, a.key)
              && NotedStore(start, unique[..i + 1], now, config)
                   == before[a.key := Noted(Find(start, a.key), a, now, config.cooldownMs)]
              && DueAlerts(start, unique[..i + 1], now, config.cooldownMs)
                 == DueAlerts(start, unique[..i], now, config.cooldownMs) + (if due then [a] else [])
    {
      var a, front := unique[i], unique[..i];
      assert unique[..i + 1] == front + [a] && (front + [a])[..i] == front;
      FreshKey(unique, i);
      NotedSnoc(start, front, a, now, config);
      NotedKeysMatch(start, front, now, config);
    }

    lemma NextSeen(unique: seq<Alert>, i: nat)
      requires i < |unique|
      ensures forall key :: SawCondition(unique[..i + 1], key) <==>
                SawCondition(unique[..i], key) || (unique[i].key == key && unique[i].condition)
    {
      assert unique[..i + 1] == unique[..i] + [unique[i]];
      forall key { SawSnoc(unique[..i], unique[i], key); }
    }

    /** Send the queue: the first few one by one, the rest as one summary. */
    method SendAll(queue: seq<Alert>, cycle: Cycle) returns (sent: nat, overflow: nat, failed: nat)
      requires RecordKeysMatch(store.alerts) && forall i :: 0 <= i < |queue| ==> queue[i].key in store.alerts
      modifies store
      ensures store.alerts == SentStore(old(store.alerts), queue, |queue|, cycle, config)
      ensures var cut := Cut(queue, config.maxPerCycle);
              && sent + failed + overflow == |queue| && sent == Accepted(queue, cut, cycle.slack)
              && overflow == (if cycle.slack.overflow then |queue| - cut else 0)
    {
      hide SentStore, RecordKeysMatch, Save, Alerts.Sent;
      ghost var noted := store.alerts;
      var records := store.alerts; // what phase one saved
      var cut := Cut(queue, config.maxPerCycle);
      sent, overflow, failed := 0, 0, 0;
      NothingSent(noted, queue, cycle, config);
      for i := 0 to cut
        invariant store.alerts == SentStore(noted, queue, i, cycle, config)
        invariant sent + failed == i && sent == Accepted(queue, i, cycle.slack)
      {
        SentSnoc(noted, queue, i, cycle, config);
        if cycle.slack.direct(queue[i].key) {
          store.SaveAlert(Sent(records[queue[i].key], cycle.now));
          sent := sent + 1;
        } else {
          failed := failed + 1;
        }
      }
      if cycle.slack.overflow {
        for i := cut to |queue|
          invariant store.alerts == SentStore(noted, queue, i, cycle, config)
        {
          SentSnoc(noted, queue, i, cycle, config);
          store.SaveAlert(Sent(records[queue[i].key], cycle.now));
        }
        overflow := |queue| - cut;
      } else {
        NothingMoreDelivered(noted, queue, cut, cycle);
        failed := failed + (|queue| - cut);
      }
    }

    lemma NothingMoreDelivered(noted: Store, queue: seq<Alert>, cut: nat, cycle: Cycle)
      requires cut == Cut(queue, config.maxPerCycle) && !cycle.slack.overflow
      ensures SentStore(noted, queue, |queue|, cycle, config) == SentStore(noted, queue, cut, cycle, config)
    {
      forall k | k in noted
        ensures NotifiedUpTo(queue, k, |queue|, config.maxPerCycle, cycle.slack)
          <==> NotifiedUpTo(queue, k, cut, config.maxPerCycle, cycle.slack)
      {
      }
    }

    /** Close the conditions that have gone away. */
    method ResolveAll(cycle: Cycle, seen: set<string>) returns (resolved: nat)
      requires RecordKeysMatch(store.alerts)
      requires forall key :: key in seen <==> SawCondition(Unique(cycle.alerts), key)
      modifies store
      ensures store.alerts == ClosedStore(old(store.alerts), old(store.alerts).Keys, cycle, config)
      ensures resolved == |Announced(old(store.alerts), old(store.alerts).Keys, cycle, config)|
    {
      resolved := 0;
      ghost var messaged := store.alerts;
      if cycle.scanned.None? {
        assert ClosedStore(messaged, messaged.Keys, cycle, config) == messaged;
        assert Announced(messaged, messaged.Keys, cycle, config) == {};
        return;
      }
      var records := store.alerts;
      var todo := set key | key in records && records[key].open && records[key].condition;
      ghost var done := {};
      assert ClosedStore(messaged, {}, cycle, config) == messaged;
      while todo != {}
        invariant todo <= messaged.Keys
        invariant done == (set key | key in messaged && messaged[key].open && messaged[key].condition) - todo
        invariant store.alerts == ClosedStore(messaged, done, cycle, config)
        invariant resolved == |Announced(messaged, done, cycle, config)|
        decreases todo
      {
        ghost var any := Sets.Member(todo);
        var key :| key in todo;
        var open := records[key];
        CloseOne(messaged, done, key, cycle);
        AnnounceOne(messaged, done, key, cycle);
        todo, done := todo - {key}, done + {key};
        if key in seen || open.scope !in cycle.scanned.value || cycle.now - open.lastSeen < config.resolveAfterMs {
          continue;
        }
        var closed := open.(open := false);
        SaveStores(store.alerts, closed);
        if open.lastSent.None? {
          store.SaveAlert(closed);
          continue;
        }
        if cycle.slack.resolved(key) {
          store.SaveAlert(closed);
          resolved := resolved + 1;
        }
      }
      OthersStay(messaged, done, cycle);
    }

    lemma AnnounceOne(messaged: Store, done: set<string>, key: string, cycle: Cycle)
      requires key in messaged && key !in done
      ensures var one := messaged[key].lastSent.Some?
                         && Closes(messaged[key], cycle.alerts, cycle.scanned, cycle.now, config, cycle.slack);
              |Announced(messaged, done + {key}, cycle, config)|
              == |Announced(messaged, done, cycle, config)| + if one then 1 else 0
    {
      var before, after := Announced(messaged, done, cycle, config), Announced(messaged, done + {key}, cycle, config);
      assert after == before + {key} || after == before;
    }

    /** One whole cycle: every key ends as `After` says, and every distinct key is counted once. */
    method Cycle(cycle: Alerts.Cycle) returns (r: CycleResult)
      requires RecordKeysMatch(store.alerts)
      modifies store
      ensures store.alerts == After(old(store.alerts), cycle, config)
      ensures r.suppressed + r.sent + r.overflow + r.failed == |Unique(cycle.alerts)|
      ensures var queue := Queue(old(store.alerts), cycle.alerts, cycle.now, config);
              var cut := Cut(queue, config.maxPerCycle);
              && r.sent == Accepted(queue, cut, cycle.slack)
              && r.overflow == if cycle.slack.overflow then |queue| - cut else 0
      ensures var messaged := AfterMessages(old(store.alerts), cycle, config);
              r.resolved == |Announced(messaged, messaged.Keys, cycle, config)|
      ensures r.suppressed == |Unique(cycle.alerts)| - |Queue(old(store.alerts), cycle.alerts, cycle.now, config)|
      ensures r.suppressed == |AlertHistories.Unqueued(old(store.alerts), cycle, config)|
    {
      ghost var start := store.alerts;
      AlertHistories.SuppressedAreTheOthers(start, cycle, config);
      var unique := Unique(cycle.alerts);
      UniqueKeepsKeys(cycle.alerts);
      var toSend, seen, suppressed := NoteAll(unique, cycle.now);
      var queue := BySeverity(toSend);
      QueueIsNoted(start, unique, cycle.now, queue);
      var sent, overflow, failed := SendAll(queue, cycle);
      MessagesMatch(start, cycle, queue);
      var resolved := ResolveAll(cycle, seen);
      ClosingMatches(start, cycle);
      r := CycleResult(sent, suppressed, resolved, overflow, failed);
    }

    lemma QueueIsNoted(start: Store, unique: seq<Alert>, now: int, queue: seq<Alert>)
      requires RecordKeysMatch(start) && queue == BySeverity(DueAlerts(start, unique, now, config.cooldownMs))
      ensures RecordKeysMatch(NotedStore(start, unique, now, config))
      ensures |queue| == |DueAlerts(start, unique, now, config.cooldownMs)|
      ensures forall i :: 0 <= i < |queue| ==> queue[i].key in NotedStore(start, unique, now, config)
    {
      var due := DueAlerts(start, unique, now, config.cooldownMs);
      NotedKeysMatch(start, unique, now, config);
      BySeverityPermutes(due);
      DueMembers(start, unique, now, config.cooldownMs);
      assert |multiset(queue)| == |multiset(due)|;
      forall i | 0 <= i < |queue| ensures queue[i].key in NotedStore(start, unique, now, config) {
        assert queue[i] in multiset(queue);
        assert queue[i] in due;
        var j :| 0 <= j < |unique| && unique[j] == queue[i];
        assert queue[i].key in KeySet(unique);
      }
    }

    lemma MessagesMatch(start: Store, cycle: Alerts.Cycle, queue: seq<Alert>)
      requires RecordKeysMatch(start) && queue == Queue(start, cycle.alerts, cycle.now, config)
      ensures var noted := NotedStore(start, Unique(cycle.alerts), cycle.now, config);
              SentStore(noted, queue, |queue|, cycle, config) == AfterMessages(start, cycle, config)
      ensures RecordKeysMatch(AfterMessages(start, cycle, config))
    {
      hide Queue, Unique, DueAlerts, Noted, AlertFor, Delivered, HasKey;
      var unique := Unique(cycle.alerts);
      var noted := NotedStore(start, unique, cycle.now, config);
      var sent := SentStore(noted, queue, |queue|, cycle, config);
      var after := AfterMessages(start, cycle, config);
      NotedKeysMatch(start, unique, cycle.now, config);
      assert noted.Keys == KeysAfter(start, cycle);
      forall k | k in after ensures after[k] == sent[k] && after[k].key == k {
        KeySetHasKey(unique, k);
        assert NotifiedUpTo(queue, k, |queue|, config.maxPerCycle, cycle.slack)
            <==> Notified(queue, k, config.maxPerCycle, cycle.slack);
        if Notified(queue, k, config.maxPerCycle, cycle.slack) { NotifiedIsDue(start, cycle, config, k); }
      }
    }

    lemma ClosingMatches(start: Store, cycle: Alerts.Cycle)
      ensures var messaged := AfterMessages(start, cycle, config);
              ClosedStore(messaged, messaged.Keys, cycle, config) == After(start, cycle, config)
    {
    }

    lemma CloseOne(messaged: Store, done: set<string>, key: string, cycle: Cycle)
      requires RecordKeysMatch(messaged) && key in messaged && key !in done
      ensures var before := ClosedStore(messaged, done, cycle, config);
              && key in before && before[key] == messaged[key]
              && ClosedStore(messaged, done + {key}, cycle, config)
                   == before[key := CloseIfStale(messaged[key], cycle, config)]
              && (CloseIfStale(messaged[key], cycle, config) == messaged[key] ==>
                    ClosedStore(messaged, done + {key}, cycle, config) == before)
    {
    }

    lemma OthersStay(messaged: Store, done: set<string>, cycle: Cycle)
      requires forall key :: key in messaged && messaged[key].open && messaged[key].condition ==> key in done
      ensures ClosedStore(messaged, messaged.Keys, cycle, config) == ClosedStore(messaged, done, cycle, config)
      ensures Announced(messaged, messaged.Keys, cycle, config) == Announced(messaged, done, cycle, config)
    {
    }
  }

  lemma FreshKey(unique: seq<Alert>, i: nat)
    requires DistinctKeys(unique) && i < |unique|
    ensures !HasKey(unique[..i], unique[i].key)
  {
  }

  lemma SawSnoc(front: seq<Alert>, a: Alert, key: string)
    ensures SawCondition(front + [a], key) <==> SawCondition(front, key) || (a.key == key && a.condition)
  {
    var s := front + [a];
    if SawCondition(front, key) {
      var i :| 0 <= i < |front| && front[i].key == key && front[i].condition;
      assert s[i].key == key && s[i].condition;
    }
    if a.key == key && a.condition { assert s[|front|].key == key; }
  }
}
