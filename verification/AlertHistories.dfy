/** Who is notified, told from what happened before and not from how the manager decides it
    (src/services/alerts/manager.ts:94-159). */
module AlertHistories {
  import opened Wrappers
  import opened Alerts

  /** The cycle queues a message for `key`. */
  predicate InQueue(store: Store, cycle: Cycle, c: Config, key: string) {
    HasKey(Queue(store, cycle.alerts, cycle.now, c), key)
  }

  lemma {:induction false} DueHolds(store: Store, alerts: seq<Alert>, now: int, cooldownMs: int)
    ensures forall a :: a in alerts && Due(Find(store, a.key), now, cooldownMs) ==>
              a in DueAlerts(store, alerts, now, cooldownMs)
  {
    if alerts != [] {
      var (front, last) := (alerts[..|alerts| - 1], alerts[|alerts| - 1]);
      DueHolds(store, front, now, cooldownMs);
      assert alerts == front + [last];
    }
  }

  lemma QueueMembers(store: Store, cycle: Cycle, c: Config, a: Alert)
    ensures a in Queue(store, cycle.alerts, cycle.now, c)
       <==> a in Unique(cycle.alerts) && Due(Find(store, a.key), cycle.now, c.cooldownMs)
  {
    var due := DueAlerts(store, Unique(cycle.alerts), cycle.now, c.cooldownMs);
    BySeverityPermutes(due);
    assert a in BySeverity(due) <==> a in multiset(BySeverity(due));
    assert a in due <==> a in multiset(due);
    DueMembers(store, Unique(cycle.alerts), cycle.now, c.cooldownMs);
    DueHolds(store, Unique(cycle.alerts), cycle.now, c.cooldownMs);
  }

  lemma HasKeyIff(alerts: seq<Alert>, key: string)
    ensures HasKey(alerts, key) <==> exists a :: a in alerts && a.key == key
  {
    if HasKey(alerts, key) {
      var i :| 0 <= i < |alerts| && alerts[i].key == key;
      assert alerts[i] in alerts;
    }
  }

  lemma QueueHoldsTheDue(store: Store, cycle: Cycle, c: Config, key: string)
    ensures InQueue(store, cycle, c, key)
       <==> HasKey(cycle.alerts, key) && Due(Find(store, key), cycle.now, c.cooldownMs)
  {
    UniqueKeepsKeys(cycle.alerts);
    HasKeyIff(Unique(cycle.alerts), key);
    var queue := Queue(store, cycle.alerts, cycle.now, c);
    HasKeyIff(queue, key);
    forall a ensures a in queue <==> a in Unique(cycle.alerts) && Due(Find(store, a.key), cycle.now, c.cooldownMs) {
      QueueMembers(store, cycle, c, a);
    }
  }

  // ------------------------------------------------------------------
  // Over many cycles
  // ------------------------------------------------------------------

  /** When `key` was last notified successfully since its record began. */
  function LastNotice(events: seq<Event>, c: Config, key: string): Option<int> {
    if events == [] then None
    else
      var n := |events| - 1;
      if NotifiedAt(map[], events, c, n, key) then Some(events[n].cycle.now)
      else if key !in Run(map[], events[..n], c) then None
      else LastNotice(events[..n], c, key)
  }

  lemma LastSentOf(store: Store, e: Event, c: Config, key: string)
    requires key in Apply(store, e, c)
    ensures var notified := e.Ran? && Notified(Queue(store, e.cycle.alerts, e.cycle.now, c), key, c.maxPerCycle,
                                               e.cycle.slack);
            Apply(store, e, c)[key].lastSent
            == if notified then Some(e.cycle.now) else if key in store then store[key].lastSent else None
  {
    if e.Ran? {
      KeysAfterHasKey(store, e.cycle, key);
      AfterAt(store, e.cycle, c, key);
      ClosingKeepsTotal(Messaged(store, e.cycle, c, key), e.cycle, c);
      if HasKey(Unique(e.cycle.alerts), key) {
        var a, notified := MessagedOfAlert(store, e.cycle, c, key);
        UpdatedFields(Find(store, key), a, notified, e.cycle.now, c.cooldownMs);
        assert !notified && key !in store ==> Messaged(store, e.cycle, c, key).lastSent == None;
      } else {
        OnlyCarriedAreNotified(store, e.cycle, c, key);
      }
    }
  }

  lemma OnlyCarriedAreNotified(store: Store, cycle: Cycle, c: Config, key: string)
    requires !HasKey(Unique(cycle.alerts), key)
    ensures !Notified(Queue(store, cycle.alerts, cycle.now, c), key, c.maxPerCycle, cycle.slack)
  {
    if Notified(Queue(store, cycle.alerts, cycle.now, c), key, c.maxPerCycle, cycle.slack) {
      NotifiedIsDue(store, cycle, c, key);
    }
  }

  lemma {:induction false} LastSentIsTheLastNotice(events: seq<Event>, c: Config, key: string)
    ensures key in Run(map[], events, c) ==> Run(map[], events, c)[key].lastSent == LastNotice(events, c, key)
  {
    if events != [] {
      var n := |events| - 1;
      LastSentIsTheLastNotice(events[..n], c, key);
      if key in Run(map[], events, c) { LastSentOf(Run(map[], events[..n], c), events[n], c, key); }
    }
  }

  /** Over any cycles and prunes: a key that a cycle carries is queued if and only if it has no record, or was never
      notified successfully since its record began, or its record was closed, or the cooldown has passed since the
      last successful notification. */
  lemma QueuedIff(events: seq<Event>, c: Config, cycle: Cycle, key: string)
    requires HasKey(cycle.alerts, key)
    ensures var (s, last) := (Run(map[], events, c), LastNotice(events, c, key));
            InQueue(s, cycle, c, key)
            <==> key !in s || last.None? || !s[key].open || cycle.now - last.value >= c.cooldownMs
  {
    QueueHoldsTheDue(Run(map[], events, c), cycle, c, key);
    LastSentIsTheLastNotice(events, c, key);
  }

  // ------------------------------------------------------------------
  // The suppressed ones
  // ------------------------------------------------------------------

  function Keys(alerts: seq<Alert>): set<string> { set i | 0 <= i < |alerts| :: alerts[i].key }

  lemma KeysHas(alerts: seq<Alert>, key: string)
    ensures key in Keys(alerts) <==> HasKey(alerts, key)
  {
  }

  lemma {:induction false} DistinctKeysCount(alerts: seq<Alert>)
    requires DistinctKeys(alerts)
    ensures |Keys(alerts)| == |alerts|
  {
    if alerts != [] {
      var (front, last) := (alerts[..|alerts| - 1], alerts[|alerts| - 1]);
      DistinctKeysCount(front);
      assert alerts == front + [last];
      assert Keys(alerts) == Keys(front) + {last.key} by {
        forall key ensures key in Keys(alerts) <==> key in Keys(front) + {last.key} {
          KeysHas(alerts, key);
          KeysHas(front, key);
          HasKeySnoc(front, last, key);
        }
      }
      assert last.key !in Keys(front);
    }
  }

  lemma {:induction false} DueStaysDistinct(store: Store, alerts: seq<Alert>, now: int, cooldownMs: int)
    requires DistinctKeys(alerts)
    ensures DistinctKeys(DueAlerts(store, alerts, now, cooldownMs))
  {
    if alerts != [] {
      var (front, last) := (alerts[..|alerts| - 1], alerts[|alerts| - 1]);
      DueStaysDistinct(store, front, now, cooldownMs);
      DueMembers(store, front, now, cooldownMs);
      var due := DueAlerts(store, front, now, cooldownMs);
      forall i | 0 <= i < |due| ensures due[i].key != last.key {
        assert due[i] in due;
        var j :| 0 <= j < |front| && front[j] == due[i];
        assert alerts[j] == front[j];
      }
    }
  }

  /** The keys a cycle carries and does not queue. */
  function Unqueued(store: Store, cycle: Cycle, c: Config): set<string> {
    set key | key in Keys(cycle.alerts) && !InQueue(store, cycle, c, key)
  }

  /** What a cycle counts as suppressed is exactly the keys it carries and does not queue. */
  lemma SuppressedAreTheOthers(store: Store, cycle: Cycle, c: Config)
    ensures |Unqueued(store, cycle, c)| == |Unique(cycle.alerts)| - |Queue(store, cycle.alerts, cycle.now, c)|
  {
    var (unique, queue) := (Unique(cycle.alerts), Queue(store, cycle.alerts, cycle.now, c));
    var due := DueAlerts(store, unique, cycle.now, c.cooldownMs);
    UniqueKeepsKeys(cycle.alerts);
    DistinctKeysCount(unique);
    DueStaysDistinct(store, unique, cycle.now, c.cooldownMs);
    DistinctKeysCount(due);
    SameLength(due);
    QueueKeys(store, cycle, c);
    SameKeys(cycle.alerts, unique);
    assert queue == BySeverity(due);
    hide *;
    assert |Keys(unique) - Keys(due)| == |Keys(unique)| - |Keys(due)|;
    assert Unqueued(store, cycle, c) == Keys(unique) - Keys(due) by { UnqueuedHas(store, cycle, c); }
  }

  lemma UnqueuedHas(store: Store, cycle: Cycle, c: Config)
    ensures forall key :: key in Unqueued(store, cycle, c)
                     <==> key in Keys(cycle.alerts) && !InQueue(store, cycle, c, key)
  {
  }

  lemma SameLength(due: seq<Alert>)
    ensures |BySeverity(due)| == |due|
  {
    BySeverityPermutes(due);
    assert |multiset(BySeverity(due))| == |multiset(due)|;
  }

  lemma SameKeys(alerts: seq<Alert>, unique: seq<Alert>)
    requires forall key :: HasKey(unique, key) <==> HasKey(alerts, key)
    ensures Keys(unique) == Keys(alerts)
  {
    forall key ensures key in Keys(unique) <==> key in Keys(alerts) {
      KeysHas(unique, key);
      KeysHas(alerts, key);
    }
  }

  lemma QueueKeys(store: Store, cycle: Cycle, c: Config)
    ensures var due := DueAlerts(store, Unique(cycle.alerts), cycle.now, c.cooldownMs);
            Keys(due) <= Keys(Unique(cycle.alerts)) && forall key :: key in Keys(due) <==> InQueue(store, cycle, c, key)
  {
    var due := DueAlerts(store, Unique(cycle.alerts), cycle.now, c.cooldownMs);
    var queue := BySeverity(due);
    BySeverityPermutes(due);
    forall key ensures key in Keys(due) <==> InQueue(store, cycle, c, key) {
      KeysHas(due, key);
      HasKeyIff(due, key);
      HasKeyIff(queue, key);
      forall a ensures a in due <==> a in queue { assert a in multiset(due) <==> a in multiset(queue); }
    }
    DueMembers(store, Unique(cycle.alerts), cycle.now, c.cooldownMs);
    forall key | key in Keys(due) ensures key in Keys(Unique(cycle.alerts)) {
      KeysHas(due, key);
      HasKeyIff(due, key);
      HasKeyIff(Unique(cycle.alerts), key);
      KeysHas(Unique(cycle.alerts), key);
    }
  }

  // ------------------------------------------------------------------
  // One alert for each key, and a stable queue
  // ------------------------------------------------------------------

  /** Alert `i` is the first with its key. */
  predicate FirstOfKey(alerts: seq<Alert>, i: nat) {
    i < |alerts| && !HasKey(alerts[..i], alerts[i].key)
  }

  /** Exactly the first alert of each key speaks for it. */
  lemma {:induction false} FirstAlertsAreKept(alerts: seq<Alert>, i: nat)
    requires i < |alerts|
    ensures FirstOfKey(alerts, i) ==> alerts[i] in Unique(alerts)
    ensures HasKey(Unique(alerts), alerts[i].key)
    decreases |alerts|
  {
    var n := |alerts| - 1;
    UniqueKeepsKeys(alerts[..n]);
    UniqueKeepsKeys(alerts);
    assert HasKey(alerts, alerts[i].key);
    if i < n {
      assert alerts[..n][..i] == alerts[..i];
      FirstAlertsAreKept(alerts[..n], i);
    }
  }

  /** Within a severity the queue keeps the order in which the alerts came. */
  lemma BySeverityIsStable(alerts: seq<Alert>, s: Severity)
    ensures OfSeverity(BySeverity(alerts), s) == OfSeverity(alerts, s)
  {
    assert BySeverity(alerts) == OfSeverity(alerts, Critical) + OfSeverity(alerts, Error) + OfSeverity(alerts, Warning);
    var (a, b, d) := (OfSeverity(alerts, Critical), OfSeverity(alerts, Error), OfSeverity(alerts, Warning));
    OfSeverityMembers(alerts, Critical);
    OfSeverityMembers(alerts, Error);
    OfSeverityMembers(alerts, Warning);
    OfSeverityConcat(a + b, d, s);
    OfSeverityConcat(a, b, s);
    AllOrNone(a, Critical, s);
    AllOrNone(b, Error, s);
    AllOrNone(d, Warning, s);
    hide *;
    match s
    case Critical => assert a + [] + [] == a;
    case Error => assert [] + b + [] == b;
    case Warning => assert [] + [] + d == d;
  }

  lemma {:induction false} OfSeverityConcat(a: seq<Alert>, b: seq<Alert>, s: Severity)
    ensures OfSeverity(a + b, s) == OfSeverity(a, s) + OfSeverity(b, s)
    decreases |b|
  {
    if b == [] {
      assert a + b == a;
    } else {
      hide OfSeverity, OneIf;
      var (front, last) := (b[..|b| - 1], b[|b| - 1]);
      OfSeverityConcat(a, front, s);
      LastApart(a, b);
      OfSeveritySnoc(a + front, last, s);
      OfSeveritySnoc(front, last, s);
      Regrouped(OfSeverity(a, s), OfSeverity(front, s), OneIf(last, s));
    }
  }

  lemma LastApart<T>(a: seq<T>, b: seq<T>)
    requires b != []
    ensures a + b == (a + b[..|b| - 1]) + [b[|b| - 1]] && b == b[..|b| - 1] + [b[|b| - 1]]
  {
  }

  lemma Regrouped<T>(a: seq<T>, b: seq<T>, d: seq<T>)
    ensures a + b + d == a + (b + d)
  {
  }

  lemma {:induction false} AllOrNone(alerts: seq<Alert>, t: Severity, s: Severity)
    requires forall a :: a in alerts ==> a.severity == t
    ensures OfSeverity(alerts, s) == if s == t then alerts else []
  {
    if alerts != [] {
      var (front, last) := (alerts[..|alerts| - 1], alerts[|alerts| - 1]);
      assert alerts == front + [last];
      AllOrNone(front, t, s);
      OfSeveritySnoc(front, last, s);
      assert last in alerts;
      hide OfSeverity;
    }
  }

  // ------------------------------------------------------------------
  // The record of a key
  // ------------------------------------------------------------------

  /** Every column of a carried key's record after the cycle. */
  lemma CarriedRecord(store: Store, cycle: Cycle, c: Config, i: nat)
    requires c.resolveAfterMs > 0 && FirstOfKey(cycle.alerts, i)
    ensures var (a, store') := (cycle.alerts[i], After(store, cycle, c));
            a.key in store' && IsRecordOf(store'[a.key], a, Find(store, a.key), cycle.now,
                                          InQueue(store, cycle, c, a.key),
                                          Notified(Queue(store, cycle.alerts, cycle.now, c), a.key, c.maxPerCycle,
                                                    cycle.slack))
  {
    var a := cycle.alerts[i];
    assert HasKey(cycle.alerts, a.key);
    FirstAlertsAreKept(cycle.alerts, i);
    UniqueKeepsKeys(cycle.alerts);
    SpeaksFor(Unique(cycle.alerts), a);
    KeysAfterHasKey(store, cycle, a.key);
    QueueHoldsTheDue(store, cycle, c, a.key);
    var notified := Notified(Queue(store, cycle.alerts, cycle.now, c), a.key, c.maxPerCycle, cycle.slack);
    if notified { NotifiedIsDue(store, cycle, c, a.key); }
    RecordAfterMessages(store, cycle, c, a, notified);
    hide *;
    AfterAt(store, cycle, c, a.key);
    NotedRecord(Find(store, a.key), a, notified, cycle.now, c.cooldownMs);
    SeenStaysOpen(Updated(Find(store, a.key), a, notified, cycle.now, c.cooldownMs), a, Find(store, a.key), cycle, c,
                  Due(Find(store, a.key), cycle.now, c.cooldownMs), notified);
  }

  lemma RecordAfterMessages(store: Store, cycle: Cycle, c: Config, a: Alert, notified: bool)
    requires HasKey(Unique(cycle.alerts), a.key) && AlertFor(Unique(cycle.alerts), a.key) == a
    requires notified == Notified(Queue(store, cycle.alerts, cycle.now, c), a.key, c.maxPerCycle, cycle.slack)
    ensures Messaged(store, cycle, c, a.key) == Updated(Find(store, a.key), a, notified, cycle.now, c.cooldownMs)
  {
  }

  lemma NotedRecord(was: Option<Record>, a: Alert, notified: bool, now: int, cooldownMs: int)
    requires notified ==> Due(was, now, cooldownMs)
    ensures IsRecordOf(Updated(was, a, notified, now, cooldownMs), a, was, now, Due(was, now, cooldownMs), notified)
  {
    assert was == None || was.Some?;
  }

  lemma SeenStaysOpen(r: Record, a: Alert, was: Option<Record>, cycle: Cycle, c: Config, queued: bool, notified: bool)
    requires IsRecordOf(r, a, was, cycle.now, queued, notified) && c.resolveAfterMs > 0
    ensures CloseIfStale(r, cycle, c) == r
  {
  }

  lemma SpeaksFor(unique: seq<Alert>, a: Alert)
    requires DistinctKeys(unique) && a in unique
    ensures HasKey(unique, a.key) && AlertFor(unique, a.key) == a
  {
    HasKeyIff(unique, a.key);
    var b := AlertFor(unique, a.key);
    var i :| 0 <= i < |unique| && unique[i] == a;
    var j :| 0 <= j < |unique| && unique[j] == b;
    assert unique[i].key == unique[j].key;
  }

  function Place(name: Option<string>, otherwise: string): string {
    match name
    case Some(n) => n
    case None => otherwise
  }

  predicate IsRecordOf(r: Record, a: Alert, was: Option<Record>, now: int, queued: bool, notified: bool) {
    && r.severity == a.severity && r.title == a.title && r.lastSeen == now && r.open
    && r.firstSeen == (if was.Some? && was.value.open then was.value.firstSeen else now)
    && r.total == (if was.Some? then was.value.total else 0) + 1
    && r.suppressed == (if notified then 0
                        else (if was.Some? then was.value.suppressed else 0) + if queued then 0 else 1)
    && r.lastSent == (if notified then Some(now) else if was.Some? then was.value.lastSent else None)
    && (r.key, r.category, r.service, r.scope, r.condition)
       == if was.Some?
          then (was.value.key, was.value.category, was.value.service, was.value.scope, was.value.condition)
          else (a.key, a.category, a.service, Place(a.cluster, "local") + "/" + Place(a.ns, "-"), a.condition)
  }

  /** A key that the cycle does not carry keeps its record, but that it may be closed. */
  lemma UncarriedRecord(store: Store, cycle: Cycle, c: Config, key: string)
    requires key in store && !HasKey(cycle.alerts, key)
    ensures key in After(store, cycle, c)
    ensures After(store, cycle, c)[key] == store[key].(open := After(store, cycle, c)[key].open)
    ensures After(store, cycle, c)[key].open ==> store[key].open
  {
    UniqueKeepsKeys(cycle.alerts);
    KeysAfterHasKey(store, cycle, key);
    AfterAt(store, cycle, c, key);
    ClosingKeepsTotal(store[key], cycle, c);
  }

  /** A record outlives a run of prunes, unchanged, exactly if it was last seen no earlier than any of their cuts. */
  lemma {:induction false} PrunesKeepTheRecent(store: Store, cuts: seq<int>, c: Config, key: string)
    ensures var left := Run(store, Prunes(cuts), c);
            && (key in left <==> key in store && forall i :: 0 <= i < |cuts| ==> store[key].lastSeen >= cuts[i])
            && (key in left ==> left[key] == store[key])
  {
    if cuts != [] {
      var n := |cuts| - 1;
      assert Prunes(cuts)[..n] == Prunes(cuts[..n]);
      PrunesKeepTheRecent(store, cuts[..n], c, key);
    }
  }

  function Prunes(cuts: seq<int>): (events: seq<Event>)
    ensures |events| == |cuts| && forall i :: 0 <= i < |cuts| ==> events[i] == Pruned(cuts[i])
  {
    seq(|cuts|, i requires 0 <= i < |cuts| => Pruned(cuts[i]))
  }

  /** However often a key is saved, its category, service and scope are those it was first saved with, and every other
      column is the last save's. */
  lemma {:induction false} FirstSaveFixesThree(store: Store, records: seq<Record>, key: string)
    requires RecordKeysMatch(store) && records != [] && forall i :: 0 <= i < |records| ==> records[i].key == key
    ensures var first := if key in store then store[key] else records[0];
            && Saved(store, records).Keys == store.Keys + {key}
            && Saved(store, records)[key]
               == records[|records| - 1].(category := first.category, service := first.service, scope := first.scope)
            && forall k :: k in store && k != key ==> Saved(store, records)[k] == store[k]
  {
    var n := |records| - 1;
    if n > 0 {
      FirstSaveFixesThree(store, records[..n], key);
    } else {
      assert records[..n] == [];
    }
  }

  function Saved(store: Store, records: seq<Record>): Store {
    if records == [] then store else Save(Saved(store, records[..|records| - 1]), records[|records| - 1])
  }
}
