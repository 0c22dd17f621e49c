/** What one cycle of the alert manager does to the alert store, and what holds over many cycles
    (src/services/alerts/manager.ts, `saveAlert` and `openConditions` of src/lib/state.ts). */
module Alerts {
  import opened Wrappers

  datatype Severity = Critical | Error | Warning

  datatype Alert = Alert(
    key: string, severity: Severity, category: string, service: string, title: string,
    cluster: Option<string>, ns: Option<string>, condition: bool)

  datatype Record = Record(
    key: string, severity: Severity, category: string, service: string, title: string, scope: string,
    firstSeen: int, lastSeen: int, lastSent: Option<int>, suppressed: int, total: int, open: bool, condition: bool)

  type Store = map<string, Record>

  datatype Config = Config(cooldownMs: int, resolveAfterMs: int, maxPerCycle: nat)

  /** Slack's answer to each message of a cycle; every message is about one key, or is the one overflow
      summary. */
  datatype Slack = Slack(direct: string -> bool, overflow: bool, resolved: string -> bool)

  function Rank(s: Severity): nat {
    match s
    case Critical => 0
    case Error => 1
    case Warning => 2
  }

  function ScopeOf(a: Alert): string {
    (if a.cluster.Some? then a.cluster.value else "local") + "/" + (if a.ns.Some? then a.ns.value else "-")
  }

  /** The upsert: a conflict updates every column but category, service and scope. */
  function Save(store: Store, r: Record): Store {
    if r.key in store
    then
      var was := store[r.key];
      store[r.key := r.(category := was.category, service := was.service, scope := was.scope)]
    else store[r.key := r]
  }

  // ------------------------------------------------------------------
  // Noting the alerts of a cycle
  // ------------------------------------------------------------------

  predicate HasKey(alerts: seq<Alert>, key: string) {
    exists i :: 0 <= i < |alerts| && alerts[i].key == key
  }

  predicate DistinctKeys(alerts: seq<Alert>) {
    forall i, j :: 0 <= i < j < |alerts| ==> alerts[i].key != alerts[j].key
  }

  /** The first alert of each key, in order. */
  function Unique(alerts: seq<Alert>): seq<Alert> {
    if alerts == [] then []
    else
      var front, last := Unique(alerts[..|alerts| - 1]), alerts[|alerts| - 1];
      if HasKey(front, last.key) then front else front + [last]
  }

  lemma {:induction false} UniqueKeepsKeys(alerts: seq<Alert>)
    ensures DistinctKeys(Unique(alerts)) && forall key :: HasKey(Unique(alerts), key) <==> HasKey(alerts, key)
  {
    if alerts != [] {
      var n := |alerts| - 1;
      UniqueKeepsKeys(alerts[..n]);
      var front := Unique(alerts[..n]);
      forall key ensures HasKey(Unique(alerts), key) <==> HasKey(alerts, key) {
        assert HasKey(alerts, key) <==> HasKey(alerts[..n], key) || alerts[n].key == key by {
          if HasKey(alerts[..n], key) {
            var i :| 0 <= i < n && alerts[..n][i].key == key;
            assert alerts[i].key == key;
          }
          if HasKey(alerts, key) && alerts[n].key != key {
            var i :| 0 <= i < |alerts| && alerts[i].key == key;
            assert alerts[..n][i].key == key;
          }
        }
        HasKeySnoc(front, alerts[n], key);
      }
    }
  }

  lemma HasKeySnoc(front: seq<Alert>, a: Alert, key: string)
    ensures HasKey(front + [a], key) <==> HasKey(front, key) || a.key == key
  {
    var s := front + [a];
    if HasKey(front, key) {
      var i :| 0 <= i < |front| && front[i].key == key;
      assert s[i].key == key;
    }
    if a.key == key { assert s[|front|].key == key; }
  }

  /** The record as this cycle sees it, before the cooldown decision. */
  function Touched(was: Option<Record>, a: Alert, now: int): Record {
    if was.Some?
    then was.value.(severity := a.severity, title := a.title, lastSeen := now, total := was.value.total + 1,
                    open := true)
    else Record(a.key, a.severity, a.category, a.service, a.title, ScopeOf(a), now, now, None, 0, 1, true, a.condition)
  }

  predicate Reopened(was: Option<Record>) { was.Some? && !was.value.open }

  predicate Due(was: Option<Record>, now: int, cooldownMs: int) {
    was.None? || was.value.lastSent.None? || Reopened(was) || now - was.value.lastSent.value >= cooldownMs
  }

  /** The record saved while noting an alert. */
  function Noted(was: Option<Record>, a: Alert, now: int, cooldownMs: int): Record {
    var r := Touched(was, a, now);
    if Due(was, now, cooldownMs) then if Reopened(was) then r.(firstSeen := now) else r
    else r.(suppressed := r.suppressed + 1)
  }

  function Find(store: Store, key: string): Option<Record> {
    if key in store then Some(store[key]) else None
  }

  // ------------------------------------------------------------------
  // Who is notified, and how
  // ------------------------------------------------------------------

  /** The alerts to notify, in the order they came. */
  function DueAlerts(store: Store, alerts: seq<Alert>, now: int, cooldownMs: int): seq<Alert> {
    if alerts == [] then []
    else
      var last := alerts[|alerts| - 1];
      DueAlerts(store, alerts[..|alerts| - 1], now, cooldownMs)
      + if Due(Find(store, last.key), now, cooldownMs) then [last] else []
  }

  function OfSeverity(alerts: seq<Alert>, s: Severity): seq<Alert> {
    if alerts == [] then []
    else OfSeverity(alerts[..|alerts| - 1], s) + OneIf(alerts[|alerts| - 1], s)
  }

  /** A stable sort by severity. */
  function BySeverity(alerts: seq<Alert>): seq<Alert> {
    OfSeverity(alerts, Critical) + OfSeverity(alerts, Error) + OfSeverity(alerts, Warning)
  }

  lemma {:induction false} OfSeverityMembers(alerts: seq<Alert>, s: Severity)
    ensures forall a :: a in OfSeverity(alerts, s) ==> a.severity == s && a in alerts
  {
    if alerts != [] { OfSeverityMembers(alerts[..|alerts| - 1], s); }
  }

  function OneIf(a: Alert, s: Severity): seq<Alert> {
    if a.severity == s then [a] else []
  }

  lemma JoinWithLast(a: seq<Alert>, b: seq<Alert>, c: seq<Alert>, last: Alert)
    ensures multiset((a + OneIf(last, Critical)) + (b + OneIf(last, Error)) + (c + OneIf(last, Warning)))
            == multiset(a + b + c) + multiset{last}
  {
    var x, y, z := OneIf(last, Critical), OneIf(last, Error), OneIf(last, Warning);
    assert multiset(x) + multiset(y) + multiset(z) == multiset{last} by {
      match last.severity
      case Critical =>
      case Error =>
      case Warning =>
    }
  }

  lemma OfSeveritySnoc(front: seq<Alert>, last: Alert, s: Severity)
    ensures OfSeverity(front + [last], s) == OfSeverity(front, s) + OneIf(last, s)
  {
    assert (front + [last])[..|front|] == front;
  }

  lemma SortWithLast(front: seq<Alert>, last: Alert)
    ensures multiset(BySeverity(front + [last])) == multiset(BySeverity(front)) + multiset{last}
  {
    OfSeveritySnoc(front, last, Critical);
    OfSeveritySnoc(front, last, Error);
    OfSeveritySnoc(front, last, Warning);
    JoinWithLast(OfSeverity(front, Critical), OfSeverity(front, Error), OfSeverity(front, Warning), last);
  }

  lemma {:induction false} BySeverityPermutes(alerts: seq<Alert>)
    ensures multiset(BySeverity(alerts)) == multiset(alerts)
  {
    if alerts != [] {
      var front, last := alerts[..|alerts| - 1], alerts[|alerts| - 1];
      BySeverityPermutes(front);
      assert alerts == front + [last];
      SortWithLast(front, last);
    }
  }

  lemma BySeveritySorts(alerts: seq<Alert>)
    ensures var s := BySeverity(alerts);
            forall i, j :: 0 <= i < j < |s| ==> Rank(s[i].severity) <= Rank(s[j].severity)
  {
    OfSeverityMembers(alerts, Critical);
    OfSeverityMembers(alerts, Error);
    OfSeverityMembers(alerts, Warning);
    var a, b, c := OfSeverity(alerts, Critical), OfSeverity(alerts, Error), OfSeverity(alerts, Warning);
    var s := a + b + c;
    forall i | 0 <= i < |s|
      ensures Rank(s[i].severity) == if i < |a| then 0 else if i < |a| + |b| then 1 else 2
    {
      if i < |a| { assert s[i] == a[i] && a[i] in a; }
      else if i < |a| + |b| { assert s[i] == b[i - |a|] && b[i - |a|] in b; }
      else { assert s[i] == c[i - |a| - |b|] && c[i - |a| - |b|] in c; }
    }
  }

  /** Where the direct messages end and the overflow begins. */
  function Cut(queue: seq<Alert>, max: nat): (n: nat)
    ensures n <= |queue|
  {
    if |queue| <= max then |queue| else max
  }

  function Queue(store: Store, alerts: seq<Alert>, now: int, c: Config): seq<Alert> {
    BySeverity(DueAlerts(store, Unique(alerts), now, c.cooldownMs))
  }

  /** Position `i` of the queue was notified successfully. */
  predicate Delivered(queue: seq<Alert>, i: nat, max: nat, slack: Slack)
    requires i < |queue|
  {
    if i < Cut(queue, max) then slack.direct(queue[i].key) else slack.overflow
  }

  /** The queue holds exactly the due alerts of the cycle; at most `maxPerCycle` go out directly, and none
      of them is less severe than one left to the summary. */
  lemma DirectAlertsAreTheMostSevere(store: Store, alerts: seq<Alert>, now: int, c: Config, i: nat, j: nat)
    requires var queue := Queue(store, alerts, now, c); i < Cut(queue, c.maxPerCycle) <= j < |queue|
    ensures var queue := Queue(store, alerts, now, c);
            && Cut(queue, c.maxPerCycle) <= c.maxPerCycle
            && multiset(queue) == multiset(DueAlerts(store, Unique(alerts), now, c.cooldownMs))
            && Rank(queue[i].severity) <= Rank(queue[j].severity)
  {
    BySeveritySorts(DueAlerts(store, Unique(alerts), now, c.cooldownMs));
    BySeverityPermutes(DueAlerts(store, Unique(alerts), now, c.cooldownMs));
  }

  predicate Notified(queue: seq<Alert>, key: string, max: nat, slack: Slack) {
    exists i :: 0 <= i < |queue| && queue[i].key == key && Delivered(queue, i, max, slack)
  }

  function Sent(r: Record, now: int): Record {
    r.(lastSent := Some(now), suppressed := 0)
  }

  // ------------------------------------------------------------------
  // Closing conditions
  // ------------------------------------------------------------------

  predicate SawCondition(alerts: seq<Alert>, key: string) {
    exists i :: 0 <= i < |alerts| && alerts[i].key == key && alerts[i].condition
  }

  /** The record is up for closing: an open condition, its scope was scanned, it was not seen this cycle
      and not for long enough. */
  predicate Stale(r: Record, alerts: seq<Alert>, scanned: Option<set<string>>, now: int, c: Config) {
    && r.open && r.condition
    && scanned.Some? && r.scope in scanned.value
    && !SawCondition(Unique(alerts), r.key)
    && now - r.lastSeen >= c.resolveAfterMs
  }

  predicate Closes(r: Record, alerts: seq<Alert>, scanned: Option<set<string>>, now: int, c: Config, slack: Slack) {
    Stale(r, alerts, scanned, now, c) && (r.lastSent.None? || slack.resolved(r.key))
  }

  // ------------------------------------------------------------------
  // A whole cycle, key by key
  // ------------------------------------------------------------------

  datatype Cycle = Cycle(alerts: seq<Alert>, scanned: Option<set<string>>, now: int, slack: Slack)

  predicate RecordKeysMatch(store: Store) { forall k :: k in store ==> store[k].key == k }

  /** The alert that speaks for a key in this cycle. */
  function AlertFor(alerts: seq<Alert>, key: string): (a: Alert)
    requires HasKey(alerts, key)
    ensures a in alerts && a.key == key
  {
    if alerts[0].key == key then alerts[0]
    else
      assert HasKey(alerts[1..], key) by {
        var i :| 0 <= i < |alerts| && alerts[i].key == key;
        assert alerts[1..][i - 1].key == key;
      }
      AlertFor(alerts[1..], key)
  }

  /** A key's record after the messages of the cycle, before closing. */
  function Messaged(store: Store, cycle: Cycle, c: Config, key: string): Record
    requires key in store || HasKey(Unique(cycle.alerts), key)
  {
    if HasKey(Unique(cycle.alerts), key) then
      var r := Noted(Find(store, key), AlertFor(Unique(cycle.alerts), key), cycle.now, c.cooldownMs);
      if Notified(Queue(store, cycle.alerts, cycle.now, c), key, c.maxPerCycle, cycle.slack)
      then Sent(r, cycle.now) else r
    else store[key]
  }

  function KeysAfter(store: Store, cycle: Cycle): set<string> {
    store.Keys + set i | 0 <= i < |Unique(cycle.alerts)| :: Unique(cycle.alerts)[i].key
  }

  function AfterMessages(store: Store, cycle: Cycle, c: Config): Store {
    map key | key in KeysAfter(store, cycle) :: Messaged(store, cycle, c, key)
  }

  function CloseIfStale(r: Record, cycle: Cycle, c: Config): Record {
    if Closes(r, cycle.alerts, cycle.scanned, cycle.now, c, cycle.slack) then r.(open := false) else r
  }

  /** The store after a cycle. */
  function After(store: Store, cycle: Cycle, c: Config): Store {
    map key | key in KeysAfter(store, cycle) :: CloseIfStale(Messaged(store, cycle, c, key), cycle, c)
  }

  function Updated(was: Option<Record>, a: Alert, notified: bool, now: int, cooldownMs: int): Record {
    var r := Noted(was, a, now, cooldownMs);
    if notified then Sent(r, now) else r
  }

  /** An alert's record, without how it came to be notified. */
  lemma MessagedOfAlert(store: Store, cycle: Cycle, c: Config, key: string) returns (a: Alert, notified: bool)
    requires HasKey(Unique(cycle.alerts), key)
    ensures a.key == key
    ensures notified == Notified(Queue(store, cycle.alerts, cycle.now, c), key, c.maxPerCycle, cycle.slack)
    ensures Messaged(store, cycle, c, key) == Updated(Find(store, key), a, notified, cycle.now, c.cooldownMs)
  {
    a := AlertFor(Unique(cycle.alerts), key);
    notified := Notified(Queue(store, cycle.alerts, cycle.now, c), key, c.maxPerCycle, cycle.slack);
  }

  /** What an alert does to its record, notified or not. */
  lemma UpdatedFields(was: Option<Record>, a: Alert, notified: bool, now: int, cooldownMs: int)
    ensures var r := Updated(was, a, notified, now, cooldownMs);
            && r.total == (if was.Some? then was.value.total else 0) + 1
            && r.open
            && (notified ==> r.lastSent == Some(now))
            && (!notified && was.Some? ==> r.lastSent == was.value.lastSent)
  {
    assert was == None || was.Some?;
  }

  lemma MessagedTotal(store: Store, cycle: Cycle, c: Config, key: string)
    requires key in store || HasKey(Unique(cycle.alerts), key)
    ensures var was := if key in store then store[key].total else 0;
            Messaged(store, cycle, c, key).total == was + if HasKey(Unique(cycle.alerts), key) then 1 else 0
  {
    if HasKey(Unique(cycle.alerts), key) {
      var a, notified := MessagedOfAlert(store, cycle, c, key);
      UpdatedFields(Find(store, key), a, notified, cycle.now, c.cooldownMs);
    }
  }

  lemma AfterAt(store: Store, cycle: Cycle, c: Config, key: string)
    requires key in KeysAfter(store, cycle)
    ensures key in After(store, cycle, c) && (key in store || HasKey(Unique(cycle.alerts), key))
    ensures After(store, cycle, c)[key] == CloseIfStale(Messaged(store, cycle, c, key), cycle, c)
  {
    KeysAfterHasKey(store, cycle, key);
  }

  /** A key's total grows by one exactly when the cycle carries an alert for it, however often. */
  lemma TotalsGrowByOne(store: Store, cycle: Cycle, c: Config, key: string)
    requires key in KeysAfter(store, cycle)
    ensures key in After(store, cycle, c)
    ensures var was := if key in store then store[key].total else 0;
            After(store, cycle, c)[key].total == was + if HasKey(cycle.alerts, key) then 1 else 0
  {
    UniqueKeepsKeys(cycle.alerts);
    AfterAt(store, cycle, c, key);
    MessagedTotal(store, cycle, c, key);
    ClosingKeepsTotal(Messaged(store, cycle, c, key), cycle, c);
  }

  lemma ClosingKeepsTotal(r: Record, cycle: Cycle, c: Config)
    ensures CloseIfStale(r, cycle, c) == r.(open := CloseIfStale(r, cycle, c).open)
  {
  }

  lemma KeysAfterHasKey(store: Store, cycle: Cycle, key: string)
    ensures key in KeysAfter(store, cycle) <==> key in store || HasKey(Unique(cycle.alerts), key)
  {
    if HasKey(Unique(cycle.alerts), key) {
      var i :| 0 <= i < |Unique(cycle.alerts)| && Unique(cycle.alerts)[i].key == key;
    }
  }

  /** A record noted this cycle was just seen, so it does not close. */
  lemma SeenIsNotStale(store: Store, cycle: Cycle, c: Config, key: string, a: Alert, notified: bool)
    requires RecordKeysMatch(store) && key in store && c.resolveAfterMs > 0
    ensures !Stale(Updated(Find(store, key), a, notified, cycle.now, c.cooldownMs), cycle.alerts, cycle.scanned,
                   cycle.now, c)
  {
  }

  lemma SeenHasKey(alerts: seq<Alert>, key: string)
    ensures SawCondition(alerts, key) ==> HasKey(alerts, key)
  {
  }

  /** A record closes exactly when its scope was scanned, its condition was not seen this cycle and not for
      the resolve time, and it was never notified or the resolved message got through. */
  lemma ClosesExactlyWhenResolved(store: Store, cycle: Cycle, c: Config, key: string)
    requires RecordKeysMatch(store) && key in store && store[key].open && c.resolveAfterMs > 0
    ensures !After(store, cycle, c)[key].open
            <==> && store[key].condition && cycle.scanned.Some? && store[key].scope in cycle.scanned.value
                 && !HasKey(cycle.alerts, key)
                 && cycle.now - store[key].lastSeen >= c.resolveAfterMs
                 && (store[key].lastSent.None? || cycle.slack.resolved(key))
  {
    UniqueKeepsKeys(cycle.alerts);
    KeysAfterHasKey(store, cycle, key);
    AfterAt(store, cycle, c, key);
    if HasKey(cycle.alerts, key) {
      var a, notified := MessagedOfAlert(store, cycle, c, key);
      UpdatedFields(Find(store, key), a, notified, cycle.now, c.cooldownMs);
      SeenIsNotStale(store, cycle, c, key, a, notified);
    } else {
      SeenHasKey(Unique(cycle.alerts), key);
      assert Messaged(store, cycle, c, key) == store[key];
    }
  }

  // ------------------------------------------------------------------
  // Cooldown over many cycles
  // ------------------------------------------------------------------

  /** Between cycles old records may be pruned. */
  datatype Event = Ran(cycle: Cycle) | Pruned(before: int)

  function Apply(store: Store, e: Event, c: Config): Store {
    match e
    case Ran(cycle) => After(store, cycle, c)
    case Pruned(before) => map key | key in store && store[key].lastSeen >= before :: store[key]
  }

  function Run(store: Store, events: seq<Event>, c: Config): Store {
    if events == [] then store else Apply(Run(store, events[..|events| - 1], c), events[|events| - 1], c)
  }

  /** Event `i` notified `key` successfully. */
  predicate NotifiedAt(store: Store, events: seq<Event>, c: Config, i: nat, key: string)
    requires i < |events|
  {
    events[i].Ran?
    && Notified(Queue(Run(store, events[..i], c), events[i].cycle.alerts, events[i].cycle.now, c), key,
                c.maxPerCycle, events[i].cycle.slack)
  }

  predicate MonotoneClock(events: seq<Event>) {
    forall i, j :: 0 <= i < j < |events| && events[i].Ran? && events[j].Ran? ==>
      events[i].cycle.now <= events[j].cycle.now
  }

  predicate OpenAfter(store: Store, events: seq<Event>, c: Config, m: nat, key: string)
    requires m <= |events|
  {
    var s := Run(store, events[..m], c);
    key in s && s[key].open
  }

  /** Everything in the queue is due, and so carries a key of the cycle. */
  lemma {:induction false} DueMembers(store: Store, alerts: seq<Alert>, now: int, cooldownMs: int)
    ensures forall a :: a in DueAlerts(store, alerts, now, cooldownMs) ==>
              a in alerts && Due(Find(store, a.key), now, cooldownMs)
  {
    if alerts != [] { DueMembers(store, alerts[..|alerts| - 1], now, cooldownMs); }
  }

  lemma NotifiedIsDue(store: Store, cycle: Cycle, c: Config, key: string)
    requires Notified(Queue(store, cycle.alerts, cycle.now, c), key, c.maxPerCycle, cycle.slack)
    ensures HasKey(Unique(cycle.alerts), key) && Due(Find(store, key), cycle.now, c.cooldownMs)
  {
    var due := DueAlerts(store, Unique(cycle.alerts), cycle.now, c.cooldownMs);
    var queue := BySeverity(due);
    var i :| 0 <= i < |queue| && queue[i].key == key && Delivered(queue, i, c.maxPerCycle, cycle.slack);
    BySeverityPermutes(due);
    assert queue[i] in multiset(queue);
    assert queue[i] in due;
    DueMembers(store, Unique(cycle.alerts), cycle.now, c.cooldownMs);
    var j :| 0 <= j < |Unique(cycle.alerts)| && Unique(cycle.alerts)[j] == queue[i];
  }

  /** One event never moves a live record's last notification back before `t`. */
  lemma LastSentOnlyGrows(store: Store, e: Event, c: Config, key: string, t: int)
    requires key in store && store[key].lastSent.Some? && store[key].lastSent.value >= t
    requires e.Ran? ==> e.cycle.now >= t
    requires key in Apply(store, e, c)
    ensures Apply(store, e, c)[key].lastSent.Some? && Apply(store, e, c)[key].lastSent.value >= t
  {
    if e.Ran? {
      KeysAfterHasKey(store, e.cycle, key);
      AfterAt(store, e.cycle, c, key);
      ClosingKeepsTotal(Messaged(store, e.cycle, c, key), e.cycle, c);
      if HasKey(Unique(e.cycle.alerts), key) {
        var a, notified := MessagedOfAlert(store, e.cycle, c, key);
        UpdatedFields(Find(store, key), a, notified, e.cycle.now, c.cooldownMs);
      }
    }
  }

  lemma NotificationIsStored(store: Store, cycle: Cycle, c: Config, key: string)
    requires Notified(Queue(store, cycle.alerts, cycle.now, c), key, c.maxPerCycle, cycle.slack)
    ensures key in After(store, cycle, c) && After(store, cycle, c)[key].lastSent == Some(cycle.now)
  {
    NotifiedIsDue(store, cycle, c, key);
    KeysAfterHasKey(store, cycle, key);
    AfterAt(store, cycle, c, key);
    var a, notified := MessagedOfAlert(store, cycle, c, key);
    UpdatedFields(Find(store, key), a, notified, cycle.now, c.cooldownMs);
    ClosingKeepsTotal(Messaged(store, cycle, c, key), cycle, c);
  }

  predicate SentSince(store: Store, key: string, t: int) {
    key in store && store[key].lastSent.Some? && store[key].lastSent.value >= t
  }

  lemma {:induction false} LastSentSince(store: Store, events: seq<Event>, c: Config, i: nat, m: nat, key: string,
                                         t: int)
    requires i <= m <= |events| && SentSince(Run(store, events[..i], c), key, t)
    requires forall k :: i < k <= m ==> OpenAfter(store, events, c, k, key)
    requires forall k :: i <= k < m && events[k].Ran? ==> events[k].cycle.now >= t
    ensures SentSince(Run(store, events[..m], c), key, t)
    decreases m
  {
    if i < m {
      RunPrefix(store, events, c, m);
      LastSentSince(store, events, c, i, m - 1, key, t);
      assert OpenAfter(store, events, c, m, key);
      LastSentOnlyGrows(Run(store, events[..m - 1], c), events[m - 1], c, key, t);
    }
  }

  lemma RunPrefix(store: Store, events: seq<Event>, c: Config, m: nat)
    requires 0 < m <= |events|
    ensures Run(store, events[..m], c) == Apply(Run(store, events[..m - 1], c), events[m - 1], c)
  {
    assert events[..m][..m - 1] == events[..m - 1] && events[..m][m - 1] == events[m - 1];
  }

  /** Two successful notifications for one key are at least the cooldown apart, unless the record was
      closed or pruned in between. */
  lemma NotificationsRespectCooldown(store: Store, events: seq<Event>, c: Config, i: nat, j: nat, key: string)
    requires i < j < |events| && MonotoneClock(events)
    requires NotifiedAt(store, events, c, i, key) && NotifiedAt(store, events, c, j, key)
    requires forall k :: i < k <= j ==> OpenAfter(store, events, c, k, key)
    ensures events[j].cycle.now - events[i].cycle.now >= c.cooldownMs
  {
    RunPrefix(store, events, c, i + 1);
    NotificationIsStored(Run(store, events[..i], c), events[i].cycle, c, key);
    LastSentSince(store, events, c, i + 1, j, key, events[i].cycle.now);
    assert OpenAfter(store, events, c, j, key);
    NotifiedIsDue(Run(store, events[..j], c), events[j].cycle, c, key);
  }
}
