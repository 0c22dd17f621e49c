/** The audit trail (src/lib/audit.ts): keyset-paginated reads and the size-bounded append. */
module Audit {
  import opened Wrappers
  import opened Text

  const MAX_AUDIT_ROWS := 200_000
  const PRUNE_EVERY := 500
  const DEFAULT_PAGE := 50
  const MAX_PAGE := 200

  datatype AuditRow = AuditRow(
    id: nat,
    ts: string,
    actor: string,
    action: string,
    resourceKind: Option<string>,
    result: string,
    rest: string)

  // ------------------------------------------------------------------
  // Cursors
  // ------------------------------------------------------------------

  datatype Key = Key(ts: string, id: int)

  function KeyOf(r: AuditRow): Key { Key(r.ts, r.id) }

  function EncodeCursor(r: AuditRow): string {
    r.ts + "|" + Decimal(r.id)
  }

  function DecodeCursor(cursor: string, other: string -> Option<int>): Option<Key> {
    var sep := LastIndexOf(cursor, '|');
    if sep < 0 then None
    else
      var id := JsInteger(cursor[sep + 1..], other);
      if id.None? then None else Some(Key(cursor[..sep], id.value))
  }

  /** Decoding inverts encoding, whatever the timestamp text, for ids a JavaScript number can hold. */
  lemma DecodeInvertsEncode(r: AuditRow, other: string -> Option<int>)
    requires r.id <= MAX_SAFE_INTEGER
    ensures EncodeCursor(r) != "" && DecodeCursor(EncodeCursor(r), other) == Some(KeyOf(r))
  {
    var c := EncodeCursor(r);
    var digits := Decimal(r.id);
    ValueOfDecimal(r.id);
    assert c[|r.ts|] == '|' && c[|r.ts| + 1..] == digits && c[..|r.ts|] == r.ts;
    assert forall i :: |r.ts| < i < |c| ==> c[i] == digits[i - |r.ts| - 1];
    assert LastIndexOf(c, '|') == |r.ts|;
    assert !IsSpace(digits[0]);
  }

  // ------------------------------------------------------------------
  // The WHERE clause and the order
  // ------------------------------------------------------------------

  datatype Clause =
    | TsFrom(ts: string)
    | TsBefore(ts: string)
    | ActorIs(actor: string)
    | ActionIs(action: string)
    | KindIs(kind: string)
    | ResultIs(result: string)
    | OlderThan(key: Key)

  predicate Holds(c: Clause, r: AuditRow) {
    match c
    case TsFrom(ts) => !Less(r.ts, ts)
    case TsBefore(ts) => Less(r.ts, ts)
    case ActorIs(a) => r.actor == a
    case ActionIs(a) => r.action == a
    case KindIs(k) => r.resourceKind == Some(k)
    case ResultIs(res) => r.result == res
    case OlderThan(k) => Less(r.ts, k.ts) || (r.ts == k.ts && r.id < k.id)
  }

  predicate Matches(where: seq<Clause>, r: AuditRow) {
    forall i :: 0 <= i < |where| ==> Holds(where[i], r)
  }

  /** Newest first: `ORDER BY ts DESC, id DESC`. */
  predicate Before(a: AuditRow, b: AuditRow) {
    Less(b.ts, a.ts) || (a.ts == b.ts && a.id > b.id)
  }

  predicate Sorted(s: seq<AuditRow>) {
    forall i, j :: 0 <= i < j < |s| ==> Before(s[i], s[j])
  }

  lemma BeforeIsAnOrder(a: AuditRow, b: AuditRow, c: AuditRow)
    ensures !Before(a, a)
    ensures Before(a, b) && Before(b, c) ==> Before(a, c)
    ensures Before(a, b) ==> !Before(b, a)
    ensures a.id != b.id ==> Before(a, b) || Before(b, a)
  {
    LessIsTotal(a.ts, b.ts);
    LessIsTotal(b.ts, c.ts);
    LessIsTotal(a.ts, a.ts);
    if Less(b.ts, a.ts) && Less(c.ts, b.ts) { LessIsTransitive(c.ts, b.ts, a.ts); }
  }

  /** The rows of the table have distinct ids. */
  predicate TableOk(t: seq<AuditRow>) {
    && (forall i, j :: 0 <= i < j < |t| ==> t[i].id != t[j].id)
    && (forall i :: 0 <= i < |t| ==> t[i].id <= MAX_SAFE_INTEGER)
  }

  function Insert(r: AuditRow, s: seq<AuditRow>): (out: seq<AuditRow>)
    ensures |out| == |s| + 1
    ensures forall x :: x in out <==> x == r || x in s
  {
    if s == [] then [r]
    else if Before(r, s[0]) then [r] + s
    else
      var rest := Insert(r, s[1..]);
      assert s == [s[0]] + s[1..];
      [s[0]] + rest
  }

  /** `SELECT * WHERE ... ORDER BY ts DESC, id DESC`. */
  function Select(t: seq<AuditRow>, where: seq<Clause>): (out: seq<AuditRow>)
    ensures forall x :: x in out <==> x in t && Matches(where, x)
  {
    if t == [] then []
    else
      var rest := Select(t[1..], where);
      assert t == [t[0]] + t[1..];
      if Matches(where, t[0]) then Insert(t[0], rest) else rest
  }

  lemma {:induction false} InsertKeepsSorted(r: AuditRow, s: seq<AuditRow>)
    requires Sorted(s) && forall x :: x in s ==> x.id != r.id
    ensures Sorted(Insert(r, s))
  {
    if s == [] {
    } else if Before(r, s[0]) {
      forall j | 0 < j < |s| ensures Before(r, s[j]) { BeforeIsAnOrder(r, s[0], s[j]); }
    } else {
      assert forall x :: x in s[1..] ==> x in s;
      InsertKeepsSorted(r, s[1..]);
      var rest := Insert(r, s[1..]);
      forall j | 0 <= j < |rest| ensures Before(s[0], rest[j]) {
        assert rest[j] in rest;
        if rest[j] == r {
          assert s[0] in s;
          BeforeIsAnOrder(s[0], r, r);
        } else {
          var k :| 0 <= k < |s[1..]| && s[1..][k] == rest[j];
        }
      }
    }
  }

  lemma {:induction false} SelectIsSorted(t: seq<AuditRow>, where: seq<Clause>)
    requires TableOk(t)
    ensures Sorted(Select(t, where))
  {
    if t != [] {
      SelectIsSorted(t[1..], where);
      forall x | x in Select(t[1..], where) ensures x.id != t[0].id {
        var k :| 0 <= k < |t[1..]| && t[1..][k] == x;
        assert t[k + 1] == x;
      }
      InsertKeepsSorted(t[0], Select(t[1..], where));
    }
  }

  lemma HeadIsIn(s: seq<AuditRow>)
    requires s != []
    ensures s[0] in s
  {
  }

  /** A set of rows has one sorted listing. */
  lemma {:induction false} SortedIsUnique(a: seq<AuditRow>, b: seq<AuditRow>)
    requires Sorted(a) && Sorted(b) && forall x :: x in a <==> x in b
    ensures a == b
    decreases |a|
  {
    if a == [] {
      if b != [] { HeadIsIn(b); }
    } else {
      HeadsAgree(a, b);
      TailsAgree(a, b);
      TailsAgree(b, a);
      SortedIsUnique(a[1..], b[1..]);
      assert a == [a[0]] + a[1..] && b == [b[0]] + b[1..];
    }
  }

  lemma HeadsAgree(a: seq<AuditRow>, b: seq<AuditRow>)
    requires Sorted(a) && Sorted(b) && a != [] && forall x :: x in a <==> x in b
    ensures b != [] && a[0] == b[0]
  {
    assert a[0] in a && a[0] in b;
    assert b[0] in b && b[0] in a;
    BeforeIsAnOrder(a[0], b[0], a[0]);
  }

  lemma TailsAgree(a: seq<AuditRow>, b: seq<AuditRow>)
    requires Sorted(a) && Sorted(b) && a != [] && b != [] && a[0] == b[0] && forall x :: x in a <==> x in b
    ensures forall x :: x in a[1..] ==> x in b[1..]
  {
    forall x | x in a[1..] ensures x in b[1..] {
      var i :| 0 <= i < |a[1..]| && a[1..][i] == x;
      assert Before(a[0], a[i + 1]);
      BeforeIsAnOrder(a[0], x, x);
      assert x in a;
      assert b == [b[0]] + b[1..];
    }
  }

  // ------------------------------------------------------------------
  // One page
  // ------------------------------------------------------------------

  datatype Page = Page(items: seq<AuditRow>, next: Option<Key>)

  function Older(cursor: Option<Key>): seq<Clause> {
    if cursor.Some? then [OlderThan(cursor.value)] else []
  }

  /** The rows still to come after a cursor. */
  function Remaining(t: seq<AuditRow>, filters: seq<Clause>, cursor: Option<Key>): seq<AuditRow> {
    Select(t, filters + Older(cursor))
  }

  /** The first `size` rows after the cursor, and the last one's key if there are more. */
  function PageAt(t: seq<AuditRow>, filters: seq<Clause>, cursor: Option<Key>, size: nat): Page
    requires size >= 1
  {
    var rows := Remaining(t, filters, cursor);
    if |rows| <= size then Page(rows, None) else Page(rows[..size], Some(KeyOf(rows[size - 1])))
  }

  datatype Query = Query(
    since: string, until: string, actor: string, action: string, resourceKind: string, result: string,
    pageSize: Option<int>, cursor: string)

  /** An empty filter is no filter. */
  function Opt(text: string, c: Clause): seq<Clause> {
    if text != "" then [c] else []
  }

  function Filters(q: Query): seq<Clause> {
    Opt(q.since, TsFrom(q.since)) + Opt(q.until, TsBefore(q.until)) + Opt(q.actor, ActorIs(q.actor))
    + Opt(q.action, ActionIs(q.action)) + Opt(q.resourceKind, KindIs(q.resourceKind))
    + Opt(q.result, ResultIs(q.result))
  }

  method Push(where: seq<Clause>, text: string, c: Clause) returns (more: seq<Clause>)
    ensures more == where + Opt(text, c)
  {
    more := where;
    if text != "" {
      more := more + [c];
    }
  }

  function SizeOf(q: Query): (size: nat)
    ensures 1 <= size <= MAX_PAGE
  {
    var asked := if q.pageSize.Some? then q.pageSize.value else DEFAULT_PAGE;
    if asked < 1 then 1 else if asked > MAX_PAGE then MAX_PAGE else asked
  }

  /** A cursor that is empty or cannot be decoded starts from the newest row. */
  function CursorOf(q: Query, other: string -> Option<int>): Option<Key> {
    if q.cursor == "" then None else DecodeCursor(q.cursor, other)
  }

  /** What a request is answered: a page, and the text that asks for the next one. */
  function Answer(t: seq<AuditRow>, q: Query, other: string -> Option<int>): (seq<AuditRow>, Option<string>) {
    var page := PageAt(t, Filters(q), CursorOf(q, other), SizeOf(q));
    (page.items, if page.next.Some? && page.items != [] then Some(EncodeCursor(page.items[|page.items| - 1])) else None)
  }

  class AuditLog {
    var rows: seq<AuditRow>
    var lastId: nat   // the AUTOINCREMENT high-water mark

    constructor ()
      ensures rows == [] && lastId == 0
    {
      rows, lastId := [], 0;
    }

    /** The clauses, pushed one by one. */
    method BuildWhere(q: Query, other: string -> Option<int>) returns (where: seq<Clause>)
      ensures where == Filters(q) + Older(CursorOf(q, other))
    {
      where := Push([], q.since, TsFrom(q.since));
      where := Push(where, q.until, TsBefore(q.until));
      where := Push(where, q.actor, ActorIs(q.actor));
      where := Push(where, q.action, ActionIs(q.action));
      where := Push(where, q.resourceKind, KindIs(q.resourceKind));
      where := Push(where, q.result, ResultIs(q.result));
      assert where == Filters(q);
      if q.cursor != "" {
        var c := DecodeCursor(q.cursor, other);
        if c.Some? {
          where := where + [OlderThan(c.value)];
        }
      }
    }

    /** Collects the clauses, asks for one row more than a page, cuts the page. */
    method QueryAudit(q: Query, other: string -> Option<int>) returns (items: seq<AuditRow>, nextCursor: Option<string>)
      ensures (items, nextCursor) == Answer(rows, q, other)
    {
      var where := BuildWhere(q, other);
      var size := SizeOf(q);
      var selected := Select(rows, where);
      var limited := if |selected| > size + 1 then selected[..size + 1] else selected;
      assert |selected| > size + 1 ==> limited[..size] == selected[..size];
      items := if |limited| > size then limited[..size] else limited;
      nextCursor := if |limited| > size && |items| > 0 then Some(EncodeCursor(items[|items| - 1])) else None;
    }

    method PruneAudit(keep: int)
      modifies this`rows
      ensures rows == Pruned(old(rows), keep)
    {
      if rows == [] {
        return;
      }
      rows := Above(rows, MaxId(rows) - keep);
    }

    method RecordAudit(event: AuditRow)
      modifies this
      ensures (rows, lastId) == Recorded(old(rows), old(lastId), event)
    {
      lastId := lastId + 1;
      rows := rows + [event.(id := lastId)];
      if lastId % PRUNE_EVERY == 0 {
        PruneAudit(MAX_AUDIT_ROWS);
      }
    }
  }

  // ------------------------------------------------------------------
  // Appending and pruning
  // ------------------------------------------------------------------

  function MaxId(t: seq<AuditRow>): int
    requires t != []
  {
    if |t| == 1 then t[0].id
    else var m := MaxId(t[..|t| - 1]); if t[|t| - 1].id > m then t[|t| - 1].id else m
  }

  /** `DELETE ... WHERE id <= bound`. */
  function Above(t: seq<AuditRow>, bound: int): seq<AuditRow> {
    if t == [] then []
    else Above(t[..|t| - 1], bound) + if t[|t| - 1].id <= bound then [] else [t[|t| - 1]]
  }

  function Pruned(t: seq<AuditRow>, keep: int): seq<AuditRow> {
    if t == [] then t else Above(t, MaxId(t) - keep)
  }

  function Recorded(t: seq<AuditRow>, lastId: nat, event: AuditRow): (seq<AuditRow>, nat) {
    var id := lastId + 1;
    var more := t + [event.(id := id)];
    (if id % PRUNE_EVERY == 0 then Pruned(more, MAX_AUDIT_ROWS) else more, id)
  }

  function AfterEvents(events: seq<AuditRow>): (seq<AuditRow>, nat) {
    if events == [] then ([], 0)
    else
      var (t, last) := AfterEvents(events[..|events| - 1]);
      Recorded(t, last, events[|events| - 1])
  }

  /** The highest id pruned away after `n` events. */
  function Floor(n: nat): nat {
    var rounded := n - n % PRUNE_EVERY;
    if rounded > MAX_AUDIT_ROWS then rounded - MAX_AUDIT_ROWS else 0
  }

  /** The table holds exactly events lo+1 .. hi under their own numbers. */
  predicate Holding(t: seq<AuditRow>, events: seq<AuditRow>, lo: nat) {
    lo <= |events| && |t| == |events| - lo
    && forall i :: 0 <= i < |t| ==> t[i] == events[lo + i].(id := lo + i + 1)
  }

  lemma {:induction false} MaxIdOfHolding(t: seq<AuditRow>, events: seq<AuditRow>, lo: nat)
    requires t != [] && Holding(t, events, lo)
    ensures MaxId(t) == |events|
    decreases |t|
  {
    if |t| > 1 {
      var e := events[..|events| - 1];
      assert forall i :: 0 <= i < |e| ==> e[i] == events[i];
      MaxIdOfHolding(t[..|t| - 1], e, lo);
    }
  }

  /** Without its last row the table holds the events without the last one, and with that row added back,
      all of them. */
  lemma HoldingFront(t: seq<AuditRow>, events: seq<AuditRow>, lo: nat)
    requires t != [] && Holding(t, events, lo)
    ensures events != [] && Holding(t[..|t| - 1], events[..|events| - 1], lo)
    ensures t[|t| - 1] == events[|events| - 1].(id := |events|)
  {
    var e := events[..|events| - 1];
    assert forall i :: 0 <= i < |e| ==> e[i] == events[i];
  }

  lemma HoldingSnoc(t: seq<AuditRow>, events: seq<AuditRow>, lo: nat)
    requires events != [] && Holding(t, events[..|events| - 1], lo)
    ensures Holding(t + [events[|events| - 1].(id := |events|)], events, lo)
  {
    var e := events[..|events| - 1];
    assert forall i :: 0 <= i < |e| ==> e[i] == events[i];
  }

  lemma {:induction false} AboveOfHolding(t: seq<AuditRow>, events: seq<AuditRow>, lo: nat, bound: nat)
    requires Holding(t, events, lo) && lo <= bound <= |events|
    ensures Holding(Above(t, bound), events, bound)
    decreases |t|
  {
    if t != [] && bound < |events| {
      HoldingFront(t, events, lo);
      AboveOfHolding(t[..|t| - 1], events[..|events| - 1], lo, bound);
      HoldingSnoc(Above(t[..|t| - 1], bound), events, bound);
    } else if t != [] {
      AboveNothing(t, bound);
    }
  }

  lemma {:induction false} AboveNothing(t: seq<AuditRow>, bound: int)
    requires forall i :: 0 <= i < |t| ==> t[i].id <= bound
    ensures Above(t, bound) == []
  {
    if t != [] { AboveNothing(t[..|t| - 1], bound); }
  }

  /** After any number of events the trail holds exactly the most recent ones, under consecutive ids,
      and never more than the promised bound. */
  lemma {:induction false} TrailIsARecentSuffix(events: seq<AuditRow>)
    ensures var (t, last) := AfterEvents(events);
            last == |events| && Holding(t, events, Floor(|events|)) && |t| < MAX_AUDIT_ROWS + PRUNE_EVERY
  {
    if events != [] {
      var n := |events|;
      var before := events[..n - 1];
      TrailIsARecentSuffix(before);
      TrailStep(AfterEvents(before).0, events);
    }
  }

  /** So the newest 200 000 events are always there, and never 200 500. */
  lemma TrailKeepsTheNewest(events: seq<AuditRow>, i: nat)
    requires i < |events|
    ensures var (t, _) := AfterEvents(events);
            && |t| <= 200_499
            && (i + 200_000 >= |events| ==> events[i].(id := i + 1) in t)
            && (i + 200_500 <= |events| ==> events[i].(id := i + 1) !in t)
  {
    TrailIsARecentSuffix(events);
    HeldIff(AfterEvents(events).0, events, Floor(|events|), i);
    hide AfterEvents, Holding;
  }

  lemma HeldIff(t: seq<AuditRow>, events: seq<AuditRow>, lo: nat, i: nat)
    requires Holding(t, events, lo) && i < |events|
    ensures events[i].(id := i + 1) in t <==> i >= lo
    ensures |t| == |events| - lo
  {
    if i >= lo { assert t[i - lo] == events[lo + (i - lo)].(id := lo + (i - lo) + 1); }
  }

  /** One event more: appended, and pruned on every 500th. */
  lemma TrailStep(t: seq<AuditRow>, events: seq<AuditRow>)
    requires events != [] && Holding(t, events[..|events| - 1], Floor(|events| - 1))
    ensures var n := |events|;
            var (u, last) := Recorded(t, n - 1, events[n - 1]);
            last == n && Holding(u, events, Floor(n)) && |u| < MAX_AUDIT_ROWS + PRUNE_EVERY
  {
    var n := |events|;
    FloorStep(n);
    AppendStep(t, events);
    if n % PRUNE_EVERY == 0 {
      PruneStep(t + [events[n - 1].(id := n)], events);
    }
  }

  lemma AppendStep(t: seq<AuditRow>, events: seq<AuditRow>)
    requires events != [] && Holding(t, events[..|events| - 1], Floor(|events| - 1))
    ensures var n := |events|;
            Holding(t + [events[n - 1].(id := n)], events, Floor(n - 1)) && t + [events[n - 1].(id := n)] != []
  {
    HoldingSnoc(t, events, Floor(|events| - 1));
  }

  lemma PruneStep(more: seq<AuditRow>, events: seq<AuditRow>)
    requires events != [] && |events| % PRUNE_EVERY == 0 && Holding(more, events, Floor(|events| - 1))
    requires Floor(|events| - 1) <= Floor(|events|) && more != []
    ensures Holding(Pruned(more, MAX_AUDIT_ROWS), events, Floor(|events|))
  {
    var n := |events|;
    MaxIdOfHolding(more, events, Floor(n - 1));
    assert Pruned(more, MAX_AUDIT_ROWS) == Above(more, n - MAX_AUDIT_ROWS);
    assert Floor(n) == if n > MAX_AUDIT_ROWS then n - MAX_AUDIT_ROWS else 0;
    CutAt(more, events, Floor(n - 1), n - MAX_AUDIT_ROWS);
  }

  /** Deleting everything up to a bound keeps the events after it, all of them when it is not positive. */
  lemma CutAt(t: seq<AuditRow>, events: seq<AuditRow>, lo: nat, bound: int)
    requires Holding(t, events, lo) && bound <= |events|
    requires bound > 0 ==> lo <= bound
    requires bound <= 0 ==> lo == 0
    ensures Holding(Above(t, bound), events, if bound > 0 then bound else 0)
  {
    if bound > 0 {
      AboveOfHolding(t, events, lo, bound);
    } else {
      KeepAll(t, bound);
    }
  }

  lemma FloorStep(n: nat)
    requires n > 0
    ensures Floor(n - 1) <= Floor(n) <= n && n - Floor(n) < MAX_AUDIT_ROWS + PRUNE_EVERY
    ensures n % PRUNE_EVERY != 0 ==> Floor(n) == Floor(n - 1)
  {
    if n % PRUNE_EVERY == 0 {
      assert (n - 1) % PRUNE_EVERY == PRUNE_EVERY - 1;
    } else {
      assert (n - 1) % PRUNE_EVERY == n % PRUNE_EVERY - 1;
    }
  }

  lemma AboveSnoc(t: seq<AuditRow>, row: AuditRow, bound: int)
    ensures Above(t + [row], bound) == Above(t, bound) + if row.id <= bound then [] else [row]
  {
    assert (t + [row])[..|t|] == t;
  }

  lemma {:induction false} KeepAll(t: seq<AuditRow>, bound: int)
    requires bound <= 0 && forall i :: 0 <= i < |t| ==> t[i].id >= 1
    ensures Above(t, bound) == t
  {
    if t != [] {
      var before, last := t[..|t| - 1], t[|t| - 1];
      KeepAll(before, bound);
      AboveSnoc(before, last, bound);
      assert t == before + [last];
    }
  }
}
