/** Following `nextCursor` through the audit trail while it changes (src/lib/audit.ts `queryAudit`). */
module AuditPaging {
  import opened Wrappers
  import opened Audit
  import Text

  type Trail = seq<AuditRow>

  /** Ask for one page of each of `tables` in turn, following the cursor: the rows returned, and whether
      the last page said there is no more. */
  function PagesOver(tables: seq<Trail>, filters: seq<Clause>, cursor: Option<Key>, size: nat): (seq<AuditRow>, bool)
    requires size >= 1
  {
    if tables == [] then ([], false)
    else
      var page := PageAt(tables[0], filters, cursor, size);
      if page.next.None? then (page.items, true)
      else
        var (more, finished) := PagesOver(tables[1..], filters, page.next, size);
        (page.items + more, finished)
  }

  ghost predicate AllOk(tables: seq<Trail>) { forall i :: 0 <= i < |tables| ==> TableOk(tables[i]) }

  predicate After(cursor: Option<Key>, r: AuditRow) {
    cursor.Some? ==> Holds(OlderThan(cursor.value), r)
  }

  lemma MatchesOlder(filters: seq<Clause>, cursor: Option<Key>, r: AuditRow)
    ensures Matches(filters + Older(cursor), r) <==> Matches(filters, r) && After(cursor, r)
  {
    var where := filters + Older(cursor);
    assert forall i :: 0 <= i < |filters| ==> where[i] == filters[i];
    if cursor.Some? { assert where[|filters|] == OlderThan(cursor.value); }
    if Matches(where, r) {
      forall i | 0 <= i < |filters| ensures Holds(filters[i], r) { assert Holds(where[i], r); }
      if cursor.Some? { assert Holds(where[|filters|], r); }
    }
  }

  /** What one page promises: sorted matching rows after the cursor, and every such row of the table is
      on the page or after the next cursor. */
  lemma PagePartitions(t: Trail, filters: seq<Clause>, cursor: Option<Key>, size: nat)
    requires size >= 1 && TableOk(t)
    ensures var page := PageAt(t, filters, cursor, size);
            && Sorted(page.items)
            && (forall x :: x in page.items ==> x in t && Matches(filters, x) && After(cursor, x))
            && (forall x :: x in t && Matches(filters, x) && After(cursor, x) ==>
                  x in page.items || (page.next.Some? && After(page.next, x)))
            && (page.next.Some? ==> page.items != [] && page.next == Some(KeyOf(page.items[|page.items| - 1])))
  {
    var rows := Remaining(t, filters, cursor);
    var page := PageAt(t, filters, cursor, size);
    SelectIsSorted(t, filters + Older(cursor));
    forall x ensures x in rows <==> x in t && Matches(filters, x) && After(cursor, x) {
      MatchesOlder(filters, cursor, x);
    }
    forall x | x in rows ensures x in page.items || (page.next.Some? && After(page.next, x)) {
      var i :| 0 <= i < |rows| && rows[i] == x;
      if page.next.Some? {
        if i < size { assert page.items[i] == x; } else { assert Before(rows[size - 1], rows[i]); }
      }
    }
  }

  /** The rows of all pages, in the order returned, are strictly sorted and lie after the cursor. */
  lemma {:induction false} PagesAreSorted(tables: seq<Trail>, filters: seq<Clause>, cursor: Option<Key>, size: nat)
    requires size >= 1 && AllOk(tables)
    ensures var all := PagesOver(tables, filters, cursor, size).0;
            && Sorted(all)
            && (forall x :: x in all ==>
                  Matches(filters, x) && After(cursor, x) && exists i :: 0 <= i < |tables| && x in tables[i])
    decreases |tables|
  {
    if tables != [] {
      var page := PageAt(tables[0], filters, cursor, size);
      PagePartitions(tables[0], filters, cursor, size);
      if page.next.Some? {
        PagesAreSorted(tables[1..], filters, page.next, size);
        var more := PagesOver(tables[1..], filters, page.next, size).0;
        JoinSorted(page.items, more);
        forall x | x in more ensures After(cursor, x) && exists i :: 0 <= i < |tables| && x in tables[i] {
          var last := page.items[|page.items| - 1];
          assert last in page.items;
          StillAfter(cursor, last, x);
          var i :| 0 <= i < |tables[1..]| && x in tables[1..][i];
          assert tables[i + 1] == tables[1..][i];
        }
      }
    }
  }

  lemma StillAfter(cursor: Option<Key>, last: AuditRow, x: AuditRow)
    requires After(cursor, last) && After(Some(KeyOf(last)), x)
    ensures After(cursor, x)
  {
    if cursor.Some? && cursor.value.id >= 0 {
      var c := last.(ts := cursor.value.ts, id := cursor.value.id);
      BeforeIsAnOrder(c, last, x);
    } else if cursor.Some? {
      Text.LessIsTotal(x.ts, last.ts);
      if Text.Less(x.ts, last.ts) && Text.Less(last.ts, cursor.value.ts) {
        Text.LessIsTransitive(x.ts, last.ts, cursor.value.ts);
      }
    }
  }

  lemma JoinSorted(a: seq<AuditRow>, b: seq<AuditRow>)
    requires Sorted(a) && Sorted(b) && a != []
    requires forall x :: x in b ==> After(Some(KeyOf(a[|a| - 1])), x)
    ensures Sorted(a + b)
  {
    var s := a + b;
    var last := a[|a| - 1];
    forall i, j | 0 <= i < j < |s| ensures Before(s[i], s[j]) {
      if i < |a| && |a| <= j {
        assert s[j] == b[j - |a|] && b[j - |a|] in b;
        assert Before(last, s[j]);
        if i < |a| - 1 { BeforeIsAnOrder(a[i], last, s[j]); }
      } else if i >= |a| {
        assert s[i] == b[i - |a|] && s[j] == b[j - |a|];
      }
    }
  }

  /** The tables are successive states of one trail: a row never changes under its id. */
  ghost predicate Immutable(tables: seq<Trail>) {
    forall i, j, x, y :: 0 <= i < |tables| && 0 <= j < |tables| && x in tables[i] && y in tables[j] && x.id == y.id
      ==> x == y
  }

  /** However the trail grows or is pruned between pages, no row is returned twice. */
  lemma NoRowTwice(tables: seq<Trail>, filters: seq<Clause>, size: nat, i: nat, j: nat)
    requires size >= 1 && AllOk(tables) && Immutable(tables)
    requires var all := PagesOver(tables, filters, None, size).0; i < j < |all|
    ensures var all := PagesOver(tables, filters, None, size).0; all[i].id != all[j].id
  {
    var all := PagesOver(tables, filters, None, size).0;
    PagesAreSorted(tables, filters, None, size);
    assert all[i] in all && all[j] in all && Before(all[i], all[j]);
    BeforeIsAnOrder(all[i], all[j], all[i]);
  }

  /** Every matching row that is in the trail throughout is returned by the time the pages end. */
  lemma {:induction false} NoRowMissed(tables: seq<Trail>, filters: seq<Clause>, cursor: Option<Key>, size: nat,
                                       r: AuditRow)
    requires size >= 1 && AllOk(tables) && PagesOver(tables, filters, cursor, size).1
    requires Matches(filters, r) && After(cursor, r) && forall i :: 0 <= i < |tables| ==> r in tables[i]
    ensures r in PagesOver(tables, filters, cursor, size).0
    decreases |tables|
  {
    var page := PageAt(tables[0], filters, cursor, size);
    PagePartitions(tables[0], filters, cursor, size);
    if r !in page.items {
      NoRowMissed(tables[1..], filters, page.next, size, r);
    }
  }

  // ------------------------------------------------------------------
  // A trail that does not change
  // ------------------------------------------------------------------

  function Unchanged(t: Trail, n: nat): (tables: seq<Trail>)
    ensures |tables| == n && forall i :: 0 <= i < n ==> tables[i] == t
  {
    seq(n, _ => t)
  }

  /** The next cursor leaves exactly the rows not yet returned. */
  lemma NextPageContinues(t: Trail, filters: seq<Clause>, cursor: Option<Key>, size: nat)
    requires size >= 1 && TableOk(t)
    ensures var page := PageAt(t, filters, cursor, size);
            var rows := Remaining(t, filters, cursor);
            page.next.Some? ==> size < |rows| && page.items == rows[..size]
                                && Remaining(t, filters, page.next) == rows[size..]
  {
    var page := PageAt(t, filters, cursor, size);
    var rows := Remaining(t, filters, cursor);
    if page.next.Some? {
      var rest := Remaining(t, filters, page.next);
      SelectIsSorted(t, filters + Older(cursor));
      SelectIsSorted(t, filters + Older(page.next));
      var last := rows[size - 1];
      forall x ensures x in rest <==> x in rows[size..] {
        MatchesOlder(filters, cursor, x);
        MatchesOlder(filters, page.next, x);
        if x in rest {
          assert last in rows;
          MatchesOlder(filters, cursor, last);
          StillAfter(cursor, last, x);
          FoundLater(rows, size - 1, x);
        }
        if x in rows[size..] {
          var i :| 0 <= i < |rows[size..]| && rows[size..][i] == x;
          assert Before(last, rows[size + i]) && rows[size + i] in rows;
        }
      }
      SortedIsUnique(rest, rows[size..]);
    }
  }

  lemma FoundLater(s: seq<AuditRow>, p: nat, x: AuditRow)
    requires Sorted(s) && p < |s| && x in s && Before(s[p], x)
    ensures x in s[p + 1..]
  {
    var i :| 0 <= i < |s| && s[i] == x;
    assert i < p ==> Before(s[i], s[p]);
    BeforeIsAnOrder(s[p], s[i], s[p]);
    assert s[p + 1..][i - p - 1] == x;
  }

  /** On a fixed trail, following the cursor ends, and the pages put together are exactly the filtered
      rows in (ts, id) descending order. */
  lemma {:induction false} PagesAreTheQuery(t: Trail, filters: seq<Clause>, cursor: Option<Key>, size: nat, n: nat)
    requires size >= 1 && TableOk(t) && n > |Remaining(t, filters, cursor)|
    ensures PagesOver(Unchanged(t, n), filters, cursor, size) == (Remaining(t, filters, cursor), true)
    decreases n
  {
    hide PagesOver, Unchanged, TableOk, Remaining;
    var page := PageAt(t, filters, cursor, size);
    var rows := Remaining(t, filters, cursor);
    FirstPage(t, filters, cursor, size, n);
    if page.next.Some? {
      NextPageContinues(t, filters, cursor, size);
      PagesAreTheQuery(t, filters, page.next, size, n - 1);
      assert rows == rows[..size] + rows[size..];
    }
  }

  lemma FirstPage(t: Trail, filters: seq<Clause>, cursor: Option<Key>, size: nat, n: nat)
    requires size >= 1 && n >= 1
    ensures var page := PageAt(t, filters, cursor, size);
            && (page.next.None? ==> PagesOver(Unchanged(t, n), filters, cursor, size) == (page.items, true))
            && (page.next.Some? ==>
                  var more := PagesOver(Unchanged(t, n - 1), filters, page.next, size);
                  PagesOver(Unchanged(t, n), filters, cursor, size) == (page.items + more.0, more.1))
  {
    assert Unchanged(t, n)[0] == t && Unchanged(t, n)[1..] == Unchanged(t, n - 1);
  }

  // ------------------------------------------------------------------
  // The texts a client sends
  // ------------------------------------------------------------------

  /** A client asks once per table, each time sending back the cursor text of the answer before. */
  function Follow(tables: seq<Trail>, q: Query, other: string -> Option<int>): (seq<AuditRow>, bool) {
    if tables == [] then ([], false)
    else
      var (items, next) := Answer(tables[0], q, other);
      if next.None? then (items, true)
      else
        var (more, finished) := Follow(tables[1..], q.(cursor := next.value), other);
        (items + more, finished)
  }

  /** The cursor text of an answer stands for the key of its last row, and asks with the same filters. */
  lemma AnswerIsPage(t: Trail, q: Query, other: string -> Option<int>)
    requires TableOk(t)
    ensures var page := PageAt(t, Filters(q), CursorOf(q, other), SizeOf(q));
            var (items, next) := Answer(t, q, other);
            && items == page.items && (next.Some? <==> page.next.Some?) && (next == None || next.Some?)
            && (next.Some? ==>
                  var p := q.(cursor := next.value);
                  CursorOf(p, other) == page.next && Filters(p) == Filters(q) && SizeOf(p) == SizeOf(q))
  {
    var page := PageAt(t, Filters(q), CursorOf(q, other), SizeOf(q));
    PagePartitions(t, Filters(q), CursorOf(q, other), SizeOf(q));
    if page.next.Some? {
      var last := page.items[|page.items| - 1];
      assert last in page.items && last in t;
      DecodeInvertsEncode(last, other);
    }
  }

  /** Following cursor texts is following keys: everything proved of the pages above holds of what a client
      receives, whatever happens to the trail between its requests. */
  lemma {:induction false} FollowIsPagesOver(tables: seq<Trail>, q: Query, other: string -> Option<int>)
    requires AllOk(tables)
    ensures Follow(tables, q, other) == PagesOver(tables, Filters(q), CursorOf(q, other), SizeOf(q))
    decreases |tables|
  {
    if tables != [] {
      AnswerIsPage(tables[0], q, other);
      var next := Answer(tables[0], q, other).1;
      if next.Some? {
        FollowIsPagesOver(tables[1..], q.(cursor := next.value), other);
      }
    }
  }

  /** A client that starts without a cursor on a fixed trail receives exactly the rows its filters select, in
      (ts, id) descending order, and then no cursor. */
  lemma FollowedTextsAreTheQuery(t: Trail, q: Query, other: string -> Option<int>, n: nat)
    requires TableOk(t) && q.cursor == "" && n > |Select(t, Filters(q))|
    ensures Follow(Unchanged(t, n), q, other) == (Select(t, Filters(q)), true)
  {
    assert Filters(q) + Older(None) == Filters(q);
    FollowIsPagesOver(Unchanged(t, n), q, other);
    PagesAreTheQuery(t, Filters(q), None, SizeOf(q), n);
  }
}
