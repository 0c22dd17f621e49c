/** What an audit query asks for, field by field (src/lib/audit.ts:93-124). */
module AuditQueries {
  import opened Wrappers
  import opened Text
  import opened Audit

  /** The row is one the query's own fields ask for; `since` is inclusive, `until` is not. */
  predicate AskedFor(q: Query, r: AuditRow) {
    && (q.since == "" || r.ts == q.since || Less(q.since, r.ts))
    && (q.until == "" || Less(r.ts, q.until))
    && (q.actor == "" || r.actor == q.actor)
    && (q.action == "" || r.action == q.action)
    && (q.resourceKind == "" || r.resourceKind == Some(q.resourceKind))
    && (q.result == "" || r.result == q.result)
  }

  /** The row comes after the cursor, newest first. */
  predicate Beyond(cursor: Option<Key>, r: AuditRow) {
    match cursor
    case None => true
    case Some(k) => Less(r.ts, k.ts) || (r.ts == k.ts && r.id < k.id)
  }

  lemma FiltersAreTheQuery(q: Query, r: AuditRow)
    ensures Matches(Filters(q), r) <==> AskedFor(q, r)
  {
    LessIsTotal(q.since, r.ts);
    var (a, b, d) := (Opt(q.since, TsFrom(q.since)), Opt(q.until, TsBefore(q.until)), Opt(q.actor, ActorIs(q.actor)));
    var (e, f) := (Opt(q.action, ActionIs(q.action)), Opt(q.resourceKind, KindIs(q.resourceKind)));
    var g := Opt(q.result, ResultIs(q.result));
    MatchesBoth(a + b + d + e + f, g, r);
    MatchesBoth(a + b + d + e, f, r);
    MatchesBoth(a + b + d, e, r);
    MatchesBoth(a + b, d, r);
    MatchesBoth(a, b, r);
    OptMatches(q.since, TsFrom(q.since), r);
    OptMatches(q.until, TsBefore(q.until), r);
    OptMatches(q.actor, ActorIs(q.actor), r);
    OptMatches(q.action, ActionIs(q.action), r);
    OptMatches(q.resourceKind, KindIs(q.resourceKind), r);
    OptMatches(q.result, ResultIs(q.result), r);
  }

  lemma MatchesBoth(a: seq<Clause>, b: seq<Clause>, r: AuditRow)
    ensures Matches(a + b, r) <==> Matches(a, r) && Matches(b, r)
  {
    if Matches(a + b, r) {
      forall i | 0 <= i < |a| ensures Holds(a[i], r) { assert (a + b)[i] == a[i]; }
      forall i | 0 <= i < |b| ensures Holds(b[i], r) { assert (a + b)[|a| + i] == b[i]; }
    }
  }

  lemma OptMatches(text: string, c: Clause, r: AuditRow)
    ensures Matches(Opt(text, c), r) <==> text == "" || Holds(c, r)
  {
    if text != "" { assert Opt(text, c)[0] == c; }
  }

  lemma RemainingIs(t: seq<AuditRow>, q: Query, cursor: Option<Key>, r: AuditRow)
    ensures r in Remaining(t, Filters(q), cursor) <==> r in t && AskedFor(q, r) && Beyond(cursor, r)
  {
    FiltersAreTheQuery(q, r);
    MatchesBoth(Filters(q), Older(cursor), r);
    if cursor.Some? { assert Older(cursor)[0] == OlderThan(cursor.value); }
    assert cursor == None || cursor.Some?;
  }

  /** How many rows one answer may hold. */
  function Limit(pageSize: Option<int>): int {
    match pageSize
    case None => 50
    case Some(n) => if n < 1 then 1 else if n < 200 then n else 200
  }

  /** An answer holds only rows that the query's fields ask for and that come after its cursor, at most a page of
      them; and if there is no next cursor it holds all of those. */
  lemma AnswerIsWhatIsAsked(t: seq<AuditRow>, q: Query, other: string -> Option<int>)
    ensures var (items, next) := Answer(t, q, other);
            var cursor := CursorOf(q, other);
            && (forall r :: r in items ==> r in t && AskedFor(q, r) && Beyond(cursor, r))
            && |items| <= Limit(q.pageSize)
            && (next.Some? ==> |items| == Limit(q.pageSize))
            && (next.None? ==> forall r :: r in t && AskedFor(q, r) && Beyond(cursor, r) ==> r in items)
  {
    var (cursor, rows) := (CursorOf(q, other), Remaining(t, Filters(q), CursorOf(q, other)));
    forall r ensures r in rows <==> r in t && AskedFor(q, r) && Beyond(cursor, r) { RemainingIs(t, q, cursor, r); }
    assert q.pageSize == None || q.pageSize.Some?;
    assert SizeOf(q) == Limit(q.pageSize);
  }
}
