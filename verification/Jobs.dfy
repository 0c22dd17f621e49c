/** What each statement of the job queue does to the `jobs` table (src/queue/queue.ts), and what holds
    of the table over whole runs of such statements. */
module Jobs {
  import opened Powers
  import opened Wrappers
  import opened Tables
  import Sets

  const LEASE_MS := 30_000
  const DEFAULT_MAX_ATTEMPTS := 3
  const BACKOFF_BASE_MS := 5_000
  const BACKOFF_CAP_MS := 60_000

  /** min(60s, 5s * 2^attempts); a Date drops the fraction a negative exponent would leave. */
  function BackoffMs(attempts: int): int {
    var delay := if attempts < 0 then BACKOFF_BASE_MS / Pow2(-attempts) else BACKOFF_BASE_MS * Pow2(attempts);
    if delay < BACKOFF_CAP_MS then delay else BACKOFF_CAP_MS
  }

  datatype EnqueueInput = EnqueueInput(
    kind: JobKind,
    resourceId: string,
    maxAttempts: Option<int>,
    id: Option<int>,
    delayMs: Option<int>)

  // ------------------------------------------------------------------
  // Row selection
  // ------------------------------------------------------------------

  /** `ORDER BY id LIMIT 1`. */
  function Least(s: set<int>): (m: int)
    requires s != {}
    ensures m in s && forall k :: k in s ==> m <= k
  {
    Sets.LeastExists(s);
    var m :| m in s && forall k :: k in s ==> m <= k;
    m
  }

  /** The rowid SQLite gives a row inserted without one. */
  function NextId(t: JobTable): (id: int)
    ensures id !in t && forall k :: k in t ==> k < id
  {
    if t == map[] then 1
    else
      Sets.GreatestExists(t.Keys);
      var m :| m in t.Keys && forall k :: k in t.Keys ==> k <= m;
      m + 1
  }

  predicate Due(row: JobRow, now: int) {
    row.state == Pending && row.nextAttemptAt <= now
  }

  predicate LeaseExpired(row: JobRow, now: int) {
    row.state == Running && row.leaseUntil.Some? && row.leaseUntil.value <= now
  }

  predicate Terminal(row: JobRow) {
    row.state == Done || row.state == Failed || row.state == Dead
  }

  predicate Active(row: JobRow) {
    row.state == Pending || row.state == Running
  }

  /** `ownerGuard`: the row is running and, when a holder is named, leased to it. */
  predicate OwnerGuard(t: JobTable, id: int, holder: Option<string>) {
    id in t && t[id].state == Running && (holder.Some? ==> t[id].leaseHolder == holder)
  }

  // ------------------------------------------------------------------
  // What each call does to the table
  // ------------------------------------------------------------------

  function FreshRow(input: EnqueueInput, now: int): JobRow {
    JobRow(input.kind, input.resourceId, Pending, 0,
           if input.maxAttempts.Some? then input.maxAttempts.value else DEFAULT_MAX_ATTEMPTS,
           now + if input.delayMs.Some? then input.delayMs.value else 0,
           None, None, None, 0)
  }

  /** An explicit id that exists already violates the primary key: the insert throws. */
  function Enqueue(t: JobTable, input: EnqueueInput, now: int): (JobTable, Result<int, string>) {
    if input.id.Some? && input.id.value in t then (t, Err("UNIQUE constraint failed: jobs.id"))
    else
      var id := if input.id.Some? then input.id.value else NextId(t);
      (t[id := FreshRow(input, now)], Ok(id))
  }

  function CancelPending(t: JobTable, id: int): (JobTable, bool) {
    if id in t && t[id].state == Pending then (t - {id}, true) else (t, false)
  }

  function DueIds(t: JobTable, now: int): set<int> {
    set id | id in t && Due(t[id], now)
  }

  function Claim(t: JobTable, holder: string, leaseMs: int, now: int): (JobTable, Option<int>) {
    var due := DueIds(t, now);
    if due == {} then (t, None)
    else
      var id := Least(due);
      var row := t[id];
      (t[id := row.(state := Running, leaseUntil := Some(now + leaseMs), leaseHolder := Some(holder),
                    attempts := row.attempts + 1)],
       Some(id))
  }

  function SetFencingToken(t: JobTable, id: int, token: int): JobTable {
    if id in t then t[id := t[id].(fencingToken := token)] else t
  }

  function Heartbeat(t: JobTable, id: int, leaseMs: int, now: int): JobTable {
    if id in t && t[id].state == Running then t[id := t[id].(leaseUntil := Some(now + leaseMs))] else t
  }

  function Complete(t: JobTable, id: int, holder: Option<string>): JobTable {
    if OwnerGuard(t, id, holder)
    then t[id := t[id].(state := Done, leaseUntil := None, leaseHolder := None, lastError := None)]
    else t
  }

  predicate Exhausted(row: JobRow) { row.attempts >= row.maxAttempts }

  /** The UPDATE of `fail`, as decided by the row its SELECT saw: a retry after so many attempts, or the end. */
  function RecordFailure(t: JobTable, id: int, error: string, holder: Option<string>, retry: bool, attempts: int,
                         now: int)
    : JobTable
  {
    if !OwnerGuard(t, id, holder) then t
    else if retry
    then t[id := t[id].(state := Pending, leaseUntil := None, leaseHolder := None, lastError := Some(error),
                        nextAttemptAt := now + BackoffMs(attempts))]
    else t[id := t[id].(state := Failed, leaseUntil := None, leaseHolder := None, lastError := Some(error))]
  }

  function Fail(t: JobTable, id: int, error: string, holder: Option<string>, now: int): (JobTable, JobState) {
    if id !in t then (t, Failed)
    else
      var retry := !Exhausted(t[id]);
      (RecordFailure(t, id, error, holder, retry, t[id].attempts, now), if retry then Pending else Failed)
  }

  function NoRetry(t: JobTable, id: int): JobTable {
    if id in t then t[id := t[id].(maxAttempts := t[id].attempts)] else t
  }

  function DeferClaim(t: JobTable, id: int, delayMs: int, now: int): JobTable {
    if id in t
    then t[id := t[id].(state := Pending, attempts := t[id].attempts - 1, leaseUntil := None, leaseHolder := None,
                        nextAttemptAt := now + delayMs)]
    else t
  }

  function ReapRow(row: JobRow, now: int): JobRow {
    if !LeaseExpired(row, now) then row
    else if row.attempts >= row.maxAttempts
    then row.(state := Dead, leaseUntil := None, leaseHolder := None, lastError := Some("lease expired"))
    else row.(state := Pending, leaseUntil := None, leaseHolder := None, lastError := Some("lease expired"),
              nextAttemptAt := now)
  }

  function Reap(t: JobTable, now: int): JobTable {
    map id | id in t :: ReapRow(t[id], now)
  }

  /** The first of the two reaping statements: exhausted jobs die. */
  function BuryExhausted(t: JobTable, now: int): JobTable {
    map id | id in t ::
      if LeaseExpired(t[id], now) && t[id].attempts >= t[id].maxAttempts
      then t[id].(state := Dead, leaseUntil := None, leaseHolder := None, lastError := Some("lease expired"))
      else t[id]
  }

  /** The second: the others are requeued at once. */
  function RequeueExpired(t: JobTable, now: int): JobTable {
    map id | id in t ::
      if LeaseExpired(t[id], now) && t[id].attempts < t[id].maxAttempts
      then t[id].(state := Pending, leaseUntil := None, leaseHolder := None, lastError := Some("lease expired"),
                  nextAttemptAt := now)
      else t[id]
  }

  /** One after the other they reap every row exactly once. */
  lemma ReapInTwoStatements(t: JobTable, now: int)
    ensures RequeueExpired(BuryExhausted(t, now), now) == Reap(t, now)
  {
    var u := RequeueExpired(BuryExhausted(t, now), now);
    assert forall id :: id in t ==> u[id] == ReapRow(t[id], now);
  }

  function ExpiredIds(t: JobTable, now: int): set<int> {
    set id | id in t && LeaseExpired(t[id], now)
  }

  predicate HasActiveJob(t: JobTable, resourceId: string, kindMatches: JobKind -> bool) {
    exists id :: id in t && t[id].resourceId == resourceId && kindMatches(t[id].kind) && Active(t[id])
  }

  function ResourceKey(resourceId: string): (key: string)
    ensures |key| == |resourceId| + 4 && key[4..] == resourceId
  {
    "job:" + resourceId
  }
}
