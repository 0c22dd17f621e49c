/** What holds of the `jobs` table over whole runs of queue calls (src/queue/queue.ts). */
module JobRuns {
  import opened Wrappers
  import opened Tables
  import opened Jobs
  import Sets

  /** What runs consist of: the statements of the queue. `fail` and `reapExpiredLeases` have more than one. */
  datatype Call =
    | EnqueueCall(input: EnqueueInput, now: int)
    | CancelCall(id: int)
    | ClaimCall(holder: string, leaseMs: int, now: int)
    | TokenCall(id: int, token: int)
    | HeartbeatCall(id: int, leaseMs: int, now: int)
    | CompleteCall(id: int, owner: Option<string>)
    | RecordFailureCall(id: int, error: string, owner: Option<string>, retry: bool, attempts: int, now: int)
    | NoRetryCall(id: int)
    | DeferCall(id: int, delayMs: int, now: int)
    | BuryCall(now: int)
    | RequeueCall(now: int)

  function Apply(t: JobTable, c: Call): JobTable {
    match c
    case EnqueueCall(input, now) => Enqueue(t, input, now).0
    case CancelCall(id) => CancelPending(t, id).0
    case ClaimCall(holder, lease, now) => Claim(t, holder, lease, now).0
    case TokenCall(id, token) => SetFencingToken(t, id, token)
    case HeartbeatCall(id, lease, now) => Heartbeat(t, id, lease, now)
    case CompleteCall(id, owner) => Complete(t, id, owner)
    case RecordFailureCall(id, error, owner, retry, attempts, now) =>
      RecordFailure(t, id, error, owner, retry, attempts, now)
    case NoRetryCall(id) => NoRetry(t, id)
    case DeferCall(id, delay, now) => DeferClaim(t, id, delay, now)
    case BuryCall(now) => BuryExhausted(t, now)
    case RequeueCall(now) => RequeueExpired(t, now)
  }

  function After(t: JobTable, calls: seq<Call>): JobTable {
    if calls == [] then t else Apply(After(t, calls[..|calls| - 1]), calls[|calls| - 1])
  }

  // ------------------------------------------------------------------
  // The table invariant
  // ------------------------------------------------------------------

  predicate JobOk(row: JobRow) {
    && (row.state == Running <==> row.leaseHolder.Some?)
    && (row.state == Running <==> row.leaseUntil.Some?)
    && (row.state == Pending ==> 0 <= row.attempts < row.maxAttempts)
    && (row.state != Pending ==> 1 <= row.attempts <= row.maxAttempts)
  }

  predicate TableOk(t: JobTable) {
    forall id :: id in t ==> JobOk(t[id])
  }

  function MaxOf(input: EnqueueInput): int {
    if input.maxAttempts.Some? then input.maxAttempts.value else DEFAULT_MAX_ATTEMPTS
  }

  /** How the worker and the handlers call the queue: a claim is deferred, and retries are burned, only
      while the job is still running; a retry is recorded only while an attempt is left; and a job is
      enqueued with at least one attempt. */
  predicate Disciplined(t: JobTable, c: Call) {
    && (c.EnqueueCall? ==> MaxOf(c.input) >= 1)
    && (c.NoRetryCall? || c.DeferCall? ==> c.id in t && t[c.id].state == Running)
    && (c.RecordFailureCall? && c.retry && OwnerGuard(t, c.id, c.owner) ==> !Exhausted(t[c.id]))
  }

  /** A `fail` that nothing interrupts records what the row says, and so is disciplined. */
  lemma FailRecordsItsRow(t: JobTable, id: int, error: string, owner: Option<string>, now: int)
    requires id in t
    ensures var c := RecordFailureCall(id, error, owner, !Exhausted(t[id]), t[id].attempts, now);
            Disciplined(t, c) && Apply(t, c) == Fail(t, id, error, owner, now).0
  {
  }

  /** So is a reaping that nothing interrupts. */
  lemma ReapIsTwoCalls(t: JobTable, now: int)
    ensures DisciplinedRun(t, [BuryCall(now), RequeueCall(now)])
    ensures After(t, [BuryCall(now), RequeueCall(now)]) == Reap(t, now)
  {
    var (one, two) := ([BuryCall(now)], [BuryCall(now), RequeueCall(now)]);
    assert one[..|one| - 1] == [] && two[..|two| - 1] == one;
    assert After(t, []) == t && DisciplinedRun(t, []);
    assert After(t, one) == BuryExhausted(t, now) && DisciplinedRun(t, one);
    ReapInTwoStatements(t, now);
  }

  predicate DisciplinedRun(t: JobTable, calls: seq<Call>) {
    calls == []
    || (DisciplinedRun(t, calls[..|calls| - 1])
        && Disciplined(After(t, calls[..|calls| - 1]), calls[|calls| - 1]))
  }

  lemma StepKeepsJobOk(t: JobTable, c: Call, id: int)
    requires Disciplined(t, c) && (id in t ==> JobOk(t[id]))
    ensures id in Apply(t, c) ==> JobOk(Apply(t, c)[id])
  {
  }

  lemma StepKeepsTableOk(t: JobTable, c: Call)
    requires TableOk(t) && Disciplined(t, c)
    ensures TableOk(Apply(t, c))
  {
    hide Apply, Disciplined, JobOk;
    forall id | id in Apply(t, c) ensures JobOk(Apply(t, c)[id]) { StepKeepsJobOk(t, c, id); }
  }

  lemma {:induction false} RunKeepsTableOk(t: JobTable, calls: seq<Call>)
    requires TableOk(t) && DisciplinedRun(t, calls)
    ensures TableOk(After(t, calls))
  {
    if calls != [] {
      RunKeepsTableOk(t, calls[..|calls| - 1]);
      StepKeepsTableOk(After(t, calls[..|calls| - 1]), calls[|calls| - 1]);
    }
  }

  /** `noRetry` has no state guard: it keeps the invariant exactly when the job is not pending. A reaped
      worker that burns the retries of a job already back in the queue leaves a pending job with
      no attempt left. */
  lemma NoRetryKeepsTableOkIffNotPending(t: JobTable, id: int)
    requires TableOk(t) && id in t
    ensures TableOk(NoRetry(t, id)) <==> t[id].state != Pending
  {
    var u := NoRetry(t, id);
    assert JobOk(u[id]) <==> t[id].state != Pending by { assert JobOk(t[id]); }
    assert forall k :: k in u && k != id ==> u[k] == t[k];
  }

  /** `deferClaim` has none either: it keeps the invariant unless the job was never claimed, but it
      also reopens a finished job. */
  lemma DeferKeepsTableOkIffClaimed(t: JobTable, id: int, delayMs: int, now: int)
    requires TableOk(t) && id in t
    ensures var u := DeferClaim(t, id, delayMs, now);
            (TableOk(u) <==> t[id].attempts > 0) && u[id].state == Pending
  {
    var u := DeferClaim(t, id, delayMs, now);
    assert JobOk(u[id]) <==> t[id].attempts > 0 by { assert JobOk(t[id]); }
    assert forall k :: k in u && k != id ==> u[k] == t[k];
  }

  /** A recorded failure keeps the invariant unless it is the retry of a job whose attempts are spent by now. */
  lemma RecordFailureKeepsTableOkIff(
      t: JobTable, id: int, error: string, owner: Option<string>, retry: bool, attempts: int, now: int)
    requires TableOk(t)
    ensures TableOk(RecordFailure(t, id, error, owner, retry, attempts, now))
       <==> !(OwnerGuard(t, id, owner) && retry && Exhausted(t[id]))
  {
    var u := RecordFailure(t, id, error, owner, retry, attempts, now);
    if OwnerGuard(t, id, owner) {
      assert JobOk(u[id]) <==> !(retry && Exhausted(t[id])) by { assert JobOk(t[id]); }
      assert forall k :: k in u && k != id ==> u[k] == t[k];
    }
  }

  /** An enqueued job keeps the invariant exactly when it is given at least one attempt. */
  lemma EnqueueKeepsTableOkIffAttempts(t: JobTable, input: EnqueueInput, now: int)
    requires TableOk(t)
    ensures var (u, r) := Enqueue(t, input, now);
            r.Ok? ==> r.value !in t && (TableOk(u) <==> MaxOf(input) >= 1)
  {
    var (u, r) := Enqueue(t, input, now);
    if r.Ok? {
      assert JobOk(u[r.value]) <==> MaxOf(input) >= 1;
      assert forall k :: k in t ==> u[k] == t[k];
    }
  }

  // ------------------------------------------------------------------
  // Terminal states, ownership
  // ------------------------------------------------------------------

  /** No call leaves done, failed or dead, or touches the attempts of such a job. */
  lemma TerminalIsFinal(t: JobTable, c: Call, id: int)
    requires Disciplined(t, c) && id in t && Terminal(t[id])
    ensures var u := Apply(t, c);
            id in u && u[id].state == t[id].state && u[id].attempts == t[id].attempts
            && u[id].maxAttempts == t[id].maxAttempts
  {
  }

  lemma {:induction false} TerminalStaysTerminal(t: JobTable, calls: seq<Call>, i: nat, id: int)
    requires DisciplinedRun(t, calls) && i <= |calls|
    requires id in After(t, calls[..i]) && Terminal(After(t, calls[..i])[id])
    ensures var was := After(t, calls[..i])[id]; var end := After(t, calls);
            id in end && end[id].state == was.state && end[id].attempts == was.attempts
    decreases |calls|
  {
    if i == |calls| {
      assert calls[..i] == calls;
    } else {
      var before := calls[..|calls| - 1];
      assert before[..i] == calls[..i];
      TerminalStaysTerminal(t, before, i, id);
      TerminalIsFinal(After(t, before), calls[|calls| - 1], id);
    }
  }

  /** A terminal write changes the table exactly when its holder still leases the running job. */
  lemma OnlyTheLeaseHolderSettles(t: JobTable, id: int, holder: string, error: string, now: int)
    requires TableOk(t)
    ensures Complete(t, id, Some(holder)) != t <==> id in t && t[id].leaseHolder == Some(holder)
    ensures Fail(t, id, error, Some(holder), now).0 != t <==> id in t && t[id].leaseHolder == Some(holder)
  {
    if id in t {
      assert JobOk(t[id]);
      if t[id].leaseHolder == Some(holder) {
        assert Complete(t, id, Some(holder))[id].state != t[id].state;
        assert Fail(t, id, error, Some(holder), now).0[id].state != t[id].state;
      }
    }
  }

  // ------------------------------------------------------------------
  // Bounded attempts
  // ------------------------------------------------------------------

  function Claimed(t: JobTable, c: Call): Option<int> {
    if c.ClaimCall? then Claim(t, c.holder, c.leaseMs, c.now).1 else None
  }

  /** How many claims in a run took job `id`. */
  function Claims(t: JobTable, calls: seq<Call>, id: int): nat {
    if calls == [] then 0
    else
      Claims(t, calls[..|calls| - 1], id)
      + if Claimed(After(t, calls[..|calls| - 1]), calls[|calls| - 1]) == Some(id) then 1 else 0
  }

  /** How many of them were deferred. */
  function Deferrals(calls: seq<Call>, id: int): nat {
    if calls == [] then 0
    else
      Deferrals(calls[..|calls| - 1], id)
      + if calls[|calls| - 1].DeferCall? && calls[|calls| - 1].id == id then 1 else 0
  }

  predicate NeverCancelled(calls: seq<Call>, id: int) {
    forall k :: 0 <= k < |calls| ==> calls[k] != CancelCall(id)
  }

  /** In any run, disciplined or not, a job's attempts are its claims minus its deferrals. */
  lemma {:induction false} AttemptsAreNetClaims(t: JobTable, calls: seq<Call>, id: int)
    requires id in t && NeverCancelled(calls, id)
    ensures var end := After(t, calls);
            id in end && end[id].attempts == t[id].attempts + Claims(t, calls, id) - Deferrals(calls, id)
  {
    if calls != [] {
      AttemptsAreNetClaims(t, calls[..|calls| - 1], id);
    }
  }

  lemma {:induction false} MaxAttemptsNeverGrow(t: JobTable, calls: seq<Call>, id: int)
    requires TableOk(t) && DisciplinedRun(t, calls) && id in t && NeverCancelled(calls, id)
    ensures id in After(t, calls) && After(t, calls)[id].maxAttempts <= t[id].maxAttempts
  {
    if calls != [] {
      var before := calls[..|calls| - 1];
      MaxAttemptsNeverGrow(t, before, id);
      RunKeepsTableOk(t, before);
      StepKeepsMaxAttempts(After(t, before), calls[|calls| - 1], id);
    }
  }

  lemma StepKeepsMaxAttempts(t: JobTable, c: Call, id: int)
    requires TableOk(t) && Disciplined(t, c) && id in t && c != CancelCall(id)
    ensures id in Apply(t, c) && Apply(t, c)[id].maxAttempts <= t[id].maxAttempts
  {
    assert JobOk(t[id]);
  }

  /** Whatever mix of errors, lease losses, deferrals and burned retries a job meets after it is
      enqueued, its claims that were not deferred never exceed the attempts it was enqueued with. */
  lemma {:induction false} ClaimsAreBounded(t: JobTable, calls: seq<Call>, id: int)
    requires TableOk(t) && DisciplinedRun(t, calls) && id in t && NeverCancelled(calls, id)
    requires t[id].attempts == 0
    ensures Claims(t, calls, id) - Deferrals(calls, id) <= t[id].maxAttempts
  {
    AttemptsAreNetClaims(t, calls, id);
    MaxAttemptsNeverGrow(t, calls, id);
    RunKeepsTableOk(t, calls);
    assert JobOk(After(t, calls)[id]);
  }

  /** Falls with every change of state but a deferral, which undoes the claim before it. */
  function Budget(row: JobRow): int {
    if Terminal(row) then 0
    else if row.state == Running then 2 * (row.maxAttempts - row.attempts) + 1
    else 2 * (row.maxAttempts - row.attempts)
  }

  predicate Moves(t: JobTable, c: Call, id: int)
    requires id in t
  {
    id in Apply(t, c) && Apply(t, c)[id].state != t[id].state
  }

  lemma StepSpendsBudget(t: JobTable, c: Call, id: int)
    requires TableOk(t) && Disciplined(t, c) && id in t && c != CancelCall(id)
    ensures var u := Apply(t, c);
            && id in u && Budget(u[id]) >= 0
            && (c.DeferCall? && c.id == id ==> Budget(u[id]) == Budget(t[id]) + 1)
            && (!(c.DeferCall? && c.id == id) ==>
                  Budget(u[id]) <= Budget(t[id]) - if Moves(t, c, id) then 1 else 0)
  {
    assert JobOk(t[id]);
    StepKeepsTableOk(t, c);
    assert JobOk(Apply(t, c)[id]);
  }

  /** How often job `id` changed state other than by a deferral. */
  function StateChanges(t: JobTable, calls: seq<Call>, id: int): nat {
    if calls == [] then 0
    else
      var before := After(t, calls[..|calls| - 1]);
      var c := calls[|calls| - 1];
      StateChanges(t, calls[..|calls| - 1], id)
      + if id in before && Moves(before, c, id) && !(c.DeferCall? && c.id == id) then 1 else 0
  }

  /** A run changes a job's state at most twice per attempt, plus once per deferral: no mix of calls
      keeps a job moving for ever without lock contention. */
  lemma {:induction false} StateChangesAreBounded(t: JobTable, calls: seq<Call>, id: int)
    requires TableOk(t) && DisciplinedRun(t, calls) && id in t && NeverCancelled(calls, id)
    ensures id in After(t, calls) && Budget(After(t, calls)[id]) >= 0
    ensures StateChanges(t, calls, id) + Budget(After(t, calls)[id]) <= Budget(t[id]) + Deferrals(calls, id)
  {
    if calls == [] {
      assert JobOk(t[id]);
    } else {
      var before := calls[..|calls| - 1];
      StateChangesAreBounded(t, before, id);
      RunKeepsTableOk(t, before);
      StepSpendsBudget(After(t, before), calls[|calls| - 1], id);
    }
  }

  // ------------------------------------------------------------------
  // Claim order
  // ------------------------------------------------------------------

  /** A claim takes the lowest id among the due jobs and changes no other row; it returns nothing
      exactly when no job is due. */
  lemma ClaimTakesTheOldestDueJob(t: JobTable, holder: string, leaseMs: int, now: int)
    ensures var (u, taken) := Claim(t, holder, leaseMs, now);
            && (taken.None? <==> forall id :: id in t ==> !Due(t[id], now))
            && (taken.Some? ==>
                  && taken.value in t && Due(t[taken.value], now)
                  && (forall id :: id in t && Due(t[id], now) ==> taken.value <= id)
                  && u.Keys == t.Keys
                  && (forall id :: id in t && id != taken.value ==> u[id] == t[id])
                  && u[taken.value].leaseHolder == Some(holder)
                  && u[taken.value].attempts == t[taken.value].attempts + 1)
  {
    if forall id :: id in t ==> !Due(t[id], now) {
      Sets.NoMember(DueIds(t, now));
    } else {
      var id :| id in t && Due(t[id], now);
      assert id in DueIds(t, now);
      assert forall k :: k in t && Due(t[k], now) ==> k in DueIds(t, now);
    }
  }
}
