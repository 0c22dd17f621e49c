/** How attempts end, and what the `jobs` table then says of it (src/queue/queue.ts:139-163, 223-246). */
module JobEndings {
  import opened Wrappers
  import opened Tables
  import opened JobRuns
  import Jobs

  /** The call ends a running attempt of job `id`: its worker settles it, or its lease has run out. */
  predicate Ends(t: JobTable, c: Call, id: int) {
    && id in t && t[id].state == Running
    && match c
       case CompleteCall(k, owner) => k == id && Settles(t[id], owner)
       case RecordFailureCall(k, _, owner, _, _, _) => k == id && Settles(t[id], owner)
       case BuryCall(now) => RanOut(t[id], now) && t[id].attempts >= t[id].maxAttempts
       case RequeueCall(now) => RanOut(t[id], now) && t[id].attempts < t[id].maxAttempts
       case _ => false
  }

  predicate Settles(row: JobRow, owner: Option<string>) { owner == None || owner == row.leaseHolder }

  predicate RanOut(row: JobRow, now: int) { row.leaseUntil.Some? && row.leaseUntil.value <= now }

  /** What an ended attempt leaves: a state, an error, and the time of the next attempt if there is one. */
  datatype Ending = Ending(state: JobState, error: Option<string>, next: Option<int>)

  function EndingOf(c: Call): Ending {
    match c
    case CompleteCall(_, _) => Ending(Done, None, None)
    case RecordFailureCall(_, error, _, retry, attempts, now) =>
      if retry then Ending(Pending, Some(error), Some(now + Jobs.BackoffMs(attempts)))
      else Ending(Failed, Some(error), None)
    case BuryCall(_) => Ending(Dead, Some("lease expired"), None)
    case RequeueCall(now) => Ending(Pending, Some("lease expired"), Some(now))
    case _ => Ending(Running, None, None)
  }

  /** A call that ends an attempt leaves exactly its ending on the row, without a lease; any other call leaves the
      error, and a running job running unless the claim is given back. */
  lemma EndingIsRecorded(t: JobTable, c: Call, id: int)
    requires id in t && c != CancelCall(id)
    ensures var (u, e) := (Apply(t, c), EndingOf(c));
            && id in u
            && (Ends(t, c, id) ==>
                  u[id] == t[id].(state := e.state, lastError := e.error, leaseUntil := None, leaseHolder := None,
                                  nextAttemptAt := if e.next.Some? then e.next.value else t[id].nextAttemptAt))
            && (!Ends(t, c, id) ==>
                  && u[id].lastError == t[id].lastError
                  && (Jobs.Active(t[id]) ==> Jobs.Active(u[id]))
                  && (t[id].state == Running && !(c.DeferCall? && c.id == id) ==> u[id].state == Running))
  {
  }

  /** The last call of a run that ended an attempt of the job. */
  function LastEnding(t: JobTable, calls: seq<Call>, id: int): Option<Call> {
    if calls == [] then None
    else
      var (front, c) := (calls[..|calls| - 1], calls[|calls| - 1]);
      if Ends(After(t, front), c, id) then Some(c) else LastEnding(t, front, id)
  }

  /** What the row says when `e` ended the last attempt, or none has ended and the error was `error` at the start. */
  predicate Told(row: JobRow, error: Option<string>, e: Option<Call>) {
    match e
    case None => row.lastError == error && Jobs.Active(row)
    case Some(c) =>
      var last := EndingOf(c);
      && row.lastError == last.error && last.state != Running
      && (if last.state == Pending then Jobs.Active(row) else row.state == last.state)
  }

  lemma StepTells(t: JobTable, c: Call, id: int, error: Option<string>, e: Option<Call>)
    requires Disciplined(t, c) && c != CancelCall(id) && id in t && Told(t[id], error, e)
    ensures id in Apply(t, c) && Told(Apply(t, c)[id], error, if Ends(t, c, id) then Some(c) else e)
  {
    EndingIsRecorded(t, c, id);
    if Jobs.Terminal(t[id]) { TerminalIsFinal(t, c, id); }
    hide Apply, Disciplined;
  }

  /** The row tells how the job last ended: its error is the one of the last ending, and a job is done, failed or dead
      exactly if the last ending was a completion, a failure without a retry, or a lease lost on the last attempt. */
  lemma {:induction false} LastEndingIsTold(t: JobTable, calls: seq<Call>, id: int)
    requires DisciplinedRun(t, calls) && NeverCancelled(calls, id) && id in t && Jobs.Active(t[id])
    ensures id in After(t, calls) && Told(After(t, calls)[id], t[id].lastError, LastEnding(t, calls, id))
  {
    if calls != [] {
      hide Apply, Ends, Disciplined, EndingOf, Jobs.Active, Told;
      var front, c := calls[..|calls| - 1], calls[|calls| - 1];
      LastEndingIsTold(t, front, id);
      StepTells(After(t, front), c, id, t[id].lastError, LastEnding(t, front, id));
    }
  }

  /** So the two terminal states of a job that did not succeed tell a failing handler from a dying worker. */
  lemma FailedOrDead(t: JobTable, calls: seq<Call>, id: int)
    requires DisciplinedRun(t, calls) && NeverCancelled(calls, id) && id in t && Jobs.Active(t[id])
    ensures id in After(t, calls)
    ensures var (row, last) := (After(t, calls)[id], LastEnding(t, calls, id));
            && (row.state == Failed <==> last.Some? && last.value.RecordFailureCall? && !last.value.retry)
            && (row.state == Failed ==> row.lastError == Some(last.value.error))
            && (row.state == Dead <==> last.Some? && last.value.BuryCall?)
            && (row.state == Dead ==> row.lastError == Some("lease expired"))
            && (row.state == Done <==> last.Some? && last.value.CompleteCall?)
            && (row.state == Done ==> row.lastError == None)
  {
    hide Apply, After, Ends, LastEnding, DisciplinedRun;
    LastEndingIsTold(t, calls, id);
  }

  // ------------------------------------------------------------------
  // What one call undoes, and what it answers
  // ------------------------------------------------------------------

  /** A deferral undoes the claim before it, except that the job is due only after the delay. */
  lemma DeferralUndoesTheClaim(t: JobTable, holder: string, leaseMs: int, now: int, delayMs: int, later: int)
    requires TableOk(t)
    ensures var (u, taken) := Jobs.Claim(t, holder, leaseMs, now);
            taken.Some? ==>
              && taken.value in t
              && Jobs.DeferClaim(u, taken.value, delayMs, later)
                 == t[taken.value := t[taken.value].(nextAttemptAt := later + delayMs)]
  {
    var (u, taken) := Jobs.Claim(t, holder, leaseMs, now);
    if taken.Some? {
      var id := taken.value;
      assert JobOk(t[id]);
      assert Jobs.DeferClaim(u, id, delayMs, later)[id] == t[id].(nextAttemptAt := later + delayMs);
    }
  }

  /** `fail` answers the state it leaves the job in, and `cancelPending` whether the job has left the table. */
  lemma AnswersTellTheTable(t: JobTable, id: int, error: string, owner: Option<string>, now: int)
    ensures var (u, state) := Jobs.Fail(t, id, error, owner, now);
            && (id !in t ==> state == Failed)
            && (Jobs.OwnerGuard(t, id, owner) ==> id in u && u[id].state == state && u[id].lastError == Some(error))
            && (!Jobs.OwnerGuard(t, id, owner) ==> u == t)
    ensures var (u, removed) := Jobs.CancelPending(t, id);
            && (removed <==> u != t) && (removed <==> id in t && id !in u)
            && (removed ==> Jobs.Active(t[id]) && t[id].state != Running)
            && (forall k :: k in t && k != id ==> k in u && u[k] == t[k])
  {
    var (u, removed) := Jobs.CancelPending(t, id);
    assert removed ==> id !in u;
  }

  /** A job enqueued without a number of attempts has three; one enqueued without a delay is due at once, and any other
      is due exactly from the end of its delay on. */
  lemma EnqueuedIsDueAfterItsDelay(t: JobTable, input: Jobs.EnqueueInput, now: int, at: int)
    requires input.id.Some? ==> input.id.value !in t
    ensures var (u, r) := Jobs.Enqueue(t, input, now);
            && r.Ok? && r.value !in t && r.value in u && (input.id.Some? ==> r.value == input.id.value)
            && (forall k :: k in u <==> k in t || k == r.value) && (forall k :: k in t ==> u[k] == t[k])
            && (r.value in Jobs.DueIds(u, at) <==> at >= now + if input.delayMs == None then 0 else input.delayMs.value)
            && u[r.value].maxAttempts == (if input.maxAttempts == None then 3 else input.maxAttempts.value)
            && u[r.value].attempts == 0 && u[r.value].lastError == None
  {
  }
}
