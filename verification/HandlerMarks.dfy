/** Degraded services and busy locks over runs of the handlers (src/queue/handlers/rollback.ts, deploy.ts and
    src/queue/worker.ts:96-118). */
module HandlerMarks {
  import opened Wrappers
  import opened Tables
  import opened Handlers
  import Jobs
  import JobRuns
  import JobEndings
  import HandlerMethods

  /** The job the worker has in hand is for the service. */
  predicate InHand(s: System, service: string) {
    (s.phase.Entered? || s.phase.Reverting?) && s.phase.id in s.jobs && s.jobs[s.phase.id].resourceId == service
  }

  /** An automatic rollback of the service fails: its deployment is missing, or kubectl cannot undo or roll out. */
  predicate AutoRollbackFails(s: System, e: Event, service: string) {
    && InHand(s, service) && s.jobs[s.phase.id].kind == Rollback(true)
    && ((s.phase.Entered? && e.Enter? && !e.found) || (s.phase.Reverting? && e == RevertEnds(false)))
  }

  /** The service is rolled back, by whomever, or the operator clears it. */
  predicate Clears(s: System, e: Event, service: string) {
    e == Undegrade(service) || (InHand(s, service) && s.phase.Reverting? && e == RevertEnds(true))
  }

  /** An automatic rollback of the service has failed and nothing has cleared it since. */
  predicate FailureStands(s: System, events: seq<Event>, service: string) {
    events != []
    && var (front, e) := (events[..|events| - 1], events[|events| - 1]);
       || AutoRollbackFails(Run(s, front), e, service)
       || (!Clears(Run(s, front), e, service) && FailureStands(s, front, service))
  }

  lemma MarkStep(s: System, e: Event, service: string)
    ensures service in Step(s, e).degraded
       <==> AutoRollbackFails(s, e, service) || (service in s.degraded && !Clears(s, e, service))
  {
    hide Jobs.Enqueue, Jobs.CancelPending, Jobs.Claim, Jobs.Reap, Jobs.DeferClaim, Jobs.Fail, Jobs.Complete,
      Jobs.NoRetry;
  }

  /** A service is degraded exactly while the failure of an automatic rollback stands: no deploy, no failing manual
      rollback and no crash marks one or clears it. */
  lemma {:induction false} DegradedIffFailureStands(events: seq<Event>, service: string)
    ensures service in Run(Boot, events).degraded <==> FailureStands(Boot, events, service)
  {
    if events != [] {
      var front := events[..|events| - 1];
      DegradedIffFailureStands(front, service);
      hide Step, AutoRollbackFails, Clears;
      MarkStep(Run(Boot, front), events[|events| - 1], service);
    }
  }

  /** A poll whose job finds its resource locked changes nothing, beyond the reaping, but when the job is due. */
  lemma BusyLockUndoesThePoll(s: System, leaseMs: int, ms: nat, delayMs: int)
    requires s.phase.Idle? && JobRuns.TableOk(s.jobs)
    ensures var polled := Step(s, Poll(leaseMs));
            var reaped := Jobs.Reap(s.jobs, s.now);
            var u := Step(Step(polled, Elapse(ms)), LockBusy(delayMs));
            && u.phase.Idle? && u.degraded == s.degraded && u.used == s.used && u.doomed == s.doomed
            && (polled.phase.Idle? ==> u.jobs == reaped)
            && (!polled.phase.Idle? ==>
                  && polled.phase.Claimed? && polled.phase.id in reaped
                  && var id := polled.phase.id;
                     u.jobs == reaped[id := reaped[id].(nextAttemptAt := s.now + ms + delayMs)])
  {
    var reaped := Jobs.Reap(s.jobs, s.now);
    assert JobRuns.TableOk(reaped);
    hide Jobs.Claim, Jobs.Reap, Jobs.DeferClaim, JobRuns.TableOk;
    JobEndings.DeferralUndoesTheClaim(reaped, WORKER, leaseMs, s.now, delayMs, s.now + ms);
    var (jobs, taken) := Jobs.Claim(reaped, WORKER, leaseMs, s.now);
    assert taken == None || taken.Some?;
    if taken == None { assert jobs == reaped by { NothingTaken(reaped, leaseMs, s.now); } }
  }

  lemma NothingTaken(t: JobTable, leaseMs: int, now: int)
    ensures var (u, taken) := Jobs.Claim(t, WORKER, leaseMs, now); taken == None ==> u == t
  {
  }

  // ------------------------------------------------------------------
  // How a handled job ends
  // ------------------------------------------------------------------

  /** The worker has the running job in hand, under its own lease. */
  predicate Running(s: System, id: int) {
    && id in s.jobs && s.jobs[id].state == JobState.Running && s.jobs[id].leaseHolder == Some(WORKER)
    && s.jobs.Keys <= s.used
  }

  /** The job is done, or it failed with this error: for good, or until its next attempt. */
  predicate EndsAs(s: System, id: int, done: bool, final: bool, next: int, error: string) {
    && s.phase.Idle? && id in s.jobs && s.jobs[id].leaseHolder == None && s.jobs[id].leaseUntil == None
    && if done then s.jobs[id].state == Done && s.jobs[id].lastError == None
       else
         && s.jobs[id].lastError == Some(error)
         && if final then s.jobs[id].state == Failed
            else s.jobs[id].state == Pending && s.jobs[id].nextAttemptAt == next
  }

  lemma SettledAsAnswered(s: System, id: int, error: string)
    requires (s.phase == Returning(id) || s.phase == Throwing(id)) && id in s.jobs
    requires s.jobs[id].state == JobState.Running && s.jobs[id].leaseHolder == Some(WORKER)
    ensures var row := s.jobs[id];
            EndsAs(Step(s, Settle(error)), id, s.phase.Returning?, row.attempts >= row.maxAttempts,
                   s.now + Jobs.BackoffMs(row.attempts), error)
  {
  }

  /** A deploy is done exactly if it was let through and the deployer succeeded; it is failed for good exactly if it was
      not, and retries are called off or spent; and it is tried again, after its backoff, in every other case. */
  lemma DeploySettles(s: System, id: int, found: bool, result: DeployResult, rollbackId: Option<int>, error: string)
    requires s.phase == Entered(id) && Running(s, id) && s.jobs[id].kind == Deploy
    requires rollbackId.Some? ==> rollbackId.value !in s.used
    ensures var row := s.jobs[id];
            EndsAs(Step(HandlerMethods.DeployHandled(s, found, result, rollbackId), Settle(error)), id,
                   HandlerMethods.LetThrough(s, id, found) && result == Deployed,
                   HandlerMethods.CallsOffRetries(s, id, found, result, rollbackId) || row.attempts >= row.maxAttempts,
                   s.now + Jobs.BackoffMs(row.attempts), error)
  {
    HandlerMethods.DeployAnswers(s, id, found, result, rollbackId);
    HandledNow(s, found, result, rollbackId);
    hide Step, HandlerMethods.DeployHandled, Jobs.BackoffMs;
    SettledAsAnswered(HandlerMethods.DeployHandled(s, found, result, rollbackId), id, error);
  }

  lemma HandledNow(s: System, found: bool, result: DeployResult, rollbackId: Option<int>)
    ensures HandlerMethods.DeployHandled(s, found, result, rollbackId).now == s.now
  {
    hide Jobs.Enqueue, Jobs.NoRetry, Jobs.HasActiveJob;
  }

  /** A rollback is done exactly if its deployment was found and kubectl undid and rolled out; a job of another kind,
      exactly if its handler returned. */
  lemma OthersSettle(s: System, id: int, found: bool, ok: bool, error: string)
    requires s.phase == Entered(id) && Running(s, id) && s.jobs[id].kind != Deploy
    ensures var (row, entered) := (s.jobs[id], Step(s, Enter(found, ok)));
            EndsAs(Step(Step(entered, RevertEnds(ok)), Settle(error)), id, (found || row.kind.OtherKind?) && ok,
                   row.attempts >= row.maxAttempts, s.now + Jobs.BackoffMs(row.attempts), error)
  {
    var entered := Step(Step(s, Enter(found, ok)), RevertEnds(ok));
    assert entered.jobs == s.jobs && entered.now == s.now;
    assert entered.phase == if (found || s.jobs[id].kind.OtherKind?) && ok then Returning(id) else Throwing(id);
    hide Jobs.BackoffMs;
    SettledAsAnswered(entered, id, error);
  }
}
