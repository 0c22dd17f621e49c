/** The bodies of the deploy and rollback handlers as they run when nothing comes in between, over the
    shared database. What they do to `jobs` is the run of the steps in `Handlers`. */
module HandlerMethods {
  import opened Wrappers
  import opened Tables
  import opened Handlers
  import Fencing
  import Jobs
  import Queues
  import Text

  /** The whole deploy handler from `s`, with the oracles' answers. */
  function DeployHandled(s: System, found: bool, result: DeployResult, rollbackId: Option<int>): System {
    AfterGate(Step(s, Enter(found, true)), result, rollbackId)
  }

  /** What follows once the handler has passed, or failed, its entry checks. */
  function AfterGate(s: System, result: DeployResult, rollbackId: Option<int>): System {
    Step(Step(Step(s, DeployEnds(result)), TargetResolved(rollbackId)), Handlers.BurnRetries)
  }

  /** A handler that has thrown or returned takes no more steps. */
  lemma OverStaysOver(s: System, result: DeployResult, rollbackId: Option<int>)
    requires s.phase.Throwing? || s.phase.Returning?
    ensures AfterGate(s, result, rollbackId) == s
    ensures Step(Step(s, TargetResolved(rollbackId)), Handlers.BurnRetries) == s
  {
  }

  // ------------------------------------------------------------------
  // What the deploy handler answers
  // ------------------------------------------------------------------

  /** A rollback of the service, automatic or not, is queued or running. */
  predicate RollbackUnderWay(jobs: JobTable, service: string) {
    exists k :: k in jobs && jobs[k].resourceId == service && jobs[k].kind.Rollback?
                && (jobs[k].state == Pending || jobs[k].state == Running)
  }

  /** The deploy is let through to the deployer. */
  predicate LetThrough(s: System, id: int, found: bool)
    requires id in s.jobs
  {
    found && s.jobs[id].resourceId !in s.degraded
  }

  /** The failed health gate of a service set up for it calls for a rollback to a known target. */
  predicate CallsForRollback(s: System, id: int, found: bool, result: DeployResult, rollbackId: Option<int>)
    requires id in s.jobs
  {
    && LetThrough(s, id, found) && result == GateFailed(true) && rollbackId.Some?
    && !RollbackUnderWay(s.jobs, s.jobs[id].resourceId)
  }

  /** The attempt is the job's last: a retry would do harm. */
  predicate CallsOffRetries(s: System, id: int, found: bool, result: DeployResult, rollbackId: Option<int>)
    requires id in s.jobs
  {
    || (found && s.jobs[id].resourceId in s.degraded)
    || (LetThrough(s, id, found) && result == EnvGuardFailed)
    || (LetThrough(s, id, found) && result == GateFailed(true)
        && (RollbackUnderWay(s.jobs, s.jobs[id].resourceId) || rollbackId.Some?))
  }

  /** The rollback job as it is queued: due after the grace of ten seconds. */
  function QueuedRollback(service: string, now: int): JobRow {
    JobRow(Rollback(true), service, Pending, 0, 3, now + 10_000, None, None, None, 0)
  }

  /** The jobs afterwards: the rollback's is added if one is called for, the deploy's own loses its remaining
      attempts if retries are called off, and nothing else changes. */
  predicate AnsweredJobs(s: System, id: int, found: bool, result: DeployResult, rollbackId: Option<int>,
                         after: JobTable)
    requires id in s.jobs
  {
    var (added, row) := (CallsForRollback(s, id, found, result, rollbackId), s.jobs[id]);
    && after.Keys == s.jobs.Keys + (if added then {rollbackId.value} else {})
    && (added ==> after[rollbackId.value] == QueuedRollback(row.resourceId, s.now))
    && after[id] == (if CallsOffRetries(s, id, found, result, rollbackId) then row.(maxAttempts := row.attempts)
                     else row)
    && forall k :: k in s.jobs && k != id ==> after[k] == s.jobs[k]
  }

  /** From the service's state, the deployer's result and the target found: what the handler does to the jobs, and
      that it returns exactly when a deploy that was let through succeeded. */
  lemma DeployAnswers(s: System, id: int, found: bool, result: DeployResult, rollbackId: Option<int>)
    requires s.phase == Entered(id) && id in s.jobs && s.jobs[id].kind == Deploy && s.jobs.Keys <= s.used
    requires rollbackId.Some? ==> rollbackId.value !in s.used
    ensures var u := DeployHandled(s, found, result, rollbackId);
            && u.phase == (if LetThrough(s, id, found) && result == Deployed then Returning(id) else Throwing(id))
            && AnsweredJobs(s, id, found, result, rollbackId, u.jobs)
            && u.degraded == s.degraded
  {
    var service := s.jobs[id].resourceId;
    UnderWayIsActive(s.jobs, service);
    var entered := Step(s, Enter(found, true));
    if !LetThrough(s, id, found) {
      OverStaysOver(entered, result, rollbackId);
    } else {
      AnswersAfterGate(s, entered, id, found, result, rollbackId);
    }
  }

  lemma UnderWayIsActive(jobs: JobTable, service: string)
    ensures RollbackUnderWay(jobs, service) <==> Jobs.HasActiveJob(jobs, service, IsRollback)
  {
  }

  lemma AnswersAfterGate(s: System, entered: System, id: int, found: bool, result: DeployResult,
                         rollbackId: Option<int>)
    requires id in s.jobs && s.jobs[id].kind == Deploy && s.jobs.Keys <= s.used && LetThrough(s, id, found)
    requires entered == s.(phase := Deploying(id))
    requires rollbackId.Some? ==> rollbackId.value !in s.used
    ensures var u := AfterGate(entered, result, rollbackId);
            && u.phase == (if result == Deployed then Returning(id) else Throwing(id))
            && AnsweredJobs(s, id, found, result, rollbackId, u.jobs)
            && u.degraded == s.degraded
  {
    UnderWayIsActive(s.jobs, s.jobs[id].resourceId);
    var ended := Step(entered, DeployEnds(result));
    if ended.phase.Throwing? || ended.phase.Returning? {
      OverStaysOver(ended, result, rollbackId);
    } else {
      AnswersAfterResolving(s, ended, id, found, result, rollbackId);
    }
  }

  lemma AnswersAfterResolving(s: System, ended: System, id: int, found: bool, result: DeployResult,
                              rollbackId: Option<int>)
    requires id in s.jobs && s.jobs[id].kind == Deploy && s.jobs.Keys <= s.used && LetThrough(s, id, found)
    requires result == GateFailed(true) && !RollbackUnderWay(s.jobs, s.jobs[id].resourceId)
    requires ended == s.(phase := Resolving(id))
    requires rollbackId.Some? ==> rollbackId.value !in s.used
    ensures var u := Step(Step(ended, TargetResolved(rollbackId)), Handlers.BurnRetries);
            && u.phase == Throwing(id) && u.degraded == s.degraded
            && AnsweredJobs(s, id, found, result, rollbackId, u.jobs)
  {
  }

  ghost predicate Shows(db: Database, s: System)
    reads db
  {
    db.jobs == s.jobs && db.degraded == s.degraded
  }

  method HandleDeploy(queue: Queues.Queue, id: int, found: bool, result: DeployResult, rollbackId: Option<int>,
                      ghost s: System, now: int)
    returns (threw: bool)
    requires Shows(queue.db, s) && s.now == now && s.phase == Entered(id) && s.jobs.Keys <= s.used
    requires id in s.jobs && s.jobs[id].kind == Deploy
    requires rollbackId.Some? ==> rollbackId.value !in s.used
    modifies queue.db`jobs, queue.db`deployments
    ensures Shows(queue.db, DeployHandled(s, found, result, rollbackId))
    ensures DeployHandled(s, found, result, rollbackId).phase == if threw then Throwing(id) else Returning(id)
    ensures !threw <==> LetThrough(s, id, found) && result == Deployed
    ensures AnsweredJobs(s, id, found, result, rollbackId, queue.db.jobs)
    ensures var was := old(queue.db.deployments);
            queue.db.deployments == if !found then was
                                    else if s.jobs[id].resourceId in s.degraded then was[id := Broken]
                                    else if id in was then was else was[id := Started]
  {
    var db := queue.db;
    DeployAnswers(s, id, found, result, rollbackId);
    ghost var entered := Step(s, Enter(found, true));
    if entered.phase.Throwing? { OverStaysOver(entered, result, rollbackId); }
    if !found {
      return true;
    }
    var service := db.jobs[id].resourceId;
    if id !in db.deployments {
      db.deployments := db.deployments[id := Started];
    }
    if service in db.degraded {
      queue.NoRetry(id);
      db.deployments := db.deployments[id := Broken];
      return true;
    }
    threw := FinishDeploy(queue, id, service, result, rollbackId, Step(s, Enter(true, true)), now);
  }

  /** The deploy's result, and what the handler does about a failed step. */
  method FinishDeploy(queue: Queues.Queue, id: int, service: string, result: DeployResult, rollbackId: Option<int>,
                      ghost s: System, now: int)
    returns (threw: bool)
    requires Shows(queue.db, s) && s.now == now && s.phase == Deploying(id) && s.jobs.Keys <= s.used
    requires id in s.jobs && s.jobs[id].resourceId == service
    requires rollbackId.Some? ==> rollbackId.value !in s.used
    modifies queue.db`jobs
    ensures Shows(queue.db, AfterGate(s, result, rollbackId))
    ensures AfterGate(s, result, rollbackId).phase == if threw then Throwing(id) else Returning(id)
  {
    ghost var ended := Step(s, DeployEnds(result));
    if ended.phase.Throwing? || ended.phase.Returning? { OverStaysOver(ended, result, rollbackId); }
    match result {
      case Deployed => return false;
      case EnvGuardFailed =>
        queue.NoRetry(id);
      case GateFailed(auto) =>
        if auto {
          threw := AutoRollback(queue, id, service, rollbackId, ended, now);
        }
      case OtherStepFailed =>
    }
    threw := true;
  }

  /** The auto-rollback branch of the deploy handler. */
  method AutoRollback(queue: Queues.Queue, id: int, service: string, rollbackId: Option<int>, ghost s: System, now: int)
    returns (threw: bool)
    requires id in queue.db.jobs && queue.db.jobs[id].resourceId == service
    requires s.phase == Resolving(id) || s.phase == Throwing(id)
    requires s.now == now && s.degraded == queue.db.degraded && queue.db.jobs.Keys <= s.used
    requires rollbackId.Some? ==> rollbackId.value !in s.used
    requires if Jobs.HasActiveJob(queue.db.jobs, service, IsRollback)
             then s.phase.Throwing? && s.jobs == Jobs.NoRetry(queue.db.jobs, id)
             else s.phase.Resolving? && s.jobs == queue.db.jobs
    modifies queue.db`jobs
    ensures Shows(queue.db, Step(Step(s, TargetResolved(rollbackId)), Handlers.BurnRetries))
    ensures threw && Step(Step(s, TargetResolved(rollbackId)), Handlers.BurnRetries).phase == Throwing(id)
  {
    // Never stack a second rollback while one is queued or running.
    if Jobs.HasActiveJob(queue.db.jobs, service, IsRollback) {
      queue.NoRetry(id);
      return true;
    }
    if rollbackId.Some? {
      var r := queue.Enqueue(RollbackInput(rollbackId.value, service), now);
      queue.NoRetry(id);
    }
    threw := true;
  }

  // ------------------------------------------------------------------
  // Rollback
  // ------------------------------------------------------------------

  datatype RollbackPayload = RollbackPayload(expectedTag: Option<string>, previousRevision: Option<nat>, auto: bool)

  /** What a finished rollback records as the current tag. */
  datatype FinalTag = Image(tag: string) | Revision(number: nat) | UnknownRevision

  function Render(t: FinalTag): string {
    match t
    case Image(tag) => tag
    case Revision(n) => "rollback-rev-" + Text.Decimal(n)
    case UnknownRevision => "rollback-rev-unknown"
  }

  function ChooseFinalTag(p: RollbackPayload, resulting: Option<string>): FinalTag {
    if p.expectedTag.Some? && p.expectedTag.value != "" then
      if resulting == p.expectedTag then Image(p.expectedTag.value)
      else if p.previousRevision.Some? then Revision(p.previousRevision.value)
      else if resulting.Some? then Image(resulting.value) else UnknownRevision
    else if resulting.Some? then Image(resulting.value)
    else if p.previousRevision.Some? then Revision(p.previousRevision.value)
    else UnknownRevision
  }

  /** An image tag is recorded only when the cluster reported exactly that tag; an expectation the cluster
      did not confirm is never recorded. */
  lemma FinalTagIsWhatRuns(p: RollbackPayload, resulting: Option<string>)
    ensures var t := ChooseFinalTag(p, resulting);
            && (t.Image? ==> resulting == Some(t.tag))
            && (resulting.None? && p.previousRevision.None? <==> t.UnknownRevision?)
            && (resulting.Some? && p.expectedTag == resulting ==> t == Image(resulting.value))
  {
  }

  /** What is recorded as running: the image the cluster reports, if it is the expected one or none was expected;
      failing that the revision rolled back to; and only without one whatever image was reported. */
  lemma RecordedTag(p: RollbackPayload, resulting: Option<string>)
    ensures var expected := if p.expectedTag.Some? then p.expectedTag.value else "";
            var tag := Render(ChooseFinalTag(p, resulting));
            && (resulting.Some? && expected in {"", resulting.value} ==> tag == resulting.value)
            && (!(resulting.Some? && expected in {"", resulting.value}) ==>
                  tag == if p.previousRevision.Some? then "rollback-rev-" + Text.Decimal(p.previousRevision.value)
                         else if resulting.Some? then resulting.value else "rollback-rev-unknown")
  {
  }

  /** One transaction: the fenced tag write, the terminal status, the degraded mark. */
  method FinalizeRollback(db: Database, service: string, tag: string, token: int, id: int, now: int)
    modifies db`current, db`deployments, db`degraded
    ensures db.current == Fencing.FencedSet(old(db.current), service, tag, token, now).0
    ensures var was := old(db.deployments); db.deployments == if id in was then was[id := Succeeded] else was
    ensures db.degraded == old(db.degraded) - {service}
  {
    var applied := Fencing.FencedSetCurrent(db, service, tag, token, now);
    if id in db.deployments {
      db.deployments := db.deployments[id := Succeeded];
    }
    db.degraded := db.degraded - {service};
  }

  /** The rollback handler: undo, wait for the rollout, read the image tag, finalize. */
  method HandleRollback(db: Database, id: int, payload: RollbackPayload, found: bool, undone: bool, rolledOut: bool,
                        resulting: Option<string>, token: int, now: int)
    returns (threw: bool)
    requires id in db.jobs && db.jobs[id].kind == Rollback(payload.auto)
    modifies db`current, db`deployments, db`degraded
    ensures threw <==> !(found && undone && rolledOut)
    ensures var (service, tag) := (old(db.jobs)[id].resourceId, Render(ChooseFinalTag(payload, resulting)));
            if threw then
              && db.current == old(db.current)
              && db.deployments == (if found then old(db.deployments)[id := Applying] else old(db.deployments))
              && db.degraded == old(db.degraded) + if payload.auto then {service} else {}
            else
              && db.current == Fencing.FencedSet(old(db.current), service, tag, token, now).0
              && db.deployments == old(db.deployments)[id := Succeeded]
              && db.degraded == old(db.degraded) - {service}
  {
    var service := db.jobs[id].resourceId;
    if found {
      db.deployments := db.deployments[id := Applying];
      if undone && rolledOut {
        FinalizeRollback(db, service, Render(ChooseFinalTag(payload, resulting)), token, id, now);
        return false;
      }
    }
    if payload.auto {
      db.degraded := db.degraded + {service};
    }
    threw := true;
  }

  /** The rollback handler moves the degraded marks as `Handlers` says. */
  lemma RollbackMarksMatch(s: System, id: int, ok: bool)
    requires s.phase == Entered(id) && id in s.jobs && s.jobs[id].kind.Rollback?
    ensures var u := Step(Step(s, Enter(true, true)), RevertEnds(ok));
            var service := s.jobs[id].resourceId;
            && u.jobs == s.jobs
            && u.phase == (if ok then Returning(id) else Throwing(id))
            && u.degraded == if ok then s.degraded - {service}
                             else s.degraded + if s.jobs[id].kind.auto then {service} else {}
  {
  }
}
