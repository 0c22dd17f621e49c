/** The deploy and rollback handlers under one worker (src/queue/handlers/deploy.ts and rollback.ts).

    The code between two `await`s is one step; requests, the clock and the death of the worker come in
    between. kubectl and the deployer are oracles: their answers are part of the events. */
module Handlers {
  import opened Wrappers
  import opened Tables
  import Jobs

  const WORKER := "worker"
  const AUTO_ROLLBACK_GRACE_MS := 10_000

  datatype DeployResult =
    | Deployed
    | EnvGuardFailed                      // a TERMINAL_STEPS step failed first
    | GateFailed(autoRollback: bool)      // health gate; whether the service is set up for auto-rollback
    | OtherStepFailed

  datatype Phase =
    | Idle
    | Claimed(id: int)
    | Entered(id: int)
    | Deploying(id: int)                  // awaiting the deployer
    | Resolving(id: int)                  // awaiting the rollback target
    | RollbackQueued(id: int)             // auto-rollback inserted, retries not yet burned
    | Reverting(id: int)                  // awaiting kubectl
    | Throwing(id: int)
    | Returning(id: int)
  {
    predicate On(job: int) { !Idle? && id == job }
  }

  /** `doomed` remembers the jobs whose handler decided that the attempt is the last one. */
  datatype System = System(
    now: int,
    jobs: JobTable,
    degraded: set<string>,
    phase: Phase,
    used: set<int>,
    doomed: set<int>)

  datatype Event =
    | Elapse(ms: nat)
    | Submit(id: int, kind: JobKind, resource: string, maxAttempts: int, delayMs: int)
    | Cancel(id: int)
    | Undegrade(service: string)
    | Crash
    | Poll(leaseMs: int)
    | LockBusy(delayMs: int)
    | LockTaken
    | Enter(found: bool, ok: bool)
    | DeployEnds(result: DeployResult)
    | TargetResolved(rollbackId: Option<int>)
    | BurnRetries
    | RevertEnds(ok: bool)
    | Settle(error: string)

  const Boot := System(0, map[], {}, Idle, {}, {})

  predicate IsRollback(k: JobKind) { k.Rollback? }

  predicate RollbackActive(s: System, service: string) {
    Jobs.HasActiveJob(s.jobs, service, IsRollback)
  }

  /** `noRetry`, then throw. */
  function Doom(s: System, id: int): System {
    s.(jobs := Jobs.NoRetry(s.jobs, id), doomed := s.doomed + {id}, phase := Throwing(id))
  }

  function RollbackInput(rollbackId: int, service: string): Jobs.EnqueueInput {
    Jobs.EnqueueInput(Rollback(true), service, None, Some(rollbackId), Some(AUTO_ROLLBACK_GRACE_MS))
  }

  /** An automatic rollback that fails leaves the service degraded. */
  function RollbackThrows(s: System, id: int): System
    requires id in s.jobs
  {
    var job := s.jobs[id];
    s.(phase := Throwing(id),
       degraded := if job.kind == Rollback(true) then s.degraded + {job.resourceId} else s.degraded)
  }

  function EnterHandler(s: System, id: int, found: bool, ok: bool): System
    requires id in s.jobs
  {
    match s.jobs[id].kind
    case Deploy =>
      if !found then s.(phase := Throwing(id))
      else if s.jobs[id].resourceId in s.degraded then Doom(s, id)
      else s.(phase := Deploying(id))
    case Rollback(_) => if !found then RollbackThrows(s, id) else s.(phase := Reverting(id))
    case OtherKind(_) => s.(phase := if ok then Returning(id) else Throwing(id))
  }

  function AfterDeploy(s: System, id: int, result: DeployResult): System
    requires id in s.jobs
  {
    match result
    case Deployed => s.(phase := Returning(id))
    case EnvGuardFailed => Doom(s, id)
    case GateFailed(auto) =>
      if !auto then s.(phase := Throwing(id))
      else if RollbackActive(s, s.jobs[id].resourceId) then Doom(s, id)
      else s.(phase := Resolving(id))
    case OtherStepFailed => s.(phase := Throwing(id))
  }

  function Step(s: System, e: Event): System {
    match e
    case Elapse(ms) => s.(now := s.now + ms)
    case Submit(id, kind, resource, max, delay) =>
      if id in s.used || max < 1 || kind == Rollback(true) then s
      else
        s.(jobs := Jobs.Enqueue(s.jobs, Jobs.EnqueueInput(kind, resource, Some(max), Some(id), Some(delay)), s.now).0,
           used := s.used + {id})
    case Cancel(id) => s.(jobs := Jobs.CancelPending(s.jobs, id).0)
    case Undegrade(service) => s.(degraded := s.degraded - {service})
    case Crash => if s.phase.Idle? then s else s.(phase := Idle, doomed := s.doomed - {s.phase.id})
    case Poll(lease) =>
      if !s.phase.Idle? then s
      else
        var (jobs, taken) := Jobs.Claim(Jobs.Reap(s.jobs, s.now), WORKER, lease, s.now);
        s.(jobs := jobs, phase := if taken.Some? then Claimed(taken.value) else Idle)
    case LockBusy(delay) =>
      if !s.phase.Claimed? then s
      else s.(jobs := Jobs.DeferClaim(s.jobs, s.phase.id, delay, s.now), phase := Idle)
    case LockTaken => if !s.phase.Claimed? then s else s.(phase := Entered(s.phase.id))
    case Enter(found, ok) =>
      if !s.phase.Entered? || s.phase.id !in s.jobs then s else EnterHandler(s, s.phase.id, found, ok)
    case DeployEnds(result) =>
      if !s.phase.Deploying? || s.phase.id !in s.jobs then s else AfterDeploy(s, s.phase.id, result)
    case TargetResolved(rollbackId) =>
      if !s.phase.Resolving? || s.phase.id !in s.jobs then s
      else if rollbackId.None? || rollbackId.value in s.used then s.(phase := Throwing(s.phase.id))
      else
        s.(jobs := Jobs.Enqueue(s.jobs, RollbackInput(rollbackId.value, s.jobs[s.phase.id].resourceId), s.now).0,
           used := s.used + {rollbackId.value},
           doomed := s.doomed + {s.phase.id},
           phase := RollbackQueued(s.phase.id))
    case BurnRetries => if !s.phase.RollbackQueued? then s else Doom(s, s.phase.id)
    case RevertEnds(ok) =>
      if !s.phase.Reverting? || s.phase.id !in s.jobs then s
      else if ok then s.(phase := Returning(s.phase.id), degraded := s.degraded - {s.jobs[s.phase.id].resourceId})
      else RollbackThrows(s, s.phase.id)
    case Settle(error) =>
      if s.phase.Throwing?
      then s.(jobs := Jobs.Fail(s.jobs, s.phase.id, error, Some(WORKER), s.now).0, phase := Idle)
      else if s.phase.Returning? then s.(jobs := Jobs.Complete(s.jobs, s.phase.id, Some(WORKER)), phase := Idle)
      else s
  }

  function Run(s: System, events: seq<Event>): System {
    if events == [] then s else Step(Run(s, events[..|events| - 1]), events[|events| - 1])
  }

  // ------------------------------------------------------------------
  // One automatic rollback at a time
  // ------------------------------------------------------------------

  predicate ActiveAuto(s: System, id: int, service: string) {
    id in s.jobs && s.jobs[id].kind == Rollback(true) && s.jobs[id].resourceId == service && Jobs.Active(s.jobs[id])
  }

  ghost predicate AtMostOneAuto(s: System) {
    forall service, i, j :: ActiveAuto(s, i, service) && ActiveAuto(s, j, service) ==> i == j
  }

  /** The job in hand is running under this worker's lease; a deploy phase is on a deploy job. */
  predicate HandOk(s: System) {
    !s.phase.Idle? ==>
      && s.phase.id in s.jobs
      && s.jobs[s.phase.id].state == Running
      && s.jobs[s.phase.id].leaseHolder == Some(WORKER)
      && (s.phase.Deploying? || s.phase.Resolving? || s.phase.RollbackQueued? ==> s.jobs[s.phase.id].kind == Deploy)
  }

  /** No automatic rollback is active while the handler looks for a rollback target. */
  ghost predicate ResolvingOk(s: System) {
    s.phase.Resolving? && s.phase.id in s.jobs ==> forall i :: !ActiveAuto(s, i, s.jobs[s.phase.id].resourceId)
  }

  /** A doomed job has failed for good, or is the one in hand on its way there. */
  predicate DoomedOk(s: System, id: int) {
    id in s.doomed ==>
      && id in s.jobs
      && (s.jobs[id].state == Failed
          || (s.phase == RollbackQueued(id))
          || (s.phase == Throwing(id) && s.jobs[id].attempts >= s.jobs[id].maxAttempts))
  }

  ghost predicate Inv(s: System) {
    && s.jobs.Keys <= s.used
    && HandOk(s)
    && AtMostOneAuto(s)
    && ResolvingOk(s)
    && forall id :: DoomedOk(s, id)
  }

  /** Steps that only move the worker, or only touch the marks, keep the rollbacks as they were. */
  lemma StepKeepsHand(s: System, e: Event)
    requires Inv(s)
    ensures Step(s, e).jobs.Keys <= Step(s, e).used && HandOk(Step(s, e))
  {
  }

  /** Every active automatic rollback was active before, unless this step enqueued it. */
  lemma NewAutosComeFromResolving(s: System, e: Event, i: int, service: string)
    requires Inv(s) && ActiveAuto(Step(s, e), i, service)
    ensures ActiveAuto(s, i, service)
            || (e.TargetResolved? && s.phase.Resolving? && e.rollbackId == Some(i) && i !in s.used
                && service == s.jobs[s.phase.id].resourceId && Step(s, e).phase.RollbackQueued?)
  {
  }

  lemma StepKeepsAutos(s: System, e: Event)
    requires Inv(s)
    ensures AtMostOneAuto(Step(s, e)) && ResolvingOk(Step(s, e))
  {
    var u := Step(s, e);
    StepKeepsHand(s, e);
    forall service, i, j | ActiveAuto(u, i, service) && ActiveAuto(u, j, service) ensures i == j {
      NewAutosComeFromResolving(s, e, i, service);
      NewAutosComeFromResolving(s, e, j, service);
    }
    if u.phase.Resolving? {
      var service := u.jobs[u.phase.id].resourceId;
      forall i ensures !ActiveAuto(u, i, service) {
        if ActiveAuto(u, i, service) {
          NewAutosComeFromResolving(s, e, i, service);
        }
      }
    }
  }

  lemma StepKeepsDoomed(s: System, e: Event)
    requires Inv(s)
    ensures forall id :: DoomedOk(Step(s, e), id)
  {
    var u := Step(s, e);
    forall id ensures DoomedOk(u, id) { assert DoomedOk(s, id); }
  }

  lemma {:induction false} Reachable(events: seq<Event>)
    ensures Inv(Run(Boot, events))
  {
    if events != [] {
      var before, e := events[..|events| - 1], events[|events| - 1];
      Reachable(before);
      StepKeepsHand(Run(Boot, before), e);
      StepKeepsAutos(Run(Boot, before), e);
      StepKeepsDoomed(Run(Boot, before), e);
    }
  }

  /** However deploys fail, rollbacks are cancelled and the worker dies and restarts, a service never has
      two automatic rollbacks queued or running. */
  lemma OneAutoRollbackPerService(events: seq<Event>, service: string, i: int, j: int)
    requires ActiveAuto(Run(Boot, events), i, service) && ActiveAuto(Run(Boot, events), j, service)
    ensures i == j
  {
    Reachable(events);
  }

  // ------------------------------------------------------------------
  // Doomed deploys
  // ------------------------------------------------------------------

  lemma DoomedJobIsLeftAlone(s: System, e: Event, id: int)
    requires Inv(s) && id in s.doomed && (e.Crash? ==> !s.phase.On(id))
    ensures var u := Step(s, e);
            id in u.doomed && id in s.jobs && id in u.jobs && u.jobs[id].attempts == s.jobs[id].attempts
            && (s.jobs[id].state == Failed ==> u.jobs[id].state == Failed && !u.phase.On(id))
  {
    assert DoomedOk(s, id);
  }

  /** From event `i` on, the worker does not die while this very job is in hand. */
  ghost predicate SurvivesJob(events: seq<Event>, i: nat, id: int) {
    forall k :: i <= k < |events| && events[k].Crash? ==> !Run(Boot, events[..k]).phase.On(id)
  }

  lemma SurvivesPrefix(events: seq<Event>, i: nat, id: int)
    requires events != [] && SurvivesJob(events, i, id)
    ensures SurvivesJob(events[..|events| - 1], i, id)
  {
    var before := events[..|events| - 1];
    forall k | i <= k < |before| && before[k].Crash? ensures !Run(Boot, before[..k]).phase.On(id) {
      assert before[..k] == events[..k] && events[k].Crash?;
    }
  }

  /** A deploy that enqueued a rollback, found one active, was refused by the degraded gate or by the env
      guard is never claimed again, and once the worker lets go of it, it is `failed`, unless the
      worker dies with that job in hand; it may die with any other. */
  lemma {:induction false} DoomedDeployFailsForGood(events: seq<Event>, i: nat, id: int)
    requires i <= |events| && id in Run(Boot, events[..i]).doomed
    requires SurvivesJob(events, i, id)
    ensures var at, end := Run(Boot, events[..i]), Run(Boot, events);
            && id in at.jobs && id in end.doomed && id in end.jobs
            && end.jobs[id].attempts == at.jobs[id].attempts
            && (end.jobs[id].state == Failed || end.phase.On(id))
    decreases |events|
  {
    Reachable(events);
    assert DoomedOk(Run(Boot, events), id);
    if i == |events| {
      assert events[..i] == events;
    } else {
      var n := |events| - 1;
      var before := events[..n];
      assert before[..i] == events[..i];
      SurvivesPrefix(events, i, id);
      DoomedDeployFailsForGood(before, i, id);
      Reachable(before);
      assert events[n].Crash? ==> !Run(Boot, events[..n]).phase.On(id);
      DoomedJobIsLeftAlone(Run(Boot, before), events[n], id);
    }
  }

  // ------------------------------------------------------------------
  // Never claimed again
  // ------------------------------------------------------------------

  /** The job has ended, or it runs with no attempt left, or is about to lose those it has. */
  predicate Spent(s: System, id: int) {
    && id in s.jobs && s.jobs[id].state != Pending
    && (s.phase.On(id) ==> s.phase.RollbackQueued? || s.phase.Throwing?)
    && (s.jobs[id].state == Running && s.phase != RollbackQueued(id) ==> s.jobs[id].attempts >= s.jobs[id].maxAttempts)
  }

  lemma DoomedIsSpent(s: System, id: int)
    requires Inv(s) && id in s.doomed
    ensures Spent(s, id)
  {
    assert DoomedOk(s, id);
  }

  lemma SpentStaysSpent(s: System, e: Event, id: int)
    requires Inv(s) && Spent(s, id) && !(e.Crash? && s.phase == RollbackQueued(id))
    ensures Spent(Step(s, e), id) && Step(s, e).jobs[id].attempts == s.jobs[id].attempts
  {
  }

  /** From event `i` on, the worker does not die between enqueueing the rollback and burning the retries. */
  ghost predicate BurnsRetries(events: seq<Event>, i: nat, id: int) {
    forall k :: i <= k < |events| && events[k].Crash? ==> Run(Boot, events[..k]).phase != RollbackQueued(id)
  }

  lemma BurnsPrefix(events: seq<Event>, i: nat, id: int)
    requires events != [] && BurnsRetries(events, i, id)
    ensures BurnsRetries(events[..|events| - 1], i, id)
  {
    var before := events[..|events| - 1];
    forall k | i <= k < |before| && before[k].Crash? ensures Run(Boot, before[..k]).phase != RollbackQueued(id) {
      assert before[..k] == events[..k] && events[k].Crash?;
    }
  }

  /** Such a deploy is never claimed again, however often the worker dies, with this job in hand too, as long
      as it does not die in the one gap between enqueueing the rollback and burning the retries. */
  lemma {:induction false} DoomedDeployIsNeverClaimed(events: seq<Event>, i: nat, id: int)
    requires i <= |events| && id in Run(Boot, events[..i]).doomed
    requires BurnsRetries(events, i, id)
    ensures var at, end := Run(Boot, events[..i]), Run(Boot, events);
            && Spent(at, id) && Spent(end, id) && end.jobs[id].attempts == at.jobs[id].attempts
            && end.phase != Claimed(id)
    decreases |events|
  {
    Reachable(events);
    if i == |events| {
      assert events[..i] == events;
      DoomedIsSpent(Run(Boot, events), id);
    } else {
      var n := |events| - 1;
      var before := events[..n];
      assert before[..i] == events[..i];
      BurnsPrefix(events, i, id);
      DoomedDeployIsNeverClaimed(before, i, id);
      Reachable(before);
      assert events[n].Crash? ==> Run(Boot, events[..n]).phase != RollbackQueued(id);
      SpentStaysSpent(Run(Boot, before), events[n], id);
    }
  }

  /** Letting go of a doomed job records it as failed. */
  lemma DoomedJobSettlesFailed(s: System, id: int, error: string)
    requires Inv(s) && id in s.doomed && s.phase == Throwing(id)
    ensures id in Step(s, Settle(error)).jobs && Step(s, Settle(error)).jobs[id].state == Failed
  {
    assert DoomedOk(s, id);
  }
}
