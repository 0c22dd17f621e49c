/** Attempts and handler starts over all interleavings of the worker protocol (src/queue/worker.ts:104-145,
    src/queue/queue.ts). */
module WorkerStarts {
  import opened Wrappers
  import opened Tables
  import opened Workers
  import Jobs

  // ------------------------------------------------------------------
  // Attempts
  // ------------------------------------------------------------------

  predicate BoundOk(s: System, id: int) {
    id in s.jobs ==>
      && id in s.granted
      && var row, max := s.jobs[id], s.granted[id];
         row.attempts <= max && row.maxAttempts <= max && (row.state == Pending ==> row.attempts < max)
  }

  /** What a worker between the two statements of `fail` decided on: when it still leases the job, the attempts
      are those it saw, and it retries only below the grant. */
  predicate FailingOk(s: System, w: string) {
    var p := s.PhaseOf(w);
    p.Failing? ==>
      && p.id in s.granted
      && (p.retry ==> p.attempts < s.granted[p.id])
      && (Jobs.OwnerGuard(s.jobs, p.id, Some(w)) ==> s.jobs[p.id].attempts == p.attempts)
  }

  ghost predicate AttemptsInv(s: System) {
    (forall id :: BoundOk(s, id)) && (forall w :: FailingOk(s, w))
  }

  /** The steps by which a worker moves its own job. */
  predicate OfTheQueue(e: Event) {
    e.Claim? || e.Defer? || e.RecordToken? || e.Beat? || e.BurnRetries? || e.Complete? || e.RecordFailure?
  }

  lemma QueueStepKeepsBound(s: System, e: Event, id: int)
    requires BoundOk(s, id) && OfTheQueue(e) && (e.RecordFailure? ==> FailingOk(s, e.worker))
    ensures BoundOk(Step(s, e), id)
  {
  }

  lemma OtherStepKeepsBound(s: System, e: Event, id: int)
    requires BoundOk(s, id) && !OfTheQueue(e)
    ensures BoundOk(Step(s, e), id)
  {
  }

  lemma RecordKeepsFailing(s: System, v: string, w: string)
    requires FailingOk(s, w)
    ensures FailingOk(Step(s, RecordFailure(v)), w)
  {
  }

  lemma QueueStepKeepsFailing(s: System, e: Event, w: string)
    requires FailingOk(s, w) && OfTheQueue(e) && !e.RecordFailure?
    ensures FailingOk(Step(s, e), w)
  {
  }

  lemma OtherStepKeepsFailing(s: System, e: Event, w: string)
    requires AttemptsInv(s) && !OfTheQueue(e)
    ensures FailingOk(Step(s, e), w)
  {
    assert FailingOk(s, w);
    if e.ReadJob? && s.PhaseOf(e.worker).Handling? { assert BoundOk(s, s.PhaseOf(e.worker).id); }
  }

  lemma StepKeepsAttempts(s: System, e: Event)
    requires AttemptsInv(s)
    ensures AttemptsInv(Step(s, e))
  {
    hide Step, BoundOk, FailingOk;
    forall id ensures BoundOk(Step(s, e), id) {
      if OfTheQueue(e) { QueueStepKeepsBound(s, e, id); } else { OtherStepKeepsBound(s, e, id); }
    }
    forall w ensures FailingOk(Step(s, e), w) {
      if e.RecordFailure? {
        RecordKeepsFailing(s, e.worker, w);
      } else if OfTheQueue(e) {
        QueueStepKeepsFailing(s, e, w);
      } else {
        OtherStepKeepsFailing(s, e, w);
      }
    }
  }

  /** In every interleaving, including deferrals, retry burning and heartbeats by workers that were
      reaped long ago, no job is attempted more often than it was submitted for. */
  lemma {:induction false} AttemptsNeverExceedTheGrant(leaseMs: int, events: seq<Event>)
    ensures AttemptsInv(Run(Boot(leaseMs), events))
  {
    if events != [] {
      AttemptsNeverExceedTheGrant(leaseMs, events[..|events| - 1]);
      StepKeepsAttempts(Run(Boot(leaseMs), events[..|events| - 1]), events[|events| - 1]);
    }
  }

  // ------------------------------------------------------------------
  // Handler starts
  // ------------------------------------------------------------------

  /** The step takes a worker into the handler of job `id`. */
  predicate StartsJob(s: System, e: Event, id: int) {
    e.RecordToken? && s.PhaseOf(e.worker).Locked? && s.PhaseOf(e.worker).id == id
  }

  /** How often a run enters the handler of job `id`. */
  function Starts(leaseMs: int, events: seq<Event>, id: int): nat {
    if events == [] then 0
    else
      var before := events[..|events| - 1];
      Starts(leaseMs, before, id) + if StartsJob(Run(Boot(leaseMs), before), events[|events| - 1], id) then 1 else 0
  }

  /** The workers that claimed job `id` and have neither entered its handler nor given it back. */
  function Undecided(phases: map<string, Phase>, id: int): set<string> {
    set w | w in phases && phases[w].Synchronous() && phases[w].id == id
  }

  function Joins(p: Phase, id: int): nat { if p.Synchronous() && p.id == id then 1 else 0 }

  lemma UndecidedAfterGoto(phases: map<string, Phase>, w: string, p: Phase, id: int)
    ensures var was := if w in phases then phases[w] else Idle;
            |Undecided(phases[w := p], id)| == |Undecided(phases, id)| - Joins(was, id) + Joins(p, id)
  {
    var (before, after) := (Undecided(phases, id), Undecided(phases[w := p], id));
    WithOrWithout(before, w);
    WithOrWithout(after, w);
    assert after - {w} == before - {w};
  }

  lemma WithOrWithout(s: set<string>, w: string)
    ensures |s| == |s - {w}| + if w in s then 1 else 0
  {
    if w !in s { assert s - {w} == s; }
  }

  /** The steps that take a worker from one phase to another. */
  predicate MovesWorker(e: Event) {
    || e.Claim? || e.ReadLock? || e.WriteLock? || e.Defer? || e.RecordToken?
    || e.Complete? || e.ReadJob? || e.RecordFailure? || e.ReleaseLock? || e.Restart?
  }

  /** What a job still allows: its attempts, or the whole grant when it was cancelled. */
  function Allowance(s: System, id: int): int {
    if id in s.jobs then s.jobs[id].attempts else if id in s.granted then s.granted[id] else 0
  }

  predicate StartsOk(s: System, starts: nat, id: int) {
    starts + |Undecided(s.phases, id)| <= Allowance(s, id)
  }

  /** A claim adds a worker and an attempt, a deferral takes both back, and entering the handler turns the
      worker into a start: the attempts cover all of them, however late a deferral comes. */
  lemma StepKeepsStarts(s: System, e: Event, starts: nat, id: int)
    requires BoundOk(s, id) && StartsOk(s, starts, id)
    ensures StartsOk(Step(s, e), starts + if StartsJob(s, e, id) then 1 else 0, id)
  {
    var u := Step(s, e);
    if MovesWorker(e) {
      MoveCounts(s, e, id);
      MoveAllows(s, e, id);
    } else {
      StayCounts(s, e, id);
      StayAllows(s, e, id);
    }
  }

  lemma StayCounts(s: System, e: Event, id: int)
    requires !MovesWorker(e)
    ensures Step(s, e).phases == s.phases
  {
  }

  lemma StayAllows(s: System, e: Event, id: int)
    requires !MovesWorker(e)
    requires BoundOk(s, id) && Allowance(s, id) >= 0
    ensures Allowance(Step(s, e), id) >= Allowance(s, id)
            || (e.Submit? && e.id == id && id !in s.granted && Allowance(s, id) == 0 && Allowance(Step(s, e), id) == 0)
  {
  }

  lemma MoveCounts(s: System, e: Event, id: int)
    requires MovesWorker(e)
    ensures |Undecided(Step(s, e).phases, id)|
         == |Undecided(s.phases, id)| - Joins(s.PhaseOf(e.worker), id) + Joins(Step(s, e).PhaseOf(e.worker), id)
  {
    hide Undecided, Joins;
    var u := Step(s, e);
    if u.phases != s.phases {
      UndecidedAfterGoto(s.phases, e.worker, u.PhaseOf(e.worker), id);
      assert u.phases == s.phases[e.worker := u.PhaseOf(e.worker)];
    }
  }

  /** What the step adds to the workers and starts of a job, its attempts cover. */
  predicate Covers(s: System, e: Event, id: int)
    requires MovesWorker(e)
  {
    var (was, now) := (Joins(s.PhaseOf(e.worker), id), Joins(Step(s, e).PhaseOf(e.worker), id));
    now - was + (if StartsJob(s, e, id) then 1 else 0) <= Allowance(Step(s, e), id) - Allowance(s, id)
  }

  lemma QueueMoveAllows(s: System, e: Event, id: int)
    requires MovesWorker(e) && OfTheQueue(e)
    ensures Covers(s, e, id)
  {
  }

  lemma OtherMoveAllows(s: System, e: Event, id: int)
    requires MovesWorker(e) && !OfTheQueue(e)
    ensures Covers(s, e, id)
  {
  }

  lemma MoveAllows(s: System, e: Event, id: int)
    requires MovesWorker(e)
    ensures Covers(s, e, id)
  {
    if OfTheQueue(e) { QueueMoveAllows(s, e, id); } else { OtherMoveAllows(s, e, id); }
  }

  lemma {:induction false} StartsStayOk(leaseMs: int, events: seq<Event>, id: int)
    ensures StartsOk(Run(Boot(leaseMs), events), Starts(leaseMs, events, id), id)
  {
    if events == [] {
      assert Undecided(map[], id) == {};
    } else {
      var before, e := events[..|events| - 1], events[|events| - 1];
      StartsStayOk(leaseMs, before, id);
      AttemptsNeverExceedTheGrant(leaseMs, before);
      assert BoundOk(Run(Boot(leaseMs), before), id);
      StepKeepsStarts(Run(Boot(leaseMs), before), e, Starts(leaseMs, before, id), id);
    }
  }

  /** In every interleaving of any workers, with stalled deferrals, cancellations, crashes and reaping: the
      handler of a job is entered at most as often as the job was submitted for, and never before. */
  lemma StartsNeverExceedTheGrant(leaseMs: int, events: seq<Event>, id: int)
    ensures var s := Run(Boot(leaseMs), events);
            Starts(leaseMs, events, id) <= if id in s.granted then s.granted[id] else 0
  {
    StartsStayOk(leaseMs, events, id);
    AttemptsNeverExceedTheGrant(leaseMs, events);
    assert BoundOk(Run(Boot(leaseMs), events), id);
  }

  /** A worker that is about to give a claim back finds an attempt to take back. */
  lemma DeferralFindsAnAttempt(leaseMs: int, events: seq<Event>, w: string)
    ensures var s := Run(Boot(leaseMs), events); var p := s.PhaseOf(w);
            p.Contended? && p.id in s.jobs ==> s.jobs[p.id].attempts >= 1
  {
    var s := Run(Boot(leaseMs), events);
    var p := s.PhaseOf(w);
    if p.Contended? {
      StartsStayOk(leaseMs, events, p.id);
      WithOrWithout(Undecided(s.phases, p.id), w);
    }
  }
}
