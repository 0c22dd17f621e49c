/** Pieces of runs that get a worker somewhere (src/queue/worker.ts:104-118), for the concrete interleavings of
    the other modules. */
module WorkerMoves {
  import opened Wrappers
  import opened Tables
  import opened Workers
  import Jobs
  import Locks

  /** Job `id` is the one to claim. */
  predicate NextDue(s: System, id: int) {
    && id in s.jobs && Jobs.Due(s.jobs[id], s.now)
    && forall k :: k in s.jobs && Jobs.Due(s.jobs[k], s.now) ==> id <= k
  }

  function ClaimedRow(row: JobRow, w: string, until: int): JobRow {
    row.(state := Running, leaseUntil := Some(until), leaseHolder := Some(w), attempts := row.attempts + 1)
  }

  lemma Claims(s: System, w: string, id: int)
    requires s.PhaseOf(w).Idle? && NextDue(s, id)
    ensures Step(s, Claim(w))
         == s.(jobs := s.jobs[id := ClaimedRow(s.jobs[id], w, s.now + s.leaseMs)])
             .Goto(w, Claimed(id, s.jobs[id].resourceId))
  {
    assert id in Jobs.DueIds(s.jobs, s.now);
  }

  /** The lock of a service, given to `w`. */
  function NextLock(s: System, w: string, resource: string): Locks.Lock {
    var key := Jobs.ResourceKey(resource);
    Locks.Lock(key, w, Locks.TokenOf(s.locks, key) + 1, s.now + s.leaseMs)
  }

  function RowOf(lock: Locks.Lock): LockRow { LockRow(lock.holder, lock.token, lock.expiresAt) }

  /** The state after a free worker claims job `id` and takes its lock. */
  function Taken(s: System, w: string, id: int): System
    requires id in s.jobs
  {
    var resource := s.jobs[id].resourceId;
    var lock := NextLock(s, w, resource);
    s.(jobs := s.jobs[id := ClaimedRow(s.jobs[id], w, s.now + s.leaseMs)],
       locks := s.locks[lock.resource := RowOf(lock)])
     .Goto(w, Locked(id, resource, lock))
  }

  lemma FindsFree(c: System, w: string)
    requires c.PhaseOf(w).Claimed? && !Locks.Held(c.locks, Jobs.ResourceKey(c.PhaseOf(w).resource), c.now)
    ensures var (p, lock) := (c.PhaseOf(w), NextLock(c, w, c.PhaseOf(w).resource));
            Step(Step(c, ReadLock(w)), WriteLock(w))
            == c.(locks := c.locks[lock.resource := RowOf(lock)]).Goto(w, Locked(p.id, p.resource, lock))
  {
    hide Step;
    AcquireInTwoSteps(c, w);
  }

  lemma Takes(s: System, w: string, id: int)
    requires s.PhaseOf(w).Idle? && NextDue(s, id)
    requires !Locks.Held(s.locks, Jobs.ResourceKey(s.jobs[id].resourceId), s.now)
    ensures Run(s, [Claim(w), ReadLock(w), WriteLock(w)]) == Taken(s, w, id)
  {
    assert id in s.jobs;
    hide Step, Run, NextDue, NextLock, RowOf, Taken, ClaimedRow;
    RunThree(s, Claim(w), ReadLock(w), WriteLock(w));
    Claims(s, w, id);
    FindsFree(Step(s, Claim(w)), w);
    TakenAfterClaim(s, w, id, Step(s, Claim(w)));
  }

  lemma TakenAfterClaim(s: System, w: string, id: int, c: System)
    requires id in s.jobs
    requires c == s.(jobs := s.jobs[id := ClaimedRow(s.jobs[id], w, s.now + s.leaseMs)])
                   .Goto(w, Claimed(id, s.jobs[id].resourceId))
    ensures var (p, lock) := (c.PhaseOf(w), NextLock(c, w, c.PhaseOf(w).resource));
            c.(locks := c.locks[lock.resource := RowOf(lock)]).Goto(w, Locked(p.id, p.resource, lock))
                == Taken(s, w, id)
  {
    var resource := s.jobs[id].resourceId;
    SameNextLock(c, s, w, resource);
    var p := Locked(id, resource, NextLock(s, w, resource));
    assert s.phases[w := Claimed(id, resource)][w := p] == s.phases[w := p];
  }

  lemma SameNextLock(c: System, s: System, w: string, resource: string)
    requires c.locks == s.locks && c.now == s.now && c.leaseMs == s.leaseMs
    ensures NextLock(c, w, resource) == NextLock(s, w, resource)
  {
  }

  lemma FindsHeld(c: System, w: string)
    requires c.PhaseOf(w).Claimed? && Locks.Held(c.locks, Jobs.ResourceKey(c.PhaseOf(w).resource), c.now)
    ensures Step(c, ReadLock(w)) == c.Goto(w, Contended(c.PhaseOf(w).id, c.PhaseOf(w).resource))
  {
  }

  /** A free worker claims job `id` and finds its lock held. */
  lemma Waits(s: System, w: string, id: int)
    requires s.PhaseOf(w).Idle? && NextDue(s, id)
    requires Locks.Held(s.locks, Jobs.ResourceKey(s.jobs[id].resourceId), s.now)
    ensures Run(s, [Claim(w), ReadLock(w)])
         == s.(jobs := s.jobs[id := ClaimedRow(s.jobs[id], w, s.now + s.leaseMs)])
             .Goto(w, Contended(id, s.jobs[id].resourceId))
  {
    assert id in s.jobs;
    hide Step, Run, NextDue;
    RunTwo(s, Claim(w), ReadLock(w));
    Claims(s, w, id);
    FindsHeld(Step(s, Claim(w)), w);
    var p := Contended(id, s.jobs[id].resourceId);
    assert s.phases[w := Claimed(id, s.jobs[id].resourceId)][w := p] == s.phases[w := p];
  }

  lemma Waited(s: System, ms: nat, at: int)
    requires at == s.now + ms
    ensures Step(s, Elapse(ms)) == s.(now := at)
  {
  }

  /** Time passes until the leases are over, and somebody reaps. */
  lemma Reaps(s: System, ms: nat, at: int)
    requires at == s.now + ms
    ensures Run(s, [Elapse(ms), Bury(at), Requeue(at)]) == s.(now := at, jobs := Jobs.Reap(s.jobs, at))
  {
    hide Step, Run, Jobs.Reap;
    RunThree(s, Elapse(ms), Bury(at), Requeue(at));
    Waited(s, ms, at);
    ReapInTwoSteps(s.(now := at));
  }
}
