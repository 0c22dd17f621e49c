/** The queue object of src/queue/queue.ts: every method is one or two SQL statements on `jobs`, or a
    call into the lock table. Each is proved equal to the step of the same name in `Jobs` or `Locks`. */
module Queues {
  import opened Wrappers
  import opened Tables
  import opened Jobs
  import Locks

  class Queue {
    const db: Database

    constructor (db: Database)
      ensures this.db == db
    {
      this.db := db;
    }

    method Enqueue(input: EnqueueInput, now: int) returns (r: Result<int, string>)
      modifies db`jobs
      ensures (db.jobs, r) == Jobs.Enqueue(old(db.jobs), input, now)
    {
      var id;
      if input.id.Some? {
        if input.id.value in db.jobs {
          return Err("UNIQUE constraint failed: jobs.id");
        }
        id := input.id.value;
      } else {
        id := NextId(db.jobs);
      }
      var max := if input.maxAttempts.Some? then input.maxAttempts.value else DEFAULT_MAX_ATTEMPTS;
      var dueAt := now + if input.delayMs.Some? then input.delayMs.value else 0;
      db.jobs := db.jobs[id := JobRow(input.kind, input.resourceId, Pending, 0, max, dueAt, None, None, None, 0)];
      r := Ok(id);
    }

    method CancelPending(id: int) returns (removed: bool)
      modifies db`jobs
      ensures (db.jobs, removed) == Jobs.CancelPending(old(db.jobs), id)
    {
      removed := id in db.jobs && db.jobs[id].state == Pending;
      if removed {
        db.jobs := db.jobs - {id};
      }
    }

    method Claim(holder: string, leaseMs: int, now: int) returns (claimed: Option<int>)
      modifies db`jobs
      ensures (db.jobs, claimed) == Jobs.Claim(old(db.jobs), holder, leaseMs, now)
    {
      var due := set id | id in db.jobs && Due(db.jobs[id], now);
      assert due == DueIds(db.jobs, now);
      if due == {} {
        return None;
      }
      var id := Least(due);
      var row := db.jobs[id];
      db.jobs := db.jobs[id := row.(state := Running, leaseUntil := Some(now + leaseMs), leaseHolder := Some(holder),
                                    attempts := row.attempts + 1)];
      claimed := Some(id);
    }

    method SetFencingToken(id: int, token: int)
      modifies db`jobs
      ensures db.jobs == Jobs.SetFencingToken(old(db.jobs), id, token)
    {
      if id in db.jobs {
        db.jobs := db.jobs[id := db.jobs[id].(fencingToken := token)];
      }
    }

    method Heartbeat(id: int, leaseMs: int, now: int)
      modifies db`jobs
      ensures db.jobs == Jobs.Heartbeat(old(db.jobs), id, leaseMs, now)
    {
      if id in db.jobs && db.jobs[id].state == Running {
        db.jobs := db.jobs[id := db.jobs[id].(leaseUntil := Some(now + leaseMs))];
      }
    }

    method Complete(id: int, holder: Option<string>)
      modifies db`jobs
      ensures db.jobs == Jobs.Complete(old(db.jobs), id, holder)
    {
      if OwnerGuard(db.jobs, id, holder) {
        var row := db.jobs[id];
        db.jobs := db.jobs[id := row.(state := Done, leaseUntil := None, leaseHolder := None, lastError := None)];
      }
    }

    method Fail(id: int, error: string, holder: Option<string>, now: int) returns (outcome: JobState)
      modifies db`jobs
      ensures (db.jobs, outcome) == Jobs.Fail(old(db.jobs), id, error, holder, now)
    {
      if id !in db.jobs {
        return Failed;
      }
      var job := db.jobs[id];
      if job.attempts >= job.maxAttempts {
        if OwnerGuard(db.jobs, id, holder) {
          db.jobs := db.jobs[id := job.(state := Failed, leaseUntil := None, leaseHolder := None,
                                        lastError := Some(error))];
        }
        return Failed;
      }
      if OwnerGuard(db.jobs, id, holder) {
        db.jobs := db.jobs[id := job.(state := Pending, leaseUntil := None, leaseHolder := None,
                                      lastError := Some(error), nextAttemptAt := now + BackoffMs(job.attempts))];
      }
      outcome := Pending;
    }

    method NoRetry(id: int)
      modifies db`jobs
      ensures db.jobs == Jobs.NoRetry(old(db.jobs), id)
    {
      if id in db.jobs {
        db.jobs := db.jobs[id := db.jobs[id].(maxAttempts := db.jobs[id].attempts)];
      }
    }

    method DeferClaim(id: int, delayMs: int, now: int)
      modifies db`jobs
      ensures db.jobs == Jobs.DeferClaim(old(db.jobs), id, delayMs, now)
    {
      if id in db.jobs {
        var row := db.jobs[id];
        db.jobs := db.jobs[id := row.(state := Pending, attempts := row.attempts - 1, leaseUntil := None,
                                      leaseHolder := None, nextAttemptAt := now + delayMs)];
      }
    }

    /** Two set-based updates, one after the other: they amount to reaping every row once, and the
        changes they count are exactly the expired leases. */
    method ReapExpiredLeases(now: int) returns (reaped: int)
      modifies db`jobs
      ensures db.jobs == Reap(old(db.jobs), now)
      ensures reaped == |ExpiredIds(old(db.jobs), now)|
    {
      ghost var t := db.jobs;
      var dead := set id | id in db.jobs && LeaseExpired(db.jobs[id], now)
                           && db.jobs[id].attempts >= db.jobs[id].maxAttempts;
      db.jobs := BuryExhausted(db.jobs, now);
      var requeued := set id | id in db.jobs && LeaseExpired(db.jobs[id], now)
                               && db.jobs[id].attempts < db.jobs[id].maxAttempts;
      db.jobs := RequeueExpired(db.jobs, now);
      reaped := |dead| + |requeued|;
      ReapInTwoStatements(t, now);
      forall id ensures id in ExpiredIds(t, now) <==> id in dead + requeued {}
      assert ExpiredIds(t, now) == dead + requeued;
    }

    method AcquireLock(resourceId: string, holder: string, ttlMs: int, now: int) returns (lock: Option<Locks.Lock>)
      modifies db`locks
      ensures (db.locks, lock) == Locks.Acquire(old(db.locks), ResourceKey(resourceId), holder, ttlMs, now)
    {
      lock := Locks.AcquireLock(db, ResourceKey(resourceId), holder, ttlMs, now);
    }

    method RenewLock(lock: Locks.Lock, ttlMs: int, now: int) returns (renewed: bool)
      modifies db`locks
      ensures (db.locks, renewed) == Locks.Renew(old(db.locks), lock.resource, lock.holder, lock.token, ttlMs, now)
    {
      renewed := Locks.RenewLock(db, lock.resource, lock.holder, lock.token, ttlMs, now);
    }

    method ReleaseLock(lock: Locks.Lock)
      modifies db`locks
      ensures db.locks == Locks.Release(old(db.locks), lock.resource, lock.holder)
    {
      Locks.ReleaseLock(db, lock.resource, lock.holder);
    }
  }
}
