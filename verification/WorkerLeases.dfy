/** What the heartbeat is for (src/queue/worker.ts:120-137, 157-171): while it beats in time, nobody takes the job
    or its lock away from the worker, whatever else happens. */
module WorkerLeases {
  import opened Wrappers
  import opened Tables
  import opened Workers
  import Jobs
  import Locks
  import WorkerObject

  // ------------------------------------------------------------------
  // Time since the last beat
  // ------------------------------------------------------------------

  /** How much time has passed since `w` last beat, or since `since` before the first event. */
  function SinceBeat(events: seq<Event>, w: string, since: nat): nat {
    if events == [] then since
    else
      var (before, e) := (SinceBeat(events[..|events| - 1], w, since), events[|events| - 1]);
      if e == Beat(w) then 0 else if e.Elapse? then before + e.ms else before
  }

  /** The same for renewals of the lock. */
  function SinceRenewal(events: seq<Event>, w: string, since: nat): nat {
    if events == [] then since
    else
      var (before, e) := (SinceRenewal(events[..|events| - 1], w, since), events[|events| - 1]);
      if e == RenewLock(w) then 0 else if e.Elapse? then before + e.ms else before
  }

  /** The worker an event belongs to, when it does to one. */
  function Actor(e: Event): Option<string> {
    match e
    case Elapse(_) => None
    case Submit(_, _, _, _, _) => None
    case Cancel(_) => None
    case Bury(_) => None
    case Requeue(_) => None
    case DirectWrite(_, _) => None
    case _ => Some(e.worker)
  }

  predicate By(e: Event, w: string) { Actor(e) == Some(w) }

  /** The worker does nothing but what a handler and the heartbeat beside it do. */
  predicate InHandler(e: Event, w: string) {
    By(e, w) ==> e.Beat? || e.RenewLock? || e.Write? || e.BurnRetries?
  }

  // ------------------------------------------------------------------
  // The lease of the job
  // ------------------------------------------------------------------

  /** `w` handles job `id` under a lease that runs until `until` at least. */
  predicate Leases(s: System, w: string, id: int, until: int) {
    && s.PhaseOf(w).Handling? && s.PhaseOf(w).id == id
    && id in s.jobs && s.jobs[id].state == Running && s.jobs[id].leaseHolder == Some(w)
    && s.jobs[id].leaseUntil.Some? && s.jobs[id].leaseUntil.value >= until
  }

  /** A worker that lost a claim of this job long ago gives it back only now. */
  predicate LateDeferral(s: System, e: Event, w: string, id: int) {
    e.Defer? && e.worker != w && s.PhaseOf(e.worker).Contended? && s.PhaseOf(e.worker).id == id
  }

  /** From `s`, `w` only handles its job, beating often enough that less than a lease passes between beats, and
      nobody gives the job back for it. */
  predicate BeatsInTime(s: System, events: seq<Event>, w: string, id: int, since: nat) {
    events == []
    || (var (front, e) := (events[..|events| - 1], events[|events| - 1]);
        && BeatsInTime(s, front, w, id, since)
        && InHandler(e, w) && !LateDeferral(Run(s, front), e, w, id)
        && SinceBeat(events, w, since) < s.leaseMs)
  }

  lemma OneBeatKeepsTheLease(s: System, e: Event, w: string, id: int, since: nat)
    requires Leases(s, w, id, s.now - since + s.leaseMs) && since < s.leaseMs
    requires InHandler(e, w) && !LateDeferral(s, e, w, id)
    ensures var u := Step(s, e);
            var after := if e == Beat(w) then 0 else if e.Elapse? then since + e.ms else since;
            Leases(u, w, id, u.now - after + u.leaseMs) && u.leaseMs == s.leaseMs
  {
    if e.Bury? || e.Requeue? {
      ReapingSparesTheLease(s, e, w, id);
    } else if By(e, w) {
      HandlingKeepsTheLease(s, e, w, id, since);
    } else {
      OthersKeepTheLease(s, e, w, id, since);
    }
  }

  lemma HandlingKeepsTheLease(s: System, e: Event, w: string, id: int, since: nat)
    requires Leases(s, w, id, s.now - since + s.leaseMs) && By(e, w) && InHandler(e, w)
    ensures var u := Step(s, e);
            Leases(u, w, id, u.now - (if e == Beat(w) then 0 else since) + u.leaseMs) && u.leaseMs == s.leaseMs
  {
  }

  lemma OthersKeepTheLease(s: System, e: Event, w: string, id: int, since: nat)
    requires Leases(s, w, id, s.now - since + s.leaseMs) && !By(e, w) && !e.Bury? && !e.Requeue?
    requires !LateDeferral(s, e, w, id)
    ensures var u := Step(s, e);
            Leases(u, w, id, u.now - (since + if e.Elapse? then e.ms else 0) + u.leaseMs) && u.leaseMs == s.leaseMs
  {
    if Actor(e).Some? { WorkersKeepTheLease(s, e, w, id, since); }
  }

  lemma WorkersKeepTheLease(s: System, e: Event, w: string, id: int, since: nat)
    requires Leases(s, w, id, s.now - since + s.leaseMs) && !By(e, w) && Actor(e).Some?
    requires !LateDeferral(s, e, w, id)
    ensures var u := Step(s, e); Leases(u, w, id, u.now - since + u.leaseMs) && u.leaseMs == s.leaseMs
  {
    hide Jobs.BackoffMs, Locks.Look, Locks.Grab, Locks.Renew, Locks.Release, Jobs.BuryExhausted, Jobs.RequeueExpired;
  }

  /** Reaping with any clock reading up to now leaves the job alone. */
  lemma ReapingSparesTheLease(s: System, e: Event, w: string, id: int)
    requires Leases(s, w, id, s.now + 1) && (e.Bury? || e.Requeue?)
    ensures id in Step(s, e).jobs && Step(s, e).jobs[id] == s.jobs[id]
  {
  }

  /** In every interleaving, with any other workers claiming, reaping, dying and restarting: as long as less than a
      lease passes between two beats of the worker in the handler, its lease runs on ahead of the clock from the
      last beat, so no reaping takes the job away. */
  lemma {:induction false} BeatsKeepTheLease(s: System, events: seq<Event>, w: string, id: int, since: nat)
    requires Leases(s, w, id, s.now - since + s.leaseMs) && since < s.leaseMs
    requires BeatsInTime(s, events, w, id, since)
    ensures var u := Run(s, events);
            && u.leaseMs == s.leaseMs
            && Leases(u, w, id, u.now - SinceBeat(events, w, since) + s.leaseMs)
            && u.jobs[id].leaseUntil.value > u.now
  {
    if events != [] {
      var (front, e) := (events[..|events| - 1], events[|events| - 1]);
      BeatsKeepTheLease(s, front, w, id, since);
      SinceFront(s, events, w, id, since);
      OneBeatKeepsTheLease(Run(s, front), e, w, id, SinceBeat(front, w, since));
    }
  }

  lemma SinceFront(s: System, events: seq<Event>, w: string, id: int, since: nat)
    requires events != [] && BeatsInTime(s, events, w, id, since) && since < s.leaseMs
    ensures SinceBeat(events[..|events| - 1], w, since) < s.leaseMs
  {
  }

  // ------------------------------------------------------------------
  // The lock of its resource
  // ------------------------------------------------------------------

  /** `w` handles a job of `resource` under a lock that runs until `until` at least, and the table names it. */
  predicate HoldsLock(s: System, w: string, resource: string, until: int) {
    var (p, key) := (s.PhaseOf(w), Jobs.ResourceKey(resource));
    && p.Handling? && p.resource == resource && p.lock.resource == key && p.lock.holder == w
    && key in s.locks && s.locks[key].holder == w && s.locks[key].token == p.lock.token
    && s.locks[key].expiresAt >= until
  }

  /** Another worker's lock is its own, and it is not about to write a grant of this resource. */
  predicate KeepsOff(s: System, w: string, resource: string, v: string) {
    var p := s.PhaseOf(v);
    v != w ==> (p.HasLock() ==> p.lock.holder == v) && !(p.Looked? && p.resource == resource)
  }

  /** From `s`, `w` only handles its job, renewing often enough that less than a term passes between renewals. */
  predicate RenewsInTime(s: System, events: seq<Event>, w: string, since: nat) {
    events == []
    || (var (front, e) := (events[..|events| - 1], events[|events| - 1]);
        && RenewsInTime(s, front, w, since) && InHandler(e, w) && SinceRenewal(events, w, since) < s.leaseMs)
  }

  lemma HandlingKeepsTheLock(s: System, e: Event, w: string, resource: string, since: nat)
    requires HoldsLock(s, w, resource, s.now - since + s.leaseMs) && By(e, w) && InHandler(e, w)
    ensures var u := Step(s, e);
            && HoldsLock(u, w, resource, u.now - (if e == RenewLock(w) then 0 else since) + u.leaseMs)
            && u.leaseMs == s.leaseMs
  {
  }

  lemma NobodyKeepsTheLock(s: System, e: Event, w: string, resource: string, since: nat)
    requires HoldsLock(s, w, resource, s.now - since + s.leaseMs) && Actor(e).None?
    ensures var u := Step(s, e);
            && HoldsLock(u, w, resource, u.now - (since + if e.Elapse? then e.ms else 0) + u.leaseMs)
            && u.leaseMs == s.leaseMs
  {
  }

  lemma OthersKeepTheLock(s: System, e: Event, w: string, resource: string, since: nat)
    requires HoldsLock(s, w, resource, s.now - since + s.leaseMs) && Actor(e).Some? && !By(e, w)
    requires KeepsOff(s, w, resource, e.worker)
    ensures var u := Step(s, e); HoldsLock(u, w, resource, u.now - since + u.leaseMs) && u.leaseMs == s.leaseMs
  {
    if e.WriteLock? && s.PhaseOf(e.worker).Looked? { ResourceKeysDiffer(s.PhaseOf(e.worker).resource, resource); }
  }

  lemma OthersStayOff(s: System, e: Event, w: string, resource: string, v: string)
    requires HoldsLock(s, w, resource, s.now + 1) && KeepsOff(s, w, resource, v)
    ensures KeepsOff(Step(s, e), w, resource, v)
  {
    if e == ReadLock(v) { LookIsContended(s, w, resource, v); } else { PhaseMoves(s, e, v); }
    hide Step;
  }

  lemma LookIsContended(s: System, w: string, resource: string, v: string)
    requires HoldsLock(s, w, resource, s.now + 1)
    ensures var (p, q) := (s.PhaseOf(v), Step(s, ReadLock(v)).PhaseOf(v));
            q == p || q.Contended? || (q.Looked? && q.resource != resource)
  {
  }

  lemma PhaseMoves(s: System, e: Event, v: string)
    requires e != ReadLock(v)
    ensures var (p, q) := (s.PhaseOf(v), Step(s, e).PhaseOf(v));
            && (q.Looked? ==> q == p)
            && (q.HasLock() ==> (p.HasLock() && q.lock == p.lock) || q.lock.holder == v)
  {
    if By(e, v) { OwnMoves(s, e, v); } else { OnlyItsOwnMoves(s, e, v); }
    hide Step;
  }

  lemma OnlyItsOwnMoves(s: System, e: Event, v: string)
    requires !By(e, v)
    ensures Step(s, e).PhaseOf(v) == s.PhaseOf(v)
  {
    hide Jobs.Enqueue, Jobs.CancelPending, Jobs.BuryExhausted, Jobs.RequeueExpired, Jobs.DeferClaim, Jobs.Claim;
    hide Locks.Look, Locks.Grab, Locks.Renew, Locks.Release;
  }

  lemma OwnMoves(s: System, e: Event, v: string)
    requires By(e, v) && e != ReadLock(v)
    ensures var (p, q) := (s.PhaseOf(v), Step(s, e).PhaseOf(v));
            && (q.Looked? ==> q == p)
            && (q.HasLock() ==> (p.HasLock() && q.lock == p.lock) || q.lock.holder == v)
  {
    hide Jobs.Enqueue, Jobs.CancelPending, Jobs.BuryExhausted, Jobs.RequeueExpired, Jobs.DeferClaim, Jobs.Claim;
    hide Locks.Look, Locks.Grab, Locks.Renew, Locks.Release;
  }

  lemma OneStepKeepsTheLock(s: System, e: Event, w: string, resource: string, since: nat)
    requires HoldsLock(s, w, resource, s.now - since + s.leaseMs) && InHandler(e, w)
    requires forall v :: KeepsOff(s, w, resource, v)
    ensures var u := Step(s, e);
            var after := if e == RenewLock(w) then 0 else if e.Elapse? then since + e.ms else since;
            HoldsLock(u, w, resource, u.now - after + u.leaseMs) && u.leaseMs == s.leaseMs
  {
    hide Step, HoldsLock;
    if By(e, w) {
      HandlingKeepsTheLock(s, e, w, resource, since);
    } else if Actor(e).None? {
      NobodyKeepsTheLock(s, e, w, resource, since);
    } else {
      assert KeepsOff(s, w, resource, e.worker);
      OthersKeepTheLock(s, e, w, resource, since);
    }
  }

  /** In every interleaving: while the worker in the handler renews its lock in time, it keeps it. */
  lemma {:induction false} RenewalsKeepTheLock(s: System, events: seq<Event>, w: string, resource: string, since: nat)
    requires HoldsLock(s, w, resource, s.now - since + s.leaseMs) && since < s.leaseMs
    requires (forall v :: KeepsOff(s, w, resource, v)) && RenewsInTime(s, events, w, since)
    ensures var u := Run(s, events);
            && u.leaseMs == s.leaseMs && HoldsLock(u, w, resource, u.now - SinceRenewal(events, w, since) + s.leaseMs)
            && forall v :: KeepsOff(u, w, resource, v)
    ensures SinceRenewal(events, w, since) < s.leaseMs
  {
    if events != [] {
      var (front, e) := (events[..|events| - 1], events[|events| - 1]);
      RenewalsKeepTheLock(s, front, w, resource, since);
      var (at, gone) := (Run(s, front), SinceRenewal(front, w, since));
      OneStepKeepsTheLock(at, e, w, resource, gone);
      forall v ensures KeepsOff(Step(at, e), w, resource, v) { OthersStayOff(at, e, w, resource, v); }
    }
  }

  /** So no other worker's look finds the lock free meanwhile. */
  lemma NobodyFindsTheLockFree(s: System, events: seq<Event>, w: string, resource: string, since: nat, v: string)
    requires HoldsLock(s, w, resource, s.now - since + s.leaseMs) && since < s.leaseMs
    requires (forall x :: KeepsOff(s, w, resource, x)) && RenewsInTime(s, events, w, since)
    requires var p := Run(s, events).PhaseOf(v); p.Claimed? && p.resource == resource
    ensures Step(Run(s, events), ReadLock(v)).PhaseOf(v).Contended?
  {
    RenewalsKeepTheLock(s, events, w, resource, since);
  }

  // ------------------------------------------------------------------
  // One worker's handler run
  // ------------------------------------------------------------------

  /** From the claim on, with nobody else at work: lease and lock run on from the last beat and the last renewal,
      or from the claim, whatever the handler does and however long it takes. */
  lemma {:induction false} LeaseRunsFromTheLastBeat(s: System, w: string, acts: seq<WorkerObject.Act>)
    requires s.PhaseOf(w).Idle? && WorkerObject.Runs(s, w)
    ensures var start := WorkerObject.Starting(s, w);
            var events := WorkerObject.ActEvents(w, acts);
            RunsFrom(Run(start, events), w, s.leaseMs, SinceBeat(events, w, 0), SinceRenewal(events, w, 0))
  {
    if acts == [] {
      StartRuns(s, w);
      assert WorkerObject.ActEvents(w, acts) == [];
      hide RunsFrom, Run, WorkerObject.Starting;
    } else {
      hide *;
      var front := acts[..|acts| - 1];
      LeaseRunsFromTheLastBeat(s, w, front);
      EventsSnoc(w, acts);
      OneMoreAct(WorkerObject.Starting(s, w), w, WorkerObject.ActEvents(w, front), acts[|acts| - 1], s.leaseMs);
    }
  }

  lemma OneMoreAct(start: System, w: string, events: seq<Event>, act: WorkerObject.Act, leaseMs: int)
    requires RunsFrom(Run(start, events), w, leaseMs, SinceBeat(events, w, 0), SinceRenewal(events, w, 0))
    ensures var more := events + [WorkerObject.ActEvent(w, act)];
            RunsFrom(Run(start, more), w, leaseMs, SinceBeat(more, w, 0), SinceRenewal(more, w, 0))
  {
    var e := WorkerObject.ActEvent(w, act);
    ActTakes(w, act);
    hide *;
    SinceSnoc(events, e, w);
    RunSnoc(start, events, e);
    ActRuns(Run(start, events), w, act, leaseMs, SinceBeat(events, w, 0), SinceRenewal(events, w, 0));
  }

  lemma EventsSnoc(w: string, acts: seq<WorkerObject.Act>)
    requires acts != []
    ensures WorkerObject.ActEvents(w, acts)
         == WorkerObject.ActEvents(w, acts[..|acts| - 1]) + [WorkerObject.ActEvent(w, acts[|acts| - 1])]
  {
  }

  lemma SinceSnoc(events: seq<Event>, e: Event, w: string)
    ensures SinceBeat(events + [e], w, 0)
         == if e == Beat(w) then 0 else SinceBeat(events, w, 0) + if e.Elapse? then e.ms else 0
    ensures SinceRenewal(events + [e], w, 0)
         == if e == RenewLock(w) then 0 else SinceRenewal(events, w, 0) + if e.Elapse? then e.ms else 0
  {
    assert (events + [e])[..|events|] == events;
  }

  lemma ActTakes(w: string, act: WorkerObject.Act)
    ensures var e := WorkerObject.ActEvent(w, act);
            && (e.Elapse? <==> act.Wait?) && (e.Elapse? ==> e.ms == act.ms)
            && (e == Beat(w) <==> act.Beat?) && (e == RenewLock(w) <==> act.RenewLock?)
  {
  }

  /** `w` handles its job; the lease ends one term after the last beat, the lock one term after the last renewal. */
  predicate RunsFrom(s: System, w: string, leaseMs: int, beat: nat, renewal: nat) {
    var p := s.PhaseOf(w);
    && s.leaseMs == leaseMs && p.Handling? && p.lock.holder == w
    && p.id in s.jobs && s.jobs[p.id].state == Running && s.jobs[p.id].leaseHolder == Some(w)
    && s.jobs[p.id].leaseUntil == Some(s.now - beat + leaseMs)
    && p.lock.resource in s.locks && s.locks[p.lock.resource] == LockRow(w, p.lock.token, s.now - renewal + leaseMs)
  }

  lemma ActRuns(s: System, w: string, act: WorkerObject.Act, leaseMs: int, beat: nat, renewal: nat)
    requires RunsFrom(s, w, leaseMs, beat, renewal)
    ensures var gone := if act.Wait? then act.ms else 0;
            RunsFrom(Step(s, WorkerObject.ActEvent(w, act)), w, leaseMs,
                     if act.Beat? then 0 else beat + gone, if act.RenewLock? then 0 else renewal + gone)
  {
  }

  lemma StartRuns(s: System, w: string)
    requires s.PhaseOf(w).Idle? && WorkerObject.Runs(s, w)
    ensures RunsFrom(Run(WorkerObject.Starting(s, w), WorkerObject.ActEvents(w, [])), w, s.leaseMs, 0, 0)
  {
    var c := WorkerObject.Claiming(s, w);
    AcquireInTwoSteps(c, w);
    ClaimStarts(s, w);
    hide Jobs.Claim, Jobs.SetFencingToken, WorkerObject.Claiming;
    RecordRuns(WorkerObject.Acquiring(c, w), w, s.leaseMs);
    assert WorkerObject.ActEvents(w, []) == [];
  }

  lemma ClaimStarts(s: System, w: string)
    requires s.PhaseOf(w).Idle? && !WorkerObject.Claiming(s, w).PhaseOf(w).Idle?
    ensures var c := WorkerObject.Claiming(s, w); var p := c.PhaseOf(w);
            && p.Claimed? && c.now == s.now && c.leaseMs == s.leaseMs
            && p.id in c.jobs && c.jobs[p.id].state == Running && c.jobs[p.id].leaseHolder == Some(w)
            && c.jobs[p.id].leaseUntil == Some(s.now + s.leaseMs)
  {
  }

  lemma RecordRuns(l: System, w: string, leaseMs: int)
    requires var p := l.PhaseOf(w);
             && p.Locked? && l.leaseMs == leaseMs && p.lock.holder == w
             && p.id in l.jobs && l.jobs[p.id].state == Running && l.jobs[p.id].leaseHolder == Some(w)
             && l.jobs[p.id].leaseUntil == Some(l.now + leaseMs)
             && p.lock.resource in l.locks && l.locks[p.lock.resource] == LockRow(w, p.lock.token, l.now + leaseMs)
    ensures RunsFrom(Step(l, RecordToken(w)), w, leaseMs, 0, 0)
  {
  }

  /** Exactly: at any moment of its run, reaping leaves the job to the worker if and only if less than a lease has
      passed since the last beat, or the claim; and another worker would find the lock held if and only if less than
      a term has passed since the last renewal. */
  lemma KeptIffBeatInTime(s: System, w: string, acts: seq<WorkerObject.Act>, v: string)
    requires s.PhaseOf(w).Idle? && WorkerObject.Runs(s, w)
    ensures var u := Run(WorkerObject.Starting(s, w), WorkerObject.ActEvents(w, acts));
            var p := u.PhaseOf(w);
            && p.Handling? && p.id in u.jobs
            && (SinceBeat(WorkerObject.ActEvents(w, acts), w, 0) < s.leaseMs
                <==> StillRuns(Step(Step(u, Bury(u.now)), Requeue(u.now)), p.id))
            && (SinceRenewal(WorkerObject.ActEvents(w, acts), w, 0) < s.leaseMs
                <==> Locks.Look(u.locks, p.lock.resource, u.now) == None)
  {
    LeaseRunsFromTheLastBeat(s, w, acts);
    var u := Run(WorkerObject.Starting(s, w), WorkerObject.ActEvents(w, acts));
    hide Run, Step, SinceBeat, SinceRenewal;
    ReapInTwoSteps(u);
  }

  predicate StillRuns(s: System, id: int) { id in s.jobs && s.jobs[id].state == Running }
}
