/** Several worker processes over one database (src/queue/worker.ts `tick`): every SQL statement is one
    step, also the two of an acquisition, of `fail` and of a reaping, and the steps of different workers, of
    requests and of the clock interleave freely. A worker that was reaped keeps running as if nothing
    happened; one that dies takes no more steps, or starts again under its old name. */
module Workers {
  import opened Wrappers
  import opened Tables
  import Fencing
  import Jobs
  import Locks

  /** Where a worker is inside `tick`. The job row it holds in memory keeps its resource. `Looked` is between the
      two statements of an acquisition, `Failing` between those of `fail`: both keep what the first one saw. */
  datatype Phase =
    | Idle
    | Claimed(id: int, resource: string)
    | Contended(id: int, resource: string)
    | Looked(id: int, resource: string, seen: int, at: int)
    | Locked(id: int, resource: string, lock: Locks.Lock)
    | Handling(id: int, resource: string, lock: Locks.Lock)
    | Failing(id: int, resource: string, lock: Locks.Lock, error: string, retry: bool, attempts: int)
    | Settled(id: int, resource: string, lock: Locks.Lock)
  {
    predicate HasLock() { Locked? || Handling? || Failing? || Settled? }

    /** Claimed but the handler has not started: no `await` happens in these phases. */
    predicate Synchronous() { Claimed? || Contended? || Looked? || Locked? }
  }

  /** `granted` remembers the attempts each job was submitted with; `writes` is the history of
      `current_deployment`. */
  datatype System = System(
    now: int,
    leaseMs: int,
    jobs: JobTable,
    locks: LockTable,
    writes: seq<Fencing.Write>,
    phases: map<string, Phase>,
    granted: map<int, int>)
  {
    function PhaseOf(worker: string): Phase {
      if worker in phases then phases[worker] else Idle
    }

    function Current(): CurrentTable {
      Fencing.Stored(writes)
    }

    function Goto(worker: string, p: Phase): System {
      this.(phases := phases[worker := p])
    }
  }

  function Boot(leaseMs: int): System {
    System(0, leaseMs, map[], map[], [], map[], map[])
  }

  datatype Event =
    | Elapse(ms: nat)
    | Submit(id: int, kind: JobKind, resource: string, maxAttempts: int, delayMs: int)
    | Cancel(id: int)
    | Bury(at: int)
    | Requeue(at: int)
    | Claim(worker: string)
    | ReadLock(worker: string)
    | WriteLock(worker: string)
    | Defer(worker: string, delayMs: int)
    | RecordToken(worker: string)
    | Beat(worker: string)
    | RenewLock(worker: string)
    | Write(worker: string, tag: string)
    | BurnRetries(worker: string)
    | Complete(worker: string)
    | ReadJob(worker: string, error: string)
    | RecordFailure(worker: string)
    | ReleaseLock(worker: string)
    | Restart(worker: string)
    | DirectWrite(service: string, tag: string)

  function SubmitInput(e: Event): Jobs.EnqueueInput
    requires e.Submit?
  {
    Jobs.EnqueueInput(e.kind, e.resource, Some(e.maxAttempts), Some(e.id), Some(e.delayMs))
  }

  /** One step; an event whose worker is not at that point of `tick` does nothing. Job ids come from the
      AUTOINCREMENT key of `deployments`, so a submitted id was never used before. The two statements of a
      reaping share one reading of the clock, which may lie back by then. */
  function Step(s: System, e: Event): System {
    match e
    case Elapse(ms) => s.(now := s.now + ms)
    case Submit(id, _, _, max, _) =>
      if id in s.granted || max < 1 then s
      else s.(jobs := Jobs.Enqueue(s.jobs, SubmitInput(e), s.now).0, granted := s.granted[id := max])
    case Cancel(id) => s.(jobs := Jobs.CancelPending(s.jobs, id).0)
    case Bury(at) => if at > s.now then s else s.(jobs := Jobs.BuryExhausted(s.jobs, at))
    case Requeue(at) => if at > s.now then s else s.(jobs := Jobs.RequeueExpired(s.jobs, at))
    case Claim(w) =>
      if !s.PhaseOf(w).Idle? then s
      else
        var (jobs, taken) := Jobs.Claim(s.jobs, w, s.leaseMs, s.now);
        if taken.None? then s else s.(jobs := jobs).Goto(w, Claimed(taken.value, s.jobs[taken.value].resourceId))
    case ReadLock(w) =>
      var p := s.PhaseOf(w);
      if !p.Claimed? then s
      else
        var seen := Locks.Look(s.locks, Jobs.ResourceKey(p.resource), s.now);
        s.Goto(w, if seen.None? then Contended(p.id, p.resource) else Looked(p.id, p.resource, seen.value, s.now))
    case WriteLock(w) =>
      var p := s.PhaseOf(w);
      if !p.Looked? then s
      else
        var lock := GrabbedLock(p, w, s.leaseMs);
        s.(locks := Locks.Grab(s.locks, lock.resource, w, p.seen, lock.expiresAt))
         .Goto(w, Locked(p.id, p.resource, lock))
    case Defer(w, delay) =>
      var p := s.PhaseOf(w);
      if !p.Contended? then s else s.(jobs := Jobs.DeferClaim(s.jobs, p.id, delay, s.now)).Goto(w, Idle)
    case RecordToken(w) =>
      var p := s.PhaseOf(w);
      if !p.Locked? then s
      else s.(jobs := Jobs.SetFencingToken(s.jobs, p.id, p.lock.token)).Goto(w, Handling(p.id, p.resource, p.lock))
    case Beat(w) =>
      var p := s.PhaseOf(w);
      if !p.Handling? then s else s.(jobs := Jobs.Heartbeat(s.jobs, p.id, s.leaseMs, s.now))
    case RenewLock(w) =>
      var p := s.PhaseOf(w);
      if !p.Handling? then s
      else s.(locks := Locks.Renew(s.locks, p.lock.resource, p.lock.holder, p.lock.token, s.leaseMs, s.now).0)
    case Write(w, tag) =>
      var p := s.PhaseOf(w);
      if !p.Handling? then s else s.(writes := s.writes + [Fencing.Fenced(p.resource, tag, p.lock.token, s.now)])
    case BurnRetries(w) =>
      var p := s.PhaseOf(w);
      if !p.Handling? then s else s.(jobs := Jobs.NoRetry(s.jobs, p.id))
    case Complete(w) =>
      var p := s.PhaseOf(w);
      if !p.Handling? then s
      else s.(jobs := Jobs.Complete(s.jobs, p.id, Some(w))).Goto(w, Settled(p.id, p.resource, p.lock))
    case ReadJob(w, error) =>
      var p := s.PhaseOf(w);
      if !p.Handling? then s
      else if p.id !in s.jobs then s.Goto(w, Settled(p.id, p.resource, p.lock))
      else
        var row := s.jobs[p.id];
        s.Goto(w, Failing(p.id, p.resource, p.lock, error, !Jobs.Exhausted(row), row.attempts))
    case RecordFailure(w) =>
      var p := s.PhaseOf(w);
      if !p.Failing? then s
      else
        s.(jobs := Jobs.RecordFailure(s.jobs, p.id, p.error, Some(w), p.retry, p.attempts, s.now))
         .Goto(w, Settled(p.id, p.resource, p.lock))
    case ReleaseLock(w) =>
      var p := s.PhaseOf(w);
      if !p.Settled? then s
      else s.(locks := Locks.Release(s.locks, p.lock.resource, p.lock.holder)).Goto(w, Idle)
    case Restart(w) => s.Goto(w, Idle)
    case DirectWrite(service, tag) => s.(writes := s.writes + [Fencing.Unfenced(service, tag, s.now)])
  }

  /** The lock an acquisition grants that saw a token at some time. */
  function GrabbedLock(p: Phase, w: string, leaseMs: int): Locks.Lock
    requires p.Looked?
  {
    Locks.Lock(Jobs.ResourceKey(p.resource), w, p.seen + 1, p.at + leaseMs)
  }

  /** With nothing in between, the two statements are the acquisition of `Locks`. */
  lemma AcquireInTwoSteps(s: System, w: string)
    requires s.PhaseOf(w).Claimed?
    ensures var p, u := s.PhaseOf(w), Step(Step(s, ReadLock(w)), WriteLock(w));
            var (locks, lock) := Locks.Acquire(s.locks, Jobs.ResourceKey(p.resource), w, s.leaseMs, s.now);
            u == s.(locks := locks)
                  .Goto(w, if lock.None? then Contended(p.id, p.resource) else Locked(p.id, p.resource, lock.value))
  {
    var p, seen := s.PhaseOf(w), Step(s, ReadLock(w));
    if seen.PhaseOf(w).Looked? {
      var lock := GrabbedLock(seen.PhaseOf(w), w, s.leaseMs);
      assert Step(seen, WriteLock(w)).phases == s.phases[w := Locked(p.id, p.resource, lock)];
    }
  }

  /** Likewise for `fail`. */
  lemma FailInTwoSteps(s: System, w: string, error: string)
    requires s.PhaseOf(w).Handling?
    ensures var p, u := s.PhaseOf(w), Step(Step(s, ReadJob(w, error)), RecordFailure(w));
            u == s.(jobs := Jobs.Fail(s.jobs, p.id, error, Some(w), s.now).0).Goto(w, Settled(p.id, p.resource, p.lock))
  {
    hide Jobs.RecordFailure;
    var (p, read) := (s.PhaseOf(w), Step(s, ReadJob(w, error)));
    assert Step(read, RecordFailure(w)).phases == s.phases[w := Settled(p.id, p.resource, p.lock)];
  }

  /** And for reaping. */
  lemma ReapInTwoSteps(s: System)
    ensures Step(Step(s, Bury(s.now)), Requeue(s.now)) == s.(jobs := Jobs.Reap(s.jobs, s.now))
  {
    Jobs.ReapInTwoStatements(s.jobs, s.now);
  }

  function Run(s: System, events: seq<Event>): System {
    if events == [] then s else Step(Run(s, events[..|events| - 1]), events[|events| - 1])
  }

  lemma RunSnoc(s: System, events: seq<Event>, e: Event)
    ensures Run(s, events + [e]) == Step(Run(s, events), e)
  {
    assert (events + [e])[..|events|] == events;
  }

  lemma CurrentSnoc(s: System, w: Fencing.Write)
    ensures Fencing.Stored(s.writes + [w]) == Fencing.Put(s.Current(), w)
  {
    assert (s.writes + [w])[..|s.writes|] == s.writes;
  }

  lemma {:induction false} RunConcat(s: System, a: seq<Event>, b: seq<Event>)
    ensures Run(s, a + b) == Run(Run(s, a), b)
    decreases |b|
  {
    if b == [] {
      assert a + b == a;
    } else {
      RunConcat(s, a, b[..|b| - 1]);
      assert (a + b)[..|a + b| - 1] == a + b[..|b| - 1];
    }
  }

  lemma RunOne(s: System, d: Event)
    ensures Run(s, [d]) == Step(s, d)
  {
    RunSnoc(s, [], d);
    assert [] + [d] == [d];
  }

  lemma RunTwo(s: System, d: Event, e: Event)
    ensures Run(s, [d, e]) == Step(Step(s, d), e)
  {
    hide Step, Run;
    RunOne(s, d);
    RunSnoc(s, [d], e);
    assert [d] + [e] == [d, e];
  }

  lemma RunThree(s: System, d: Event, e: Event, f: Event)
    ensures Run(s, [d, e, f]) == Step(Step(Step(s, d), e), f)
  {
    hide Step, Run;
    RunTwo(s, d, e);
    RunSnoc(s, [d, e], f);
    assert [d, e] + [f] == [d, e, f];
  }

  // ------------------------------------------------------------------
  // Fencing
  // ------------------------------------------------------------------

  function LatestToken(s: System, resource: string): int {
    Locks.TokenOf(s.locks, Jobs.ResourceKey(resource))
  }

  /** The step writes a grant on a token that has changed since its worker read it. */
  predicate StaleGrab(s: System, e: Event) {
    && e.WriteLock? && s.PhaseOf(e.worker).Looked?
    && s.PhaseOf(e.worker).seen != LatestToken(s, s.PhaseOf(e.worker).resource)
  }

  /** No grant of the run is written on a token that changed since it was read. */
  predicate NeverStale(s: System, events: seq<Event>) {
    events == []
    || (NeverStale(s, events[..|events| - 1]) && !StaleGrab(Run(s, events[..|events| - 1]), events[|events| - 1]))
  }

  predicate LookOk(s: System, w: string) {
    var p := s.PhaseOf(w);
    p.Looked? ==> 0 <= p.seen <= LatestToken(s, p.resource)
  }

  predicate LockOk(s: System, w: string) {
    var p := s.PhaseOf(w);
    p.HasLock() ==>
      && p.lock.holder == w
      && p.lock.resource == Jobs.ResourceKey(p.resource)
      && 1 <= p.lock.token <= LatestToken(s, p.resource)
      && (p.lock.token == LatestToken(s, p.resource) ==> s.locks[p.lock.resource].holder == w)
  }

  predicate DistinctTokens(s: System, w: string, v: string) {
    var p, q := s.PhaseOf(w), s.PhaseOf(v);
    w != v && p.HasLock() && q.HasLock() && p.resource == q.resource ==> p.lock.token != q.lock.token
  }

  predicate WriteOk(s: System, k: nat)
    requires k < |s.writes|
  {
    s.writes[k].Fenced? ==> 1 <= s.writes[k].token <= LatestToken(s, s.writes[k].service)
  }

  ghost predicate FencingInv(s: System) {
    && (forall r :: r in s.locks ==> s.locks[r].token >= 1)
    && (forall w :: LookOk(s, w))
    && (forall w :: LockOk(s, w))
    && (forall w, v :: DistinctTokens(s, w, v))
    && (forall k: nat :: k < |s.writes| ==> WriteOk(s, k))
  }

  /** Only a stale grab can lower a lock's token. */
  lemma TokenNeverDrops(s: System, e: Event, resource: string)
    requires !StaleGrab(s, e)
    ensures LatestToken(Step(s, e), resource) >= LatestToken(s, resource)
  {
  }

  lemma ResourceKeysDiffer(a: string, b: string)
    ensures Jobs.ResourceKey(a) == Jobs.ResourceKey(b) ==> a == b
  {
    assert Jobs.ResourceKey(a)[4..] == a && Jobs.ResourceKey(b)[4..] == b;
  }

  /** Same holders and tokens; only expiries may differ. */
  ghost predicate SameTokens(t: LockTable, u: LockTable) {
    && t.Keys == u.Keys
    && forall r :: r in t ==> u[r].holder == t[r].holder && u[r].token == t[r].token
  }

  predicate NoNewLock(s: System, u: System, w: string) {
    var p, q := s.PhaseOf(w), u.PhaseOf(w);
    q.HasLock() ==> p.HasLock() && p.lock == q.lock && p.resource == q.resource
  }

  /** The step grants nobody a lock. */
  predicate GrantsNoLock(s: System, e: Event) {
    e.WriteLock? ==> !s.PhaseOf(e.worker).Looked?
  }

  lemma StepKeepsLook(s: System, e: Event, w: string)
    requires LookOk(s, w) && !StaleGrab(s, e) && forall r :: r in s.locks ==> s.locks[r].token >= 1
    ensures LookOk(Step(s, e), w)
  {
    var q := Step(s, e).PhaseOf(w);
    if q.Looked? { TokenNeverDrops(s, e, q.resource); }
  }

  lemma StepKeepsTokens(s: System, e: Event)
    requires GrantsNoLock(s, e)
    ensures SameTokens(s.locks, Step(s, e).locks)
  {
    if e.RenewLock? || e.ReleaseLock? {
      LockStepKeepsTokens(s, e);
    } else {
      OtherStepsKeepLocks(s, e);
    }
  }

  lemma LockStepKeepsTokens(s: System, e: Event)
    requires e.RenewLock? || e.ReleaseLock?
    ensures SameTokens(s.locks, Step(s, e).locks)
  {
  }

  lemma OtherStepsKeepLocks(s: System, e: Event)
    requires GrantsNoLock(s, e) && !e.RenewLock? && !e.ReleaseLock?
    ensures Step(s, e).locks == s.locks
  {
  }

  lemma StepTakesNoLock(s: System, e: Event, w: string)
    requires GrantsNoLock(s, e)
    ensures NoNewLock(s, Step(s, e), w)
  {
    hide Jobs.Enqueue, Jobs.Claim, Jobs.BuryExhausted, Jobs.RequeueExpired, Jobs.RecordFailure, Jobs.Complete;
    hide Locks.Look, Locks.Grab, Locks.Renew, Locks.Release;
  }

  lemma StepLocksFrame(s: System, e: Event)
    requires GrantsNoLock(s, e)
    ensures SameTokens(s.locks, Step(s, e).locks)
    ensures forall w :: NoNewLock(s, Step(s, e), w)
  {
    hide *;
    StepKeepsTokens(s, e);
    forall w ensures NoNewLock(s, Step(s, e), w) { StepTakesNoLock(s, e, w); }
  }

  lemma FramedStepKeepsLocks(s: System, u: System)
    requires FencingInv(s) && SameTokens(s.locks, u.locks) && forall w :: NoNewLock(s, u, w)
    ensures forall w :: LockOk(u, w)
    ensures forall w, v :: DistinctTokens(u, w, v)
  {
    forall w ensures LockOk(u, w) { assert LockOk(s, w) && NoNewLock(s, u, w); }
    forall w, v ensures DistinctTokens(u, w, v) {
      assert DistinctTokens(s, w, v) && NoNewLock(s, u, w) && NoNewLock(s, u, v);
    }
  }

  lemma GrantKeepsLock(s: System, w: string, v: string)
    requires LockOk(s, v) && LookOk(s, w)
    requires s.PhaseOf(w).Looked? && !StaleGrab(s, WriteLock(w))
    ensures LockOk(Step(s, WriteLock(w)), v)
  {
    if v != w && s.PhaseOf(v).HasLock() { ResourceKeysDiffer(s.PhaseOf(v).resource, s.PhaseOf(w).resource); }
  }

  lemma GrantKeepsDistinct(s: System, w: string, v: string, x: string)
    requires LockOk(s, v) && LockOk(s, x) && DistinctTokens(s, v, x)
    requires s.PhaseOf(w).Looked? && !StaleGrab(s, WriteLock(w))
    ensures DistinctTokens(Step(s, WriteLock(w)), v, x)
  {
  }

  lemma GrantKeepsLocks(s: System, w: string)
    requires FencingInv(s) && s.PhaseOf(w).Looked? && !StaleGrab(s, WriteLock(w))
    ensures var u := Step(s, WriteLock(w)); (forall v :: LockOk(u, v)) && (forall v, x :: DistinctTokens(u, v, x))
  {
    hide Step, LockOk, LookOk, DistinctTokens, StaleGrab;
    var u := Step(s, WriteLock(w));
    forall v ensures LockOk(u, v) { GrantKeepsLock(s, w, v); }
    forall v, x ensures DistinctTokens(u, v, x) { GrantKeepsDistinct(s, w, v, x); }
  }

  lemma StepGrowsWrites(s: System, e: Event)
    ensures s.writes <= Step(s, e).writes
    ensures Step(s, e).writes != s.writes ==>
              Step(s, e).writes == s.writes + [Step(s, e).writes[|s.writes|]] && Step(s, e).locks == s.locks
              && var w := Step(s, e).writes[|s.writes|];
                 && (w.Fenced? || e.DirectWrite?)
                 && (w.Fenced? ==>
                       && e.Write? && s.PhaseOf(e.worker).HasLock()
                       && w.token == s.PhaseOf(e.worker).lock.token
                       && w.service == s.PhaseOf(e.worker).resource)
  {
  }

  lemma StepKeepsWriteOk(s: System, e: Event)
    requires FencingInv(s) && !StaleGrab(s, e)
    ensures forall k: nat :: k < |Step(s, e).writes| ==> WriteOk(Step(s, e), k)
  {
    var u := Step(s, e);
    StepGrowsWrites(s, e);
    forall k: nat | k < |u.writes| ensures WriteOk(u, k) {
      if k < |s.writes| {
        assert WriteOk(s, k) && u.writes[k] == s.writes[k];
        TokenNeverDrops(s, e, s.writes[k].service);
      } else if e.Write? {
        assert LockOk(s, e.worker);
      }
    }
  }

  lemma StepKeepsTokensPositive(s: System, e: Event)
    requires (forall r :: r in s.locks ==> s.locks[r].token >= 1) && (forall w :: LookOk(s, w))
    ensures forall r :: r in Step(s, e).locks ==> Step(s, e).locks[r].token >= 1
  {
    if e.WriteLock? { assert LookOk(s, e.worker); }
  }

  lemma StepKeepsFencing(s: System, e: Event)
    requires FencingInv(s) && !StaleGrab(s, e)
    ensures FencingInv(Step(s, e))
  {
    hide Step, LockOk, LookOk, DistinctTokens, StaleGrab, WriteOk;
    StepKeepsWriteOk(s, e);
    StepKeepsTokensPositive(s, e);
    forall w ensures LookOk(Step(s, e), w) { StepKeepsLook(s, e, w); }
    if e.WriteLock? && s.PhaseOf(e.worker).Looked? {
      GrantKeepsLocks(s, e.worker);
    } else {
      StepLocksFrame(s, e);
      FramedStepKeepsLocks(s, Step(s, e));
    }
  }

  /** As long as no grant is written on a token that changed since it was read. */
  lemma {:induction false} RunKeepsFencing(s: System, events: seq<Event>)
    requires FencingInv(s) && NeverStale(s, events)
    ensures FencingInv(Run(s, events))
  {
    if events != [] {
      var before, e := events[..|events| - 1], events[|events| - 1];
      RunKeepsFencing(s, before);
      StepKeepsFencing(Run(s, before), e);
    }
  }

  /** When a worker takes the lock of a resource on the token it read, its token is higher than that of every
      worker that ever took it and is still running. */
  lemma LaterHolderOutranks(s: System, w: string, v: string)
    requires FencingInv(s) && !StaleGrab(s, WriteLock(v))
    requires s.PhaseOf(w).HasLock() && s.PhaseOf(v).Looked? && s.PhaseOf(v).resource == s.PhaseOf(w).resource
    ensures var q := Step(s, WriteLock(v)).PhaseOf(v);
            q.Locked? && s.PhaseOf(w).lock.token < q.lock.token
  {
    assert LockOk(s, w);
  }

  predicate LiveLock(s: System, w: string) {
    var p := s.PhaseOf(w);
    p.HasLock() && p.lock.token == LatestToken(s, p.resource)
    && Locks.Held(s.locks, p.lock.resource, s.now)
  }

  /** Two workers whose locks on a resource are both live are the same worker, whoever looks at the lock
      meanwhile is turned away, and only a worker that read this very lock as free before can still take it. */
  lemma LiveLockIsExclusive(s: System, w: string, v: string)
    requires FencingInv(s) && LiveLock(s, w)
    ensures LiveLock(s, v) && s.PhaseOf(v).resource == s.PhaseOf(w).resource ==> v == w
    ensures s.PhaseOf(v).Claimed? && s.PhaseOf(v).resource == s.PhaseOf(w).resource ==>
              Step(s, ReadLock(v)).PhaseOf(v).Contended?
    ensures s.PhaseOf(v).Looked? && s.PhaseOf(v).resource == s.PhaseOf(w).resource && !StaleGrab(s, WriteLock(v)) ==>
              s.PhaseOf(v).seen == s.PhaseOf(w).lock.token
  {
    assert LockOk(s, w) && DistinctTokens(s, w, v);
  }

  lemma {:induction false} WritesOnlyGrow(s: System, events: seq<Event>, i: nat)
    requires i <= |events|
    ensures Run(s, events[..i]).writes <= Run(s, events).writes
    decreases |events|
  {
    if i == |events| {
      assert events[..i] == events;
    } else {
      var before := events[..|events| - 1];
      assert before[..i] == events[..i];
      WritesOnlyGrow(s, before, i);
      StepGrowsWrites(Run(s, before), events[|events| - 1]);
    }
  }

  /** Over a whole run, whatever else happens in between: once a worker has written a service under
      its token, a worker that holds an older token of that service changes nothing there any more. */
  lemma {:induction false} ReapedWorkerCannotOverwrite(s: System, events: seq<Event>, i: nat, w: string, tag: string)
    requires i < |events| && events[i].Write?
    requires var p := Run(s, events[..i]).PhaseOf(events[i].worker);
             var q := Run(s, events).PhaseOf(w);
             p.Handling? && q.Handling? && p.resource == q.resource && q.lock.token < p.lock.token
    ensures Step(Run(s, events), Write(w, tag)).Current() == Run(s, events).Current()
  {
    var p := Run(s, events[..i]).PhaseOf(events[i].worker);
    var q := Run(s, events).PhaseOf(w);
    var at, after, end := Run(s, events[..i]), Run(s, events[..i + 1]), Run(s, events);
    assert events[..i + 1][..i] == events[..i];
    assert after.writes == at.writes + [Fencing.Fenced(p.resource, events[i].tag, p.lock.token, at.now)];
    WritesOnlyGrow(s, events, i + 1);
    var k := |at.writes|;
    assert end.writes[k] == after.writes[k];
    Fencing.StaleWriteIsRefused(end.writes, k, q.resource, tag, q.lock.token, end.now);
    var more := Step(end, Write(w, tag)).writes;
    assert more[..|more| - 1] == end.writes;
  }

  /** In every reachable state a service with fenced writes only shows the tag of the newest lock
      acquisition that ever wrote it, and no worker's token exceeds the lock's. */
  lemma {:induction false} NewestAcquisitionWins(leaseMs: int, events: seq<Event>, service: string)
    requires forall k :: 0 <= k < |events| ==> !events[k].DirectWrite?
    requires NeverStale(Boot(leaseMs), events)
    requires Fencing.Touches(Run(Boot(leaseMs), events).writes, service)
    ensures var s := Run(Boot(leaseMs), events);
            && service in s.Current()
            && s.Current()[service].token <= LatestToken(s, service)
            && exists k :: 0 <= k < |s.writes| && s.writes[k].Fenced? && s.writes[k].service == service
                           && s.Current()[service].tag == s.writes[k].tag
                           && s.Current()[service].token == s.writes[k].token
                           && (forall j :: k < j < |s.writes| && s.writes[j].service == service ==>
                                 s.writes[j].Fenced? && s.writes[j].token < s.writes[k].token)
                           && (forall i :: 0 <= i < |s.writes| && s.writes[i].service == service ==>
                                 s.writes[i].Fenced? && s.writes[i].token <= s.writes[k].token)
  {
    var s := Run(Boot(leaseMs), events);
    RunKeepsFencing(Boot(leaseMs), events);
    AllFenced(leaseMs, events);
    forall k | 0 <= k < |s.writes|
      ensures s.writes[k].Fenced? && 1 <= s.writes[k].token <= LatestToken(s, s.writes[k].service)
    {
      assert WriteOk(s, k);
    }
    Fencing.FencedWritesKeepTheMaximum(s.writes, service);
  }

  predicate OnlyFenced(writes: seq<Fencing.Write>) {
    forall k :: 0 <= k < |writes| ==> writes[k].Fenced?
  }

  lemma {:induction false} AllFenced(leaseMs: int, events: seq<Event>)
    requires forall k :: 0 <= k < |events| ==> !events[k].DirectWrite?
    ensures OnlyFenced(Run(Boot(leaseMs), events).writes)
  {
    if events != [] {
      var before, e := events[..|events| - 1], events[|events| - 1];
      AllFenced(leaseMs, before);
      var ws, more := Run(Boot(leaseMs), before).writes, Run(Boot(leaseMs), events).writes;
      StepGrowsWrites(Run(Boot(leaseMs), before), e);
      if more != ws {
        assert more == ws + [more[|ws|]] && more[|ws|].Fenced?;
      }
    }
  }
}
