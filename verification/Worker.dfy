/** The worker object of src/queue/worker.ts. `Tick` drives the queue and the lock table through one
    job; with nobody else at work it is the run of protocol steps of `Workers` for that worker. */
module WorkerObject {
  import opened Wrappers
  import opened Tables
  import Fencing
  import Locks
  import Queues
  import Protocol = Workers

  /** Something the handler, or the heartbeat timer running beside it, does. */
  datatype Act =
    | Wait(ms: nat)
    | WriteTag(tag: string)
    | BurnRetries
    | Beat
    | RenewLock

  datatype Outcome = Returned | Threw(message: string)

  /** What a handler does with the job it is given, as the outside world decides. */
  datatype HandlerRun = HandlerRun(acts: seq<Act>, outcome: Outcome)

  function ActEvent(w: string, a: Act): Protocol.Event {
    match a
    case Wait(ms) => Protocol.Elapse(ms)
    case WriteTag(tag) => Protocol.Write(w, tag)
    case BurnRetries => Protocol.BurnRetries(w)
    case Beat => Protocol.Beat(w)
    case RenewLock => Protocol.RenewLock(w)
  }

  function ActEvents(w: string, acts: seq<Act>): seq<Protocol.Event> {
    seq(|acts|, i requires 0 <= i < |acts| => ActEvent(w, acts[i]))
  }

  /** Reaping, then claiming. */
  function Claiming(s: Protocol.System, w: string): Protocol.System {
    Protocol.Step(Protocol.Step(Protocol.Step(s, Protocol.Bury(s.now)), Protocol.Requeue(s.now)), Protocol.Claim(w))
  }

  /** The two statements of the acquisition; there is nothing to write while the lock is held. */
  function Acquiring(c: Protocol.System, w: string): Protocol.System {
    Protocol.Step(Protocol.Step(c, Protocol.ReadLock(w)), Protocol.WriteLock(w))
  }

  function Locking(s: Protocol.System, w: string): Protocol.System { Acquiring(Claiming(s, w), w) }

  function Starting(s: Protocol.System, w: string): Protocol.System {
    Protocol.Step(Locking(s, w), Protocol.RecordToken(w))
  }

  function SettleEvents(w: string, o: Outcome): seq<Protocol.Event> {
    match o
    case Returned => [Protocol.Complete(w)]
    case Threw(message) => [Protocol.ReadJob(w, message), Protocol.RecordFailure(w)]
  }

  /** The protocol state once the outcome is recorded. */
  function Settle(s: Protocol.System, w: string, o: Outcome): Protocol.System {
    match o
    case Returned => Protocol.Step(s, Protocol.Complete(w))
    case Threw(message) => Protocol.Step(Protocol.Step(s, Protocol.ReadJob(w, message)), Protocol.RecordFailure(w))
  }

  /** The protocol state after the handler ran, its outcome was recorded and the lock went back. */
  function Settling(start: Protocol.System, w: string, run: HandlerRun): Protocol.System {
    Protocol.Step(Settle(Protocol.Run(start, ActEvents(w, run.acts)), w, run.outcome), Protocol.ReleaseLock(w))
  }

  /** Whether an undisturbed tick gets as far as the handler. */
  predicate Runs(s: Protocol.System, w: string) {
    !Claiming(s, w).PhaseOf(w).Idle? && !Locking(s, w).PhaseOf(w).Contended?
  }

  /** What one undisturbed tick makes of `s`. */
  function Ticked(s: Protocol.System, w: string, pollMs: int, run: HandlerRun): Protocol.System {
    if Claiming(s, w).PhaseOf(w).Idle? then Claiming(s, w)
    else if Locking(s, w).PhaseOf(w).Contended? then Protocol.Step(Locking(s, w), Protocol.Defer(w, pollMs))
    else Settling(Starting(s, w), w, run)
  }

  /** The steps it takes. */
  function TickEvents(s: Protocol.System, w: string, pollMs: int, run: HandlerRun): seq<Protocol.Event> {
    [Protocol.Bury(s.now), Protocol.Requeue(s.now), Protocol.Claim(w)]
    + if Claiming(s, w).PhaseOf(w).Idle? then []
      else if Locking(s, w).PhaseOf(w).Contended? then [Protocol.ReadLock(w), Protocol.Defer(w, pollMs)]
      else
        [Protocol.ReadLock(w), Protocol.WriteLock(w), Protocol.RecordToken(w)] + ActEvents(w, run.acts)
        + SettleEvents(w, run.outcome) + [Protocol.ReleaseLock(w)]
  }

  /** The database holds what the protocol state says. */
  ghost predicate Shows(db: Database, s: Protocol.System)
    reads db
  {
    db.jobs == s.jobs && db.locks == s.locks && db.current == s.Current()
  }

  class Worker {
    const queue: Queues.Queue
    const holder: string
    const leaseMs: int
    const pollMs: int
    var stopping: bool
    var inflight: Option<int>

    constructor (queue: Queues.Queue, holder: string, leaseMs: int, pollMs: int)
      ensures this.queue == queue && this.holder == holder && this.leaseMs == leaseMs && this.pollMs == pollMs
      ensures !stopping && inflight == None
    {
      this.queue, this.holder, this.leaseMs, this.pollMs := queue, holder, leaseMs, pollMs;
      stopping, inflight := false, None;
    }

    /** Stop claiming. The job in flight, if any, has to be waited for. */
    method Stop() returns (drained: bool)
      modifies this`stopping
      ensures stopping && (drained <==> inflight == None)
    {
      stopping := true;
      drained := inflight == None;
    }

    /** Claim and fully process at most one job; `s` is the protocol state the database shows. */
    method Tick(run: HandlerRun, ghost s: Protocol.System, now: int) returns (ran: bool)
      requires Shows(queue.db, s) && s.now == now && s.leaseMs == leaseMs && s.PhaseOf(holder).Idle?
      modifies this`inflight, queue.db`jobs, queue.db`locks, queue.db`current
      ensures stopping ==> !ran && Shows(queue.db, s) && inflight == old(inflight)
      ensures !stopping ==> Shows(queue.db, Ticked(s, holder, pollMs, run)) && (ran <==> Runs(s, holder))
      ensures inflight == if ran then None else old(inflight)
    {
      if stopping {
        return false;
      }
      var reaped := queue.ReapExpiredLeases(now);
      Protocol.ReapInTwoSteps(s);
      var claimed := queue.Claim(holder, leaseMs, now);
      if claimed.None? {
        return false;
      }
      var id := claimed.value;
      var resource := queue.db.jobs[id].resourceId;
      ran := Process(id, resource, run, Claiming(s, holder), now);
    }

    /** From the claimed job on: take its lock or give the job back, then run the handler and settle. */
    method Process(id: int, resource: string, run: HandlerRun, ghost c: Protocol.System, now: int) returns (ran: bool)
      requires Shows(queue.db, c) && c.now == now && c.leaseMs == leaseMs
      requires c.PhaseOf(holder) == Protocol.Claimed(id, resource)
      modifies this`inflight, queue.db`jobs, queue.db`locks, queue.db`current
      ensures var l := Acquiring(c, holder);
              && (ran <==> !l.PhaseOf(holder).Contended?)
              && Shows(queue.db, if !ran then Protocol.Step(l, Protocol.Defer(holder, pollMs))
                                 else Settling(Protocol.Step(l, Protocol.RecordToken(holder)), holder, run))
      ensures inflight == if ran then None else old(inflight)
    {
      Protocol.AcquireInTwoSteps(c, holder);
      var taken := queue.AcquireLock(resource, holder, leaseMs, now);
      if taken.None? {
        // Another holder owns the resource: give the job back without burning an attempt.
        queue.DeferClaim(id, pollMs, now);
        return false;
      }
      var lock := taken.value;
      queue.SetFencingToken(id, lock.token);
      inflight := Some(id);
      ghost var start := Protocol.Step(Acquiring(c, holder), Protocol.RecordToken(holder));
      var end := Handle(id, resource, lock, run.acts, start, now);
      Finish(id, resource, lock, run.outcome, Protocol.Run(start, ActEvents(holder, run.acts)), end);
      inflight := None;
      ran := true;
    }

    /** Record the outcome, then give the lock back. */
    method Finish(id: int, resource: string, lock: Locks.Lock, outcome: Outcome, ghost s: Protocol.System, now: int)
      requires Shows(queue.db, s) && s.now == now
      requires s.PhaseOf(holder) == Protocol.Handling(id, resource, lock)
      modifies queue.db`jobs, queue.db`locks
      ensures Shows(queue.db, Protocol.Step(Settle(s, holder, outcome), Protocol.ReleaseLock(holder)))
    {
      match outcome {
        case Returned => queue.Complete(id, Some(holder));
        case Threw(message) =>
          Protocol.FailInTwoSteps(s, holder, message);
          var recorded := queue.Fail(id, message, Some(holder), now);
      }
      queue.ReleaseLock(lock);
    }

    /** One thing the handler or the heartbeat beside it does. */
    method DoAct(id: int, resource: string, lock: Locks.Lock, act: Act, ghost s: Protocol.System, now: int)
      returns (end: int)
      requires Shows(queue.db, s) && s.now == now && s.leaseMs == leaseMs
      requires s.PhaseOf(holder) == Protocol.Handling(id, resource, lock)
      modifies queue.db`jobs, queue.db`locks, queue.db`current
      ensures var next := Protocol.Step(s, ActEvent(holder, act));
              && Shows(queue.db, next) && next.now == end && next.leaseMs == leaseMs
              && next.PhaseOf(holder) == s.PhaseOf(holder)
    {
      end := now;
      ActFrame(s, holder, act);
      match act {
        case Wait(ms) => end := end + ms;
        case WriteTag(tag) =>
          WriteStep(s, holder, tag);
          var applied := Fencing.FencedSetCurrent(queue.db, resource, tag, lock.token, now);
        case BurnRetries => queue.NoRetry(id);
        case Beat => queue.Heartbeat(id, leaseMs, now);
        case RenewLock => var renewed := queue.RenewLock(lock, leaseMs, now);
      }
    }

    /** The handler's writes and the heartbeats beside it. */
    method Handle(id: int, resource: string, lock: Locks.Lock, acts: seq<Act>, ghost s: Protocol.System, now: int)
      returns (end: int)
      requires Shows(queue.db, s) && s.now == now && s.leaseMs == leaseMs
      requires s.PhaseOf(holder) == Protocol.Handling(id, resource, lock)
      modifies queue.db`jobs, queue.db`locks, queue.db`current
      ensures Shows(queue.db, Protocol.Run(s, ActEvents(holder, acts)))
      ensures Protocol.Run(s, ActEvents(holder, acts)).now == end
      ensures Protocol.Run(s, ActEvents(holder, acts)).PhaseOf(holder) == s.PhaseOf(holder)
      ensures Protocol.Run(s, ActEvents(holder, acts)).leaseMs == leaseMs
    {
      end := now;
      ghost var here := s;
      for i := 0 to |acts|
        invariant here == Protocol.Run(s, ActEvents(holder, acts[..i]))
        invariant Shows(queue.db, here) && here.now == end && here.leaseMs == leaseMs
        invariant here.PhaseOf(holder) == s.PhaseOf(holder)
      {
        ActsSnoc(s, holder, acts[..i], acts[i]);
        assert acts[..i + 1] == acts[..i] + [acts[i]];
        end := DoAct(id, resource, lock, acts[i], here, end);
        here := Protocol.Step(here, ActEvent(holder, acts[i]));
      }
      assert acts[..|acts|] == acts;
    }
  }

  /** What no act of a handler changes. */
  lemma ActFrame(s: Protocol.System, w: string, act: Act)
    requires s.PhaseOf(w).Handling?
    ensures var next := Protocol.Step(s, ActEvent(w, act));
            && next.leaseMs == s.leaseMs && next.phases == s.phases
            && next.now == s.now + (if act.Wait? then act.ms else 0)
            && (!act.WriteTag? ==> next.writes == s.writes)
            && (!act.RenewLock? ==> next.locks == s.locks)
            && (!act.BurnRetries? && !act.Beat? ==> next.jobs == s.jobs)
  {
  }

  lemma WriteStep(s: Protocol.System, w: string, tag: string)
    requires s.PhaseOf(w).Handling?
    ensures Protocol.Step(s, Protocol.Write(w, tag)).Current()
         == Fencing.Put(s.Current(), Fencing.Fenced(s.PhaseOf(w).resource, tag, s.PhaseOf(w).lock.token, s.now))
  {
    var p := s.PhaseOf(w);
    Protocol.CurrentSnoc(s, Fencing.Fenced(p.resource, tag, p.lock.token, s.now));
  }

  lemma ActsSnoc(s: Protocol.System, w: string, acts: seq<Act>, act: Act)
    ensures Protocol.Run(s, ActEvents(w, acts + [act]))
              == Protocol.Step(Protocol.Run(s, ActEvents(w, acts)), ActEvent(w, act))
  {
    assert ActEvents(w, acts + [act]) == ActEvents(w, acts) + [ActEvent(w, act)];
    Protocol.RunSnoc(s, ActEvents(w, acts), ActEvent(w, act));
  }

  /** The worker leases job `id`, holds its resource's lock and is inside the handler. */
  predicate AtWork(s: Protocol.System, w: string, id: int) {
    var p := s.PhaseOf(w);
    && p.Handling? && p.id == id
    && id in s.jobs && s.jobs[id].state == Running && s.jobs[id].leaseHolder == Some(w)
    && p.lock.holder == w && p.lock.resource in s.locks && s.locks[p.lock.resource].holder == w
  }

  lemma ActKeepsWorking(s: Protocol.System, w: string, id: int, act: Act)
    requires AtWork(s, w, id)
    ensures var next := Protocol.Step(s, ActEvent(w, act));
            AtWork(next, w, id) && next.PhaseOf(w) == s.PhaseOf(w) && next.jobs[id].attempts == s.jobs[id].attempts
  {
  }

  lemma {:induction false} ActsKeepWorking(s: Protocol.System, w: string, id: int, acts: seq<Act>)
    requires AtWork(s, w, id)
    ensures var end := Protocol.Run(s, ActEvents(w, acts));
            AtWork(end, w, id) && end.PhaseOf(w) == s.PhaseOf(w) && end.jobs[id].attempts == s.jobs[id].attempts
  {
    if acts != [] {
      hide AtWork, Protocol.Step, ActEvent;
      var (front, last) := (acts[..|acts| - 1], acts[|acts| - 1]);
      ActsKeepWorking(s, w, id, front);
      ActKeepsWorking(Protocol.Run(s, ActEvents(w, front)), w, id, last);
      ActsSnoc(s, w, front, last);
      assert acts == front + [last];
    }
  }

  lemma StartsAtWork(s: Protocol.System, w: string)
    requires s.PhaseOf(w).Idle? && Runs(s, w)
    ensures Starting(s, w).PhaseOf(w).Handling? && AtWork(Starting(s, w), w, Starting(s, w).PhaseOf(w).id)
    ensures var p := Starting(s, w).PhaseOf(w); Starting(s, w).jobs[p.id].fencingToken == p.lock.token
  {
    var c := Claiming(s, w);
    ClaimedByTick(s, w);
    Protocol.AcquireInTwoSteps(c, w);
    RecordedAtWork(Acquiring(c, w), w);
  }

  lemma ClaimedByTick(s: Protocol.System, w: string)
    requires s.PhaseOf(w).Idle? && !Claiming(s, w).PhaseOf(w).Idle?
    ensures var c := Claiming(s, w); var p := c.PhaseOf(w);
            p.Claimed? && p.id in c.jobs && c.jobs[p.id].state == Running && c.jobs[p.id].leaseHolder == Some(w)
  {
  }

  lemma RecordedAtWork(l: Protocol.System, w: string)
    requires var p := l.PhaseOf(w);
             && p.Locked? && p.id in l.jobs && l.jobs[p.id].state == Running && l.jobs[p.id].leaseHolder == Some(w)
             && p.lock.holder == w && p.lock.resource in l.locks && l.locks[p.lock.resource].holder == w
    ensures var u := Protocol.Step(l, Protocol.RecordToken(w)); var p := u.PhaseOf(w);
            p.Handling? && AtWork(u, w, p.id) && u.jobs[p.id].fencingToken == p.lock.token
  {
  }

  /** A tick that gets to the handler settles the job by the handler's outcome, however long the handler
      takes, leaves the job's lock free and the worker idle. */
  lemma UndisturbedTickSettles(s: Protocol.System, w: string, pollMs: int, run: HandlerRun)
    requires s.PhaseOf(w).Idle? && Runs(s, w)
    ensures var p := Starting(s, w).PhaseOf(w);
            var end := Ticked(s, w, pollMs, run);
            && p.Handling? && end.PhaseOf(w).Idle?
            && p.id in end.jobs && end.jobs[p.id].leaseHolder == None
            && end.jobs[p.id].state == (if run.outcome.Returned? then Done
                                        else if end.jobs[p.id].attempts >= end.jobs[p.id].maxAttempts then Failed
                                        else Pending)
            && (end.now >= 0 ==> !Locks.Held(end.locks, p.lock.resource, end.now))
  {
    StartsAtWork(s, w);
    var start := Starting(s, w);
    ActsKeepWorking(start, w, start.PhaseOf(w).id, run.acts);
    SettledAfterWork(Protocol.Run(start, ActEvents(w, run.acts)), w, start.PhaseOf(w).id, run.outcome);
  }

  /** Recording the outcome, from work. */
  lemma OutcomeRecorded(s: Protocol.System, w: string, id: int, outcome: Outcome)
    requires AtWork(s, w, id)
    ensures var (p, u) := (s.PhaseOf(w), Settle(s, w, outcome));
            && u.PhaseOf(w) == Protocol.Settled(id, p.resource, p.lock)
            && id in u.jobs && u.jobs[id].leaseHolder == None
            && u.jobs[id].state == (if outcome.Returned? then Done
                                    else if u.jobs[id].attempts >= u.jobs[id].maxAttempts then Failed
                                    else Pending)
            && u.locks == s.locks && u.now == s.now
  {
    if outcome.Threw? { Protocol.FailInTwoSteps(s, w, outcome.message); }
  }

  /** Recording the outcome and releasing the lock, from work. */
  lemma SettledAfterWork(s: Protocol.System, w: string, id: int, outcome: Outcome)
    requires AtWork(s, w, id)
    ensures var end := Protocol.Step(Settle(s, w, outcome), Protocol.ReleaseLock(w));
            && end.PhaseOf(w).Idle?
            && id in end.jobs && end.jobs[id].leaseHolder == None
            && end.jobs[id].state == (if outcome.Returned? then Done
                                      else if end.jobs[id].attempts >= end.jobs[id].maxAttempts then Failed
                                      else Pending)
            && (end.now >= 0 ==> !Locks.Held(end.locks, s.PhaseOf(w).lock.resource, end.now))
  {
    hide Settle;
    OutcomeRecorded(s, w, id, outcome);
  }

  /** An undisturbed tick is a run of the protocol, so everything proved of all runs holds of it. */
  lemma TickIsARun(s: Protocol.System, w: string, pollMs: int, run: HandlerRun)
    ensures Protocol.Run(s, TickEvents(s, w, pollMs, run)) == Ticked(s, w, pollMs, run)
  {
    hide Protocol.Step, Protocol.Run, ActEvents, SettleEvents, Settle;
    var claim := [Protocol.Bury(s.now), Protocol.Requeue(s.now), Protocol.Claim(w)];
    var c := Claiming(s, w);
    Protocol.RunThree(s, Protocol.Bury(s.now), Protocol.Requeue(s.now), Protocol.Claim(w));
    if c.PhaseOf(w).Idle? {
      assert TickEvents(s, w, pollMs, run) == claim;
    } else if Locking(s, w).PhaseOf(w).Contended? {
      Protocol.RunConcat(s, claim, [Protocol.ReadLock(w), Protocol.Defer(w, pollMs)]);
      Protocol.RunTwo(c, Protocol.ReadLock(w), Protocol.Defer(w, pollMs));
      ContendedWritesNothing(c, w);
    } else {
      var begin := [Protocol.ReadLock(w), Protocol.WriteLock(w), Protocol.RecordToken(w)];
      var acts, settle := ActEvents(w, run.acts), SettleEvents(w, run.outcome);
      assert TickEvents(s, w, pollMs, run) == claim + begin + acts + settle + [Protocol.ReleaseLock(w)];
      Protocol.RunConcat(s, claim, begin);
      Protocol.RunThree(c, Protocol.ReadLock(w), Protocol.WriteLock(w), Protocol.RecordToken(w));
      Protocol.RunConcat(s, claim + begin, acts);
      Protocol.RunConcat(s, claim + begin + acts, settle);
      SettleIsARun(Protocol.Run(Starting(s, w), acts), w, run.outcome);
      Protocol.RunSnoc(s, claim + begin + acts + settle, Protocol.ReleaseLock(w));
    }
  }

  lemma ContendedWritesNothing(c: Protocol.System, w: string)
    requires Acquiring(c, w).PhaseOf(w).Contended?
    ensures Acquiring(c, w) == Protocol.Step(c, Protocol.ReadLock(w))
  {
  }

  lemma SettleIsARun(s: Protocol.System, w: string, o: Outcome)
    ensures Protocol.Run(s, SettleEvents(w, o)) == Settle(s, w, o)
  {
    match o {
      case Returned =>
        Protocol.RunSnoc(s, [], Protocol.Complete(w));
        assert [] + [Protocol.Complete(w)] == [Protocol.Complete(w)];
      case Threw(message) => Protocol.RunTwo(s, Protocol.ReadJob(w, message), Protocol.RecordFailure(w));
    }
  }
}
