/** What the unguarded statements of the queue can do to the `jobs` table of the worker protocol
    (src/queue/queue.ts:146-173, 210-216; src/queue/worker.ts:104-145), exactly, over all interleavings. */
module WorkerTables {
  import opened Tables
  import opened Wrappers
  import opened Workers
  import opened WorkerStarts
  import Jobs
  import JobRuns

  lemma RunStep(leaseMs: int, events: seq<Event>, k: nat)
    requires k < |events|
    ensures Run(Boot(leaseMs), events[..k + 1]) == Step(Run(Boot(leaseMs), events[..k]), events[k])
  {
    assert events[..k + 1] == events[..k] + [events[k]];
    RunSnoc(Boot(leaseMs), events[..k], events[k]);
  }

  // ------------------------------------------------------------------
  // Steps as queue calls
  // ------------------------------------------------------------------

  /** The queue call a step makes, when it makes one other than these two. */
  function CallOf(s: System, e: Event): (c: seq<JobRuns.Call>)
    requires !e.BurnRetries? && !e.Defer?
    ensures |c| <= 1
  {
    match e
    case Submit(id, _, _, max, _) =>
      if id in s.granted || max < 1 then [] else [JobRuns.EnqueueCall(SubmitInput(e), s.now)]
    case Cancel(id) => [JobRuns.CancelCall(id)]
    case Bury(at) => if at > s.now then [] else [JobRuns.BuryCall(at)]
    case Requeue(at) => if at > s.now then [] else [JobRuns.RequeueCall(at)]
    case Claim(w) => if s.PhaseOf(w).Idle? then [JobRuns.ClaimCall(w, s.leaseMs, s.now)] else []
    case RecordToken(w) =>
      if s.PhaseOf(w).Locked? then [JobRuns.TokenCall(s.PhaseOf(w).id, s.PhaseOf(w).lock.token)] else []
    case Beat(w) =>
      if s.PhaseOf(w).Handling? then [JobRuns.HeartbeatCall(s.PhaseOf(w).id, s.leaseMs, s.now)] else []
    case Complete(w) =>
      if s.PhaseOf(w).Handling? then [JobRuns.CompleteCall(s.PhaseOf(w).id, Some(w))] else []
    case RecordFailure(w) =>
      var p := s.PhaseOf(w);
      if p.Failing? then [JobRuns.RecordFailureCall(p.id, p.error, Some(w), p.retry, p.attempts, s.now)] else []
    case _ => []
  }

  /** The step records the retry of a job it still leases, whose attempts were spent after it had read them. */
  predicate RetriesSpent(s: System, e: Event) {
    && e.RecordFailure? && s.PhaseOf(e.worker).Failing? && s.PhaseOf(e.worker).retry
    && Jobs.OwnerGuard(s.jobs, s.PhaseOf(e.worker).id, Some(e.worker))
    && Jobs.Exhausted(s.jobs[s.PhaseOf(e.worker).id])
  }

  lemma StepIsItsCall(s: System, e: Event)
    requires !e.BurnRetries? && !e.Defer?
    ensures var c := CallOf(s, e); Step(s, e).jobs == if c == [] then s.jobs else JobRuns.Apply(s.jobs, c[0])
    ensures CallOf(s, e) != [] && !RetriesSpent(s, e) ==> JobRuns.Disciplined(s.jobs, CallOf(s, e)[0])
  {
  }

  // ------------------------------------------------------------------
  // Leaving a terminal state
  // ------------------------------------------------------------------

  predicate Finished(s: System, id: int) { id in s.jobs && Jobs.Terminal(s.jobs[id]) }

  /** The step defers a claim of a job that has meanwhile finished. */
  predicate Reopens(s: System, e: Event, id: int) {
    e.Defer? && s.PhaseOf(e.worker).Contended? && s.PhaseOf(e.worker).id == id && Finished(s, id)
  }

  /** The same terminal state, with as many attempts. */
  predicate SameEnd(s: System, u: System, id: int)
    requires Finished(s, id)
  {
    id in u.jobs && u.jobs[id].state == s.jobs[id].state && u.jobs[id].attempts == s.jobs[id].attempts
  }

  /** One step leaves a terminal state exactly when it is the late deferral of that job. */
  lemma StepReopensIff(s: System, e: Event, id: int)
    requires Finished(s, id)
    ensures !SameEnd(s, Step(s, e), id) <==> Reopens(s, e, id)
    ensures !Finished(Step(s, e), id) <==> Reopens(s, e, id)
  {
    if !e.BurnRetries? && !e.Defer? {
      StepIsItsCall(s, e);
      if CallOf(s, e) != [] && !RetriesSpent(s, e) { JobRuns.TerminalIsFinal(s.jobs, CallOf(s, e)[0], id); }
    }
  }

  ghost predicate NeverReopens(leaseMs: int, events: seq<Event>, id: int) {
    forall k :: 0 <= k < |events| ==> !Reopens(Run(Boot(leaseMs), events[..k]), events[k], id)
  }

  predicate EndLasts(leaseMs: int, events: seq<Event>, id: int, i: nat, j: nat)
    requires i <= j <= |events|
  {
    Finished(Run(Boot(leaseMs), events[..i]), id) ==>
      SameEnd(Run(Boot(leaseMs), events[..i]), Run(Boot(leaseMs), events[..j]), id)
  }

  /** Once the job is done, failed or dead in the run, it is so for the rest of it. */
  ghost predicate EndIsFinal(leaseMs: int, events: seq<Event>, id: int) {
    forall i: nat, j: nat :: i <= j <= |events| ==> EndLasts(leaseMs, events, id, i, j)
  }

  lemma {:induction false} EndLastsWithoutReopening(leaseMs: int, events: seq<Event>, id: int, i: nat, j: nat)
    requires i <= j <= |events| && NeverReopens(leaseMs, events, id)
    ensures EndLasts(leaseMs, events, id, i, j)
    decreases j
  {
    if i < j {
      EndLastsWithoutReopening(leaseMs, events, id, i, j - 1);
      var k := j - 1;
      assert !Reopens(Run(Boot(leaseMs), events[..k]), events[k], id);
      EndLastsOneMore(leaseMs, events, id, i, j - 1);
    }
  }

  lemma EndLastsOneMore(leaseMs: int, events: seq<Event>, id: int, i: nat, j: nat)
    requires i <= j < |events| && EndLasts(leaseMs, events, id, i, j)
    requires !Reopens(Run(Boot(leaseMs), events[..j]), events[j], id)
    ensures EndLasts(leaseMs, events, id, i, j + 1)
  {
    RunStep(leaseMs, events, j);
    if Finished(Run(Boot(leaseMs), events[..i]), id) {
      StepReopensIff(Run(Boot(leaseMs), events[..j]), events[j], id);
    }
  }

  lemma ReopeningEnds(leaseMs: int, events: seq<Event>, id: int, k: nat)
    requires k < |events| && Reopens(Run(Boot(leaseMs), events[..k]), events[k], id)
    ensures !EndLasts(leaseMs, events, id, k, k + 1)
  {
    RunStep(leaseMs, events, k);
    StepReopensIff(Run(Boot(leaseMs), events[..k]), events[k], id);
  }

  /** In every run of any workers, under every lease time: a job that is done, failed or dead stays so, with
      its attempts, if and only if no worker defers a claim of it after it has finished. */
  lemma TerminalIsFinalIff(leaseMs: int, events: seq<Event>, id: int)
    ensures EndIsFinal(leaseMs, events, id) <==> NeverReopens(leaseMs, events, id)
  {
    if NeverReopens(leaseMs, events, id) {
      forall i: nat, j: nat | i <= j <= |events| ensures EndLasts(leaseMs, events, id, i, j) {
        EndLastsWithoutReopening(leaseMs, events, id, i, j);
      }
    }
    if EndIsFinal(leaseMs, events, id) {
      forall k | 0 <= k < |events| ensures !Reopens(Run(Boot(leaseMs), events[..k]), events[k], id) {
        assert EndLasts(leaseMs, events, id, k, k + 1);
        if Reopens(Run(Boot(leaseMs), events[..k]), events[k], id) { ReopeningEnds(leaseMs, events, id, k); }
      }
    }
  }

  // ------------------------------------------------------------------
  // The table invariant
  // ------------------------------------------------------------------

  /** The step burns the retries of a job that is back in the queue. */
  predicate BurnsPending(s: System, e: Event) {
    && e.BurnRetries? && s.PhaseOf(e.worker).Handling?
    && s.PhaseOf(e.worker).id in s.jobs && s.jobs[s.PhaseOf(e.worker).id].state == Pending
  }

  predicate Spoils(s: System, e: Event) { BurnsPending(s, e) || RetriesSpent(s, e) }

  lemma BurnKeepsTableIff(s: System, e: Event)
    requires JobRuns.TableOk(s.jobs) && e.BurnRetries?
    ensures JobRuns.TableOk(Step(s, e).jobs) <==> !BurnsPending(s, e)
  {
    var p := s.PhaseOf(e.worker);
    if p.Handling? && p.id in s.jobs {
      JobRuns.NoRetryKeepsTableOkIffNotPending(s.jobs, p.id);
    }
  }

  lemma RecordKeepsTableIff(s: System, e: Event)
    requires JobRuns.TableOk(s.jobs) && e.RecordFailure?
    ensures JobRuns.TableOk(Step(s, e).jobs) <==> !RetriesSpent(s, e)
  {
    var p := s.PhaseOf(e.worker);
    if p.Failing? {
      JobRuns.RecordFailureKeepsTableOkIff(s.jobs, p.id, p.error, Some(e.worker), p.retry, p.attempts, s.now);
    }
  }

  lemma DeferKeepsTable(s: System, e: Event)
    requires JobRuns.TableOk(s.jobs) && e.Defer?
    requires var p := s.PhaseOf(e.worker); p.Contended? && p.id in s.jobs ==> s.jobs[p.id].attempts >= 1
    ensures JobRuns.TableOk(Step(s, e).jobs)
  {
    var p := s.PhaseOf(e.worker);
    if p.Contended? && p.id in s.jobs {
      JobRuns.DeferKeepsTableOkIffClaimed(s.jobs, p.id, e.delayMs, s.now);
    }
  }

  /** In every reachable state, one step of the protocol keeps the table invariant exactly when it is neither of
      the two. A deferral, however late, always finds an attempt to give back. */
  lemma StepKeepsTableIff(leaseMs: int, events: seq<Event>, e: Event)
    requires JobRuns.TableOk(Run(Boot(leaseMs), events).jobs)
    ensures JobRuns.TableOk(Step(Run(Boot(leaseMs), events), e).jobs) <==> !Spoils(Run(Boot(leaseMs), events), e)
  {
    var s := Run(Boot(leaseMs), events);
    if e.BurnRetries? {
      BurnKeepsTableIff(s, e);
    } else if e.RecordFailure? {
      RecordKeepsTableIff(s, e);
    } else if e.Defer? {
      DeferralFindsAnAttempt(leaseMs, events, e.worker);
      DeferKeepsTable(s, e);
    } else {
      StepIsItsCall(s, e);
      if CallOf(s, e) != [] { JobRuns.StepKeepsTableOk(s.jobs, CallOf(s, e)[0]); }
    }
  }

  predicate TableOkAt(leaseMs: int, events: seq<Event>, j: nat)
    requires j <= |events|
  {
    JobRuns.TableOk(Run(Boot(leaseMs), events[..j]).jobs)
  }

  ghost predicate NeverSpoils(leaseMs: int, events: seq<Event>) {
    forall k :: 0 <= k < |events| ==> !Spoils(Run(Boot(leaseMs), events[..k]), events[k])
  }

  lemma {:induction false} TableOkWithoutSpoiling(leaseMs: int, events: seq<Event>, j: nat)
    requires j <= |events| && NeverSpoils(leaseMs, events)
    ensures TableOkAt(leaseMs, events, j)
    decreases j
  {
    if j > 0 {
      TableOkWithoutSpoiling(leaseMs, events, j - 1);
      RunStep(leaseMs, events, j - 1);
      StepKeepsTableIff(leaseMs, events[..j - 1], events[j - 1]);
    } else {
      assert events[..0] == [];
    }
  }

  /** In every run of any workers: the table satisfies its invariant throughout (running exactly with a lease,
      pending with attempts to spare, and so on) if and only if no worker burns the retries of a job that is
      back in the queue, and none records a retry after the last attempt was burned under its hands. */
  lemma TableIsOkThroughoutIff(leaseMs: int, events: seq<Event>)
    ensures (forall j: nat :: j <= |events| ==> TableOkAt(leaseMs, events, j)) <==> NeverSpoils(leaseMs, events)
  {
    if NeverSpoils(leaseMs, events) {
      forall j: nat | j <= |events| ensures TableOkAt(leaseMs, events, j) {
        TableOkWithoutSpoiling(leaseMs, events, j);
      }
    }
    if forall j: nat :: j <= |events| ==> TableOkAt(leaseMs, events, j) {
      forall k | 0 <= k < |events| ensures !Spoils(Run(Boot(leaseMs), events[..k]), events[k]) {
        assert TableOkAt(leaseMs, events, k) && TableOkAt(leaseMs, events, k + 1);
        RunStep(leaseMs, events, k);
        StepKeepsTableIff(leaseMs, events[..k], events[k]);
      }
    }
  }
}
