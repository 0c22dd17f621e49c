/** Prompt and stalled workers (src/queue/worker.ts:104-118): when terminal states are final, and the stall that
    reopens a finished job. */
module WorkerRuns {
  import opened Wrappers
  import opened Tables
  import opened Workers
  import opened WorkerMoves
  import opened WorkerStarts
  import opened WorkerTables
  import Jobs

  // ------------------------------------------------------------------
  // Prompt workers
  // ------------------------------------------------------------------

  /** The synchronous part of `tick`, from the claim to the start of the handler, ends before the
      lease it was given does. */
  ghost predicate Prompt(s: System, e: Event) {
    e.Elapse? ==>
      forall w :: s.PhaseOf(w).Synchronous() && s.PhaseOf(w).id in s.jobs
                  && s.jobs[s.PhaseOf(w).id].leaseUntil.Some? ==>
        s.now + e.ms < s.jobs[s.PhaseOf(w).id].leaseUntil.value
  }

  ghost predicate PromptRun(s: System, events: seq<Event>) {
    events == []
    || (PromptRun(s, events[..|events| - 1]) && Prompt(Run(s, events[..|events| - 1]), events[|events| - 1]))
  }

  predicate ClaimOk(s: System, w: string) {
    var p := s.PhaseOf(w);
    p.Synchronous() ==>
      && p.id in s.jobs
      && s.jobs[p.id].state == Running
      && s.jobs[p.id].leaseHolder == Some(w)
      && s.jobs[p.id].leaseUntil.Some?
      && s.now < s.jobs[p.id].leaseUntil.value
  }

  ghost predicate ClaimInv(s: System) {
    && s.leaseMs > 0
    && s.jobs.Keys <= s.granted.Keys
    && forall w :: ClaimOk(s, w)
  }

  lemma StepKeepsClaim(s: System, e: Event, w: string)
    requires s.leaseMs > 0 && Prompt(s, e) && ClaimOk(s, w) && (e.Defer? ==> ClaimOk(s, e.worker))
    requires s.jobs.Keys <= s.granted.Keys
    ensures ClaimOk(Step(s, e), w)
  {
    if e.Claim? {
      ClaimKeepsClaim(s, e.worker, w);
    } else if e.Defer? {
      DeferKeepsClaim(s, e, w);
    } else if OfTheQueue(e) {
      QueueStepKeepsClaim(s, e, w);
    } else {
      OtherStepKeepsClaim(s, e, w);
    }
  }

  lemma ClaimKeepsClaim(s: System, v: string, w: string)
    requires s.leaseMs > 0 && ClaimOk(s, w)
    ensures ClaimOk(Step(s, Claim(v)), w)
  {
  }

  lemma DeferKeepsClaim(s: System, e: Event, w: string)
    requires ClaimOk(s, w) && e.Defer? && ClaimOk(s, e.worker)
    ensures ClaimOk(Step(s, e), w)
  {
  }

  lemma QueueStepKeepsClaim(s: System, e: Event, w: string)
    requires s.leaseMs > 0 && ClaimOk(s, w) && OfTheQueue(e) && !e.Claim? && !e.Defer?
    ensures ClaimOk(Step(s, e), w)
  {
  }

  lemma OtherStepKeepsClaim(s: System, e: Event, w: string)
    requires Prompt(s, e) && ClaimOk(s, w) && s.jobs.Keys <= s.granted.Keys && !OfTheQueue(e)
    ensures ClaimOk(Step(s, e), w)
  {
  }

  lemma StepKeepsClaims(s: System, e: Event)
    requires ClaimInv(s) && Prompt(s, e)
    ensures ClaimInv(Step(s, e))
  {
    forall w ensures ClaimOk(Step(s, e), w) {
      hide Step, ClaimOk;
      assert e.Defer? ==> ClaimOk(s, e.worker);
      StepKeepsClaim(s, e, w);
    }
  }

  lemma {:induction false} RunKeepsClaims(s: System, events: seq<Event>)
    requires ClaimInv(s) && PromptRun(s, events)
    ensures ClaimInv(Run(s, events))
  {
    if events != [] {
      RunKeepsClaims(s, events[..|events| - 1]);
      StepKeepsClaims(Run(s, events[..|events| - 1]), events[|events| - 1]);
    }
  }

  lemma {:induction false} PromptPrefix(s: System, events: seq<Event>, k: nat)
    requires k <= |events| && PromptRun(s, events)
    ensures PromptRun(s, events[..k])
    decreases |events|
  {
    if k == |events| {
      assert events[..k] == events;
    } else {
      var before := events[..|events| - 1];
      assert before[..k] == events[..k];
      PromptPrefix(s, before, k);
    }
  }

  /** A prompt worker only ever defers a claim it still holds. */
  lemma PromptNeverReopens(leaseMs: int, events: seq<Event>, id: int)
    requires leaseMs > 0 && PromptRun(Boot(leaseMs), events)
    ensures NeverReopens(leaseMs, events, id)
  {
    forall k | 0 <= k < |events| ensures !Reopens(Run(Boot(leaseMs), events[..k]), events[k], id) {
      PromptPrefix(Boot(leaseMs), events, k);
      RunKeepsClaims(Boot(leaseMs), events[..k]);
      if events[k].Defer? { assert ClaimOk(Run(Boot(leaseMs), events[..k]), events[k].worker); }
    }
  }

  /** When no worker stalls past its lease before the handler, no interleaving leaves a terminal state: then
      the deferral's missing state guard does no harm. */
  lemma PromptRunsNeverReopenJobs(leaseMs: int, events: seq<Event>, id: int)
    requires leaseMs > 0 && PromptRun(Boot(leaseMs), events)
    ensures EndIsFinal(leaseMs, events, id)
  {
    PromptNeverReopens(leaseMs, events, id);
    TerminalIsFinalIff(leaseMs, events, id);
  }

  // ------------------------------------------------------------------
  // Runs that go wrong
  // ------------------------------------------------------------------

  const SUBMITTED := [Submit(1, Deploy, "web", 1, 0), Submit(2, Deploy, "web", 3, 0)]

  const A_TAKES := [Claim("A"), ReadLock("A"), WriteLock("A")]

  const B_WAITS := [Claim("B"), ReadLock("B")]

  const LEASES_END := [Elapse(10), Bury(10), Requeue(10)]

  const C_TAKES := [Claim("C"), ReadLock("C"), WriteLock("C")]

  /** Two jobs of one service: A runs job 1, B claimed job 2 and found the lock taken; then B stalls. */
  const STALL := SUBMITTED + A_TAKES + B_WAITS

  /** After the leases expired both jobs are reaped, and C runs job 2 and completes it. */
  const OVERTAKE := LEASES_END + C_TAKES + [RecordToken("C"), Complete("C")]

  function Row(state: JobState, attempts: int, max: int, due: int, lease: Option<(int, string)>, error: Option<string>,
               token: int): JobRow
  {
    JobRow(Deploy, "web", state, attempts, max, due,
           if lease.Some? then Some(lease.value.0) else None,
           if lease.Some? then Some(lease.value.1) else None, error, token)
  }

  const KEY := Jobs.ResourceKey("web")

  lemma Submits()
    ensures var s := Run(Boot(10), SUBMITTED);
            && s.jobs == map[1 := Row(Pending, 0, 1, 0, None, None, 0), 2 := Row(Pending, 0, 3, 0, None, None, 0)]
            && s.locks == map[] && s.phases == map[] && s.now == 0 && s.leaseMs == 10
  {
    RunTwo(Boot(10), Submit(1, Deploy, "web", 1, 0), Submit(2, Deploy, "web", 3, 0));
  }

  lemma ATakes(s: System)
    requires s.jobs == map[1 := Row(Pending, 0, 1, 0, None, None, 0), 2 := Row(Pending, 0, 3, 0, None, None, 0)]
    requires s.locks == map[] && s.phases == map[] && s.now == 0 && s.leaseMs == 10
    ensures var u := Run(s, A_TAKES);
            && u.jobs == map[1 := Row(Running, 1, 1, 0, Some((10, "A")), None, 0),
                             2 := Row(Pending, 0, 3, 0, None, None, 0)]
            && u.locks == map[KEY := LockRow("A", 1, 10)]
            && u.phases.Keys == {"A"} && u.now == 0 && u.leaseMs == 10
  {
    hide Run;
    Takes(s, "A", 1);
  }

  lemma BWaits(s: System)
    requires s.jobs == map[1 := Row(Running, 1, 1, 0, Some((10, "A")), None, 0),
                           2 := Row(Pending, 0, 3, 0, None, None, 0)]
    requires s.locks == map[KEY := LockRow("A", 1, 10)]
    requires s.phases.Keys == {"A"} && s.now == 0 && s.leaseMs == 10
    ensures var u := Run(s, B_WAITS);
            && u.jobs == map[1 := Row(Running, 1, 1, 0, Some((10, "A")), None, 0),
                             2 := Row(Running, 1, 3, 0, Some((10, "B")), None, 0)]
            && u.locks == s.locks && u.now == 0 && u.leaseMs == 10
            && u.PhaseOf("B") == Contended(2, "web") && u.PhaseOf("C") == Idle
  {
    hide Run;
    Waits(s, "B", 2);
  }

  lemma Stalled()
    ensures var s := Run(Boot(10), STALL);
            && s.jobs == map[1 := Row(Running, 1, 1, 0, Some((10, "A")), None, 0),
                             2 := Row(Running, 1, 3, 0, Some((10, "B")), None, 0)]
            && s.locks == map[KEY := LockRow("A", 1, 10)]
            && s.now == 0 && s.leaseMs == 10
            && s.PhaseOf("B") == Contended(2, "web") && s.PhaseOf("C") == Idle
  {
    hide Run, Row, Boot;
    Submits();
    RunConcat(Boot(10), SUBMITTED, A_TAKES);
    ATakes(Run(Boot(10), SUBMITTED));
    RunConcat(Boot(10), SUBMITTED + A_TAKES, B_WAITS);
    BWaits(Run(Boot(10), SUBMITTED + A_TAKES));
  }

  lemma CTakes(s: System)
    requires s.jobs == map[1 := Row(Dead, 1, 1, 0, None, Some("lease expired"), 0),
                           2 := Row(Pending, 1, 3, 10, None, Some("lease expired"), 0)]
    requires s.locks == map[KEY := LockRow("A", 1, 10)] && s.now == 10
    requires s.PhaseOf("B") == Contended(2, "web") && s.PhaseOf("C") == Idle
    ensures var u := Run(s, C_TAKES);
            && u.PhaseOf("C").Locked? && u.PhaseOf("C").id == 2 && u.PhaseOf("B") == Contended(2, "web")
            && 2 in u.jobs && u.jobs[2].state == Running && u.jobs[2].leaseHolder == Some("C")
  {
    hide Run;
    Takes(s, "C", 2);
  }

  lemma CCompletes(s: System)
    requires s.PhaseOf("C").Locked? && s.PhaseOf("C").id == 2 && s.PhaseOf("B") == Contended(2, "web")
    requires 2 in s.jobs && s.jobs[2].state == Running && s.jobs[2].leaseHolder == Some("C")
    ensures var u := Run(s, [RecordToken("C"), Complete("C")]);
            2 in u.jobs && u.jobs[2].state == Done && u.PhaseOf("B") == Contended(2, "web")
  {
    hide Run;
    RunTwo(s, RecordToken("C"), Complete("C"));
  }

  lemma Overtakes(s: System)
    requires s.jobs == map[1 := Row(Running, 1, 1, 0, Some((10, "A")), None, 0),
                           2 := Row(Running, 1, 3, 0, Some((10, "B")), None, 0)]
    requires s.locks == map[KEY := LockRow("A", 1, 10)] && s.now == 0
    requires s.PhaseOf("B") == Contended(2, "web") && s.PhaseOf("C") == Idle
    ensures var u := Run(s, OVERTAKE);
            2 in u.jobs && u.jobs[2].state == Done && u.PhaseOf("B") == Contended(2, "web")
  {
    hide Run;
    Reaps(s, 10, 10);
    RunConcat(s, LEASES_END, C_TAKES);
    CTakes(Run(s, LEASES_END));
    RunConcat(s, LEASES_END + C_TAKES, [RecordToken("C"), Complete("C")]);
    CCompletes(Run(s, LEASES_END + C_TAKES));
  }

  /** Why promptness matters: `deferClaim` has no state guard, so when B at last gives back the claim it
      lost long ago, it reopens job 2, which C completed. */
  lemma StalledDeferralReopensAFinishedJob()
    ensures var s := Run(Boot(10), STALL + OVERTAKE);
            && 2 in s.jobs && s.jobs[2].state == Done
            && 2 in Step(s, Defer("B", 0)).jobs && Step(s, Defer("B", 0)).jobs[2].state == Pending
  {
    hide Run, Row, Boot;
    Stalled();
    RunConcat(Boot(10), STALL, OVERTAKE);
    Overtakes(Run(Boot(10), STALL));
    DeferralReopens(Run(Boot(10), STALL + OVERTAKE));
  }

  lemma DeferralReopens(s: System)
    requires 2 in s.jobs && s.PhaseOf("B") == Contended(2, "web")
    ensures 2 in Step(s, Defer("B", 0)).jobs && Step(s, Defer("B", 0)).jobs[2].state == Pending
  {
  }

  // ------------------------------------------------------------------
  // Retries burned by a worker that was reaped
  // ------------------------------------------------------------------

  /** A is in the handler of job 1 when its lease ends: the job goes back to the queue. */
  const ZOMBIE := [Submit(1, Deploy, "web", 3, 0)] + A_TAKES + [RecordToken("A")] + LEASES_END

  lemma AHandles(s: System)
    requires s.jobs == map[1 := Row(Pending, 0, 3, 0, None, None, 0)]
    requires s.locks == map[] && s.phases == map[] && s.now == 0 && s.leaseMs == 10
    ensures var u := Run(s, A_TAKES + [RecordToken("A")]);
            && u.jobs == map[1 := Row(Running, 1, 3, 0, Some((10, "A")), None, 1)]
            && u.locks == map[KEY := LockRow("A", 1, 10)]
            && u.PhaseOf("A").Handling? && u.PhaseOf("A").id == 1 && u.PhaseOf("C") == Idle
            && u.now == 0 && u.leaseMs == 10
  {
    hide Run;
    Takes(s, "A", 1);
    RunConcat(s, A_TAKES, [RecordToken("A")]);
    RunOne(Run(s, A_TAKES), RecordToken("A"));
  }

  lemma Requeued(s: System)
    requires s.jobs == map[1 := Row(Running, 1, 3, 0, Some((10, "A")), None, 1)] && s.now == 0
    ensures Run(s, LEASES_END) == s.(now := 10,
                                     jobs := map[1 := Row(Pending, 1, 3, 10, None, Some("lease expired"), 1)])
  {
    hide Run;
    Reaps(s, 10, 10);
  }

  lemma OneSubmitted()
    ensures var s := Run(Boot(10), [Submit(1, Deploy, "web", 3, 0)]);
            && s.jobs == map[1 := Row(Pending, 0, 3, 0, None, None, 0)]
            && s.locks == map[] && s.phases == map[] && s.now == 0 && s.leaseMs == 10
  {
    hide Run;
    RunOne(Boot(10), Submit(1, Deploy, "web", 3, 0));
  }

  lemma ZombieIsLeft()
    ensures var s := Run(Boot(10), ZOMBIE);
            && s.jobs == map[1 := Row(Pending, 1, 3, 10, None, Some("lease expired"), 1)]
            && s.locks == map[KEY := LockRow("A", 1, 10)]
            && s.PhaseOf("A").Handling? && s.PhaseOf("A").id == 1 && s.PhaseOf("C") == Idle
            && s.now == 10 && s.leaseMs == 10
  {
    hide Run, Row, Boot;
    var submit := [Submit(1, Deploy, "web", 3, 0)];
    OneSubmitted();
    RunConcat(Boot(10), submit, A_TAKES + [RecordToken("A")]);
    assert submit + (A_TAKES + [RecordToken("A")]) == submit + A_TAKES + [RecordToken("A")];
    AHandles(Run(Boot(10), submit));
    RunConcat(Boot(10), submit + A_TAKES + [RecordToken("A")], LEASES_END);
    Requeued(Run(Boot(10), submit + A_TAKES + [RecordToken("A")]));
  }

  /** The first failure of the table invariant: A burns the retries of the job that is back in the queue, which
      is then pending with no attempt left. */
  lemma ZombieBurnsAPendingJob()
    ensures var s := Run(Boot(10), ZOMBIE); var u := Step(s, BurnRetries("A"));
            && BurnsPending(s, BurnRetries("A"))
            && 1 in u.jobs && u.jobs[1].state == Pending && u.jobs[1].attempts == 1 && u.jobs[1].maxAttempts == 1
  {
    hide Run;
    ZombieIsLeft();
  }

  /** C runs the job again and fails: it has read two attempts of three when A burns the retries. */
  const SPENT := C_TAKES + [RecordToken("C"), ReadJob("C", "boom"), BurnRetries("A")]

  lemma CFails(s: System)
    requires s.PhaseOf("C").Locked? && s.PhaseOf("C").id == 1 && s.PhaseOf("A").Handling? && s.PhaseOf("A").id == 1
    requires 1 in s.jobs && s.jobs[1].state == Running && s.jobs[1].leaseHolder == Some("C")
    requires s.jobs[1].attempts == 2 && s.jobs[1].maxAttempts == 3
    ensures var u := Run(s, [RecordToken("C"), ReadJob("C", "boom"), BurnRetries("A")]);
            && u.PhaseOf("C").Failing? && u.PhaseOf("C").id == 1 && u.PhaseOf("C").retry
            && 1 in u.jobs && u.jobs[1].state == Running && u.jobs[1].leaseHolder == Some("C")
            && u.jobs[1].attempts == 2 && u.jobs[1].maxAttempts == 2
  {
    hide Run;
    RunThree(s, RecordToken("C"), ReadJob("C", "boom"), BurnRetries("A"));
  }

  lemma CRunsAgain(s: System)
    requires s.jobs == map[1 := Row(Pending, 1, 3, 10, None, Some("lease expired"), 1)]
    requires s.locks == map[KEY := LockRow("A", 1, 10)] && s.now == 10
    requires s.PhaseOf("A").Handling? && s.PhaseOf("A").id == 1 && s.PhaseOf("C") == Idle
    ensures var u := Run(s, C_TAKES);
            && u.PhaseOf("C").Locked? && u.PhaseOf("C").id == 1 && u.PhaseOf("A") == s.PhaseOf("A")
            && 1 in u.jobs && u.jobs[1].state == Running && u.jobs[1].leaseHolder == Some("C")
            && u.jobs[1].attempts == 2 && u.jobs[1].maxAttempts == 3
  {
    hide Run;
    Takes(s, "C", 1);
  }

  /** The second: between the two statements of C's `fail`, A burns the last attempt, and C records a retry. */
  lemma ZombieSpendsARetry()
    ensures var s := Run(Boot(10), ZOMBIE + SPENT); var u := Step(s, RecordFailure("C"));
            && RetriesSpent(s, RecordFailure("C"))
            && 1 in u.jobs && u.jobs[1].state == Pending && u.jobs[1].attempts == 2 && u.jobs[1].maxAttempts == 2
  {
    hide Run, Row, Boot;
    var last := [RecordToken("C"), ReadJob("C", "boom"), BurnRetries("A")];
    ZombieIsLeft();
    RunConcat(Boot(10), ZOMBIE, SPENT);
    RunConcat(Run(Boot(10), ZOMBIE), C_TAKES, last);
    CRunsAgain(Run(Boot(10), ZOMBIE));
    CFails(Run(Run(Boot(10), ZOMBIE), C_TAKES));
  }
}
