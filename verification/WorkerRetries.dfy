/** How long a failed job waits before it is tried again (src/queue/queue.ts:44-46, 96-106, 146-163). */
module WorkerRetries {
  import opened Powers
  import opened Wrappers
  import opened Tables
  import opened Workers
  import Jobs
  import Locks

  /** Five seconds at first, twice as long each time, but never more than a minute. */
  lemma BackoffDoublesToAMinute(n: nat)
    ensures Jobs.BackoffMs(0) == 5_000
    ensures Jobs.BackoffMs(n + 1) == if 2 * Jobs.BackoffMs(n) < 60_000 then 2 * Jobs.BackoffMs(n) else 60_000
    ensures 5_000 <= Jobs.BackoffMs(n) <= 60_000
  {
    assert Pow2(0) == 1 && Pow2(n + 1) == 2 * Pow2(n);
  }

  /** The step takes job `id`. */
  predicate Takes(s: System, e: Event, id: int) {
    e.Claim? && s.PhaseOf(e.worker).Idle? && Jobs.Claim(s.jobs, e.worker, s.leaseMs, s.now).1 == Some(id)
  }

  /** The step cancels the job, or gives back a claim of it that was lost long ago. */
  predicate Interferes(s: System, e: Event, id: int) {
    || e == Cancel(id)
    || (e.Defer? && s.PhaseOf(e.worker).Contended? && s.PhaseOf(e.worker).id == id)
  }

  predicate Undisturbed(s: System, events: seq<Event>, id: int) {
    events == []
    || (Undisturbed(s, events[..|events| - 1], id)
        && !Interferes(Run(s, events[..|events| - 1]), events[|events| - 1], id))
  }

  predicate NeverTaken(s: System, events: seq<Event>, id: int) {
    events == []
    || (NeverTaken(s, events[..|events| - 1], id) && !Takes(Run(s, events[..|events| - 1]), events[|events| - 1], id))
  }

  predicate WaitsUntil(s: System, id: int, until: int) {
    id in s.jobs && id in s.granted && s.jobs[id].state == Pending && s.jobs[id].nextAttemptAt == until
  }

  /** A retry is recorded with a delay that grows with the attempts that were read. */
  lemma RetryIsDelayed(s: System, w: string)
    requires var p := s.PhaseOf(w);
             && p.Failing? && p.retry && p.attempts >= 0 && p.id in s.granted
             && p.id in s.jobs && s.jobs[p.id].state == Running && s.jobs[p.id].leaseHolder == Some(w)
    ensures var p := s.PhaseOf(w);
            WaitsUntil(Step(s, RecordFailure(w)), p.id, s.now + Jobs.BackoffMs(p.attempts))
  {
  }

  /** So is the next attempt of a job whose resource was locked, and the first one of a submitted job. */
  lemma DeferralIsDelayed(s: System, w: string, delayMs: int)
    requires var p := s.PhaseOf(w); p.Contended? && p.id in s.granted && p.id in s.jobs
    ensures WaitsUntil(Step(s, Defer(w, delayMs)), s.PhaseOf(w).id, s.now + delayMs)
  {
  }

  lemma SubmissionIsDelayed(s: System, id: int, kind: JobKind, resource: string, maxAttempts: int, delayMs: int)
    requires id !in s.granted && id !in s.jobs && maxAttempts >= 1
    ensures WaitsUntil(Step(s, Submit(id, kind, resource, maxAttempts, delayMs)), id, s.now + delayMs)
  {
  }

  lemma WaitingGoesOn(s: System, e: Event, id: int, until: int)
    requires WaitsUntil(s, id, until) && !Interferes(s, e, id) && !Takes(s, e, id)
    ensures WaitsUntil(Step(s, e), id, until)
  {
    hide Locks.Look, Locks.Grab, Locks.Renew, Locks.Release, GrabbedLock, Jobs.BackoffMs, Jobs.ResourceKey;
  }

  lemma {:induction false} WaitsUntilTaken(s: System, events: seq<Event>, id: int, until: int)
    requires WaitsUntil(s, id, until) && Undisturbed(s, events, id) && NeverTaken(s, events, id)
    ensures WaitsUntil(Run(s, events), id, until)
  {
    if events != [] {
      WaitsUntilTaken(s, events[..|events| - 1], id, until);
      WaitingGoesOn(Run(s, events[..|events| - 1]), events[|events| - 1], id, until);
    }
  }

  /** In every interleaving: a waiting job that nobody cancels is due exactly from the end of its delay on, and the
      claim that takes it comes no sooner. */
  lemma NoClaimBeforeTheDelay(s: System, events: seq<Event>, id: int, until: int, w: string)
    requires WaitsUntil(s, id, until) && Undisturbed(s, events, id) && NeverTaken(s, events, id)
    ensures var u := Run(s, events);
            && WaitsUntil(u, id, until)
            && (id in Jobs.DueIds(u.jobs, u.now) <==> u.now >= until)
            && (Takes(u, Claim(w), id) ==> u.now >= until)
            && (u.now >= until && u.PhaseOf(w).Idle? ==>
                  Takes(u, Claim(w), id) || exists k :: k < id && k in u.jobs && Takes(u, Claim(w), k))
  {
    WaitsUntilTaken(s, events, id, until);
  }

  /** The step sets job `id` waiting until `until`: it records a retry, gives a claim back, or submits the job. */
  predicate SetsWaiting(s: System, e: Event, id: int, until: int) {
    match e
    case RecordFailure(w) =>
      var p := s.PhaseOf(w);
      && p.Failing? && p.id == id && p.retry && p.attempts >= 0 && until == s.now + Jobs.BackoffMs(p.attempts)
      && id in s.granted && id in s.jobs && s.jobs[id].state == Running && s.jobs[id].leaseHolder == Some(w)
    case Defer(w, delayMs) =>
      var p := s.PhaseOf(w);
      p.Contended? && p.id == id && id in s.granted && id in s.jobs && until == s.now + delayMs
    case Submit(k, _, _, maxAttempts, delayMs) =>
      k == id && id !in s.granted && id !in s.jobs && maxAttempts >= 1 && until == s.now + delayMs
    case _ => false
  }

  /** So a job that is to be retried, was given back because its resource was locked, or has just been submitted is
      claimed by nobody before its delay has passed, and is due from then on. */
  lemma DelayedJobWaits(s: System, e: Event, id: int, until: int, events: seq<Event>, w: string)
    requires SetsWaiting(s, e, id, until)
    requires Undisturbed(Step(s, e), events, id) && NeverTaken(Step(s, e), events, id)
    ensures var u := Run(Step(s, e), events);
            && (Takes(u, Claim(w), id) ==> u.now >= until)
            && (id in Jobs.DueIds(u.jobs, u.now) <==> u.now >= until)
  {
    match e {
      case RecordFailure(v) => RetryIsDelayed(s, v);
      case Defer(v, delayMs) => DeferralIsDelayed(s, v, delayMs);
      case Submit(k, kind, resource, maxAttempts, delayMs) =>
        SubmissionIsDelayed(s, k, kind, resource, maxAttempts, delayMs);
    }
    hide Step, Run, Takes;
    NoClaimBeforeTheDelay(Step(s, e), events, id, until, w);
  }
}
