/** The steady-state health gate (src/services/health-gate.ts). */
module HealthGate {
  import opened Wrappers

  datatype Pod = Pod(maxRestarts: int, waitingReason: Option<string>, terminatedReason: Option<string>)

  datatype Sample = Sample(readyReplicas: int, replicas: int, observedGeneration: int, generation: int, pods: seq<Pod>)

  /** What sampling the workload at one attempt gives. */
  datatype Reading = Got(sample: Sample) | Threw(message: string)

  datatype Reason =
    | NotStarted
    | SampleError(message: string)
    | PodReason(text: string)
    | RestartJump(rise: int)
    | ReadyCount(ready: int, of: int)
    | NotReady(readyReplicas: int, replicas: int)
    | Healthy
    | ControllerBehind
    | TimedOut(last: Reason)

  // ------------------------------------------------------------------
  // One sample
  // ------------------------------------------------------------------

  predicate IsFatal(p: Pod) {
    p.waitingReason == Some("CrashLoopBackOff") || p.waitingReason == Some("ImagePullBackOff")
    || p.waitingReason == Some("ErrImagePull") || p.terminatedReason == Some("OOMKilled")
  }

  /** `pods.find`. */
  function FindFatal(pods: seq<Pod>): (p: Option<Pod>)
    ensures p.Some? ==> p.value in pods && IsFatal(p.value)
    ensures p.None? ==> forall q :: q in pods ==> !IsFatal(q)
  {
    if pods == [] then None else if IsFatal(pods[0]) then Some(pods[0]) else FindFatal(pods[1..])
  }

  /** The reason reported for a fatal pod: its waiting reason, even one that is not the fatal part. */
  function FatalText(p: Pod): string {
    if p.waitingReason.Some? then p.waitingReason.value else "OOMKilled"
  }

  /** `pods.reduce(max, 0)`. */
  function MaxRestarts(pods: seq<Pod>): (m: int)
    ensures m >= 0 && (forall p :: p in pods ==> p.maxRestarts <= m)
              && (m == 0 || exists p :: p in pods && p.maxRestarts == m)
  {
    if pods == [] then 0
    else
      var rest := MaxRestarts(pods[1..]);
      assert pods == [pods[0]] + pods[1..];
      if pods[0].maxRestarts > rest then assert pods[0] in pods; pods[0].maxRestarts else rest
  }

  predicate IsReady(s: Sample) { s.replicas > 0 && s.readyReplicas == s.replicas }

  // ------------------------------------------------------------------
  // What the gate is for, over the readings at attempts 0, 1, 2, ...
  // ------------------------------------------------------------------

  /** What attempt `i` reads. */
  function At(r: nat -> Reading, i: nat): Reading { r(i) }

  predicate Fatal(r: nat -> Reading, i: nat) { At(r, i).Got? && FindFatal(At(r, i).sample.pods).Some? }

  /** Attempt `j` gave the first sample. */
  predicate First(r: nat -> Reading, j: nat) {
    At(r, j).Got? && forall k: nat :: k < j ==> At(r, k).Threw?
  }

  /** Restarts rose by two or more over the first sample's. */
  predicate Jump(r: nat -> Reading, i: nat) {
    At(r, i).Got?
    && exists j: nat :: j < i && First(r, j)
                        && MaxRestarts(At(r, i).sample.pods) - MaxRestarts(At(r, j).sample.pods) >= 2
  }

  predicate Broken(r: nat -> Reading, i: nat) { Fatal(r, i) || Jump(r, i) }

  predicate Ready(r: nat -> Reading, i: nat) { At(r, i).Got? && IsReady(At(r, i).sample) }

  /** The window of consecutive ready samples the gate asks for; a ready sample is always needed. */
  function WindowSize(threshold: int): nat { if threshold < 1 then 1 else threshold }

  predicate Window(r: nat -> Reading, i: nat, size: nat) {
    size <= i + 1 && forall k: nat :: i + 1 - size <= k <= i ==> Ready(r, k)
  }

  /** The gate can pass at attempt `i`. */
  predicate PassesAt(r: nat -> Reading, i: nat, threshold: int) {
    Window(r, i, WindowSize(threshold)) && forall k: nat :: k <= i ==> !Broken(r, k)
  }

  /** The last sample among the first `n` readings is of an outdated generation. */
  predicate EndsBehind(r: nat -> Reading, n: nat) {
    exists i: nat :: i < n && At(r, i).Got? && (forall k: nat :: i < k < n ==> At(r, k).Threw?)
                     && At(r, i).sample.observedGeneration != At(r, i).sample.generation
  }

  ghost predicate NoneBroken(r: nat -> Reading, n: nat) { forall k: nat :: k < n ==> !Broken(r, k) }

  ghost predicate NoneSampled(r: nat -> Reading, n: nat) { forall k: nat :: k < n ==> At(r, k).Threw? }

  ghost predicate NonePass(r: nat -> Reading, n: nat, threshold: int) {
    forall k: nat :: k < n ==> !PassesAt(r, k, threshold)
  }

  // ------------------------------------------------------------------
  // What the loop's variables mean after `n` readings
  // ------------------------------------------------------------------

  /** The readings end in exactly `c` ready samples. */
  ghost predicate Streak(r: nat -> Reading, n: nat, c: nat) {
    c <= n && (forall k: nat :: n - c <= k < n ==> Ready(r, k)) && (c < n ==> !Ready(r, n - c - 1))
  }

  ghost predicate BaselineOk(r: nat -> Reading, n: nat, baseline: Option<int>) {
    match baseline
    case None => NoneSampled(r, n)
    case Some(b) => exists j: nat :: j < n && First(r, j) && b == MaxRestarts(At(r, j).sample.pods)
  }

  ghost predicate LastOk(r: nat -> Reading, n: nat, last: Option<Sample>) {
    match last
    case None => NoneSampled(r, n)
    case Some(s) => exists j: nat :: j < n && At(r, j) == Got(s) && forall k: nat :: j < k < n ==> At(r, k).Threw?
  }

  lemma NextReading(r: nat -> Reading, i: nat, c: nat, last: Option<Sample>)
    requires Streak(r, i, c) && LastOk(r, i, last)
    ensures Streak(r, i + 1, if Ready(r, i) then c + 1 else 0)
    ensures LastOk(r, i + 1, if At(r, i).Got? then Some(At(r, i).sample) else last)
  {
    if At(r, i).Threw? && last.Some? {
      var j: nat :| j < i && At(r, j) == Got(last.value) && forall k: nat :: j < k < i ==> At(r, k).Threw?;
      assert forall k: nat :: j < k < i + 1 ==> At(r, k).Threw?;
    }
  }

  lemma BaselineOutlivesErrors(r: nat -> Reading, i: nat, baseline: Option<int>)
    requires BaselineOk(r, i, baseline) && At(r, i).Threw?
    ensures BaselineOk(r, i + 1, baseline)
  {
  }

  lemma PassVerdict(r: nat -> Reading, attempts: int, threshold: int, i: nat)
    requires i < attempts && PassesAt(r, i, threshold) && NonePass(r, i, threshold)
    ensures Verdict(r, attempts, threshold, i + 1, true, Healthy)
  {
  }

  lemma ShortStreakDoesNotPass(r: nat -> Reading, i: nat, c: nat, threshold: int)
    requires Streak(r, i + 1, c) && c < WindowSize(threshold)
    ensures !PassesAt(r, i, threshold)
  {
  }

  lemma FullStreakPasses(r: nat -> Reading, i: nat, c: nat, threshold: int)
    requires Streak(r, i + 1, c) && c == WindowSize(threshold) && NoneBroken(r, i + 1)
    ensures PassesAt(r, i, threshold)
  {
  }

  lemma FirstIsUnique(r: nat -> Reading, i: nat, j: nat)
    requires First(r, i) && First(r, j)
    ensures i == j
  {
  }

  lemma JumpIff(r: nat -> Reading, i: nat, baseline: Option<int>)
    requires BaselineOk(r, i, baseline) && At(r, i).Got?
    ensures Jump(r, i) <==> baseline.Some? && MaxRestarts(At(r, i).sample.pods) - baseline.value >= 2
  {
    if baseline.Some? {
      var j: nat :| j < i && First(r, j) && baseline.value == MaxRestarts(At(r, j).sample.pods);
      forall k: nat | First(r, k) ensures k == j { FirstIsUnique(r, k, j); }
    }
  }

  /** A broken sample rules out every later pass. */
  lemma BrokenStops(r: nat -> Reading, i: nat, threshold: int)
    requires Broken(r, i) && NonePass(r, i, threshold)
    ensures forall k: nat :: !PassesAt(r, k, threshold)
  {
  }

  /** The gate can pass at a reading exactly if the last `threshold` readings, and this one in any case, are samples of
      at least one replica with all replicas ready, no pod so far was in one of the four fatal states, and no container
      was restarted twice or more since the first sample. */
  lemma PassesAtIff(r: nat -> Reading, i: nat, threshold: int)
    ensures PassesAt(r, i, threshold)
       <==> && threshold <= i + 1
            && (forall k: nat :: k <= i && (k == i || i - k < threshold) ==> AllUp(r, k))
            && (forall k: nat :: k <= i ==> NoFatalPod(r, k))
            && (forall j: nat, k: nat :: j < k <= i ==> !RisesByTwo(r, j, k))
  {
    WindowIff(r, i, threshold);
    NoneBrokenIff(r, i);
    hide Window, WindowSize, AllUp, NoFatalPod, RisesByTwo, Broken;
  }

  lemma WindowIff(r: nat -> Reading, i: nat, threshold: int)
    ensures Window(r, i, WindowSize(threshold))
       <==> threshold <= i + 1 && forall k: nat :: k <= i && (k == i || i - k < threshold) ==> AllUp(r, k)
  {
    forall k: nat ensures Ready(r, k) <==> AllUp(r, k) {}
    hide Ready, AllUp;
    var size := WindowSize(threshold);
    if Window(r, i, size) {
      forall k: nat | k <= i && (k == i || i - k < threshold) ensures AllUp(r, k) { assert Ready(r, k); }
    } else if threshold <= i + 1 {
      var k: nat :| i + 1 - size <= k <= i && !Ready(r, k);
      assert !AllUp(r, k);
    }
  }

  lemma NoneBrokenIff(r: nat -> Reading, i: nat)
    ensures (forall k: nat :: k <= i ==> !Broken(r, k))
       <==> && (forall k: nat :: k <= i ==> NoFatalPod(r, k))
            && (forall j: nat, k: nat :: j < k <= i ==> !RisesByTwo(r, j, k))
  {
    forall k: nat ensures Fatal(r, k) <==> !NoFatalPod(r, k) { FatalIff(r, k); }
    forall k: nat ensures Jump(r, k) <==> exists j: nat :: j < k && RisesByTwo(r, j, k) { JumpMeansRise(r, k); }
    hide Fatal, NoFatalPod, Jump, RisesByTwo;
    if forall k: nat :: k <= i ==> !Broken(r, k) {
      forall j: nat, k: nat | j < k <= i ensures !RisesByTwo(r, j, k) { assert !Broken(r, k); }
      forall k: nat | k <= i ensures NoFatalPod(r, k) { assert !Broken(r, k); }
    } else {
      var k: nat :| k <= i && Broken(r, k);
      assert Fatal(r, k) || Jump(r, k);
    }
  }

  lemma JumpMeansRise(r: nat -> Reading, k: nat)
    ensures Jump(r, k) <==> exists j: nat :: j < k && RisesByTwo(r, j, k)
  {
    if Jump(r, k) {
      var j: nat :| j < k && First(r, j)
                    && MaxRestarts(At(r, k).sample.pods) - MaxRestarts(At(r, j).sample.pods) >= 2;
      assert RisesByTwo(r, j, k);
    }
  }

  predicate AllUp(r: nat -> Reading, k: nat) {
    At(r, k).Got? && At(r, k).sample.replicas >= 1 && At(r, k).sample.readyReplicas == At(r, k).sample.replicas
  }

  /** No pod of the sample, if there is one, is in one of the four fatal states. */
  predicate NoFatalPod(r: nat -> Reading, k: nat) {
    At(r, k).Got? ==>
      forall p :: p in At(r, k).sample.pods ==>
        && p.waitingReason !in {Some("CrashLoopBackOff"), Some("ImagePullBackOff"), Some("ErrImagePull")}
        && p.terminatedReason != Some("OOMKilled")
  }

  /** From the first sample, `j`, to sample `k` the highest restart count rose by two or more. */
  predicate RisesByTwo(r: nat -> Reading, j: nat, k: nat) {
    && First(r, j) && At(r, k).Got?
    && MaxRestarts(At(r, k).sample.pods) >= MaxRestarts(At(r, j).sample.pods) + 2
  }

  lemma FatalIff(r: nat -> Reading, k: nat)
    ensures Fatal(r, k) <==> !NoFatalPod(r, k)
  {
    if At(r, k).Got? {
      var pods := At(r, k).sample.pods;
      assert FindFatal(pods) == None || FindFatal(pods).Some?;
    }
  }

  /** The reason the gate gives for a fatal pod names a fatal state if and only if the pod has no other reason to be
      waiting: of a pod whose container was killed for its memory while another still starts, it names the start. */
  lemma FatalStateIsNamedIff(p: Pod)
    requires IsFatal(p)
    ensures FatalText(p) in {"CrashLoopBackOff", "ImagePullBackOff", "ErrImagePull", "OOMKilled"}
       <==> p.waitingReason in {None, Some("CrashLoopBackOff"), Some("ImagePullBackOff"), Some("ErrImagePull"),
                                Some("OOMKilled")}
    ensures p.waitingReason == None ==> FatalText(p) == "OOMKilled"
    ensures p.waitingReason in {Some("CrashLoopBackOff"), Some("ImagePullBackOff"), Some("ErrImagePull")} ==>
              Some(FatalText(p)) == p.waitingReason
  {
  }

  // ------------------------------------------------------------------
  // The polling loop
  // ------------------------------------------------------------------

  /** The gate passes exactly when some window of ready samples ends within the attempts with nothing
      broken before, at the first such window; otherwise it stops at the first broken sample, or after
      all attempts. */
  ghost predicate Verdict(r: nat -> Reading, attempts: int, threshold: int, used: nat, ok: bool, reason: Reason) {
    && (ok <==> exists i: nat :: i < attempts && PassesAt(r, i, threshold))
    && (ok ==>
          && 0 < used <= attempts && reason == Healthy
          && PassesAt(r, used - 1, threshold) && NonePass(r, used - 1, threshold))
    && (!ok && (exists i: nat :: i < attempts && Broken(r, i)) ==>
          && 0 < used <= attempts && Broken(r, used - 1) && NoneBroken(r, used - 1)
          && BrokenReason(r, used - 1, reason))
    && (!ok && (forall i: nat :: i < attempts ==> !Broken(r, i)) ==>
          && used == (if attempts > 0 then attempts else 0)
          && (reason == ControllerBehind <==> EndsBehind(r, used))
          && (reason == ControllerBehind || (reason.TimedOut? && LastReason(r, used, threshold, reason.last))))
  }

  /** What the last of the first `n` readings was like: it failed, it was the so-many-th ready one in a row, or
      it was not ready. */
  ghost predicate LastReason(r: nat -> Reading, n: nat, threshold: int, reason: Reason) {
    if n == 0 then reason == NotStarted
    else
      match At(r, n - 1)
      case Threw(message) => reason == SampleError(message)
      case Got(s) =>
        if IsReady(s) then exists c: nat :: Streak(r, n, c) && reason == ReadyCount(c, threshold)
        else reason == NotReady(s.readyReplicas, s.replicas)
  }

  /** A fatal pod is named; otherwise the restart count rose, by the amount over the first sample. */
  ghost predicate BrokenReason(r: nat -> Reading, i: nat, reason: Reason)
    requires Broken(r, i)
  {
    if Fatal(r, i) then reason == PodReason(FatalText(FindFatal(At(r, i).sample.pods).value))
    else
      exists j: nat :: j < i && First(r, j)
                       && reason == RestartJump(MaxRestarts(At(r, i).sample.pods) - MaxRestarts(At(r, j).sample.pods))
  }

  lemma BrokenVerdict(r: nat -> Reading, attempts: int, threshold: int, i: nat, reason: Reason)
    requires i < attempts && Broken(r, i) && NoneBroken(r, i) && NonePass(r, i, threshold)
    requires BrokenReason(r, i, reason)
    ensures Verdict(r, attempts, threshold, i + 1, false, reason)
  {
    BrokenStops(r, i, threshold);
  }

  lemma LastSampleIff(r: nat -> Reading, n: nat, last: Option<Sample>)
    requires LastOk(r, n, last)
    ensures EndsBehind(r, n) <==> last.Some? && last.value.observedGeneration != last.value.generation
  {
    if EndsBehind(r, n) {
      var i: nat :| i < n && At(r, i).Got? && (forall k: nat :: i < k < n ==> At(r, k).Threw?)
                    && At(r, i).sample.observedGeneration != At(r, i).sample.generation;
      if last.Some? {
        var j: nat :| j < n && At(r, j) == Got(last.value) && forall k: nat :: j < k < n ==> At(r, k).Threw?;
        assert i == j;
      }
    }
  }

  lemma TimeoutVerdict(r: nat -> Reading, attempts: int, threshold: int, n: nat, last: Option<Sample>, reason: Reason)
    requires n == (if attempts > 0 then attempts else 0)
    requires NoneBroken(r, n) && NonePass(r, n, threshold) && LastOk(r, n, last)
    requires if last.Some? && last.value.observedGeneration != last.value.generation then reason == ControllerBehind
             else reason.TimedOut? && LastReason(r, n, threshold, reason.last)
    ensures Verdict(r, attempts, threshold, n, false, reason)
  {
    LastSampleIff(r, n, last);
  }

  /** The loop's variables after some readings that settled nothing. */
  datatype Watch = Watch(consecutive: nat, baseline: Option<int>, lastReason: Reason, last: Option<Sample>)

  ghost predicate Watching(r: nat -> Reading, n: nat, threshold: int, w: Watch) {
    && w.consecutive < WindowSize(threshold) && Streak(r, n, w.consecutive)
    && NoneBroken(r, n) && NonePass(r, n, threshold)
    && BaselineOk(r, n, w.baseline) && LastOk(r, n, w.last)
    && LastReason(r, n, threshold, w.lastReason)
  }

  const FRESH := Watch(0, None, NotStarted, None)

  lemma WatchStarts(r: nat -> Reading, threshold: int)
    ensures Watching(r, 0, threshold, FRESH)
  {
  }

  lemma NothingSettled(r: nat -> Reading, i: nat, threshold: int)
    requires NoneBroken(r, i) && NonePass(r, i, threshold) && !Broken(r, i) && !PassesAt(r, i, threshold)
    ensures NoneBroken(r, i + 1) && NonePass(r, i + 1, threshold)
  {
  }

  lemma ReasonOfReading(r: nat -> Reading, i: nat, threshold: int, c: nat, reason: Reason)
    requires Streak(r, i + 1, c)
    requires match At(r, i)
             case Threw(message) => reason == SampleError(message)
             case Got(s) =>
               reason == if IsReady(s) then ReadyCount(c, threshold) else NotReady(s.readyReplicas, s.replicas)
    ensures LastReason(r, i + 1, threshold, reason)
  {
  }

  /** One more reading that neither breaks nor completes the window. */
  lemma WatchOn(r: nat -> Reading, i: nat, threshold: int, w: Watch, next: Watch)
    requires Watching(r, i, threshold, w) && !Broken(r, i)
    requires next.consecutive == if Ready(r, i) then w.consecutive + 1 else 0
    requires next.consecutive < WindowSize(threshold)
    requires BaselineOk(r, i + 1, next.baseline)
    requires next.last == if At(r, i).Got? then Some(At(r, i).sample) else w.last
    requires match At(r, i)
             case Threw(message) => next.lastReason == SampleError(message)
             case Got(s) => next.lastReason == if IsReady(s) then ReadyCount(next.consecutive, threshold)
                                               else NotReady(s.readyReplicas, s.replicas)
    ensures Watching(r, i + 1, threshold, next)
  {
    hide Ready, Broken, PassesAt, Streak, BaselineOk, LastOk, LastReason, NonePass, NoneBroken;
    NextReading(r, i, w.consecutive, w.last);
    ShortStreakDoesNotPass(r, i, next.consecutive, threshold);
    NothingSettled(r, i, threshold);
    ReasonOfReading(r, i, threshold, next.consecutive, next.lastReason);
  }

  /** Attempt `i` is the first to decide: it completes a window, or it is broken. */
  ghost predicate Decides(r: nat -> Reading, i: nat, threshold: int, ok: bool, reason: Reason) {
    && NonePass(r, i, threshold)
    && (ok ==> PassesAt(r, i, threshold) && reason == Healthy)
    && (!ok ==> NoneBroken(r, i) && Broken(r, i) && BrokenReason(r, i, reason))
  }

  lemma DecidedVerdict(r: nat -> Reading, attempts: int, threshold: int, i: nat, ok: bool, reason: Reason)
    requires i < attempts && Decides(r, i, threshold, ok, reason)
    ensures Verdict(r, attempts, threshold, i + 1, ok, reason)
  {
    if ok {
      PassVerdict(r, attempts, threshold, i);
    } else {
      BrokenVerdict(r, attempts, threshold, i, reason);
    }
  }

  /** A reading that completes the window. */
  lemma WindowCompletes(r: nat -> Reading, threshold: int, i: nat, w: Watch)
    requires Watching(r, i, threshold, w) && !Broken(r, i) && Ready(r, i)
    requires w.consecutive + 1 >= threshold
    ensures Decides(r, i, threshold, true, Healthy)
  {
    hide Ready, Broken, PassesAt, Streak, BaselineOk, LastOk, LastReason, NonePass;
    NextReading(r, i, w.consecutive, w.last);
    FullStreakPasses(r, i, w.consecutive + 1, threshold);
  }

  function TimeoutReason(w: Watch): Reason {
    if w.last.Some? && w.last.value.observedGeneration != w.last.value.generation then ControllerBehind
    else TimedOut(w.lastReason)
  }

  function Attempts(attempts: int): nat { if attempts > 0 then attempts else 0 }

  lemma TimesUp(r: nat -> Reading, attempts: int, threshold: int, i: nat, w: Watch)
    requires Watching(r, i, threshold, w) && i == Attempts(attempts)
    ensures Verdict(r, attempts, threshold, i, false, TimeoutReason(w))
  {
    TimeoutVerdict(r, attempts, threshold, i, w.last, TimeoutReason(w));
  }

  /** The fail-fast checks on one sample, and the restart baseline after it. */
  method Inspect(readings: nat -> Reading, i: nat, s: Sample, baseline: Option<int>)
    returns (broken: Option<Reason>, after: Option<int>)
    requires At(readings, i) == Got(s) && BaselineOk(readings, i, baseline)
    ensures broken.Some? <==> Broken(readings, i)
    ensures broken.Some? ==> BrokenReason(readings, i, broken.value)
    ensures broken.None? ==> BaselineOk(readings, i + 1, after)
  {
    JumpIff(readings, i, baseline);
    after := baseline;
    var fatal := FindFatal(s.pods);
    if fatal.Some? {
      return Some(PodReason(FatalText(fatal.value))), after;
    }
    var restarts := MaxRestarts(s.pods);
    if baseline.None? {
      after := Some(restarts);
      assert First(readings, i);
    } else if restarts - baseline.value >= 2 {
      return Some(RestartJump(restarts - baseline.value)), after;
    }
    broken := None;
  }

  /** The rest of a round, when the sample is not broken. */
  method Count(r: nat -> Reading, threshold: int, i: nat, w: Watch, s: Sample, baseline: Option<int>)
    returns (passed: bool, next: Watch)
    requires Watching(r, i, threshold, w) && At(r, i) == Got(s)
    requires !Broken(r, i) && BaselineOk(r, i + 1, baseline)
    ensures passed ==> Decides(r, i, threshold, true, Healthy)
    ensures !passed ==> Watching(r, i + 1, threshold, next)
  {
    next := w.(baseline := baseline, last := Some(s));
    if IsReady(s) {
      next := next.(consecutive := w.consecutive + 1, lastReason := ReadyCount(w.consecutive + 1, threshold));
      if next.consecutive >= threshold {
        WindowCompletes(r, threshold, i, w);
        return true, next;
      }
    } else {
      next := next.(consecutive := 0, lastReason := NotReady(s.readyReplicas, s.replicas));
    }
    WatchOn(r, i, threshold, w, next);
    passed := false;
  }

  /** One attempt: a decision, or what the loop goes on with. */
  method Attempt(r: nat -> Reading, threshold: int, i: nat, w: Watch)
    returns (done: bool, ok: bool, reason: Reason, next: Watch)
    requires Watching(r, i, threshold, w)
    ensures done ==> Decides(r, i, threshold, ok, reason)
    ensures !done ==> Watching(r, i + 1, threshold, next)
  {
    done, ok, reason, next := false, false, NotStarted, w;
    match At(r, i) {
      case Threw(message) =>
        next := w.(consecutive := 0, lastReason := SampleError(message));
        BaselineOutlivesErrors(r, i, w.baseline);
        WatchOn(r, i, threshold, w, next);
      case Got(s) =>
        var broken, baseline := Inspect(r, i, s, w.baseline);
        if broken.Some? {
          return true, false, broken.value, w;
        }
        var passed;
        passed, next := Count(r, threshold, i, w, s, baseline);
        done, ok, reason := passed, passed, Healthy;
    }
  }

  /** The loop: the attempt that decided, or what is left when they run out. */
  method WatchLoop(readings: nat -> Reading, attempts: int, threshold: int)
    returns (i: nat, done: bool, ok: bool, reason: Reason, w: Watch)
    ensures done ==> i < attempts && Decides(readings, i, threshold, ok, reason)
    ensures !done ==> i == Attempts(attempts) && Watching(readings, i, threshold, w)
  {
    hide Watching, Decides;
    w := FRESH;
    i, ok, reason := 0, false, NotStarted;
    WatchStarts(readings, threshold);
    while i < attempts
      invariant i <= Attempts(attempts)
      invariant Watching(readings, i, threshold, w)
      decreases attempts - i
    {
      var over, passed, cause, next := Attempt(readings, threshold, i, w);
      if over {
        return i, true, passed, cause, w;
      }
      w := next;
      i := i + 1;
    }
    done := false;
  }

  method RunHealthGate(readings: nat -> Reading, attempts: int, threshold: int)
    returns (used: nat, ok: bool, reason: Reason)
    ensures Verdict(readings, attempts, threshold, used, ok, reason)
  {
    hide *;
    var i, done, passed, cause, w := WatchLoop(readings, attempts, threshold);
    if done {
      DecidedVerdict(readings, attempts, threshold, i, passed, cause);
      return i + 1, passed, cause;
    }
    TimesUp(readings, attempts, threshold, i, w);
    used, ok, reason := i, false, TimeoutReason(w);
  }
}
