/** The multi-node image import (src/services/bundle-import.ts:174-331). The cluster is a parameter: what
    listing the nodes yields, whether each apply is accepted, what every read of a Job at every tick returns,
    and how much time has passed when a tick begins. */
module BundleImport {
  import opened BundleNames
  import opened JobNameClashes
  import opened Sequences
  import opened Text
  import opened Wrappers
  import Sets

  type NodeName = s: string | s != "" witness "n"

  /** `listImportNodes`. */
  datatype Listing = Nodes(nodes: seq<NodeName>) | Forbidden | ListFailed

  /** One read of a Job: it failed, or it shows a status. Text that is not JSON shows an empty status. */
  datatype Read = Unread | Status(succeeded: int, failed: int)

  datatype Cluster = Cluster(
    lower: Lower,
    digest: Digest,
    listing: Listing,
    accepts: string -> bool,
    read: (nat, string) -> Read,
    elapsed: nat -> int)

  datatype Action = ListNodes | Delete(job: string) | Apply(job: string) | Get(job: string) | Logs(job: string)

  datatype Outcome =
    | NodesNotListed
    | NoNodes
    | DuplicateNames
    | ApplyRefused(job: string)
    | Unreadable(job: string)
    | JobFailed(job: string)
    | NotInTime(pending: seq<string>)
    | Imported

  const MAX_ERRORS: nat := 5

  function JobNames(c: Cluster, service: string, tag: string): (names: seq<string>)
    requires c.listing.Forbidden? || (c.listing.Nodes? && c.listing.nodes != [])
    ensures names != []
  {
    if c.listing.Nodes? then
      seq(|c.listing.nodes|, i requires 0 <= i < |c.listing.nodes| =>
        ImportJobName(service, tag, c.listing.nodes[i], c.lower, c.digest))
    else [ImportJobName(service, tag, "", c.lower, c.digest)]
  }

  function Deletes(names: seq<string>): seq<Action> { seq(|names|, i requires 0 <= i < |names| => Delete(names[i])) }

  function Applies(names: seq<string>): seq<Action> { seq(|names|, i requires 0 <= i < |names| => Apply(names[i])) }

  function Gets(names: seq<string>): seq<Action> { seq(|names|, i requires 0 <= i < |names| => Get(names[i])) }

  // ------------------------------------------------------------------
  // What the reads of one Job say
  // ------------------------------------------------------------------

  /** The read at tick `i` shows success. */
  predicate Succeeds(c: Cluster, job: string, i: nat) {
    c.read(i, job).Status? && c.read(i, job).succeeded >= 1
  }

  /** How many reads in a row have failed just before tick `i`. */
  function Errors(c: Cluster, job: string, i: nat): nat {
    if i > 0 && c.read(i - 1, job).Unread? then 1 + Errors(c, job, i - 1) else 0
  }

  predicate ShowsFailure(c: Cluster, job: string, i: nat) {
    c.read(i, job).Status? && c.read(i, job).succeeded < 1 && c.read(i, job).failed >= 1
  }

  predicate IsLost(c: Cluster, job: string, i: nat) { Errors(c, job, i + 1) >= MAX_ERRORS }

  lemma {:induction false} ErrorsInARow(c: Cluster, job: string, i: nat, m: nat)
    ensures Errors(c, job, i) >= m <==> m <= i && forall k: nat :: i - m <= k < i ==> c.read(k, job).Unread?
  {
    if i > 0 && m > 0 { ErrorsInARow(c, job, i - 1, m - 1); }
  }

  /** A Job is given up exactly when five reads of it in a row have failed. */
  lemma LostAfterFive(c: Cluster, job: string, i: nat)
    ensures IsLost(c, job, i) <==> i >= 4 && forall k: nat :: i - 4 <= k <= i ==> c.read(k, job).Unread?
  {
    ErrorsInARow(c, job, i + 1, 5);
  }

  /** Some read before tick `i` showed success. */
  predicate DoneBefore(c: Cluster, job: string, i: nat) { exists d: nat :: d < i && Succeeds(c, job, d) }

  /** Tick `i` ends the import because of this Job, unless it ended before. */
  predicate FailsAt(c: Cluster, job: string, i: nat) {
    !DoneBefore(c, job, i) && (ShowsFailure(c, job, i) || IsLost(c, job, i))
  }

  predicate AllDone(c: Cluster, names: seq<string>, i: nat) { forall m :: m in names ==> DoneBefore(c, m, i) }

  predicate NoFailures(c: Cluster, names: seq<string>, i: nat) {
    forall m, j: nat :: m in names && j < i ==> !FailsAt(c, m, j)
  }

  /** The loop's guard at tick `i`. */
  predicate InTime(c: Cluster, ticks: int, budget: int, i: nat) { i < ticks && c.elapsed(i) <= budget }

  /** The tick and time budgets allow tick `i`. */
  predicate Open(c: Cluster, ticks: int, budget: int, i: nat) {
    forall j: nat :: j <= i ==> InTime(c, ticks, budget, j)
  }

  predicate ImportedAt(c: Cluster, names: seq<string>, ticks: int, budget: int, i: nat) {
    Open(c, ticks, budget, i) && AllDone(c, names, i + 1) && NoFailures(c, names, i + 1)
  }

  /** Job `k` is the first in order to end the import, at tick `i`. */
  predicate FirstFailure(c: Cluster, names: seq<string>, ticks: int, budget: int, k: nat, i: nat) {
    && k < |names| && Open(c, ticks, budget, i)
    && NoFailures(c, names, i) && FailsAt(c, names[k], i)
    && forall l :: 0 <= l < k ==> !FailsAt(c, names[l], i)
  }

  ghost predicate FailureOf(c: Cluster, names: seq<string>, ticks: int, budget: int, job: string, lost: bool) {
    exists k: nat, i: nat :: FirstFailure(c, names, ticks, budget, k, i) && names[k] == job && lost == IsLost(c, job, i)
  }

  predicate OutOfTime(c: Cluster, names: seq<string>, ticks: int, budget: int, i: nat) {
    !InTime(c, ticks, budget, i) && (i > 0 ==> Open(c, ticks, budget, i - 1))
  }

  /** What polling comes to. */
  ghost predicate Polled(c: Cluster, names: seq<string>, ticks: int, budget: int, outcome: Outcome) {
    match outcome
    case Imported => exists i: nat :: ImportedAt(c, names, ticks, budget, i)
    case Unreadable(job) => FailureOf(c, names, ticks, budget, job, true)
    case JobFailed(job) => FailureOf(c, names, ticks, budget, job, false)
    case NotInTime(pending) => exists i: nat :: TimesOutAt(c, names, ticks, budget, pending, i)
    case _ => false
  }

  predicate TimesOutAt(c: Cluster, names: seq<string>, ticks: int, budget: int, pending: seq<string>, i: nat) {
    && OutOfTime(c, names, ticks, budget, i) && NoFailures(c, names, i)
    && pending != [] && pending == Undone(c, names, i)
  }

  /** One Job's import is done at tick `i`, told by the reads alone: the ticks are within the limit and the time, some
      read so far counts a success, and before it none counted a failure and no five in a row failed. */
  lemma OneJobImportedIff(c: Cluster, job: string, ticks: int, budget: int, i: nat)
    ensures ImportedAt(c, [job], ticks, budget, i)
       <==> && i < ticks && (forall j: nat :: j <= i ==> c.elapsed(j) <= budget)
            && exists d: nat :: d <= i && CountsSuccess(c.read(d, job))
                                && forall j: nat :: j < d ==> !GivesUp(c, job, j)
  {
    var names := [job];
    assert forall m :: m in names <==> m == job;
    assert job in names && (AllDone(c, names, i + 1) <==> DoneBefore(c, job, i + 1));
    JobNeverFails(c, job, i);
    assert ImportedAt(c, names, ticks, budget, i)
      <==> Open(c, ticks, budget, i) && DoneBefore(c, job, i + 1) && forall j: nat :: j <= i ==> !FailsAt(c, job, j);
    OpenIff(c, ticks, budget, i);
    NeverFailsIff(c, job, i);
  }

  lemma OpenIff(c: Cluster, ticks: int, budget: int, i: nat)
    ensures Open(c, ticks, budget, i) <==> i < ticks && forall j: nat :: j <= i ==> c.elapsed(j) <= budget
  {
    assert Open(c, ticks, budget, i) ==> InTime(c, ticks, budget, i);
    forall j: nat ensures InTime(c, ticks, budget, j) <==> j < ticks && c.elapsed(j) <= budget {}
    if Open(c, ticks, budget, i) {
      forall j: nat | j <= i ensures c.elapsed(j) <= budget { assert InTime(c, ticks, budget, j); }
    }
  }

  lemma JobNeverFails(c: Cluster, job: string, i: nat)
    ensures NoFailures(c, [job], i + 1) <==> forall j: nat :: j <= i ==> !FailsAt(c, job, j)
  {
    hide FailsAt;
    assert job in [job];
    if NoFailures(c, [job], i + 1) {
      forall j: nat | j <= i ensures !FailsAt(c, job, j) { assert job in [job] && j < i + 1; }
    }
  }

  /** The read counts a failure, or is the fifth in a row to fail. */
  predicate GivesUp(c: Cluster, job: string, j: nat) {
    var r := c.read(j, job);
    || (r.Status? && r.succeeded < 1 && r.failed >= 1)
    || (j >= 4 && forall k: nat :: j - 4 <= k <= j ==> c.read(k, job).Unread?)
  }

  predicate CountsSuccess(r: Read) { r.Status? && r.succeeded >= 1 }

  lemma GivesUpIff(c: Cluster, job: string, j: nat)
    ensures GivesUp(c, job, j) <==> ShowsFailure(c, job, j) || IsLost(c, job, j)
    ensures GivesUp(c, job, j) ==> !Succeeds(c, job, j)
  {
    LostAfterFive(c, job, j);
    hide IsLost;
  }

  lemma NeverFailsIff(c: Cluster, job: string, i: nat)
    ensures DoneBefore(c, job, i + 1) && (forall j: nat :: j <= i ==> !FailsAt(c, job, j))
       <==> exists d: nat :: d <= i && CountsSuccess(c.read(d, job)) && forall j: nat :: j < d ==> !GivesUp(c, job, j)
  {
    forall j: nat { GivesUpIff(c, job, j); }
    forall j: nat ensures CountsSuccess(c.read(j, job)) <==> Succeeds(c, job, j) {}
    hide IsLost, ShowsFailure, Succeeds, CountsSuccess, GivesUp;
    if DoneBefore(c, job, i + 1) {
      var d := FirstSuccess(c, job, i);
      assert forall j: nat :: j <= d ==> !DoneBefore(c, job, j);
      assert forall j: nat :: d < j ==> DoneBefore(c, job, j);
      assert !GivesUp(c, job, d);
      if forall j: nat :: j <= i ==> !FailsAt(c, job, j) {
        forall j: nat | j < d ensures !GivesUp(c, job, j) { assert !FailsAt(c, job, j); }
        assert CountsSuccess(c.read(d, job));
      }
    }
  }

  lemma {:induction false} FirstSuccess(c: Cluster, job: string, i: nat) returns (d: nat)
    requires DoneBefore(c, job, i + 1)
    ensures d <= i && Succeeds(c, job, d) && forall j: nat :: j < d ==> !Succeeds(c, job, j)
  {
    hide Succeeds;
    if i > 0 && DoneBefore(c, job, i) { d := FirstSuccess(c, job, i - 1); } else { d := i; }
  }

  /** The Jobs not yet seen to succeed, in order. */
  function Undone(c: Cluster, names: seq<string>, i: nat): seq<string> {
    if names == [] then []
    else
      var m := names[|names| - 1];
      Undone(c, names[..|names| - 1], i) + if DoneBefore(c, m, i) then [] else [m]
  }

  // ------------------------------------------------------------------
  // The polling loop
  // ------------------------------------------------------------------

  /** The entries of a JavaScript `Map`, in the order its keys were first set. */
  function Entries(names: seq<string>, pending: map<string, nat>): seq<string> {
    if names == [] then []
    else
      var m := names[|names| - 1];
      Entries(names[..|names| - 1], pending) + if m in pending then [m] else []
  }

  lemma {:induction false} EntriesAreMembers(names: seq<string>, pending: map<string, nat>)
    requires NoRepeats(names)
    ensures NoRepeats(Entries(names, pending))
    ensures forall m :: m in Entries(names, pending) <==> m in names && m in pending
  {
    if names != [] {
      var front := names[..|names| - 1];
      EntriesAreMembers(front, pending);
      assert names == front + [names[|names| - 1]];
    }
  }

  lemma {:induction false} EntriesAreUndone(c: Cluster, names: seq<string>, pending: map<string, nat>, i: nat)
    requires forall m :: m in names ==> (m in pending <==> !DoneBefore(c, m, i))
    ensures Entries(names, pending) == Undone(c, names, i)
  {
    if names != [] {
      EntriesAreUndone(c, names[..|names| - 1], pending, i);
    }
  }

  lemma DoneBeforeStep(c: Cluster, job: string, i: nat)
    ensures DoneBefore(c, job, i + 1) <==> DoneBefore(c, job, i) || Succeeds(c, job, i)
  {
    if DoneBefore(c, job, i + 1) {
      var d: nat :| d < i + 1 && Succeeds(c, job, d);
      assert d < i ==> DoneBefore(c, job, i);
    }
  }

  /** Between ticks: exactly the Jobs not seen to succeed are pending, with their error counts. */
  predicate AtTick(c: Cluster, names: seq<string>, pending: map<string, nat>, i: nat) {
    && (forall m :: m in pending ==> m in names)
    && (forall m :: m in names ==> (m in pending <==> !DoneBefore(c, m, i)))
    && (forall m :: m in pending ==> pending[m] == Errors(c, m, i))
  }

  predicate Waiting(c: Cluster, job: string, pending: map<string, nat>, i: nat) {
    job in pending && pending[job] == Errors(c, job, i)
  }

  predicate Handled(c: Cluster, job: string, pending: map<string, nat>, i: nat) {
    && (job in pending <==> !Succeeds(c, job, i))
    && (job in pending ==> pending[job] == Errors(c, job, i + 1))
    && !FailsAt(c, job, i)
  }

  /** Within tick `i`, with the first `k` Jobs of the snapshot handled. */
  predicate WithinTick(c: Cluster, snapshot: seq<string>, pending: map<string, nat>, i: nat, k: nat) {
    && k <= |snapshot|
    && (forall m :: m in pending ==> m in snapshot)
    && (forall l :: 0 <= l < k ==> Handled(c, snapshot[l], pending, i))
    && (forall l :: k <= l < |snapshot| ==> Waiting(c, snapshot[l], pending, i))
  }

  datatype Verdict = GoOn | Lost | Failed

  method HandleRead(r: Read, name: string, before: map<string, nat>)
    returns (pending: map<string, nat>, verdict: Verdict)
    requires name in before
    ensures pending - {name} == before - {name}
    ensures r.Unread? ==> name in pending && pending[name] == before[name] + 1
                          && verdict == if pending[name] >= MAX_ERRORS then Lost else GoOn
    ensures r.Status? && r.succeeded >= 1 ==> name !in pending && verdict == GoOn
    ensures r.Status? && r.succeeded < 1 ==> name in pending && pending[name] == 0
                                             && verdict == if r.failed >= 1 then Failed else GoOn
  {
    if r.Unread? {
      pending := before[name := before[name] + 1];
      return pending, if pending[name] >= MAX_ERRORS then Lost else GoOn;
    }
    pending := before[name := 0];
    if r.succeeded >= 1 {
      return pending - {name}, GoOn;
    }
    verdict := if r.failed >= 1 then Failed else GoOn;
  }

  /** One handled read, seen from its Job. */
  lemma ReadHandled(c: Cluster, job: string, before: map<string, nat>, pending: map<string, nat>, verdict: Verdict,
                    i: nat)
    requires Waiting(c, job, before, i) && !DoneBefore(c, job, i)
    requires var r := c.read(i, job);
             && (r.Unread? ==> job in pending && pending[job] == before[job] + 1
                               && verdict == if pending[job] >= MAX_ERRORS then Lost else GoOn)
             && (r.Status? && r.succeeded >= 1 ==> job !in pending && verdict == GoOn)
             && (r.Status? && r.succeeded < 1 ==> job in pending && pending[job] == 0
                                                  && verdict == if r.failed >= 1 then Failed else GoOn)
    ensures verdict == GoOn ==> Handled(c, job, pending, i)
    ensures verdict != GoOn ==> FailsAt(c, job, i) && (verdict == Lost <==> IsLost(c, job, i))
  {
    assert Errors(c, job, i + 1) == if c.read(i, job).Unread? then 1 + Errors(c, job, i) else 0;
  }

  lemma OthersUntouched(c: Cluster, snapshot: seq<string>, before: map<string, nat>, pending: map<string, nat>, i: nat,
                        j: nat)
    requires NoRepeats(snapshot) && j < |snapshot| && WithinTick(c, snapshot, before, i, j)
    requires pending - {snapshot[j]} == before - {snapshot[j]}
    requires Handled(c, snapshot[j], pending, i)
    ensures WithinTick(c, snapshot, pending, i, j + 1)
  {
    forall m | m != snapshot[j]
      ensures m in pending <==> m in before
      ensures m in pending ==> pending[m] == before[m]
    {
      assert m in pending <==> m in pending - {snapshot[j]};
      assert m in before <==> m in before - {snapshot[j]};
      assert m in pending ==> pending[m] == (pending - {snapshot[j]})[m] == (before - {snapshot[j]})[m];
    }
    forall m | m in pending ensures m in snapshot {
      assert m == snapshot[j] || m in before;
    }
    forall l | 0 <= l < j ensures Handled(c, snapshot[l], pending, i) {
      assert Handled(c, snapshot[l], before, i) && snapshot[l] != snapshot[j];
    }
    forall l | j + 1 <= l < |snapshot| ensures Waiting(c, snapshot[l], pending, i) {
      assert Waiting(c, snapshot[l], before, i) && snapshot[l] != snapshot[j];
    }
  }

  predicate NoneFails(c: Cluster, snapshot: seq<string>, k: nat, i: nat)
    requires k <= |snapshot|
  {
    forall l :: 0 <= l < k ==> !FailsAt(c, snapshot[l], i)
  }

  method HandleReads(c: Cluster, snapshot: seq<string>, before: map<string, nat>, i: nat)
    returns (pending: map<string, nat>, verdict: Verdict, stop: nat)
    requires NoRepeats(snapshot) && WithinTick(c, snapshot, before, i, 0)
    requires forall l :: 0 <= l < |snapshot| ==> !DoneBefore(c, snapshot[l], i)
    ensures verdict == GoOn ==> WithinTick(c, snapshot, pending, i, |snapshot|)
    ensures verdict != GoOn ==>
              && stop < |snapshot| && NoneFails(c, snapshot, stop, i) && FailsAt(c, snapshot[stop], i)
              && (verdict == Lost <==> IsLost(c, snapshot[stop], i))
  {
    pending, stop := before, 0;
    for j := 0 to |snapshot|
      invariant WithinTick(c, snapshot, pending, i, j)
    {
      var name := snapshot[j];
      assert Waiting(c, name, pending, i);
      var next;
      next, verdict := HandleRead(c.read(i, name), name, pending);
      ReadHandled(c, name, pending, next, verdict, i);
      if verdict != GoOn {
        return next, verdict, j;
      }
      OthersUntouched(c, snapshot, pending, next, i, j);
      pending := next;
    }
    verdict := GoOn;
  }

  lemma TickStarts(c: Cluster, names: seq<string>, pending: map<string, nat>, i: nat)
    requires NoRepeats(names) && AtTick(c, names, pending, i)
    ensures var snapshot := Entries(names, pending);
            && NoRepeats(snapshot) && WithinTick(c, snapshot, pending, i, 0)
            && forall l :: 0 <= l < |snapshot| ==> !DoneBefore(c, snapshot[l], i)
  {
    EntriesAreMembers(names, pending);
    var snapshot := Entries(names, pending);
    forall l | 0 <= l < |snapshot|
      ensures Waiting(c, snapshot[l], pending, i) && !DoneBefore(c, snapshot[l], i)
    {
      assert snapshot[l] in names && snapshot[l] in pending;
    }
  }

  lemma TickEnds(c: Cluster, names: seq<string>, before: map<string, nat>, pending: map<string, nat>, i: nat)
    requires NoRepeats(names) && AtTick(c, names, before, i) && NoFailures(c, names, i)
    requires WithinTick(c, Entries(names, before), pending, i, |Entries(names, before)|)
    ensures AtTick(c, names, pending, i + 1) && NoFailures(c, names, i + 1)
  {
    EntriesAreMembers(names, before);
    var snapshot := Entries(names, before);
    forall m | m in names
      ensures m in pending <==> !DoneBefore(c, m, i + 1)
      ensures m in pending ==> pending[m] == Errors(c, m, i + 1)
      ensures !FailsAt(c, m, i)
    {
      DoneBeforeStep(c, m, i);
      if m in before {
        var l :| 0 <= l < |snapshot| && snapshot[l] == m;
        assert Handled(c, snapshot[l], pending, i);
      } else {
        assert m !in snapshot;
      }
    }
  }

  /** Where an entry of the map stands among all names. */
  lemma {:induction false} EntryPosition(names: seq<string>, pending: map<string, nat>, l: nat) returns (k: nat)
    requires l < |Entries(names, pending)|
    ensures k < |names| && names[k] == Entries(names, pending)[l]
    ensures Entries(names[..k], pending) == Entries(names, pending)[..l]
  {
    var n := |names| - 1;
    var front := Entries(names[..n], pending);
    if l < |front| {
      k := EntryPosition(names[..n], pending, l);
      assert names[..n][..k] == names[..k];
      assert Entries(names, pending)[..l] == front[..l];
    } else {
      k := n;
      assert Entries(names, pending)[..l] == front;
    }
  }

  lemma TickFails(c: Cluster, names: seq<string>, ticks: int, budget: int, before: map<string, nat>, i: nat, stop: nat)
    requires NoRepeats(names) && AtTick(c, names, before, i) && NoFailures(c, names, i) && Open(c, ticks, budget, i)
    requires stop < |Entries(names, before)| && NoneFails(c, Entries(names, before), stop, i)
    requires FailsAt(c, Entries(names, before)[stop], i)
    ensures FailureOf(c, names, ticks, budget, Entries(names, before)[stop], IsLost(c, Entries(names, before)[stop], i))
  {
    var snapshot := Entries(names, before);
    var k := EntryPosition(names, before, stop);
    forall l | 0 <= l < k
      ensures !FailsAt(c, names[l], i)
    {
      if names[l] in before {
        FrontIsNoRepeat(names, k);
        EntriesAreMembers(names[..k], before);
        assert names[..k][l] == names[l];
        assert names[l] in snapshot[..stop];
        var e :| 0 <= e < stop && snapshot[..stop][e] == names[l];
        assert !FailsAt(c, snapshot[e], i);
      } else {
        assert names[l] in names;
      }
    }
    assert FirstFailure(c, names, ticks, budget, k, i);
  }

  lemma FrontIsNoRepeat(names: seq<string>, k: nat)
    requires NoRepeats(names) && k <= |names|
    ensures NoRepeats(names[..k])
  {
  }

  lemma OpenStep(c: Cluster, ticks: int, budget: int, i: nat)
    requires InTime(c, ticks, budget, i) && (i > 0 ==> Open(c, ticks, budget, i - 1))
    ensures Open(c, ticks, budget, i)
  {
  }

  /** The actions of polling: reads, and one look at the logs of a failed Job. */
  predicate Watching(trace: seq<Action>, names: seq<string>) {
    forall a :: a in trace ==> (a.Get? || a.Logs?) && a.job in names
  }

  function ReadsOf(trace: seq<Action>, job: string): nat {
    if trace == [] then 0
    else ReadsOf(trace[..|trace| - 1], job) + if trace[|trace| - 1] == Get(job) then 1 else 0
  }

  ghost predicate ReadAtMost(trace: seq<Action>, n: nat) { forall job :: ReadsOf(trace, job) <= n }

  lemma {:induction false} OneReadEach(trace: seq<Action>, names: seq<string>, job: string)
    requires NoRepeats(names)
    ensures ReadsOf(trace + Gets(names), job) == ReadsOf(trace, job) + if job in names then 1 else 0
  {
    if names == [] {
      assert trace + Gets(names) == trace;
    } else {
      var front := names[..|names| - 1];
      OneReadEach(trace, front, job);
      assert (trace + Gets(names))[..|trace| + |front|] == trace + Gets(front);
      assert names == front + [names[|front|]];
    }
  }

  lemma TickReads(trace: seq<Action>, names: seq<string>, snapshot: seq<string>, n: nat)
    requires Watching(trace, names) && ReadAtMost(trace, n) && NoRepeats(snapshot)
    requires forall m :: m in snapshot ==> m in names
    ensures Watching(trace + Gets(snapshot), names) && ReadAtMost(trace + Gets(snapshot), n + 1)
  {
    forall job ensures ReadsOf(trace + Gets(snapshot), job) <= n + 1 {
      OneReadEach(trace, snapshot, job);
      assert ReadsOf(trace, job) <= n;
    }
  }

  /** How often the tick budget lets a Job be read. */
  function Bound(ticks: int): nat { if ticks > 0 then ticks else 0 }

  /** The actions of one tick: every pending Job is read, and of a failed one the logs. */
  predicate TickActions(names: seq<string>, snapshot: seq<string>, acts: seq<Action>) {
    acts == Gets(snapshot) || exists m :: m in names && acts == Gets(snapshot) + [Logs(m)]
  }

  /** One round of the loop; no outcome means go on. */
  method PollTick(c: Cluster, names: seq<string>, ticks: int, budget: int, before: map<string, nat>, i: nat)
    returns (pending: map<string, nat>, end: Option<Outcome>, acts: seq<Action>)
    requires NoRepeats(names) && AtTick(c, names, before, i) && NoFailures(c, names, i) && Open(c, ticks, budget, i)
    ensures end == None || end.Some?
    ensures end == None ==> AtTick(c, names, pending, i + 1) && NoFailures(c, names, i + 1) && pending != map[]
    ensures end.Some? ==> Polled(c, names, ticks, budget, end.value)
    ensures TickActions(names, Entries(names, before), acts)
  {
    var snapshot := Entries(names, before);
    TickStarts(c, names, before, i);
    acts := Gets(snapshot);
    var verdict, stop;
    pending, verdict, stop := HandleReads(c, snapshot, before, i);
    if verdict != GoOn {
      TickFails(c, names, ticks, budget, before, i, stop);
      var job := snapshot[stop];
      if verdict == Lost { return pending, Some(Unreadable(job)), acts; }
      EntriesAreMembers(names, before);
      return pending, Some(JobFailed(job)), acts + [Logs(job)];
    }
    TickEnds(c, names, before, pending, i);
    end := None;
    if pending == map[] {
      assert ImportedAt(c, names, ticks, budget, i);
      end := Some(Imported);
    }
  }

  lemma TickIsWatching(trace: seq<Action>, names: seq<string>, pending: map<string, nat>, acts: seq<Action>, n: nat,
                       ticks: int)
    requires NoRepeats(names) && Watching(trace, names) && ReadAtMost(trace, n) && n < ticks
    requires TickActions(names, Entries(names, pending), acts)
    ensures Watching(trace + acts, names) && ReadAtMost(trace + acts, n + 1) && ReadAtMost(trace + acts, Bound(ticks))
  {
    var snapshot := Entries(names, pending);
    EntriesAreMembers(names, pending);
    TickReads(trace, names, snapshot, n);
    if acts != Gets(snapshot) {
      var m :| m in names && acts == Gets(snapshot) + [Logs(m)];
      OneLook(trace + Gets(snapshot), names, m, n + 1);
      assert trace + acts == trace + Gets(snapshot) + [Logs(m)];
    }
    ReadMore(trace + acts, n + 1, Bound(ticks));
  }

  function Fresh(names: seq<string>): map<string, nat> { map m | m in names :: 0 }

  /** What the loop keeps. */
  ghost predicate Polling(c: Cluster, names: seq<string>, ticks: int, budget: int, pending: map<string, nat>,
                          trace: seq<Action>, i: nat)
  {
    && (i > 0 ==> Open(c, ticks, budget, i - 1) && i <= ticks)
    && AtTick(c, names, pending, i) && NoFailures(c, names, i) && pending != map[]
    && Watching(trace, names) && ReadAtMost(trace, i)
  }

  lemma PollStarts(c: Cluster, names: seq<string>, ticks: int, budget: int)
    requires names != []
    ensures Polling(c, names, ticks, budget, Fresh(names), [], 0)
  {
    assert names[0] in Fresh(names);
  }

  /** One round with what it adds to the trace. */
  method PollRound(c: Cluster, names: seq<string>, ticks: int, budget: int, before: map<string, nat>,
                   trace: seq<Action>, i: nat)
    returns (pending: map<string, nat>, end: Option<Outcome>, more: seq<Action>)
    requires NoRepeats(names) && Polling(c, names, ticks, budget, before, trace, i)
    requires InTime(c, ticks, budget, i)
    ensures end == None || end.Some?
    ensures end == None ==> Polling(c, names, ticks, budget, pending, more, i + 1)
    ensures end.Some? ==> Polled(c, names, ticks, budget, end.value) && Bounded(more, names, ticks)
  {
    OpenStep(c, ticks, budget, i);
    var acts;
    pending, end, acts := PollTick(c, names, ticks, budget, before, i);
    TickIsWatching(trace, names, before, acts, i, ticks);
    more := trace + acts;
  }

  /** What polling promises of its actions. */
  ghost predicate Bounded(trace: seq<Action>, names: seq<string>, ticks: int) {
    Watching(trace, names) && ReadAtMost(trace, Bound(ticks))
  }

  /** The polling loop; no outcome means the budget ran out. */
  method PollLoop(c: Cluster, names: seq<string>, ticks: int, budget: int)
    returns (end: Option<Outcome>, pending: map<string, nat>, trace: seq<Action>, ghost i: nat)
    requires names != [] && NoRepeats(names)
    ensures end == None || end.Some?
    ensures end.Some? ==> Polled(c, names, ticks, budget, end.value) && Bounded(trace, names, ticks)
    ensures end == None ==> Polling(c, names, ticks, budget, pending, trace, i) && !InTime(c, ticks, budget, i)
  {
    hide Polling, Polled, Bounded, Fresh;
    pending, trace := Fresh(names), [];
    var tick: nat := 0;
    PollStarts(c, names, ticks, budget);
    while InTime(c, ticks, budget, tick)
      invariant Polling(c, names, ticks, budget, pending, trace, tick)
      decreases ticks - tick
    {
      var after, found, more := PollRound(c, names, ticks, budget, pending, trace, tick);
      pending, trace := after, more;
      if found.Some? {
        return found, pending, trace, tick;
      }
      tick := tick + 1;
    }
    end, i := None, tick;
  }

  method Poll(c: Cluster, names: seq<string>, ticks: int, budget: int) returns (outcome: Outcome, trace: seq<Action>)
    requires names != [] && NoRepeats(names)
    ensures Polled(c, names, ticks, budget, outcome) && Bounded(trace, names, ticks)
  {
    hide *;
    var end, pending, done, i := PollLoop(c, names, ticks, budget);
    trace := done;
    if end.Some? {
      outcome := end.value;
    } else {
      outcome := NotInTime(Entries(names, pending));
      TimeIsUp(c, names, ticks, budget, pending, trace, i);
    }
  }

  lemma ReadMore(trace: seq<Action>, n: nat, m: nat)
    requires ReadAtMost(trace, n) && n <= m
    ensures ReadAtMost(trace, m)
  {
    forall job ensures ReadsOf(trace, job) <= m { assert ReadsOf(trace, job) <= n; }
  }

  lemma TimeIsUp(c: Cluster, names: seq<string>, ticks: int, budget: int, pending: map<string, nat>,
                 trace: seq<Action>, i: nat)
    requires NoRepeats(names) && Polling(c, names, ticks, budget, pending, trace, i)
    requires !InTime(c, ticks, budget, i)
    ensures Polled(c, names, ticks, budget, NotInTime(Entries(names, pending)))
    ensures Bounded(trace, names, ticks)
  {
    ReadMore(trace, i, Bound(ticks));
    EntriesAreMembers(names, pending);
    EntriesAreUndone(c, names, pending, i);
    assert pending.Keys != {} by { assert pending.Keys == {} ==> pending == map[]; }
    var m := Sets.Member(pending.Keys);
    assert m in Entries(names, pending);
    assert TimesOutAt(c, names, ticks, budget, Entries(names, pending), i);
  }

  lemma OneLook(trace: seq<Action>, names: seq<string>, job: string, n: nat)
    requires Watching(trace, names) && ReadAtMost(trace, n) && job in names
    ensures Watching(trace + [Logs(job)], names) && ReadAtMost(trace + [Logs(job)], n)
  {
    forall m ensures ReadsOf(trace + [Logs(job)], m) <= n {
      assert (trace + [Logs(job)])[..|trace|] == trace;
      assert ReadsOf(trace, m) <= n;
    }
  }

  // ------------------------------------------------------------------
  // The whole import
  // ------------------------------------------------------------------

  /** The first Job in order whose apply was refused. */
  function FirstRefused(c: Cluster, names: seq<string>): (r: Option<string>)
    ensures r == None ==> forall m :: m in names ==> c.accepts(m)
    ensures r.Some? ==> exists k :: 0 <= k < |names| && names[k] == r.value && !c.accepts(names[k])
                                    && forall l :: 0 <= l < k ==> c.accepts(names[l])
  {
    if names == [] then None
    else if !c.accepts(names[0]) then
      assert names[0] == names[0];
      Some(names[0])
    else
      var r := FirstRefused(c, names[1..]);
      assert r.Some? ==> exists k :: 0 <= k < |names[1..]| && names[1..][k] == r.value && names[1 + k] == r.value
                                     && !c.accepts(names[1 + k])
                                     && forall l :: 0 <= l < k ==> c.accepts(names[1..][l]);
      r
  }

  /** Deleted before, applied, watched, and deleted again. */
  predicate Cleaned(trace: seq<Action>, names: seq<string>, watch: seq<Action>) {
    trace == [ListNodes] + Deletes(names) + Applies(names) + watch + Deletes(names)
  }

  ghost predicate Concluded(c: Cluster, names: seq<string>, ticks: int, budget: int, outcome: Outcome,
                            watch: seq<Action>) {
    && Bounded(watch, names, ticks)
    && match FirstRefused(c, names)
       case Some(job) => outcome == ApplyRefused(job) && watch == []
       case None => Polled(c, names, ticks, budget, outcome)
  }

  ghost predicate CleanRun(c: Cluster, names: seq<string>, ticks: int, budget: int, outcome: Outcome,
                           trace: seq<Action>) {
    exists watch :: Cleaned(trace, names, watch) && Concluded(c, names, ticks, budget, outcome, watch)
  }

  /** `runRemoteBundleImport`: an import that ends before its Jobs have names does nothing but list the
      nodes; every other one deletes all its Jobs before the first apply and again at the end. */
  method RunRemoteBundleImport(c: Cluster, service: string, tag: string, ticks: int, budget: int)
    returns (outcome: Outcome, trace: seq<Action>)
    ensures c.listing.ListFailed? ==> outcome == NodesNotListed && trace == [ListNodes]
    ensures c.listing == Nodes([]) ==> outcome == NoNodes && trace == [ListNodes]
    ensures c.listing.Forbidden? || (c.listing.Nodes? && c.listing.nodes != []) ==>
              var names := JobNames(c, service, tag);
              if NoRepeats(names) then CleanRun(c, names, ticks, budget, outcome, trace)
              else outcome == DuplicateNames && trace == [ListNodes]
  {
    trace := [ListNodes];
    match c.listing {
      case ListFailed => return NodesNotListed, trace;
      case Nodes(nodes) => if nodes == [] { return NoNodes, trace; }
      case Forbidden =>
    }
    var names := JobNames(c, service, tag);
    DistinctCount(names);
    if |set m | m in names| != |names| {
      return DuplicateNames, trace;
    }
    var watch;
    outcome, watch, trace := ImportJobs(c, names, ticks, budget);
  }

  /** The guarded part, with the teardown on every way out. */
  method ImportJobs(c: Cluster, names: seq<string>, ticks: int, budget: int)
    returns (outcome: Outcome, watch: seq<Action>, trace: seq<Action>)
    requires names != [] && NoRepeats(names)
    ensures Cleaned(trace, names, watch) && Concluded(c, names, ticks, budget, outcome, watch)
  {
    trace := [ListNodes] + Deletes(names) + Applies(names);
    var refused := FirstRefused(c, names);
    if refused.Some? {
      outcome, watch := ApplyRefused(refused.value), [];
    } else {
      outcome, watch := Poll(c, names, ticks, budget);
    }
    trace := trace + watch + Deletes(names);
  }

  // ------------------------------------------------------------------
  // When an import succeeds
  // ------------------------------------------------------------------

  lemma ImportedExcludesFailure(c: Cluster, names: seq<string>, ticks: int, budget: int, i: nat, k: nat, j: nat)
    requires ImportedAt(c, names, ticks, budget, i)
    ensures !FirstFailure(c, names, ticks, budget, k, j)
  {
    if k < |names| {
      assert names[k] in names && DoneBefore(c, names[k], i + 1);
      if j > i {
        var d: nat :| d < i + 1 && Succeeds(c, names[k], d);
        assert d < j && DoneBefore(c, names[k], j);
      } else {
        assert !FailsAt(c, names[k], j);
      }
    }
  }

  lemma {:induction false} NothingUndone(c: Cluster, names: seq<string>, i: nat)
    ensures Undone(c, names, i) == [] <==> AllDone(c, names, i)
  {
    if names != [] {
      var front := names[..|names| - 1];
      NothingUndone(c, front, i);
      assert names == front + [names[|names| - 1]];
    }
  }

  lemma DoneStays(c: Cluster, names: seq<string>, i: nat, j: nat)
    requires AllDone(c, names, i) && i <= j
    ensures AllDone(c, names, j)
  {
    forall m | m in names ensures DoneBefore(c, m, j) {
      var d: nat :| d < i && Succeeds(c, m, d);
    }
  }

  /** A tick the budgets allow comes before the tick they refuse. */
  lemma OpenBeforeOut(c: Cluster, names: seq<string>, ticks: int, budget: int, i: nat, j: nat)
    requires Open(c, ticks, budget, i) && OutOfTime(c, names, ticks, budget, j)
    ensures i < j
  {
  }

  lemma ImportedExcludesTimeout(c: Cluster, names: seq<string>, ticks: int, budget: int, i: nat, pending: seq<string>,
                                j: nat)
    requires ImportedAt(c, names, ticks, budget, i)
    ensures !TimesOutAt(c, names, ticks, budget, pending, j)
  {
    if OutOfTime(c, names, ticks, budget, j) {
      OpenBeforeOut(c, names, ticks, budget, i, j);
      DoneStays(c, names, i + 1, j);
      NothingUndone(c, names, j);
    }
  }

  lemma FailureExcludesTimeout(c: Cluster, names: seq<string>, ticks: int, budget: int, i: nat, m: string,
                               pending: seq<string>, j: nat)
    requires m in names && Open(c, ticks, budget, i) && FailsAt(c, m, i)
    ensures !TimesOutAt(c, names, ticks, budget, pending, j)
  {
    if OutOfTime(c, names, ticks, budget, j) {
      OpenBeforeOut(c, names, ticks, budget, i, j);
    }
  }

  /** The import reports success exactly when, within the tick and time budgets, every node's Job was read
      as succeeded, none having before that been read as failed or lost to five failed reads in a row. */
  lemma ImportedIff(c: Cluster, names: seq<string>, ticks: int, budget: int, outcome: Outcome)
    requires Polled(c, names, ticks, budget, outcome)
    ensures outcome == Imported <==> exists i: nat :: ImportedAt(c, names, ticks, budget, i)
  {
    if i: nat :| ImportedAt(c, names, ticks, budget, i) {
      forall k: nat, j: nat ensures !FirstFailure(c, names, ticks, budget, k, j) {
        ImportedExcludesFailure(c, names, ticks, budget, i, k, j);
      }
      forall pending, j: nat ensures !TimesOutAt(c, names, ticks, budget, pending, j) {
        ImportedExcludesTimeout(c, names, ticks, budget, i, pending, j);
      }
    }
  }

  /** A Job read as failed, or failing to be read five times in a row, before it was ever read as
      succeeded makes the whole import fail. */
  lemma FailedJobFailsTheImport(c: Cluster, names: seq<string>, ticks: int, budget: int, outcome: Outcome, m: string,
                                i: nat)
    requires Polled(c, names, ticks, budget, outcome)
    requires m in names && Open(c, ticks, budget, i) && FailsAt(c, m, i)
    ensures outcome.JobFailed? || outcome.Unreadable?
  {
    forall d: nat ensures !ImportedAt(c, names, ticks, budget, d) {
      FailureExcludesImport(c, names, ticks, budget, d, m, i);
    }
    forall pending, j: nat ensures !TimesOutAt(c, names, ticks, budget, pending, j) {
      FailureExcludesTimeout(c, names, ticks, budget, i, m, pending, j);
    }
  }

  lemma FailureExcludesImport(c: Cluster, names: seq<string>, ticks: int, budget: int, d: nat, m: string, i: nat)
    requires m in names && FailsAt(c, m, i)
    ensures !ImportedAt(c, names, ticks, budget, d)
  {
    DoneLater(c, m, d + 1, i);
  }

  lemma DoneLater(c: Cluster, m: string, i: nat, j: nat)
    ensures DoneBefore(c, m, i) && i <= j ==> DoneBefore(c, m, j)
  {
  }

  /** The reads decide the outcome: no two outcomes fit them. */
  lemma OutcomeIsUnique(c: Cluster, names: seq<string>, ticks: int, budget: int, a: Outcome, b: Outcome)
    requires Polled(c, names, ticks, budget, a) && Polled(c, names, ticks, budget, b)
    ensures a == b
  {
    ImportedIff(c, names, ticks, budget, a);
    ImportedIff(c, names, ticks, budget, b);
    if a.NotInTime? && b.NotInTime? {
      SameTimeout(c, names, ticks, budget, a.pending, b.pending);
    } else if a.JobFailed? || a.Unreadable? {
      SameFailure(c, names, ticks, budget, a, b);
    } else if b.JobFailed? || b.Unreadable? {
      SameFailure(c, names, ticks, budget, b, a);
    }
  }

  lemma SameTimeout(c: Cluster, names: seq<string>, ticks: int, budget: int, p: seq<string>, q: seq<string>)
    requires Polled(c, names, ticks, budget, NotInTime(p)) && Polled(c, names, ticks, budget, NotInTime(q))
    ensures p == q
  {
    var i: nat :| TimesOutAt(c, names, ticks, budget, p, i);
    var j: nat :| TimesOutAt(c, names, ticks, budget, q, j);
    OneDeadline(c, names, ticks, budget, i, j);
    OneDeadline(c, names, ticks, budget, j, i);
  }

  lemma OneDeadline(c: Cluster, names: seq<string>, ticks: int, budget: int, i: nat, j: nat)
    requires OutOfTime(c, names, ticks, budget, i) && OutOfTime(c, names, ticks, budget, j)
    ensures i >= j
  {
    if j > 0 {
      assert Open(c, ticks, budget, j - 1);
      assert i <= j - 1 ==> InTime(c, ticks, budget, i);
    }
  }

  lemma FailurePlace(c: Cluster, names: seq<string>, ticks: int, budget: int, a: Outcome) returns (k: nat, i: nat)
    requires Polled(c, names, ticks, budget, a) && (a.JobFailed? || a.Unreadable?)
    ensures FirstFailure(c, names, ticks, budget, k, i) && names[k] == a.job && (a.Unreadable? <==> IsLost(c, a.job, i))
  {
    k, i :| FirstFailure(c, names, ticks, budget, k, i) && names[k] == a.job && a.Unreadable? == IsLost(c, a.job, i);
  }

  lemma SamePlace(c: Cluster, names: seq<string>, ticks: int, budget: int, k: nat, i: nat, l: nat, j: nat)
    requires FirstFailure(c, names, ticks, budget, k, i) && FirstFailure(c, names, ticks, budget, l, j)
    ensures i == j && k == l
  {
    assert names[k] in names && names[l] in names;
  }

  lemma SameFailure(c: Cluster, names: seq<string>, ticks: int, budget: int, a: Outcome, b: Outcome)
    requires Polled(c, names, ticks, budget, a) && Polled(c, names, ticks, budget, b)
    requires a.JobFailed? || a.Unreadable?
    ensures a == b
  {
    var k, i := FailurePlace(c, names, ticks, budget, a);
    assert names[k] in names;
    FailedJobFailsTheImport(c, names, ticks, budget, b, names[k], i);
    var l, j := FailurePlace(c, names, ticks, budget, b);
    SamePlace(c, names, ticks, budget, k, i, l, j);
  }

  // ------------------------------------------------------------------
  // Names and outcome together
  // ------------------------------------------------------------------

  /** The names of two nodes' Jobs are the same text. */
  predicate Clash(c: Cluster, service: string, tag: string, a: NodeName, b: NodeName) {
    SameName(service, tag, NodeSegment(a, c.lower, c.digest), NodeSegment(b, c.lower, c.digest), c.lower)
  }

  /** For all services, tags and nodes: one validly named Job per node, and the import is refused for duplicate
      names exactly when two nodes have one segment or one's segment swallows the other's. */
  lemma OneJobPerNode(c: Cluster, service: string, tag: string)
    requires c.listing.Nodes? && c.listing.nodes != []
    ensures var (nodes, names) := (c.listing.nodes, JobNames(c, service, tag));
            && |names| == |nodes| && (forall i :: 0 <= i < |names| ==> Label(names[i]))
            && (NoRepeats(names) <==> forall i, j :: 0 <= i < j < |nodes| ==>
                  !Clash(c, service, tag, nodes[i], nodes[j]))
  {
    var (nodes, names) := (c.listing.nodes, JobNames(c, service, tag));
    forall i | 0 <= i < |names| ensures Label(names[i]) {
      NameAt(c, service, tag, i);
    }
    forall i, j | 0 <= i < j < |nodes|
      ensures names[i] == names[j] <==> Clash(c, service, tag, nodes[i], nodes[j])
    {
      NamesAt(c, service, tag, i, j);
    }
    DistinctIff(names, nodes, (a: NodeName, b: NodeName) => Clash(c, service, tag, a, b));
  }

  lemma NameAt(c: Cluster, service: string, tag: string, i: nat)
    requires c.listing.Nodes? && i < |c.listing.nodes|
    ensures |JobNames(c, service, tag)| == |c.listing.nodes|
    ensures JobNames(c, service, tag)[i] == ImportJobName(service, tag, c.listing.nodes[i], c.lower, c.digest)
    ensures Label(JobNames(c, service, tag)[i])
  {
    ImportJobNameIsALabel(service, tag, c.listing.nodes[i], c.lower, c.digest);
  }

  lemma NamesAt(c: Cluster, service: string, tag: string, i: nat, j: nat)
    requires c.listing.Nodes? && i < j < |c.listing.nodes|
    ensures |JobNames(c, service, tag)| == |c.listing.nodes|
    ensures JobNames(c, service, tag)[i] == JobNames(c, service, tag)[j]
       <==> Clash(c, service, tag, c.listing.nodes[i], c.listing.nodes[j])
  {
    NameAt(c, service, tag, i);
    NameAt(c, service, tag, j);
    JobNamesCollideIff(service, tag, c.listing.nodes[i], c.listing.nodes[j], c.lower, c.digest);
  }

  lemma DistinctIff(names: seq<string>, nodes: seq<NodeName>, clash: (NodeName, NodeName) -> bool)
    requires |names| == |nodes|
    requires forall i, j :: 0 <= i < j < |nodes| ==> (names[i] == names[j] <==> clash(nodes[i], nodes[j]))
    ensures NoRepeats(names) <==> forall i, j :: 0 <= i < j < |nodes| ==> !clash(nodes[i], nodes[j])
  {
    if forall i, j :: 0 <= i < j < |nodes| ==> !clash(nodes[i], nodes[j]) {
      forall i, j | 0 <= i < j < |names| ensures names[i] != names[j] {
        assert !clash(nodes[i], nodes[j]);
      }
    }
    if NoRepeats(names) {
      forall i, j | 0 <= i < j < |nodes| ensures !clash(nodes[i], nodes[j]) {
        assert names[i] != names[j];
      }
    }
  }

  /** Two nodes whose names were hashed to the same stem and digits. */
  predicate Collide(c: Cluster, a: string, b: string) {
    && !Verbatim(a, c.lower) && !Verbatim(b, c.lower)
    && c.digest(a) == c.digest(b) && Cut(Slug(a, c.lower), 17) == Cut(Slug(b, c.lower), 17)
  }

  /** Where service and tag stay whole beside both segments, two nodes clash exactly when they collide under
      the hash. */
  lemma WholeNamesClashIff(c: Cluster, service: string, tag: string, a: NodeName, b: NodeName)
    requires a != b
    requires |STEM + Tail(service, tag, c.lower)| + |NodeSegment(a, c.lower, c.digest)| <= 61
    requires |STEM + Tail(service, tag, c.lower)| + |NodeSegment(b, c.lower, c.digest)| <= 61
    ensures Clash(c, service, tag, a, b) <==> Collide(c, a, b)
  {
    JobNamesCollideIff(service, tag, a, b, c.lower, c.digest);
    WholeNamesCollideIff(service, tag, a, b, c.lower, c.digest);
    SegmentsCollideIff(a, b, c.lower, c.digest);
  }
}
