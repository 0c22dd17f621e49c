/** The lock's SELECT and upsert are two statements (src/lib/lock.ts:30-44). When processes interleave between
    them two workers can get one token; here is when tokens order the acquisitions all the same. */
module LockRaces {
  import opened Tables
  import opened Workers
  import opened WorkerMoves
  import Fencing
  import Jobs
  import Locks

  // ------------------------------------------------------------------
  // When tokens increase
  // ------------------------------------------------------------------

  /** The step grants the lock of `resource`. */
  predicate Grants(s: System, e: Event, resource: string) {
    e.WriteLock? && s.PhaseOf(e.worker).Looked? && s.PhaseOf(e.worker).resource == resource
  }

  /** The tokens a run grants for `resource`, one for each acquisition. */
  function Tokens(leaseMs: int, events: seq<Event>, resource: string): seq<int> {
    if events == [] then []
    else
      var (before, e) := (events[..|events| - 1], events[|events| - 1]);
      var s := Run(Boot(leaseMs), before);
      Tokens(leaseMs, before, resource) + if Grants(s, e, resource) then [s.PhaseOf(e.worker).seen + 1] else []
  }

  predicate Increasing(tokens: seq<int>) {
    forall i, j :: 0 <= i < j < |tokens| ==> tokens[i] < tokens[j]
  }

  function Ordinals(n: nat): (r: seq<int>)
    ensures |r| == n && forall i :: 0 <= i < n ==> r[i] == i + 1
  {
    seq(n, i => i + 1)
  }

  lemma StepCounts(s: System, e: Event, resource: string)
    requires !StaleGrab(s, e)
    ensures LatestToken(Step(s, e), resource) == LatestToken(s, resource) + if Grants(s, e, resource) then 1 else 0
  {
    if e.WriteLock? && s.PhaseOf(e.worker).Looked? {
      ResourceKeysDiffer(s.PhaseOf(e.worker).resource, resource);
    } else if e.RenewLock? || e.ReleaseLock? {
      LockStepKeepsTokens(s, e);
    } else {
      OtherStepsKeepLocks(s, e);
    }
  }

  /** While no grant is written on a changed token, a token is the ordinal of its acquisition. */
  lemma {:induction false} TokensAreOrdinals(leaseMs: int, events: seq<Event>, resource: string)
    requires NeverStale(Boot(leaseMs), events)
    ensures LatestToken(Run(Boot(leaseMs), events), resource) >= 0
    ensures Tokens(leaseMs, events, resource) == Ordinals(LatestToken(Run(Boot(leaseMs), events), resource))
  {
    if events != [] {
      var (before, e) := (events[..|events| - 1], events[|events| - 1]);
      TokensAreOrdinals(leaseMs, before, resource);
      StepCounts(Run(Boot(leaseMs), before), e, resource);
    }
  }

  /** In every such run without unfenced writes a service shows what its newest acquisition wrote last: the stored
      token is the ordinal of an acquisition, and every write came from that one or one before it. */
  lemma TagIsOfTheNewestAcquisition(leaseMs: int, events: seq<Event>, service: string)
    requires forall k :: 0 <= k < |events| ==> !events[k].DirectWrite?
    requires NeverStale(Boot(leaseMs), events)
    requires Fencing.Touches(Run(Boot(leaseMs), events).writes, service)
    ensures var s := Run(Boot(leaseMs), events); var tokens := Tokens(leaseMs, events, service);
            && service in s.Current()
            && GrantedAs(tokens, s.Current()[service].token)
            && forall j :: 0 <= j < |s.writes| && s.writes[j].service == service ==>
                 && s.writes[j].Fenced? && GrantedAs(tokens, s.writes[j].token)
                 && s.writes[j].token <= s.Current()[service].token
  {
    var s := Run(Boot(leaseMs), events);
    NewestAcquisitionWins(leaseMs, events, service);
    TokensAreOrdinals(leaseMs, events, service);
    RunKeepsFencing(Boot(leaseMs), events);
    AllFenced(leaseMs, events);
    forall j | 0 <= j < |s.writes| && s.writes[j].service == service
      ensures s.writes[j].Fenced? && GrantedAs(Tokens(leaseMs, events, service), s.writes[j].token)
    {
      assert WriteOk(s, j);
    }
  }

  /** The token was granted, by the acquisition of that number. */
  predicate GrantedAs(tokens: seq<int>, token: int) { 1 <= token <= |tokens| && tokens[token - 1] == token }

  /** On every resource, later acquisitions carry higher tokens. */
  ghost predicate TokensIncrease(leaseMs: int, events: seq<Event>) {
    forall resource :: Increasing(Tokens(leaseMs, events, resource))
  }

  lemma BootIsFenced(leaseMs: int)
    ensures FencingInv(Boot(leaseMs))
  {
  }

  lemma LooksAreOk(s: System, w: string)
    requires FencingInv(s)
    ensures LookOk(s, w)
  {
  }

  /** A grant on a changed token is no higher than the grant before it. */
  lemma StaleGrabRepeats(leaseMs: int, events: seq<Event>)
    requires events != [] && NeverStale(Boot(leaseMs), events[..|events| - 1])
    requires StaleGrab(Run(Boot(leaseMs), events[..|events| - 1]), events[|events| - 1])
    ensures !TokensIncrease(leaseMs, events)
  {
    hide Step, Run, NeverStale, Locks.TokenOf, FencingInv;
    var (before, e) := (events[..|events| - 1], events[|events| - 1]);
    var s := Run(Boot(leaseMs), before);
    var p := s.PhaseOf(e.worker);
    BootIsFenced(leaseMs);
    RunKeepsFencing(Boot(leaseMs), before);
    LooksAreOk(s, e.worker);
    TokensAreOrdinals(leaseMs, before, p.resource);
    var (n, tokens) := (LatestToken(s, p.resource), Tokens(leaseMs, events, p.resource));
    assert tokens == Ordinals(n) + [p.seen + 1];
    assert tokens[n - 1] == n && tokens[n] == p.seen + 1;
    assert !Increasing(tokens);
  }

  lemma IncreasedBefore(leaseMs: int, events: seq<Event>)
    requires events != [] && TokensIncrease(leaseMs, events)
    ensures TokensIncrease(leaseMs, events[..|events| - 1])
  {
    var before := events[..|events| - 1];
    forall resource ensures Increasing(Tokens(leaseMs, before, resource)) {
      var (less, more) := (Tokens(leaseMs, before, resource), Tokens(leaseMs, events, resource));
      assert Increasing(more) && less == more[..|less|];
    }
  }

  /** Over all runs of any workers: tokens strictly increase across the acquisitions of every resource if and
      only if no grant is written on a token that changed since its worker read it. */
  lemma {:induction false} TokensIncreaseIff(leaseMs: int, events: seq<Event>)
    ensures TokensIncrease(leaseMs, events) <==> NeverStale(Boot(leaseMs), events)
  {
    if events != [] {
      var before := events[..|events| - 1];
      TokensIncreaseIff(leaseMs, before);
      if TokensIncrease(leaseMs, events) {
        IncreasedBefore(leaseMs, events);
        if StaleGrab(Run(Boot(leaseMs), before), events[|events| - 1]) { StaleGrabRepeats(leaseMs, events); }
      }
    }
    if NeverStale(Boot(leaseMs), events) {
      forall resource ensures Increasing(Tokens(leaseMs, events, resource)) {
        TokensAreOrdinals(leaseMs, events, resource);
      }
    }
  }

  // ------------------------------------------------------------------
  // Two holders of one token
  // ------------------------------------------------------------------

  function BothGrab(v: string, w: string): seq<Event> { [ReadLock(v), ReadLock(w)] + [WriteLock(v), WriteLock(w)] }

  /** Two workers with the row of a free lock in hand. */
  predicate BothLooked(s: System, v: string, w: string, resource: string) {
    var (p, q) := (s.PhaseOf(v), s.PhaseOf(w));
    && v != w && p.Looked? && q.Looked? && p.resource == resource && q.resource == resource
    && p.seen == LatestToken(s, resource) && q.seen == LatestToken(s, resource)
  }

  lemma BothLook(s: System, v: string, w: string, resource: string)
    requires v != w && s.PhaseOf(v).Claimed? && s.PhaseOf(w).Claimed?
    requires s.PhaseOf(v).resource == resource && s.PhaseOf(w).resource == resource
    requires !Locks.Held(s.locks, Jobs.ResourceKey(resource), s.now)
    ensures var u := Step(Step(s, ReadLock(v)), ReadLock(w)); BothLooked(u, v, w, resource) && u.locks == s.locks
  {
  }

  /** Two workers hold locks on a resource under one token; the table knows only `w`. */
  predicate SharedToken(s: System, v: string, w: string, resource: string, token: int) {
    var (p, q) := (s.PhaseOf(v), s.PhaseOf(w));
    && v != w && p.HasLock() && q.HasLock() && p.resource == resource && q.resource == resource
    && p.lock.token == token && q.lock.token == token
    && Jobs.ResourceKey(resource) in s.locks && s.locks[Jobs.ResourceKey(resource)].holder == w
    && s.locks[Jobs.ResourceKey(resource)].token == token
  }

  lemma BothWrite(s: System, v: string, w: string, resource: string)
    requires BothLooked(s, v, w, resource)
    ensures var (one, two) := (Step(s, WriteLock(v)), Step(Step(s, WriteLock(v)), WriteLock(w)));
            && !StaleGrab(s, WriteLock(v)) && StaleGrab(one, WriteLock(w))
            && two.PhaseOf(v).Locked? && two.PhaseOf(w).Locked?
            && SharedToken(two, v, w, resource, LatestToken(s, resource) + 1)
  {
  }

  /** Four steps of any two workers that claimed jobs of one service while its lock is free: both read the row
      and both write it. Both then hold the lock, under one token, and the fencing invariant is lost. */
  lemma TwoLooksShareAToken(s: System, v: string, w: string, resource: string)
    requires v != w && s.PhaseOf(v).Claimed? && s.PhaseOf(w).Claimed?
    requires s.PhaseOf(v).resource == resource && s.PhaseOf(w).resource == resource
    requires !Locks.Held(s.locks, Jobs.ResourceKey(resource), s.now)
    ensures var u := Run(s, BothGrab(v, w));
            && u.PhaseOf(v).Locked? && u.PhaseOf(w).Locked?
            && SharedToken(u, v, w, resource, LatestToken(s, resource) + 1)
            && !FencingInv(u)
    ensures !NeverStale(s, BothGrab(v, w))
  {
    RunConcat(s, [ReadLock(v), ReadLock(w)], [WriteLock(v), WriteLock(w)]);
    RunTwo(s, ReadLock(v), ReadLock(w));
    var l := Step(Step(s, ReadLock(v)), ReadLock(w));
    RunTwo(l, WriteLock(v), WriteLock(w));
    BothLook(s, v, w, resource);
    BothWrite(l, v, w, resource);
    assert !DistinctTokens(Run(s, BothGrab(v, w)), v, w);
    LastIsStale(s, v, w);
  }

  lemma LastIsStale(s: System, v: string, w: string)
    requires StaleGrab(Step(Step(Step(s, ReadLock(v)), ReadLock(w)), WriteLock(v)), WriteLock(w))
    ensures !NeverStale(s, BothGrab(v, w))
  {
    var events := BothGrab(v, w);
    assert events[..3] == [ReadLock(v), ReadLock(w), WriteLock(v)] && events[3] == WriteLock(w);
    RunThree(s, ReadLock(v), ReadLock(w), WriteLock(v));
  }

  /** Then the older acquisition overwrites the newer one's tag: fencing does not tell them apart. */
  lemma OlderHolderOverwrites(s: System, v: string, w: string, resource: string, token: int, newTag: string,
                              oldTag: string)
    requires SharedToken(s, v, w, resource, token) && s.PhaseOf(v).Handling? && s.PhaseOf(w).Handling?
    requires resource in s.Current() ==> s.Current()[resource].token <= token
    ensures var u := Step(Step(s, Write(w, newTag)), Write(v, oldTag));
            resource in u.Current() && u.Current()[resource].tag == oldTag && u.Current()[resource].token == token
  {
    var one := Step(s, Write(w, newTag));
    CurrentSnoc(s, Fencing.Fenced(resource, newTag, token, s.now));
    CurrentSnoc(one, Fencing.Fenced(resource, oldTag, token, s.now));
  }

  // ------------------------------------------------------------------
  // A run in which it happens
  // ------------------------------------------------------------------

  /** Two jobs of one service, claimed by two workers. */
  const CLAIMED := [Submit(1, Deploy, "web", 3, 0), Submit(2, Deploy, "web", 3, 0)] + [Claim("A"), Claim("B")]

  const START := [RecordToken("A"), RecordToken("B")]

  const RACE := CLAIMED + BothGrab("A", "B") + START

  lemma TwoSubmitted()
    ensures var s := Run(Boot(10), [Submit(1, Deploy, "web", 3, 0), Submit(2, Deploy, "web", 3, 0)]);
            && s.jobs.Keys == {1, 2}
            && (forall id :: id in s.jobs ==> Jobs.Due(s.jobs[id], 0) && s.jobs[id].resourceId == "web")
            && s.locks == map[] && s.phases == map[] && s.writes == [] && s.now == 0
  {
    hide Run;
    RunTwo(Boot(10), Submit(1, Deploy, "web", 3, 0), Submit(2, Deploy, "web", 3, 0));
  }

  lemma TwoClaim(s: System)
    requires s.jobs.Keys == {1, 2}
    requires forall id :: id in s.jobs ==> Jobs.Due(s.jobs[id], 0) && s.jobs[id].resourceId == "web"
    requires s.phases == map[] && s.now == 0
    ensures var u := Run(s, [Claim("A"), Claim("B")]);
            && u.PhaseOf("A") == Claimed(1, "web") && u.PhaseOf("B") == Claimed(2, "web")
            && u.locks == s.locks && u.writes == s.writes && u.now == 0
  {
    hide Run, Step;
    RunTwo(s, Claim("A"), Claim("B"));
    Claims(s, "A", 1);
    Claims(Step(s, Claim("A")), "B", 2);
  }

  lemma BothClaim()
    ensures var s := Run(Boot(10), CLAIMED);
            && s.PhaseOf("A") == Claimed(1, "web") && s.PhaseOf("B") == Claimed(2, "web")
            && s.locks == map[] && s.writes == []
  {
    hide Run, Step;
    TwoSubmitted();
    RunConcat(Boot(10), [Submit(1, Deploy, "web", 3, 0), Submit(2, Deploy, "web", 3, 0)], [Claim("A"), Claim("B")]);
    TwoClaim(Run(Boot(10), [Submit(1, Deploy, "web", 3, 0), Submit(2, Deploy, "web", 3, 0)]));
  }

  /** The tag of the older acquisition stays, although the lock table names the newer one's holder. */
  lemma TwoProcessesDefeatFencing()
    ensures var s := Run(Boot(10), RACE);
            && SharedToken(s, "A", "B", "web", 1)
            && var u := Step(Step(s, Write("B", "v2")), Write("A", "v1"));
               "web" in u.Current() && u.Current()["web"].tag == "v1"
  {
    hide Run, Step;
    BothClaim();
    var c := Run(Boot(10), CLAIMED);
    TwoLooksShareAToken(c, "A", "B", "web");
    RunConcat(Boot(10), CLAIMED, BothGrab("A", "B"));
    RunConcat(Boot(10), CLAIMED + BothGrab("A", "B"), START);
    var g := Run(c, BothGrab("A", "B"));
    BothStart(g, "A", "B", "web", 1);
    GrabbingWritesNothing(c, "A", "B");
    RunTwo(g, RecordToken("A"), RecordToken("B"));
    OlderHolderOverwrites(Run(Boot(10), RACE), "A", "B", "web", 1, "v2", "v1");
  }

  lemma BothStart(s: System, v: string, w: string, resource: string, token: int)
    requires SharedToken(s, v, w, resource, token) && s.PhaseOf(v).Locked? && s.PhaseOf(w).Locked?
    ensures var u := Step(Step(s, RecordToken(v)), RecordToken(w));
            && SharedToken(u, v, w, resource, token) && u.PhaseOf(v).Handling? && u.PhaseOf(w).Handling?
            && u.writes == s.writes
  {
  }

  lemma GrabbingWritesNothing(s: System, v: string, w: string)
    ensures Run(s, BothGrab(v, w)).writes == s.writes
  {
    hide Run, Step;
    RunConcat(s, [ReadLock(v), ReadLock(w)], [WriteLock(v), WriteLock(w)]);
    RunTwo(s, ReadLock(v), ReadLock(w));
    var l := Step(Step(s, ReadLock(v)), ReadLock(w));
    RunTwo(l, WriteLock(v), WriteLock(w));
    LockingWritesNothing(s, v);
    LockingWritesNothing(Step(s, ReadLock(v)), w);
    LockingWritesNothing(l, v);
    LockingWritesNothing(Step(l, WriteLock(v)), w);
  }

  lemma LockingWritesNothing(s: System, w: string)
    ensures Step(s, ReadLock(w)).writes == s.writes && Step(s, WriteLock(w)).writes == s.writes
  {
  }
}
