/** Per-resource locks with fencing tokens, and the fenced write they protect (src/lib/lock.ts). */
module Locks {
  import opened Wrappers
  import opened Tables

  datatype Lock = Lock(resource: string, holder: string, token: int, expiresAt: int)

  // ------------------------------------------------------------------
  // What each call does to the `locks` table
  // ------------------------------------------------------------------

  function TokenOf(t: LockTable, resource: string): int {
    if resource in t then t[resource].token else 0
  }

  predicate Held(t: LockTable, resource: string, now: int) {
    resource in t && t[resource].expiresAt > now
  }

  predicate OwnedBy(t: LockTable, resource: string, holder: string, token: int) {
    resource in t && t[resource].holder == holder && t[resource].token == token
  }

  function Acquire(t: LockTable, resource: string, holder: string, ttlMs: int, now: int): (LockTable, Option<Lock>) {
    if Held(t, resource, now) then (t, None)
    else
      var token := TokenOf(t, resource) + 1;
      (t[resource := LockRow(holder, token, now + ttlMs)], Some(Lock(resource, holder, token, now + ttlMs)))
  }

  /** The SELECT of an acquisition: the token it goes on with, or nothing while the lock is held. */
  function Look(t: LockTable, resource: string, now: int): Option<int> {
    if Held(t, resource, now) then None else Some(TokenOf(t, resource))
  }

  /** The upsert of an acquisition that saw token `seen`. It has no guard. */
  function Grab(t: LockTable, resource: string, holder: string, seen: int, expiresAt: int): LockTable {
    t[resource := LockRow(holder, seen + 1, expiresAt)]
  }

  function Renew(t: LockTable, resource: string, holder: string, token: int, ttlMs: int, now: int): (LockTable, bool) {
    if OwnedBy(t, resource, holder, token) then (t[resource := t[resource].(expiresAt := now + ttlMs)], true)
    else (t, false)
  }

  function Release(t: LockTable, resource: string, holder: string): LockTable {
    if resource in t && t[resource].holder == holder then t[resource := t[resource].(expiresAt := 0)] else t
  }

  method AcquireLock(db: Database, resource: string, holder: string, ttlMs: int, now: int) returns (lock: Option<Lock>)
    modifies db`locks
    ensures (db.locks, lock) == Acquire(old(db.locks), resource, holder, ttlMs, now)
  {
    var known := 0;
    if resource in db.locks {
      var row := db.locks[resource];
      if row.expiresAt > now {
        return None; // still held by someone
      }
      known := row.token;
    }
    var token := known + 1;
    var expiresAt := now + ttlMs;
    db.locks := db.locks[resource := LockRow(holder, token, expiresAt)];
    lock := Some(Lock(resource, holder, token, expiresAt));
  }

  method RenewLock(db: Database, resource: string, holder: string, token: int, ttlMs: int, now: int)
    returns (renewed: bool)
    modifies db`locks
    ensures (db.locks, renewed) == Renew(old(db.locks), resource, holder, token, ttlMs, now)
  {
    renewed := false;
    if resource in db.locks {
      var row := db.locks[resource];
      if row.holder == holder && row.token == token {
        db.locks := db.locks[resource := row.(expiresAt := now + ttlMs)];
        renewed := true;
      }
    }
  }

  method ReleaseLock(db: Database, resource: string, holder: string)
    modifies db`locks
    ensures db.locks == Release(old(db.locks), resource, holder)
  {
    if resource in db.locks {
      var row := db.locks[resource];
      if row.holder == holder {
        db.locks := db.locks[resource := row.(expiresAt := 0)];
      }
    }
  }

  // ------------------------------------------------------------------
  // Whole runs: any sequence of calls, by any holders, on any resources
  // ------------------------------------------------------------------

  datatype Call =
    | AcquireCall(resource: string, holder: string, ttlMs: int, now: int)
    | RenewCall(resource: string, holder: string, token: int, ttlMs: int, now: int)
    | ReleaseCall(resource: string, holder: string)

  function Apply(t: LockTable, c: Call): LockTable {
    match c
    case AcquireCall(r, h, ttl, now) => Acquire(t, r, h, ttl, now).0
    case RenewCall(r, h, token, ttl, now) => Renew(t, r, h, token, ttl, now).0
    case ReleaseCall(r, h) => Release(t, r, h)
  }

  /** The table after a run. */
  function After(t: LockTable, calls: seq<Call>): LockTable {
    if calls == [] then t else Apply(After(t, calls[..|calls| - 1]), calls[|calls| - 1])
  }

  /** Call `i` is an acquisition that succeeded. */
  predicate Granted(t: LockTable, calls: seq<Call>, i: nat)
    requires i < |calls|
  {
    calls[i].AcquireCall? && !Held(After(t, calls[..i]), calls[i].resource, calls[i].now)
  }

  /** The token call `i` was given. */
  function GrantToken(t: LockTable, calls: seq<Call>, i: nat): (token: int)
    requires i < |calls| && Granted(t, calls, i)
  {
    Acquire(After(t, calls[..i]), calls[i].resource, calls[i].holder, calls[i].ttlMs, calls[i].now).1.value.token
  }

  /** How many acquisitions of `resource` succeeded in a run. */
  function Grants(t: LockTable, calls: seq<Call>, resource: string): nat {
    if calls == [] then 0
    else
      Grants(t, calls[..|calls| - 1], resource)
      + if Granted(t, calls, |calls| - 1) && calls[|calls| - 1].resource == resource then 1 else 0
  }

  /** The (holder, token) of the last successful acquisition of `resource` in a run. */
  function LastGrant(t: LockTable, calls: seq<Call>, resource: string): Option<(string, int)> {
    if calls == [] then None
    else
      var i := |calls| - 1;
      if Granted(t, calls, i) && calls[i].resource == resource then Some((calls[i].holder, GrantToken(t, calls, i)))
      else LastGrant(t, calls[..i], resource)
  }

  /** The stored token counts the acquisitions: releases, expiries and renewals never touch it. */
  lemma {:induction false} TokenCountsGrants(t: LockTable, calls: seq<Call>, resource: string)
    ensures TokenOf(After(t, calls), resource) == TokenOf(t, resource) + Grants(t, calls, resource)
  {
    if calls != [] {
      TokenCountsGrants(t, calls[..|calls| - 1], resource);
    }
  }

  lemma {:induction false} GrantsGrow(t: LockTable, calls: seq<Call>, i: nat, resource: string)
    requires i <= |calls|
    ensures Grants(t, calls[..i], resource) <= Grants(t, calls, resource)
    decreases |calls|
  {
    if i < |calls| {
      assert calls[..|calls| - 1][..i] == calls[..i];
      GrantsGrow(t, calls[..|calls| - 1], i, resource);
    } else {
      assert calls[..i] == calls;
    }
  }

  /** Tokens strictly increase across acquisitions of a resource, through release and expiry. */
  lemma {:induction false} TokensStrictlyIncrease(t: LockTable, calls: seq<Call>, i: nat, j: nat)
    requires i < j < |calls| && Granted(t, calls, i) && Granted(t, calls, j)
    requires calls[i].resource == calls[j].resource
    ensures GrantToken(t, calls, i) < GrantToken(t, calls, j)
  {
    var r := calls[i].resource;
    TokenCountsGrants(t, calls[..i], r);
    TokenCountsGrants(t, calls[..j], r);
    var upTo := calls[..i + 1];
    assert upTo[..i] == calls[..i] && upTo[i] == calls[i];
    assert Granted(t, upTo, i);
    assert Grants(t, upTo, r) == Grants(t, calls[..i], r) + 1;
    assert calls[..j][..i + 1] == upTo;
    GrantsGrow(t, calls[..j], i + 1, r);
  }

  // ------------------------------------------------------------------
  // Mutual exclusion
  // ------------------------------------------------------------------

  predicate Timed(c: Call) { !c.ReleaseCall? }

  /** The clock never runs backwards along a run. */
  predicate MonotoneClock(calls: seq<Call>) {
    forall a, b :: 0 <= a < b < |calls| && Timed(calls[a]) && Timed(calls[b]) ==> calls[a].now <= calls[b].now
  }

  /** Call `i` gave its holder the resource until `expiry`, by acquiring or by renewing. */
  predicate GivesUntil(t: LockTable, calls: seq<Call>, i: nat, expiry: int)
    requires i < |calls|
  {
    Timed(calls[i]) && expiry == calls[i].now + calls[i].ttlMs
    && (calls[i].RenewCall? ==>
          OwnedBy(After(t, calls[..i]), calls[i].resource, calls[i].holder, calls[i].token))
    && (calls[i].AcquireCall? ==> Granted(t, calls, i))
  }

  /** The holder itself neither releases nor renews to an earlier expiry after call `i`. */
  predicate Keeps(calls: seq<Call>, i: nat, expiry: int)
    requires i < |calls|
  {
    forall k :: i < k < |calls| && calls[k].resource == calls[i].resource && calls[k].holder == calls[i].holder ==>
      !calls[k].ReleaseCall?
      && (calls[k].RenewCall? ==> expiry <= calls[k].now + calls[k].ttlMs)
  }

  /** With one TTL and a monotone clock no renewal shortens a lease. */
  lemma OneTtlKeeps(calls: seq<Call>, i: nat, ttlMs: int)
    requires i < |calls| && Timed(calls[i]) && MonotoneClock(calls)
    requires forall k :: 0 <= k < |calls| && Timed(calls[k]) ==> calls[k].ttlMs == ttlMs
    requires forall k :: i < k < |calls| && calls[k].ReleaseCall? && calls[k].resource == calls[i].resource
               ==> calls[k].holder != calls[i].holder
    ensures Keeps(calls, i, calls[i].now + calls[i].ttlMs)
  {
  }

  predicate OwnedUntil(t: LockTable, resource: string, holder: string, expiry: int) {
    resource in t && t[resource].holder == holder && t[resource].expiresAt >= expiry
  }

  lemma OwnerStays(t: LockTable, c: Call, resource: string, holder: string, expiry: int)
    requires OwnedUntil(t, resource, holder, expiry) && (Timed(c) ==> c.now < expiry)
    requires c.resource == resource && c.holder == holder ==>
               !c.ReleaseCall? && (c.RenewCall? ==> expiry <= c.now + c.ttlMs)
    ensures OwnedUntil(Apply(t, c), resource, holder, expiry)
  {
  }

  lemma {:induction false} StaysOwned(t: LockTable, calls: seq<Call>, i: nat, expiry: int)
    requires i < |calls| && GivesUntil(t, calls, i, expiry) && Keeps(calls, i, expiry)
    requires forall k :: i < k < |calls| && Timed(calls[k]) ==> calls[k].now < expiry
    ensures OwnedUntil(After(t, calls), calls[i].resource, calls[i].holder, expiry)
    decreases |calls|
  {
    var n := |calls| - 1;
    if i < n {
      var before := calls[..n];
      assert before[i] == calls[i] && before[..i] == calls[..i];
      StaysOwned(t, before, i, expiry);
      OwnerStays(After(t, before), calls[n], calls[i].resource, calls[i].holder, expiry);
    }
  }

  /** Once a call grants a holder expiry `e`, no acquisition of the resource succeeds before `e`,
      unless that holder releases it or cuts its own lease short. */
  lemma {:induction false} NoAcquisitionBeforeExpiry(t: LockTable, calls: seq<Call>, i: nat, j: nat, expiry: int)
    requires i < j < |calls| && MonotoneClock(calls)
    requires GivesUntil(t, calls, i, expiry) && Keeps(calls[..j], i, expiry)
    requires calls[j].AcquireCall? && calls[j].resource == calls[i].resource && calls[j].now < expiry
    ensures !Granted(t, calls, j)
  {
    var before := calls[..j];
    assert before[i] == calls[i] && before[..i] == calls[..i];
    StaysOwned(t, before, i, expiry);
  }

  /** A renewal succeeds exactly when the caller made the most recent successful acquisition,
      released or not, expired or not. */
  lemma {:induction false} RenewIffLatestGrant(
      calls: seq<Call>, resource: string, holder: string, token: int, ttlMs: int, now: int)
    ensures Renew(After(map[], calls), resource, holder, token, ttlMs, now).1
            <==> LastGrant(map[], calls, resource) == Some((holder, token))
  {
    RowMatchesLastGrant(calls, resource);
  }

  lemma {:induction false} RowMatchesLastGrant(calls: seq<Call>, resource: string)
    ensures var end := After(map[], calls);
            LastGrant(map[], calls, resource)
            == if resource in end then Some((end[resource].holder, end[resource].token)) else None
  {
    if calls != [] {
      RowMatchesLastGrant(calls[..|calls| - 1], resource);
    }
  }

  /** The comment at src/lib/lock.ts:55 says a renewal after a release fails. It succeeds. */
  lemma ReleasedLockCanBeRenewed()
    ensures var calls := [AcquireCall("job:web", "A", 10, 0), ReleaseCall("job:web", "A")];
            Renew(After(map[], calls), "job:web", "A", 1, 10, 1).1
  {
    var first := [AcquireCall("job:web", "A", 10, 0)];
    var calls := [AcquireCall("job:web", "A", 10, 0), ReleaseCall("job:web", "A")];
    assert first[..0] == [] && calls[..1] == first;
    assert After(map[], first) == map["job:web" := LockRow("A", 1, 10)];
  }
}
