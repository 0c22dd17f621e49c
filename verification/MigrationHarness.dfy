/** `applyMigrations` as one process executes it with no peer in between (src/lib/migrations.ts). */
module MigrationHarness {
  import opened Wrappers
  import opened Text
  import opened Migrations
  import Sets

  function StepsLeft(p: Proc, ms: seq<Prepared>): nat {
    match p
    case Fresh => |ms| + 2
    case Applying(_, next, _) => if next <= |ms| then |ms| - next + 1 else 1
    case _ => 0
  }

  /** Whether the SQL of the migration at hand would run. */
  function SqlRuns(p: Proc, ms: seq<Prepared>, ok: string -> bool): bool {
    p.Applying? && p.next < |ms| && ok(ms[p.next].version)
  }

  /** Steps of one process until it is over. */
  function RunAlone(db: Db, p: Proc, ms: seq<Prepared>, binaryVersion: int, ok: string -> bool): (Db, Proc)
    decreases StepsLeft(p, ms)
  {
    if Over(p) then (db, p)
    else
      var (d, q) := ProcStep(db, p, ms, binaryVersion, SqlRuns(p, ms, ok));
      if StepsLeft(q, ms) < StepsLeft(p, ms) then RunAlone(d, q, ms, binaryVersion, ok) else assert false; (d, q)
  }

  datatype MigrationResult = MigrationResult(applied: seq<string>, currentVersion: Option<string>)

  lemma {:induction false} GreatestVersionExists(versions: set<string>)
    requires versions != {}
    ensures exists v :: v in versions && forall w :: w in versions ==> !Less(v, w)
  {
    var x := Sets.Member(versions);
    if versions == {x} {
      LessIsTotal(x, x);
      assert x in versions && forall w :: w in versions ==> !Less(x, w);
    } else {
      var rest := versions - {x};
      assert versions == rest + {x};
      GreatestVersionExists(rest);
      var v :| v in rest && forall w :: w in rest ==> !Less(v, w);
      LessIsTotal(v, x);
      LessIsTotal(x, x);
      if Less(v, x) {
        forall w | w in versions ensures !Less(x, w) {
          if Less(x, w) && w in rest { LessIsTransitive(v, x, w); }
        }
        assert x in versions;
      } else {
        assert v in versions && forall w :: w in versions ==> !Less(v, w);
      }
    }
  }

  class MigrationDatabase {
    var versions: map<string, string>
    var schema: seq<Prepared>

    constructor (versions: map<string, string>)
      ensures this.versions == versions && schema == []
    {
      this.versions, schema := versions, [];
    }

    function Contents(): Db
      reads this
    {
      Db(versions, schema)
    }

    /** Migration `i`: skipped when the snapshot knows it, otherwise re-checked and executed under the write
        lock. An error leaves the tables as they were. */
    method ApplyOne(ghost ms: seq<Prepared>, ghost i: nat, m: Prepared, applied: map<string, string>, ran: seq<string>,
                    ok: string -> bool)
      returns (r: Result<(map<string, string>, seq<string>), MigrationError>)
      requires i < |ms| && ms[i] == m
      modifies this
      ensures var (db, p) := ProcStep(old(Contents()), Applying(applied, i, ran), ms, 0, ok(m.version));
              && Contents() == db
              && (r.Ok? || r.Err?)
              && (r.Err? ==> p == Aborted(r.error))
              && (r.Ok? ==> p == Applying(r.value.0, i + 1, r.value.1))
    {
      if m.version in applied {
        if applied[m.version] != m.sha256 {
          return Err(ChecksumMismatch(m.version));
        }
        return Ok((applied, ran));
      }
      // BEGIN IMMEDIATE: re-check under the write lock.
      if m.version in versions {
        if versions[m.version] != m.sha256 {
          return Err(ChecksumMismatch(m.version));
        }
        return Ok((applied[m.version := versions[m.version]], ran));
      }
      if !ok(m.version) {
        return Err(MigrationFailed(m.version)); // rolled back
      }
      schema := schema + [m];
      versions := versions[m.version := m.sha256];
      r := Ok((applied, ran + [m.version]));
    }

    /** The greatest version in the table. */
    method CurrentVersion() returns (current: Option<string>)
      ensures current.None? <==> versions == map[]
      ensures current.Some? ==>
                current.value in versions && forall w :: w in versions ==> !Less(current.value, w)
    {
      current := None;
      if versions != map[] {
        GreatestVersionExists(versions.Keys);
        var v :| v in versions.Keys && forall w :: w in versions.Keys ==> !Less(v, w);
        current := Some(v);
      }
    }

    /** `ok` says which migrations' SQL the database accepts. */
    method ApplyMigrations(source: seq<RawMigration>, sha: string -> string, binaryVersion: int, ok: string -> bool)
      returns (r: Result<MigrationResult, MigrationError>)
      modifies this
      ensures var (db, p) := RunAlone(old(Contents()), Fresh, Prepare(source, sha), binaryVersion, ok);
              && Contents() == db
              && (r.Ok? <==> p.Finished?)
              && (p.Finished? ==> r.Ok? && r.value.applied == p.ran)
              && (p.Aborted? ==> r == Err(p.error))
      ensures r.Ok? ==> (r.value.currentVersion.None? <==> versions == map[])
      ensures r.Ok? && r.value.currentVersion.Some? ==>
                var v := r.value.currentVersion.value; v in versions && forall w :: w in versions ==> !Less(v, w)
    {
      if binaryVersion < 0 || exists v :: v in versions && binaryVersion < NumericVersion(v) {
        return Err(Downgrade);
      }
      var ms := Prepare(source, sha);
      assert RunAlone(Contents(), Fresh, ms, binaryVersion, ok)
          == RunAlone(Contents(), Applying(versions, 0, []), ms, binaryVersion, ok);
      var ran := ApplyAll(ms, binaryVersion, ok);
      if ran.Err? {
        return Err(ran.error);
      }
      var current := CurrentVersion();
      r := Ok(MigrationResult(ran.value, current));
    }

    /** The loop over the prepared migrations, from a fresh snapshot. */
    method ApplyAll(ms: seq<Prepared>, binaryVersion: int, ok: string -> bool)
      returns (r: Result<seq<string>, MigrationError>)
      modifies this
      ensures r.Ok? || r.Err?
      ensures RunAlone(old(Contents()), Applying(old(versions), 0, []), ms, binaryVersion, ok)
           == (Contents(), if r.Ok? then Finished(r.value) else Aborted(r.error))
    {
      var applied := versions;
      var ran: seq<string> := [];
      var i := 0;
      while i < |ms|
        invariant 0 <= i <= |ms|
        invariant RunAlone(old(Contents()), Applying(old(versions), 0, []), ms, binaryVersion, ok)
               == RunAlone(Contents(), Applying(applied, i, ran), ms, binaryVersion, ok)
      {
        AloneStep(Contents(), Applying(applied, i, ran), ms, binaryVersion, ok);
        var one := ApplyOne(ms, i, ms[i], applied, ran, ok);
        if one.Err? {
          return Err(one.error);
        }
        applied, ran := one.value.0, one.value.1;
        i := i + 1;
      }
      r := Ok(ran);
    }
  }

  lemma AloneStep(db: Db, p: Proc, ms: seq<Prepared>, binaryVersion: int, ok: string -> bool)
    requires p.Applying? && p.next < |ms|
    ensures var (d, q) := ProcStep(db, p, ms, 0, ok(ms[p.next].version));
            RunAlone(db, p, ms, binaryVersion, ok)
            == if q.Aborted? then (d, q) else RunAlone(d, q, ms, binaryVersion, ok)
  {
  }

  /** Running alone is an interleaving with one process, so everything proved of interleavings holds. */
  lemma {:induction false} AloneIsAnInterleaving(s: System, pid: string, ms: seq<Prepared>, binaryVersion: int,
                                                 ok: string -> bool)
    returns (events: seq<Event>)
    ensures var (db, p) := RunAlone(s.db, s.ProcOf(pid), ms, binaryVersion, ok);
            var end := Run(s, ms, events);
            end.db == db && end.ProcOf(pid) == p
    decreases StepsLeft(s.ProcOf(pid), ms)
  {
    var p := s.ProcOf(pid);
    if Over(p) {
      return [];
    }
    var e := Event(pid, binaryVersion, SqlRuns(p, ms, ok));
    var more := AloneIsAnInterleaving(Step(s, ms, e), pid, ms, binaryVersion, ok);
    events := [e] + more;
    RunCons(s, ms, e, more);
  }

  lemma {:induction false} RunCons(s: System, ms: seq<Prepared>, e: Event, more: seq<Event>)
    ensures Run(s, ms, [e] + more) == Run(Step(s, ms, e), ms, more)
    decreases |more|
  {
    var all := [e] + more;
    if more == [] {
      assert all[..0] == [] && all[0] == e;
    } else {
      RunCons(s, ms, e, more[..|more| - 1]);
      assert all[..|all| - 1] == [e] + more[..|more| - 1];
    }
  }

  /** What the database agrees to take: known migrations unchanged, unknown ones with SQL that runs. */
  predicate Acceptable(ms: seq<Prepared>, versions: map<string, string>, ok: string -> bool, from: nat) {
    forall j :: from <= j < |ms| ==>
      if ms[j].version in versions then versions[ms[j].version] == ms[j].sha256 else ok(ms[j].version)
  }

  lemma {:induction false} AloneOutcomeFrom(db: Db, p: Proc, ms: seq<Prepared>, binaryVersion: int, ok: string -> bool)
    requires DistinctVersions(ms) && p.Applying? && p.next <= |ms|
    requires forall j :: p.next <= j < |ms| ==>
               (ms[j].version in db.versions <==> ms[j].version in p.applied)
               && (ms[j].version in p.applied ==> db.versions[ms[j].version] == p.applied[ms[j].version])
    ensures RunAlone(db, p, ms, binaryVersion, ok).1.Finished? <==> Acceptable(ms, db.versions, ok, p.next)
    decreases |ms| - p.next
  {
    if p.next < |ms| {
      var m := ms[p.next];
      var (d, q) := ProcStep(db, p, ms, binaryVersion, SqlRuns(p, ms, ok));
      if q.Applying? {
        AloneOutcomeFrom(d, q, ms, binaryVersion, ok);
        assert forall j :: q.next <= j < |ms| ==> ms[j].version != m.version;
      }
    }
  }

  /** A process with no peer succeeds exactly when the binary is not older than the schema, every migration
      already applied is unchanged, and the SQL of every pending one runs. */
  lemma AloneSucceedsIff(db: Db, ms: seq<Prepared>, binaryVersion: int, ok: string -> bool)
    requires DistinctVersions(ms)
    ensures RunAlone(db, Fresh, ms, binaryVersion, ok).1.Finished?
            <==> !IsDowngrade(binaryVersion, db.versions) && Acceptable(ms, db.versions, ok, 0)
  {
    if !IsDowngrade(binaryVersion, db.versions) {
      AloneOutcomeFrom(db, Applying(db.versions, 0, []), ms, binaryVersion, ok);
    }
  }

  /** The database accepts every migration before `i`, and refuses the one there, if there is one. */
  predicate StopsAt(ms: seq<Prepared>, versions: map<string, string>, ok: string -> bool, i: nat) {
    && i <= |ms|
    && (forall j :: 0 <= j < i ==> Accepted(ms[j], versions, ok))
    && (i < |ms| ==> !Accepted(ms[i], versions, ok))
  }

  predicate Accepted(m: Prepared, versions: map<string, string>, ok: string -> bool) {
    if m.version in versions then versions[m.version] == m.sha256 else ok(m.version)
  }

  function VersionsOf(ms: seq<Prepared>): seq<string> {
    if ms == [] then [] else VersionsOf(ms[..|ms| - 1]) + [ms[|ms| - 1].version]
  }

  /** How a process with no peer ends: with every migration it had not met before executed and reported, in order; or
      at the first one that was changed after it was applied, or whose SQL fails, which is named, with the database
      up to it. An older binary touches nothing. */
  lemma AloneOutcome(db: Db, ms: seq<Prepared>, binaryVersion: int, ok: string -> bool, i: nat)
    requires DistinctVersions(ms) && StopsAt(ms, db.versions, ok, i)
    ensures var (d, p) := RunAlone(db, Fresh, ms, binaryVersion, ok);
            if IsDowngrade(binaryVersion, db.versions) then d == db && p == Aborted(Downgrade)
            else
              && UpTo(d, db, ms, i)
              && p == if i == |ms| then Finished(VersionsOf(Pending(ms, db.versions)))
                      else if ms[i].version in db.versions then Aborted(ChecksumMismatch(ms[i].version))
                      else Aborted(MigrationFailed(ms[i].version))
  {
    if !IsDowngrade(binaryVersion, db.versions) {
      assert ms[..0] == [] && Pending([], db.versions) == [] && VersionsOf([]) == [];
      assert db.schema + [] == db.schema;
      AloneGoesOn(db, db, ms, 0, binaryVersion, ok, i);
    }
  }

  lemma {:induction false} AloneGoesOn(base: Db, db: Db, ms: seq<Prepared>, k: nat, binaryVersion: int,
                                       ok: string -> bool, i: nat)
    requires DistinctVersions(ms) && StopsAt(ms, base.versions, ok, i) && k <= i
    requires UpTo(db, base, ms, k) && Recorded(db, ms, k)
    ensures var (d, q) := RunAlone(db, At(base, ms, k), ms, binaryVersion, ok);
            && UpTo(d, base, ms, i)
            && q == if i == |ms| then Finished(VersionsOf(Pending(ms, base.versions)))
                    else if ms[i].version in base.versions then Aborted(ChecksumMismatch(ms[i].version))
                    else Aborted(MigrationFailed(ms[i].version))
    decreases i - k
  {
    if k == |ms| {
      assert ms[..k] == ms;
    } else {
      AloneStep(db, At(base, ms, k), ms, binaryVersion, ok);
      if k < i { AcceptedStep(base, db, ms, k, ok); } else { RefusedStep(base, db, ms, k, ok); }
      hide UpTo, Recorded, DistinctVersions, Pending, ProcStep, RunAlone, VersionsOf;
      if k < i {
        var (d, q) := ProcStep(db, At(base, ms, k), ms, 0, ok(ms[k].version));
        AloneGoesOn(base, d, ms, k + 1, binaryVersion, ok, i);
      }
    }
  }

  lemma RefusedStep(base: Db, db: Db, ms: seq<Prepared>, k: nat, ok: string -> bool)
    requires DistinctVersions(ms) && k < |ms| && !Accepted(ms[k], base.versions, ok) && UpTo(db, base, ms, k)
    ensures ProcStep(db, At(base, ms, k), ms, 0, ok(ms[k].version))
         == (db, Aborted(if ms[k].version in base.versions then ChecksumMismatch(ms[k].version)
                         else MigrationFailed(ms[k].version)))
  {
    VersionsUpTo(db, base, ms, k, ms[k].version);
    hide UpTo, VersionsOf, Pending;
  }

  /** A process that has come to migration `k` and executed all it had not met before. */
  function At(base: Db, ms: seq<Prepared>, k: nat): Proc
    requires k <= |ms|
  {
    Applying(base.versions, k, VersionsOf(Pending(ms[..k], base.versions)))
  }

  lemma AcceptedStep(base: Db, db: Db, ms: seq<Prepared>, k: nat, ok: string -> bool)
    requires DistinctVersions(ms) && k < |ms| && Accepted(ms[k], base.versions, ok)
    requires UpTo(db, base, ms, k) && Recorded(db, ms, k)
    ensures var (d, q) := ProcStep(db, At(base, ms, k), ms, 0, ok(ms[k].version));
            q == At(base, ms, k + 1) && UpTo(d, base, ms, k + 1) && Recorded(d, ms, k + 1)
  {
    if ms[k].version in base.versions { KnownStep(base, db, ms, k, ok); } else { NewStep(base, db, ms, k, ok); }
    hide UpTo, Recorded, Pending, VersionsOf, ProcStep, DistinctVersions;
  }

  lemma KnownStep(base: Db, db: Db, ms: seq<Prepared>, k: nat, ok: string -> bool)
    requires k < |ms| && ms[k].version in base.versions && base.versions[ms[k].version] == ms[k].sha256
    requires UpTo(db, base, ms, k) && Recorded(db, ms, k)
    ensures ProcStep(db, At(base, ms, k), ms, 0, ok(ms[k].version)) == (db, At(base, ms, k + 1))
    ensures UpTo(db, base, ms, k + 1) && Recorded(db, ms, k + 1)
  {
    PendingSkips(ms, base.versions, k, k + 1);
    StillThere(db, base, ms, k, ms[k].version);
    hide Pending, VersionsOf, Record;
  }

  lemma NewStep(base: Db, db: Db, ms: seq<Prepared>, k: nat, ok: string -> bool)
    requires DistinctVersions(ms) && k < |ms| && ms[k].version !in base.versions && ok(ms[k].version)
    requires UpTo(db, base, ms, k) && Recorded(db, ms, k)
    ensures var d := Db(db.versions[ms[k].version := ms[k].sha256], db.schema + [ms[k]]);
            && ProcStep(db, At(base, ms, k), ms, 0, ok(ms[k].version)) == (d, At(base, ms, k + 1))
            && UpTo(d, base, ms, k + 1) && Recorded(d, ms, k + 1)
  {
    VersionsUpTo(db, base, ms, k, ms[k].version);
    assert ms[k].version !in db.versions;
    ExecuteAdvances(db, base, ms, k, k);
    PendingExtends(ms, base.versions, k);
    VersionsSnoc(Pending(ms[..k], base.versions), ms[k]);
    ExecutedIsRecorded(db, ms, k);
    hide Pending, VersionsOf, UpTo, Recorded;
  }

  lemma ExecutedIsRecorded(db: Db, ms: seq<Prepared>, k: nat)
    requires k < |ms| && Recorded(db, ms, k)
    ensures Recorded(Db(db.versions[ms[k].version := ms[k].sha256], db.schema + [ms[k]]), ms, k + 1)
       <==> forall j :: 0 <= j < k ==> ms[j].version != ms[k].version || ms[j].sha256 == ms[k].sha256
  {
  }

  lemma VersionsSnoc(ms: seq<Prepared>, m: Prepared)
    ensures VersionsOf(ms + [m]) == VersionsOf(ms) + [m.version]
  {
    assert (ms + [m])[..|ms|] == ms;
  }

  /** What the database had recorded stays under its checksum. */
  lemma StillThere(db: Db, base: Db, ms: seq<Prepared>, n: nat, v: string)
    requires UpTo(db, base, ms, n) && v in base.versions
    ensures v in db.versions && db.versions[v] == base.versions[v]
  {
    PendingMembers(ms[..n], base.versions);
    RecordKeeps(base.versions, Pending(ms[..n], base.versions), v);
  }

  lemma {:induction false} RecordKeeps(versions: map<string, string>, ms: seq<Prepared>, v: string)
    requires v in versions && forall m :: m in ms ==> m.version != v
    ensures v in Record(versions, ms) && Record(versions, ms)[v] == versions[v]
  {
    if ms != [] {
      assert ms[|ms| - 1] in ms;
      RecordKeeps(versions, ms[..|ms| - 1], v);
    }
  }

  lemma {:induction false} NothingLeftToRun(db: Db, i: nat, ms: seq<Prepared>, binaryVersion: int, ok: string -> bool)
    requires i <= |ms| && Recorded(db, ms, |ms|)
    ensures RunAlone(db, Applying(db.versions, i, []), ms, binaryVersion, ok) == (db, Finished([]))
    decreases |ms| - i
  {
    if i < |ms| { NothingLeftToRun(db, i + 1, ms, binaryVersion, ok); }
  }

  /** After any process has finished, running the harness again applies nothing and succeeds, unless the
      binary is older than the schema. */
  lemma RerunAppliesNothing(base: Db, ms: seq<Prepared>, events: seq<Event>, pid: string, binaryVersion: int,
                            ok: string -> bool)
    requires DistinctVersions(ms)
    requires Run(System(base, map[]), ms, events).ProcOf(pid).Finished?
    requires !IsDowngrade(binaryVersion, Run(System(base, map[]), ms, events).db.versions)
    ensures var db := Run(System(base, map[]), ms, events).db;
            RunAlone(db, Fresh, ms, binaryVersion, ok) == (db, Finished([]))
  {
    FinishedMeansAllExecutedOnce(base, ms, events, pid);
    NothingLeftToRun(Run(System(base, map[]), ms, events).db, 0, ms, binaryVersion, ok);
  }
}
