/** The migration harness with peers (src/lib/migrations.ts). Any number of processes apply the same
    migrations to one database; the snapshot read and each `BEGIN IMMEDIATE` transaction are single steps. */
module Migrations {
  import opened Text

  datatype RawMigration = RawMigration(version: string, sql: string)

  datatype Prepared = Prepared(version: string, sql: string, sha256: string)

  datatype MigrationError =
    | Downgrade
    | ChecksumMismatch(version: string)
    | MigrationFailed(version: string)

  // ------------------------------------------------------------------
  // prepare
  // ------------------------------------------------------------------

  function InsertByVersion(m: Prepared, ms: seq<Prepared>): (r: seq<Prepared>)
    ensures multiset(r) == multiset(ms) + multiset{m}
  {
    if ms == [] then [m]
    else if Less(m.version, ms[0].version) then
      assert [m] + ms == [m] + ms;
      [m] + ms
    else
      assert ms == [ms[0]] + ms[1..];
      [ms[0]] + InsertByVersion(m, ms[1..])
  }

  predicate Ordered(ms: seq<Prepared>) {
    forall i, j :: 0 <= i < j < |ms| ==> !Less(ms[j].version, ms[i].version)
  }

  lemma {:induction false} InsertKeepsOrder(m: Prepared, ms: seq<Prepared>)
    requires Ordered(ms)
    ensures Ordered(InsertByVersion(m, ms))
  {
    if ms == [] {
    } else if Less(m.version, ms[0].version) {
      forall j | 0 <= j < |ms| ensures !Less(ms[j].version, m.version) {
        LessIsTotal(ms[j].version, m.version);
        if Less(ms[j].version, m.version) {
          LessIsTransitive(ms[j].version, m.version, ms[0].version);
          LessIsTotal(ms[0].version, ms[0].version);
        }
      }
    } else {
      InsertKeepsOrder(m, ms[1..]);
      var rest := InsertByVersion(m, ms[1..]);
      forall j | 0 <= j < |rest| ensures !Less(rest[j].version, ms[0].version) {
        assert rest[j] in multiset(rest);
        if rest[j] != m {
          assert rest[j] in multiset(ms[1..]);
          var k :| 0 <= k < |ms[1..]| && ms[1..][k] == rest[j];
          assert ms[k + 1] == rest[j];
        }
      }
    }
  }

  function Prepare1(m: RawMigration, sha: string -> string): Prepared {
    Prepared(m.version, m.sql, sha(m.sql))
  }

  /** Sort by version, equal versions in source order. */
  function Prepare(source: seq<RawMigration>, sha: string -> string): seq<Prepared> {
    if source == [] then []
    else InsertByVersion(Prepare1(source[|source| - 1], sha), Prepare(source[..|source| - 1], sha))
  }

  function Digested(source: seq<RawMigration>, sha: string -> string): (r: seq<Prepared>)
    ensures |r| == |source| && forall i :: 0 <= i < |r| ==> r[i] == Prepare1(source[i], sha)
  {
    seq(|source|, i requires 0 <= i < |source| => Prepare1(source[i], sha))
  }

  lemma DigestedSnoc(source: seq<RawMigration>, sha: string -> string)
    requires source != []
    ensures multiset(Digested(source, sha))
         == multiset(Digested(source[..|source| - 1], sha)) + multiset{Prepare1(source[|source| - 1], sha)}
  {
    var n := |source| - 1;
    assert Digested(source, sha) == Digested(source[..n], sha) + [Prepare1(source[n], sha)];
  }

  /** Preparing digests every migration and orders them by version. */
  lemma {:induction false} PrepareSorts(source: seq<RawMigration>, sha: string -> string)
    ensures Ordered(Prepare(source, sha))
    ensures multiset(Prepare(source, sha)) == multiset(Digested(source, sha))
  {
    if source != [] {
      var n := |source| - 1;
      PrepareSorts(source[..n], sha);
      DigestedSnoc(source, sha);
      Inserted(source[n], Prepare(source[..n], sha), sha);
    }
  }

  lemma Inserted(m: RawMigration, ms: seq<Prepared>, sha: string -> string)
    requires Ordered(ms)
    ensures var r := InsertByVersion(Prepare1(m, sha), ms);
            Ordered(r) && multiset(r) == multiset(ms) + multiset{Prepare1(m, sha)}
  {
    InsertKeepsOrder(Prepare1(m, sha), ms);
  }

  // ------------------------------------------------------------------
  // Version numbers
  // ------------------------------------------------------------------

  function LeadingDigits(s: string): (r: string)
    ensures AllDigits(r)
  {
    if s != "" && IsDigit(s[0]) then [s[0]] + LeadingDigits(s[1..]) else ""
  }

  /** `parseInt(version, 10)`, with NaN as 0. */
  function NumericVersion(version: string): int {
    var t := TrimStart(version);
    if t != "" && t[0] == '-' then 0 - Value(LeadingDigits(t[1..]))
    else if t != "" && t[0] == '+' then Value(LeadingDigits(t[1..]))
    else Value(LeadingDigits(t))
  }

  predicate IsDowngrade(binaryVersion: int, versions: map<string, string>) {
    binaryVersion < 0 || exists v :: v in versions && binaryVersion < NumericVersion(v)
  }

  // ------------------------------------------------------------------
  // One process
  // ------------------------------------------------------------------

  /** `versions` is the table `schema_versions`; `schema` is every migration executed, in order. */
  datatype Db = Db(versions: map<string, string>, schema: seq<Prepared>)

  datatype Proc =
    | Fresh
    | Applying(applied: map<string, string>, next: nat, ran: seq<string>)
    | Finished(ran: seq<string>)
    | Aborted(error: MigrationError)

  predicate Over(p: Proc) { p.Finished? || p.Aborted? }

  function ReadSnapshot(db: Db, binaryVersion: int): Proc {
    if IsDowngrade(binaryVersion, db.versions) then Aborted(Downgrade) else Applying(db.versions, 0, [])
  }

  /** The transaction for a migration the snapshot does not know; `sqlOk` says whether its SQL runs. */
  function Transact(db: Db, p: Proc, m: Prepared, sqlOk: bool): (Db, Proc)
    requires p.Applying?
  {
    if m.version in db.versions then
      if db.versions[m.version] != m.sha256 then (db, Aborted(ChecksumMismatch(m.version)))
      else (db, Applying(p.applied[m.version := m.sha256], p.next + 1, p.ran))
    else if !sqlOk then (db, Aborted(MigrationFailed(m.version)))
    else (Db(db.versions[m.version := m.sha256], db.schema + [m]), Applying(p.applied, p.next + 1, p.ran + [m.version]))
  }

  function ProcStep(db: Db, p: Proc, ms: seq<Prepared>, binaryVersion: int, sqlOk: bool): (Db, Proc) {
    match p
    case Fresh => (db, ReadSnapshot(db, binaryVersion))
    case Applying(applied, next, ran) =>
      if next >= |ms| then (db, Finished(ran))
      else
        var m := ms[next];
        if m.version in applied then
          (db, if applied[m.version] != m.sha256 then Aborted(ChecksumMismatch(m.version))
               else Applying(applied, next + 1, ran))
        else Transact(db, p, m, sqlOk)
    case Finished(_) => (db, p)
    case Aborted(_) => (db, p)
  }

  // ------------------------------------------------------------------
  // Many processes
  // ------------------------------------------------------------------

  datatype System = System(db: Db, procs: map<string, Proc>)
  {
    function ProcOf(pid: string): Proc { if pid in procs then procs[pid] else Fresh }
  }

  datatype Event = Event(pid: string, binaryVersion: int, sqlOk: bool)

  function Step(s: System, ms: seq<Prepared>, e: Event): System {
    var (db, p) := ProcStep(s.db, s.ProcOf(e.pid), ms, e.binaryVersion, e.sqlOk);
    System(db, s.procs[e.pid := p])
  }

  function Run(s: System, ms: seq<Prepared>, events: seq<Event>): System {
    if events == [] then s else Step(Run(s, ms, events[..|events| - 1]), ms, events[|events| - 1])
  }

  predicate DistinctVersions(ms: seq<Prepared>) {
    forall i, j :: 0 <= i < j < |ms| ==> ms[i].version != ms[j].version
  }

  /** The migrations a database does not have yet, in order. */
  function Pending(ms: seq<Prepared>, versions: map<string, string>): seq<Prepared> {
    if ms == [] then []
    else
      var last := ms[|ms| - 1];
      Pending(ms[..|ms| - 1], versions) + if last.version in versions then [] else [last]
  }

  /** A database's versions after a list of migrations was recorded. */
  function Record(versions: map<string, string>, ms: seq<Prepared>): map<string, string> {
    if ms == [] then versions
    else
      var last := ms[|ms| - 1];
      Record(versions, ms[..|ms| - 1])[last.version := last.sha256]
  }

  /** The database is `base` plus exactly the pending ones of the first `n` migrations, executed in order. */
  ghost predicate UpTo(db: Db, base: Db, ms: seq<Prepared>, n: nat) {
    && n <= |ms|
    && db.schema == base.schema + Pending(ms[..n], base.versions)
    && db.versions == Record(base.versions, Pending(ms[..n], base.versions))
  }

  /** What a process under way knows is true of the database. */
  ghost predicate ProcOk(db: Db, p: Proc, ms: seq<Prepared>) {
    (p.Applying? ==>
       && p.next <= |ms|
       && (forall v :: v in p.applied ==> v in db.versions && db.versions[v] == p.applied[v])
       && Recorded(db, ms, p.next))
    && (p.Finished? ==> Recorded(db, ms, |ms|))
  }

  predicate Recorded(db: Db, ms: seq<Prepared>, n: nat) {
    n <= |ms| && forall j :: 0 <= j < n ==> ms[j].version in db.versions && db.versions[ms[j].version] == ms[j].sha256
  }

  ghost predicate Inv(s: System, base: Db, ms: seq<Prepared>) {
    && (exists n: nat :: UpTo(s.db, base, ms, n))
    && forall pid :: ProcOk(s.db, s.ProcOf(pid), ms)
  }

  lemma {:induction false} PendingMembers(ms: seq<Prepared>, versions: map<string, string>)
    ensures forall m :: m in Pending(ms, versions) <==> m in ms && m.version !in versions
  {
    if ms != [] {
      PendingMembers(ms[..|ms| - 1], versions);
      assert ms == ms[..|ms| - 1] + [ms[|ms| - 1]];
    }
  }

  predicate HasVersion(ms: seq<Prepared>, v: string) { exists j :: 0 <= j < |ms| && ms[j].version == v }

  lemma HasVersionSnoc(front: seq<Prepared>, m: Prepared, v: string)
    ensures HasVersion(front + [m], v) <==> HasVersion(front, v) || m.version == v
  {
    var ms := front + [m];
    if HasVersion(front, v) {
      var j :| 0 <= j < |front| && front[j].version == v;
      assert ms[j].version == v;
    }
    if m.version == v { assert ms[|front|].version == v; }
  }

  lemma {:induction false} PendingHas(ms: seq<Prepared>, versions: map<string, string>, v: string)
    requires v !in versions
    ensures HasVersion(Pending(ms, versions), v) <==> HasVersion(ms, v)
  {
    if ms != [] {
      var (front, last) := (ms[..|ms| - 1], ms[|ms| - 1]);
      PendingHas(front, versions, v);
      HasVersionSnoc(front, last, v);
      HasVersionSnoc(Pending(front, versions), last, v);
      assert ms == front + [last];
      assert last.version in versions ==> Pending(ms, versions) == Pending(front, versions);
    }
  }

  lemma {:induction false} RecordKeys(versions: map<string, string>, ms: seq<Prepared>, v: string)
    ensures v in Record(versions, ms) <==> v in versions || HasVersion(ms, v)
  {
    if ms != [] {
      var (front, last) := (ms[..|ms| - 1], ms[|ms| - 1]);
      RecordKeys(versions, front, v);
      HasVersionSnoc(front, last, v);
      assert ms == front + [last];
    }
  }

  /** Which versions a database up to `n` has. */
  lemma VersionsUpTo(db: Db, base: Db, ms: seq<Prepared>, n: nat, v: string)
    requires UpTo(db, base, ms, n)
    ensures v in db.versions <==> v in base.versions || exists j :: 0 <= j < n && ms[j].version == v
  {
    RecordKeys(base.versions, Pending(ms[..n], base.versions), v);
    if v !in base.versions { PendingHas(ms[..n], base.versions, v); }
    PrefixHas(ms, n, v);
  }

  lemma PrefixHas(ms: seq<Prepared>, n: nat, v: string)
    requires n <= |ms|
    ensures HasVersion(ms[..n], v) <==> exists j :: 0 <= j < n && ms[j].version == v
  {
    if j :| 0 <= j < n && ms[j].version == v {
      assert ms[..n][j].version == v;
    }
  }

  /** Migrations the base already has are not pending. */
  lemma {:induction false} PendingSkips(ms: seq<Prepared>, versions: map<string, string>, n: nat, i: nat)
    requires n <= i <= |ms| && forall j :: n <= j < i ==> ms[j].version in versions
    ensures Pending(ms[..i], versions) == Pending(ms[..n], versions)
    decreases i
  {
    if n < i {
      PendingSkips(ms, versions, n, i - 1);
      assert ms[..i][..i - 1] == ms[..i - 1] && ms[..i][i - 1] == ms[i - 1];
    }
  }

  /** Whatever lies between the frontier and a migration still to execute was there from the start. */
  lemma BetweenWasThere(db: Db, base: Db, ms: seq<Prepared>, n: nat, i: nat)
    requires DistinctVersions(ms) && UpTo(db, base, ms, n) && i <= |ms|
    requires i < |ms| ==> ms[i].version !in db.versions
    requires Recorded(db, ms, i)
    ensures n <= i || i == |ms|
    ensures forall j :: n <= j < i ==> ms[j].version in base.versions
  {
    if i < |ms| { VersionsUpTo(db, base, ms, n, ms[i].version); }
    forall j | n <= j < i ensures ms[j].version in base.versions {
      VersionsUpTo(db, base, ms, n, ms[j].version);
    }
  }

  lemma PendingExtends(ms: seq<Prepared>, versions: map<string, string>, i: nat)
    requires i < |ms| && ms[i].version !in versions
    ensures Pending(ms[..i + 1], versions) == Pending(ms[..i], versions) + [ms[i]]
  {
    assert ms[..i + 1][..i] == ms[..i] && ms[..i + 1][i] == ms[i];
  }

  lemma RecordExtends(versions: map<string, string>, ms: seq<Prepared>, m: Prepared)
    ensures Record(versions, ms + [m]) == Record(versions, ms)[m.version := m.sha256]
  {
    assert (ms + [m])[..|ms|] == ms;
  }

  /** Executing the migration at hand moves the database up to just after it. */
  lemma ExecuteAdvances(db: Db, base: Db, ms: seq<Prepared>, n: nat, i: nat)
    requires DistinctVersions(ms) && UpTo(db, base, ms, n) && i < |ms|
    requires ms[i].version !in db.versions && Recorded(db, ms, i)
    ensures UpTo(Db(db.versions[ms[i].version := ms[i].sha256], db.schema + [ms[i]]), base, ms, i + 1)
  {
    VersionsUpTo(db, base, ms, n, ms[i].version);
    BetweenWasThere(db, base, ms, n, i);
    PendingSkips(ms, base.versions, n, i);
    PendingExtends(ms, base.versions, i);
    RecordExtends(base.versions, Pending(ms[..i], base.versions), ms[i]);
    assert base.schema + Pending(ms[..i], base.versions) + [ms[i]]
        == base.schema + (Pending(ms[..i], base.versions) + [ms[i]]);
  }

  /** A step only adds to the database. */
  lemma StepGrows(db: Db, p: Proc, ms: seq<Prepared>, binaryVersion: int, sqlOk: bool)
    ensures var (db', p') := ProcStep(db, p, ms, binaryVersion, sqlOk);
            && (forall v :: v in db.versions ==> v in db'.versions && db'.versions[v] == db.versions[v])
            && (db' != db ==> p.Applying? && p.next < |ms| && ms[p.next].version !in db.versions
                              && db' == Db(db.versions[ms[p.next].version := ms[p.next].sha256],
                                           db.schema + [ms[p.next]]))
  {
  }

  lemma StepKeepsProc(db: Db, p: Proc, ms: seq<Prepared>, binaryVersion: int, sqlOk: bool)
    requires ProcOk(db, p, ms)
    ensures var (db', p') := ProcStep(db, p, ms, binaryVersion, sqlOk); ProcOk(db', p', ms)
  {
  }

  lemma StepKeepsInv(s: System, base: Db, ms: seq<Prepared>, e: Event)
    requires DistinctVersions(ms) && Inv(s, base, ms)
    ensures Inv(Step(s, ms, e), base, ms)
  {
    hide UpTo, ProcStep, DistinctVersions;
    var u := Step(s, ms, e);
    var p := s.ProcOf(e.pid);
    assert ProcOk(s.db, p, ms);
    StepGrows(s.db, p, ms, e.binaryVersion, e.sqlOk);
    StepKeepsProc(s.db, p, ms, e.binaryVersion, e.sqlOk);
    var n: nat :| UpTo(s.db, base, ms, n);
    if u.db != s.db {
      ExecuteAdvances(s.db, base, ms, n, p.next);
      assert UpTo(u.db, base, ms, p.next + 1);
    } else {
      assert UpTo(u.db, base, ms, n);
    }
    forall pid ensures ProcOk(u.db, u.ProcOf(pid), ms) {
      assert ProcOk(s.db, s.ProcOf(pid), ms);
    }
  }

  /** In every interleaving of any number of processes the database is its initial state plus the pending
      ones of some prefix of the migrations, each executed once, in version order: a failure leaves
      nothing behind and loses nothing recorded before. */
  lemma {:induction false} EveryInterleavingIsAPrefix(base: Db, ms: seq<Prepared>, events: seq<Event>)
    requires DistinctVersions(ms)
    ensures Inv(Run(System(base, map[]), ms, events), base, ms)
  {
    if events == [] {
      assert ms[..0] == [];
      assert base.schema + [] == base.schema;
      assert UpTo(base, base, ms, 0);
    } else {
      EveryInterleavingIsAPrefix(base, ms, events[..|events| - 1]);
      StepKeepsInv(Run(System(base, map[]), ms, events[..|events| - 1]), base, ms, events[|events| - 1]);
    }
  }

  /** Once any process has finished, all pending migrations were executed, exactly once in total and in
      version order, and every migration is recorded under its own checksum. */
  lemma FinishedMeansAllExecutedOnce(base: Db, ms: seq<Prepared>, events: seq<Event>, pid: string)
    requires DistinctVersions(ms) && Run(System(base, map[]), ms, events).ProcOf(pid).Finished?
    ensures var db := Run(System(base, map[]), ms, events).db;
            && db.schema == base.schema + Pending(ms, base.versions)
            && db.versions == Record(base.versions, Pending(ms, base.versions))
            && Recorded(db, ms, |ms|)
  {
    var s := Run(System(base, map[]), ms, events);
    EveryInterleavingIsAPrefix(base, ms, events);
    assert ProcOk(s.db, s.ProcOf(pid), ms);
    var n: nat :| UpTo(s.db, base, ms, n);
    BetweenWasThere(s.db, base, ms, n, |ms|);
    PendingSkips(ms, base.versions, n, |ms|);
    assert ms[..|ms|] == ms;
  }

  predicate Increasing(ms: seq<Prepared>) {
    forall i, j :: 0 <= i < j < |ms| ==> Less(ms[i].version, ms[j].version)
  }

  /** The order of execution is the order of versions, and no version repeats. */
  lemma {:induction false} PendingIsIncreasing(ms: seq<Prepared>, versions: map<string, string>)
    requires Ordered(ms) && DistinctVersions(ms)
    ensures Increasing(Pending(ms, versions))
  {
    if ms != [] {
      var front, last := ms[..|ms| - 1], ms[|ms| - 1];
      PendingIsIncreasing(front, versions);
      PendingMembers(front, versions);
      var p := Pending(front, versions);
      forall i | 0 <= i < |p| ensures Less(p[i].version, last.version) {
        assert p[i] in p;
        var k :| 0 <= k < |front| && front[k] == p[i];
        assert ms[k] == p[i];
        LessIsTotal(p[i].version, last.version);
      }
    }
  }

  // ------------------------------------------------------------------
  // What each process reports, and what a version's number is
  // ------------------------------------------------------------------

  function RanBy(p: Proc): seq<string> { if p.Applying? || p.Finished? then p.ran else [] }

  /** What a process says it executed is recorded and was not there at the start, and nobody else says so. */
  ghost predicate RanOk(s: System, base: Db) {
    && (forall pid, v :: v in RanBy(s.ProcOf(pid)) ==> v in s.db.versions && v !in base.versions)
    && (forall pid, qid, v :: v in RanBy(s.ProcOf(pid)) && v in RanBy(s.ProcOf(qid)) ==> pid == qid)
  }

  lemma StepKeepsRan(s: System, base: Db, ms: seq<Prepared>, e: Event)
    requires RanOk(s, base) && forall v :: v in base.versions ==> v in s.db.versions
    ensures RanOk(Step(s, ms, e), base) && forall v :: v in base.versions ==> v in Step(s, ms, e).db.versions
  {
    var (db, p) := ProcStep(s.db, s.ProcOf(e.pid), ms, e.binaryVersion, e.sqlOk);
    StepGrows(s.db, s.ProcOf(e.pid), ms, e.binaryVersion, e.sqlOk);
    assert forall v :: v in RanBy(p) ==> v in RanBy(s.ProcOf(e.pid)) || (v !in s.db.versions && v in db.versions);
    hide ProcStep;
    assert forall pid :: Step(s, ms, e).ProcOf(pid) == if pid == e.pid then p else s.ProcOf(pid);
  }

  /** Over every interleaving no migration is reported by two processes, and none that was there already. */
  lemma {:induction false} NobodyReportsTwice(base: Db, ms: seq<Prepared>, events: seq<Event>)
    ensures RanOk(Run(System(base, map[]), ms, events), base)
    ensures forall v :: v in base.versions ==> v in Run(System(base, map[]), ms, events).db.versions
  {
    if events != [] {
      NobodyReportsTwice(base, ms, events[..|events| - 1]);
      StepKeepsRan(Run(System(base, map[]), ms, events[..|events| - 1]), base, ms, events[|events| - 1]);
    }
  }

  lemma {:induction false} LeadingDigitsOf(d: string, rest: string)
    requires AllDigits(d) && (rest == "" || !IsDigit(rest[0]))
    ensures LeadingDigits(d + rest) == d
  {
    if d != "" {
      assert (d + rest)[1..] == d[1..] + rest;
      LeadingDigitsOf(d[1..], rest);
    } else {
      assert d + rest == rest;
    }
  }

  /** The number of a version is that of the digits it starts with, however they are padded and whatever follows
      them; a minus sign before them counts. */
  lemma NumberOfVersion(d: string, rest: string)
    requires d != "" && AllDigits(d) && (rest == "" || !IsDigit(rest[0]))
    ensures NumericVersion(d + rest) == Value(d) && NumericVersion("-" + d + rest) == 0 - Value(d)
    ensures NumericVersion(rest) == 0 || rest[0] == '-' || rest[0] == '+' || IsSpace(rest[0])
  {
    LeadingDigitsOf(d, rest);
    LeadingDigitsOf("", rest);
    assert "" + rest == rest;
    var (t, u) := (d + rest, "-" + d + rest);
    assert t[0] == d[0] && u[0] == '-' && u[1..] == d + rest;
    assert TrimStart(t) == t && TrimStart(u) == u;
    assert rest == "" || IsSpace(rest[0]) || TrimStart(rest) == rest;
  }

  /** So each recorded version refuses the binaries whose number is below its own, and nothing else does but a
      negative number. */
  lemma RefusedIffOlder(binaryVersion: int, versions: map<string, string>, d: string, rest: string, sha: string)
    requires d != "" && AllDigits(d) && (rest == "" || !IsDigit(rest[0]))
    ensures IsDowngrade(binaryVersion, map[]) <==> binaryVersion < 0
    ensures d + rest !in versions ==>
              (IsDowngrade(binaryVersion, versions[d + rest := sha])
               <==> IsDowngrade(binaryVersion, versions) || binaryVersion < Value(d))
  {
    NumberOfVersion(d, rest);
    var more := versions[d + rest := sha];
    hide NumericVersion;
    assert d + rest in more;
    assert forall v :: v in more <==> v in versions || v == d + rest;
  }
}
