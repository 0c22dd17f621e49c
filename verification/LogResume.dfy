/** What a scan resumed from its own cursor reports (src/services/alerts/log-scan.ts:131-164). */
module LogResume {
  import opened Text
  import opened Wrappers
  import opened LogStamps
  import opened LogScan

  predicate HeaderFree(c: Classifiers, lines: seq<string>) {
    forall i :: 0 <= i < |lines| ==> !Header(c, lines[i])
  }

  predicate Stamped(lines: seq<string>) {
    forall i :: 0 <= i < |lines| ==> Stamp(lines[i]) != ""
  }

  // ------------------------------------------------------------------
  // Without traceback headers, lines report one by one
  // ------------------------------------------------------------------

  function LineReport(c: Classifiers, line: string, since: Option<string>): seq<Finding> {
    if Skipped(Stamp(line), since) then [] else LineHits(c, line)
  }

  function Hits(c: Classifiers, lines: seq<string>, since: Option<string>): seq<Finding> {
    if lines == [] then [] else LineReport(c, lines[0], since) + Hits(c, lines[1..], since)
  }

  /** The greatest of a cursor and the timestamps of the lines. */
  function Latest(lines: seq<string>, last: Option<string>): Option<string>
    decreases |lines|
  {
    if lines == [] then last else Latest(lines[1..], Advance(last, Stamp(lines[0])))
  }

  /** `a` is no earlier cursor than `b`. */
  predicate AtLeast(a: Option<string>, b: Option<string>) {
    b.None? || (a.Some? && !Less(a.value, b.value))
  }

  predicate Covers(last: Option<string>, t: string) {
    t == "" || (last.Some? && !Less(last.value, t))
  }

  lemma AtLeastIsTransitive(a: Option<string>, b: Option<string>, d: Option<string>)
    requires AtLeast(a, b) && AtLeast(b, d)
    ensures AtLeast(a, d)
  {
    if d.Some? && Less(a.value, d.value) {
      LessIsTotal(a.value, b.value);
      LessIsTotal(b.value, d.value);
      if a.value != b.value {
        LessIsTransitive(b.value, a.value, d.value);
      }
    }
  }

  lemma AdvanceGrows(last: Option<string>, t: string)
    ensures AtLeast(Advance(last, t), last) && Covers(Advance(last, t), t)
  {
    LessIsTotal(t, t);
    if last.Some? {
      LessIsTotal(last.value, last.value);
      LessIsTotal(last.value, t);
    }
  }

  lemma CoversMore(a: Option<string>, b: Option<string>, t: string)
    requires AtLeast(a, b) && Covers(b, t)
    ensures Covers(a, t)
  {
    if t != "" {
      AtLeastIsTransitive(a, b, Some(t));
    }
  }

  lemma {:induction false} LatestGrows(lines: seq<string>, last: Option<string>)
    ensures AtLeast(Latest(lines, last), last)
    ensures forall i :: 0 <= i < |lines| ==> Covers(Latest(lines, last), Stamp(lines[i]))
    decreases |lines|
  {
    hide Less, Stamp, Advance;
    if lines == [] {
      if last.Some? { LessIsTotal(last.value, last.value); }
    } else {
      var next := Advance(last, Stamp(lines[0]));
      AdvanceGrows(last, Stamp(lines[0]));
      LatestGrows(lines[1..], next);
      AtLeastIsTransitive(Latest(lines, last), next, last);
      CoversMore(Latest(lines, last), next, Stamp(lines[0]));
      forall i | 0 <= i < |lines|
        ensures Covers(Latest(lines, last), Stamp(lines[i]))
      {
        if i > 0 { assert lines[1..][i - 1] == lines[i]; }
      }
    }
  }

  lemma {:induction false} LatestOfCovered(lines: seq<string>, last: Option<string>)
    requires forall i :: 0 <= i < |lines| ==> Covers(last, Stamp(lines[i]))
    ensures Latest(lines, last) == last
    decreases |lines|
  {
    if lines != [] {
      assert Covers(last, Stamp(lines[0]));
      LatestOfCovered(lines[1..], last);
    }
  }

  lemma {:induction false} LatestAppends(a: seq<string>, b: seq<string>, last: Option<string>)
    ensures Latest(a + b, last) == Latest(b, Latest(a, last))
    decreases |a|
  {
    if a == [] {
      assert a + b == b;
    } else {
      assert (a + b)[1..] == a[1..] + b;
      LatestAppends(a[1..], b, Advance(last, Stamp(a[0])));
    }
  }

  lemma {:induction false} HitsAppend(c: Classifiers, a: seq<string>, b: seq<string>, since: Option<string>)
    ensures Hits(c, a + b, since) == Hits(c, a, since) + Hits(c, b, since)
  {
    hide LineReport;
    if a == [] {
      assert a + b == b;
    } else {
      assert (a + b)[1..] == a[1..] + b && (a + b)[0] == a[0];
      HitsAppend(c, a[1..], b, since);
    }
  }

  lemma {:induction false} HeaderFreeScan(c: Classifiers, lines: seq<string>, since: Option<string>,
                                          last: Option<string>)
    requires HeaderFree(c, lines) && AtLeast(last, since)
    ensures Scan(c, lines, since, last) == Report(Hits(c, lines, since), Latest(lines, last))
    decreases |lines|
  {
    if lines != [] {
      var t := Stamp(lines[0]);
      if Skipped(t, since) {
        CoversMore(last, since, t);
        HeaderFreeScan(c, lines[1..], since, last);
      } else {
        AdvanceGrows(last, t);
        AtLeastIsTransitive(Advance(last, t), last, since);
        assert !Header(c, lines[0]);
        HeaderFreeScan(c, lines[1..], since, Advance(last, t));
      }
    }
  }

  // ------------------------------------------------------------------
  // What any scan reports
  // ------------------------------------------------------------------

  /** Of bounded size, newer than the cursor unless it carries no timestamp, and fingerprinted by the message
      that is stored. */
  predicate WellReported(c: Classifiers, f: Finding, since: Option<string>) {
    && |f.message| <= MAX_MESSAGE && |f.detail| <= MAX_DETAIL
    && !Skipped(f.timestamp, since)
    && f.fingerprint == c.fingerprint(f.message)
  }

  lemma MadeFindingIsWell(c: Classifiers, t: string, h: Hit, since: Option<string>)
    requires !Skipped(t, since)
    ensures WellReported(c, MakeFinding(c, t, h), since)
  {
  }

  lemma LineIsWell(c: Classifiers, line: string, since: Option<string>)
    requires !Skipped(Stamp(line), since)
    ensures forall f :: f in LineHits(c, line) ==> WellReported(c, f, since)
  {
    var body := Body(c, line);
    if c.json(body).Some? { MadeFindingIsWell(c, Stamp(line), c.json(body).value, since); }
    if c.text(body).Some? { MadeFindingIsWell(c, Stamp(line), c.text(body).value, since); }
  }

  ghost predicate AllWell(c: Classifiers, findings: seq<Finding>, since: Option<string>) {
    forall f :: f in findings ==> WellReported(c, f, since)
  }

  lemma AllWellAppends(c: Classifiers, a: seq<Finding>, b: seq<Finding>, since: Option<string>)
    requires AllWell(c, a, since) && AllWell(c, b, since)
    ensures AllWell(c, a + b, since)
  {
  }

  /** Tracebacks included, whatever the log: every finding is well reported, and there are no more findings
      than lines. */
  lemma {:induction false} FindingsAreWellReported(c: Classifiers, lines: seq<string>, since: Option<string>,
                                                   last: Option<string>)
    ensures |Scan(c, lines, since, last).findings| <= |lines|
    ensures AllWell(c, Scan(c, lines, since, last).findings, since)
    decreases |lines|
  {
    if lines != [] {
      var (line, rest) := (lines[0], lines[1..]);
      var seen := Advance(last, Stamp(line));
      if Skipped(Stamp(line), since) {
        FindingsAreWellReported(c, rest, since, last);
      } else if Header(c, line) {
        var n := BlockLength(c, rest, MAX_BLOCK - 1);
        var found := TracebackFinding(c, Stamp(line), [Body(c, line)] + Bodies(c, rest[..n]));
        FindingsAreWellReported(c, rest[n..], since, seen);
        TracebackIsWell(c, Stamp(line), [Body(c, line)] + Bodies(c, rest[..n]), since);
        AllWellAppends(c, [found], Scan(c, rest[n..], since, seen).findings, since);
      } else {
        FindingsAreWellReported(c, rest, since, seen);
        LineIsWell(c, line, since);
        AllWellAppends(c, LineHits(c, line), Scan(c, rest, since, seen).findings, since);
      }
    }
  }

  lemma TracebackIsWell(c: Classifiers, t: string, block: seq<string>, since: Option<string>)
    requires block != [] && !Skipped(t, since)
    ensures AllWell(c, [TracebackFinding(c, t, block)], since)
  {
  }

  // ------------------------------------------------------------------
  // The cursor
  // ------------------------------------------------------------------

  /** A cursor the scanner itself produced: normalising it again changes nothing. */
  predicate Settled(last: Option<string>, calendar: Calendar) { Start(last, calendar) == last }

  lemma StartIsSettled(since: Option<string>, calendar: Calendar)
    ensures Settled(Start(since, calendar), calendar)
  {
    if since.Some? && since.value != "" {
      NormalizeIsIdempotent(since.value, calendar);
    }
  }

  lemma StampIsSettled(line: string, calendar: Calendar)
    ensures Stamp(line) == "" || Settled(Some(Stamp(line)), calendar)
  {
    var space := IndexOf(line, ' ');
    if space > 0 && UtcStamp(line[..space]) {
      UtcIsFixed(line[..space], calendar);
      NormalOfUtc(line[..space]);
    }
  }

  lemma {:induction false} LatestIsSettled(lines: seq<string>, last: Option<string>, calendar: Calendar)
    requires Settled(last, calendar)
    ensures Settled(Latest(lines, last), calendar)
    decreases |lines|
  {
    if lines != [] {
      StampIsSettled(lines[0], calendar);
      LatestIsSettled(lines[1..], Advance(last, Stamp(lines[0])), calendar);
    }
  }

  // ------------------------------------------------------------------
  // What is repeated and what is lost
  // ------------------------------------------------------------------

  /** No line without a timestamp reports anything. */
  predicate Quiet(c: Classifiers, lines: seq<string>) {
    forall i :: 0 <= i < |lines| && Stamp(lines[i]) == "" ==> LineHits(c, lines[i]) == []
  }

  /** No reporting line is newer than the old cursor but not newer than the new one. */
  predicate NothingLate(c: Classifiers, lines: seq<string>, since: Option<string>, cursor: Option<string>) {
    forall i :: 0 <= i < |lines| && !Skipped(Stamp(lines[i]), since) && Skipped(Stamp(lines[i]), cursor) ==>
                  LineHits(c, lines[i]) == []
  }

  function Unstamped(fs: seq<Finding>): nat {
    if fs == [] then 0 else (if fs[0].timestamp == "" then 1 else 0) + Unstamped(fs[1..])
  }

  lemma {:induction false} UnstampedAppends(a: seq<Finding>, b: seq<Finding>)
    ensures Unstamped(a + b) == Unstamped(a) + Unstamped(b)
  {
    if a == [] {
      assert a + b == b;
    } else {
      assert (a + b)[1..] == a[1..] + b;
      UnstampedAppends(a[1..], b);
    }
  }

  /** Lines a cursor covers report again exactly when they carry no timestamp. */
  lemma {:induction false} CoveredHits(c: Classifiers, lines: seq<string>, cursor: Option<string>)
    requires forall i :: 0 <= i < |lines| ==> Covers(cursor, Stamp(lines[i]))
    ensures Hits(c, lines, cursor) == [] <==> Quiet(c, lines)
    ensures Unstamped(Hits(c, lines, cursor)) == |Hits(c, lines, cursor)|
  {
    if lines != [] {
      var (line, rest) := (lines[0], lines[1..]);
      assert Covers(cursor, Stamp(line));
      forall i | 0 <= i < |rest| ensures rest[i] == lines[i + 1] {}
      CoveredHits(c, rest, cursor);
      var own := LineReport(c, line, cursor);
      UnstampedAppends(own, Hits(c, rest, cursor));
      assert own != [] ==> Stamp(line) == "" && own[0].timestamp == "";
      QuietStep(c, lines);
    }
  }

  lemma QuietStep(c: Classifiers, lines: seq<string>)
    requires lines != []
    ensures Quiet(c, lines) <==> (Stamp(lines[0]) == "" ==> LineHits(c, lines[0]) == []) && Quiet(c, lines[1..])
  {
    var rest := lines[1..];
    forall i | 0 <= i < |rest| ensures rest[i] == lines[i + 1] {}
    if (Stamp(lines[0]) == "" ==> LineHits(c, lines[0]) == []) && Quiet(c, rest) {
      forall i | 0 <= i < |lines| && Stamp(lines[i]) == "" ensures LineHits(c, lines[i]) == [] {
        if i > 0 { assert lines[i] == rest[i - 1]; }
      }
    }
  }

  lemma NothingLateAppends(c: Classifiers, a: seq<string>, b: seq<string>, since: Option<string>,
                           cursor: Option<string>)
    ensures NothingLate(c, a + b, since, cursor)
       <==> NothingLate(c, a, since, cursor) && NothingLate(c, b, since, cursor)
  {
    forall i | 0 <= i < |a| ensures a[i] == (a + b)[i] {}
    forall i | 0 <= i < |b| ensures b[i] == (a + b)[|a| + i] {}
    if NothingLate(c, a, since, cursor) && NothingLate(c, b, since, cursor) {
      forall i | 0 <= i < |a + b| && !Skipped(Stamp((a + b)[i]), since) && Skipped(Stamp((a + b)[i]), cursor)
        ensures LineHits(c, (a + b)[i]) == []
      {
        if i < |a| { assert (a + b)[i] == a[i]; } else { assert (a + b)[i] == b[i - |a|]; }
      }
    }
  }

  /** A later cursor reports no more, and as much exactly when nothing comes late. */
  ghost predicate ReportsLess(c: Classifiers, lines: seq<string>, since: Option<string>, cursor: Option<string>) {
    var (all, fewer) := (Hits(c, lines, since), Hits(c, lines, cursor));
    && |fewer| <= |all|
    && (|fewer| == |all| <==> NothingLate(c, lines, since, cursor))
    && (|fewer| == |all| ==> fewer == all)
    && Unstamped(fewer) == Unstamped(all)
  }

  lemma OneLineReportsLess(c: Classifiers, line: string, since: Option<string>, cursor: Option<string>)
    requires AtLeast(cursor, since)
    ensures ReportsLess(c, [line], since, cursor)
  {
    HitsOfOne(c, line, since);
    HitsOfOne(c, line, cursor);
    assert [line][0] == line;
    if Skipped(Stamp(line), since) {
      CoversMore(cursor, since, Stamp(line));
    } else if Skipped(Stamp(line), cursor) && LineHits(c, line) != [] {
      var own := LineHits(c, line);
      assert own[0].timestamp != "" && own[1..] == [];
      assert Unstamped(own) == Unstamped(own[1..]);
    }
  }

  lemma HitsOfOne(c: Classifiers, line: string, since: Option<string>)
    ensures Hits(c, [line], since) == LineReport(c, line, since)
  {
    assert [line][0] == line && [line][1..] == [];
  }

  lemma ReportsLessAppends(c: Classifiers, a: seq<string>, b: seq<string>, since: Option<string>,
                           cursor: Option<string>)
    requires ReportsLess(c, a, since, cursor) && ReportsLess(c, b, since, cursor)
    ensures ReportsLess(c, a + b, since, cursor)
  {
    HitsAppend(c, a, b, since);
    HitsAppend(c, a, b, cursor);
    NothingLateAppends(c, a, b, since, cursor);
    UnstampedAppends(Hits(c, a, since), Hits(c, b, since));
    UnstampedAppends(Hits(c, a, cursor), Hits(c, b, cursor));
  }

  lemma {:induction false} LaterCursorHits(c: Classifiers, lines: seq<string>, since: Option<string>,
                                           cursor: Option<string>)
    requires AtLeast(cursor, since)
    ensures ReportsLess(c, lines, since, cursor)
  {
    if lines != [] {
      var (line, rest) := (lines[0], lines[1..]);
      LaterCursorHits(c, rest, since, cursor);
      OneLineReportsLess(c, line, since, cursor);
      ReportsLessBefore(c, line, rest, since, cursor);
      assert lines == [line] + rest;
    } else {
      NoLinesReportLess(c, since, cursor);
    }
  }

  lemma NoLinesReportLess(c: Classifiers, since: Option<string>, cursor: Option<string>)
    ensures ReportsLess(c, [], since, cursor)
  {
  }

  lemma ReportsLessBefore(c: Classifiers, line: string, rest: seq<string>, since: Option<string>,
                          cursor: Option<string>)
    requires ReportsLess(c, [line], since, cursor) && ReportsLess(c, rest, since, cursor)
    ensures ReportsLess(c, [line] + rest, since, cursor)
  {
    ReportsLessAppends(c, [line], rest, since, cursor);
  }

  lemma CancelPrefix<T>(a: seq<T>, b: seq<T>, d: seq<T>)
    ensures a + b == a + d <==> b == d
  {
    if a + b == a + d {
      assert b == (a + b)[|a|..] && d == (a + d)[|a|..];
    }
  }

  /** The first part gives F1, rescanning everything from its cursor gives `again`, one scan of everything
      gives F1 + `b`: they agree exactly when nothing is repeated and nothing is late. */
  lemma TwoScans(c: Classifiers, a: seq<string>, b: seq<string>, since: Option<string>, cursor: Option<string>)
    requires AtLeast(cursor, since)
    requires forall i :: 0 <= i < |a| ==> Covers(cursor, Stamp(a[i]))
    ensures Hits(c, a, since) + Hits(c, a + b, cursor) == Hits(c, a + b, since)
       <==> Quiet(c, a) && NothingLate(c, b, since, cursor)
  {
    HitsAppend(c, a, b, cursor);
    HitsAppend(c, a, b, since);
    CancelPrefix(Hits(c, a, since), Hits(c, a, cursor) + Hits(c, b, cursor), Hits(c, b, since));
    CoveredHits(c, a, cursor);
    LaterCursorHits(c, b, since, cursor);
    UnstampedAppends(Hits(c, a, cursor), Hits(c, b, cursor));
    if Hits(c, a, cursor) == [] {
      assert Hits(c, a, cursor) + Hits(c, b, cursor) == Hits(c, b, cursor);
    }
  }

  /** For every log without traceback headers, scanning a first part and then the whole log from the cursor
      returned leaves the cursor one scan leaves, and reports what one scan reports exactly when no line
      of the first part without a timestamp reports anything (it would be reported twice) and no reporting
      line of the second part is older than the cursor but newer than the start (it would be lost). */
  lemma ResumeIff(c: Classifiers, a: seq<string>, b: seq<string>, since: Option<string>, calendar: Calendar)
    requires HeaderFree(c, a + b)
    ensures var first := ScanFrom(c, a, since, calendar);
            var again := ScanFrom(c, a + b, first.last, calendar);
            var whole := ScanFrom(c, a + b, since, calendar);
            && again.last == whole.last
            && (first.findings + again.findings == whole.findings
                <==> Quiet(c, a) && NothingLate(c, b, Start(since, calendar), first.last))
  {
    var from := Start(since, calendar);
    forall i | 0 <= i < |a| ensures a[i] == (a + b)[i] {}
    assert HeaderFree(c, a);
    LatestGrows([], from);
    HeaderFreeScan(c, a, from, from);
    HeaderFreeScan(c, a + b, from, from);
    var cursor := Latest(a, from);
    LatestGrows(a, from);
    StartIsSettled(since, calendar);
    LatestIsSettled(a, from, calendar);
    LatestGrows([], cursor);
    HeaderFreeScan(c, a + b, cursor, cursor);
    LatestAppends(a, b, from);
    LatestAppends(a, b, cursor);
    LatestOfCovered(a, cursor);
    TwoScans(c, a, b, from, cursor);
  }

  /** Every line of the second part is stamped later than the cursor and every line of the first. */
  predicate After(lines: seq<string>, cursor: Option<string>) {
    forall i :: 0 <= i < |lines| ==> Stamp(lines[i]) != "" && !Skipped(Stamp(lines[i]), cursor)
  }

  /** The promise: a fully timestamped log that only grows by later lines is reported once. */
  lemma ResumableScan(c: Classifiers, a: seq<string>, b: seq<string>, since: Option<string>, calendar: Calendar)
    requires HeaderFree(c, a + b) && Stamped(a)
    requires After(b, ScanFrom(c, a, since, calendar).last)
    ensures var first := ScanFrom(c, a, since, calendar);
            var again := ScanFrom(c, a + b, first.last, calendar);
            Report(first.findings + again.findings, again.last) == ScanFrom(c, a + b, since, calendar)
  {
    ResumeIff(c, a, b, since, calendar);
  }

  // ------------------------------------------------------------------
  // Any number of polls
  // ------------------------------------------------------------------

  function Log(chunks: seq<seq<string>>): seq<string> {
    if chunks == [] then [] else Log(chunks[..|chunks| - 1]) + chunks[|chunks| - 1]
  }

  /** Poll after poll: each sees the log grown by one chunk, and scans all of it from the last cursor. */
  function Polls(c: Classifiers, chunks: seq<seq<string>>, since: Option<string>, calendar: Calendar): Report {
    if chunks == [] then Report([], Start(since, calendar))
    else
      var before := Polls(c, chunks[..|chunks| - 1], since, calendar);
      var poll := ScanFrom(c, Log(chunks), before.last, calendar);
      Report(before.findings + poll.findings, poll.last)
  }

  /** Each chunk is stamped later than the cursor left by the log before it. */
  predicate Growing(c: Classifiers, chunks: seq<seq<string>>, since: Option<string>, calendar: Calendar) {
    chunks == []
    || (var before := chunks[..|chunks| - 1];
        && Growing(c, before, since, calendar)
        && After(chunks[|chunks| - 1], ScanFrom(c, Log(before), since, calendar).last))
  }

  lemma {:induction false} GrowingIsStamped(c: Classifiers, chunks: seq<seq<string>>, since: Option<string>,
                                            calendar: Calendar)
    requires Growing(c, chunks, since, calendar)
    ensures Stamped(Log(chunks))
  {
    if chunks != [] {
      GrowingIsStamped(c, chunks[..|chunks| - 1], since, calendar);
    }
  }

  /** However often a growing log is polled, every finding is reported once, in order: the polls together
      report what a single scan of the final log reports, and leave its cursor. */
  lemma {:induction false} PollsAreOneScan(c: Classifiers, chunks: seq<seq<string>>, since: Option<string>,
                                           calendar: Calendar)
    requires HeaderFree(c, Log(chunks)) && Growing(c, chunks, since, calendar)
    ensures Polls(c, chunks, since, calendar) == ScanFrom(c, Log(chunks), since, calendar)
  {
    if chunks != [] {
      var before := chunks[..|chunks| - 1];
      var (a, b) := (Log(before), chunks[|chunks| - 1]);
      forall i | 0 <= i < |a| ensures a[i] == Log(chunks)[i] {}
      PollsAreOneScan(c, before, since, calendar);
      GrowingIsStamped(c, before, since, calendar);
      ResumableScan(c, a, b, since, calendar);
    }
  }
}
