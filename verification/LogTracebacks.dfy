/** Resuming the scan of logs with tracebacks, exactly (src/services/alerts/log-scan.ts:131-164). */
module LogTracebacks {
  import opened Text
  import opened Wrappers
  import opened LogStamps
  import opened LogScan
  import opened LogResume

  // ------------------------------------------------------------------
  // Logs with tracebacks
  // ------------------------------------------------------------------

  /** No line newer than the cursor, or without a timestamp, heads a traceback or reports. */
  predicate NothingNew(c: Classifiers, lines: seq<string>, cursor: Option<string>) {
    forall i :: 0 <= i < |lines| ==> SilentLine(c, lines[i], cursor)
  }

  predicate SilentLine(c: Classifiers, line: string, cursor: Option<string>) {
    !Skipped(Stamp(line), cursor) ==> !Header(c, line) && LineHits(c, line) == []
  }

  lemma NothingNewStep(c: Classifiers, lines: seq<string>, cursor: Option<string>)
    requires lines != []
    ensures NothingNew(c, lines, cursor) <==> SilentLine(c, lines[0], cursor) && NothingNew(c, lines[1..], cursor)
  {
    var rest := lines[1..];
    forall i | 0 <= i < |rest| ensures rest[i] == lines[i + 1] {}
    if SilentLine(c, lines[0], cursor) && NothingNew(c, rest, cursor) {
      forall i | 0 <= i < |lines| ensures SilentLine(c, lines[i], cursor) {
        if i > 0 { assert lines[i] == rest[i - 1]; }
      }
    }
  }

  /** For every log, with tracebacks or without: a scan from a cursor reports nothing if and only if no line
      that the cursor does not skip heads a traceback or reports by itself. */
  lemma {:induction false} SilentScanIff(c: Classifiers, lines: seq<string>, cursor: Option<string>,
                                         last: Option<string>)
    ensures Scan(c, lines, cursor, last).findings == [] <==> NothingNew(c, lines, cursor)
    decreases |lines|
  {
    if lines != [] {
      NothingNewStep(c, lines, cursor);
      if Skipped(Stamp(lines[0]), cursor) {
        SilentScanIff(c, lines[1..], cursor, last);
      } else if !Header(c, lines[0]) {
        SilentScanIff(c, lines[1..], cursor, Advance(last, Stamp(lines[0])));
      }
    }
  }

  lemma {:induction false} ScanIsSettled(c: Classifiers, lines: seq<string>, since: Option<string>,
                                         last: Option<string>, calendar: Calendar)
    requires Settled(last, calendar)
    ensures Settled(Scan(c, lines, since, last).last, calendar)
    decreases |lines|
  {
    if lines != [] {
      var (line, rest) := (lines[0], lines[1..]);
      if Skipped(Stamp(line), since) {
        ScanIsSettled(c, rest, since, last, calendar);
      } else {
        var seen := Advance(last, Stamp(line));
        StampIsSettled(line, calendar);
        var after := if Header(c, line) then rest[BlockLength(c, rest, MAX_BLOCK - 1)..] else rest;
        ScanIsSettled(c, after, since, seen, calendar);
      }
    }
  }

  /** The cursor of a scan never falls back. */
  lemma {:induction false} ScanGrows(c: Classifiers, lines: seq<string>, since: Option<string>, last: Option<string>)
    ensures AtLeast(Scan(c, lines, since, last).last, last)
    decreases |lines|
  {
    if lines == [] {
      LatestGrows([], last);
    } else {
      var (line, rest) := (lines[0], lines[1..]);
      if Skipped(Stamp(line), since) {
        ScanGrows(c, rest, since, last);
      } else {
        var seen := Advance(last, Stamp(line));
        AdvanceGrows(last, Stamp(line));
        var after := if Header(c, line) then rest[BlockLength(c, rest, MAX_BLOCK - 1)..] else rest;
        ScanGrows(c, after, since, seen);
        AtLeastIsTransitive(Scan(c, after, since, seen).last, seen, last);
      }
    }
  }

  /** Polling an unchanged log again from the cursor of the first poll reports nothing if and only if no line
      newer than that cursor, or without a timestamp, heads a traceback or reports by itself. Only lines that
      continued a traceback can be newer. */
  lemma RepeatedPollIff(c: Classifiers, lines: seq<string>, since: Option<string>, calendar: Calendar)
    ensures var cursor := ScanFrom(c, lines, since, calendar).last;
            ScanFrom(c, lines, cursor, calendar).findings == [] <==> NothingNew(c, lines, cursor)
  {
    var cursor := ScanFrom(c, lines, since, calendar).last;
    StartIsSettled(since, calendar);
    ScanIsSettled(c, lines, Start(since, calendar), Start(since, calendar), calendar);
    SilentScanIff(c, lines, cursor, cursor);
  }

  /** The lines do not continue a traceback that stands before them. */
  predicate StartsAfresh(c: Classifiers, lines: seq<string>) { lines == [] || !Continues(c, lines[0]) }

  /** Only one length fits what a block is. */
  lemma BlockIs(c: Classifiers, lines: seq<string>, room: nat, n: nat)
    requires n <= |lines| && n <= room
    requires forall i :: 0 <= i < n ==> Continues(c, lines[i])
    requires n < |lines| && n < room ==> !Continues(c, lines[n])
    ensures BlockLength(c, lines, room) == n
  {
    var m := BlockLength(c, lines, room);
  }

  lemma BlockStops(c: Classifiers, a: seq<string>, b: seq<string>, room: nat)
    requires StartsAfresh(c, b)
    ensures BlockLength(c, a + b, room) == BlockLength(c, a, room)
  {
    var n := BlockLength(c, a, room);
    forall i | 0 <= i < n ensures Continues(c, (a + b)[i]) { assert (a + b)[i] == a[i]; }
    assert n < |a + b| ==> (a + b)[n] == if n < |a| then a[n] else b[0];
    BlockIs(c, a + b, room, n);
  }

  lemma SplitAppended<T>(a: seq<T>, b: seq<T>, n: nat)
    requires n <= |a|
    ensures (a + b)[..n] == a[..n] && (a + b)[n..] == a[n..] + b
  {
  }

  function Followed(a: Report, b: Report): Report { Report(a.findings + b.findings, b.last) }

  /** Scanning two parts one after the other, when the second does not continue a traceback of the first. */
  lemma {:induction false} ScanAppends(c: Classifiers, a: seq<string>, b: seq<string>, since: Option<string>,
                                       last: Option<string>)
    requires StartsAfresh(c, b)
    ensures var first := Scan(c, a, since, last);
            Scan(c, a + b, since, last) == Followed(first, Scan(c, b, since, first.last))
    decreases |a|
  {
    if a == [] {
      assert a + b == b;
      assert [] + Scan(c, b, since, last).findings == Scan(c, b, since, last).findings;
    } else {
      assert (a + b)[0] == a[0] && (a + b)[1..] == a[1..] + b;
      if Skipped(Stamp(a[0]), since) {
        ScanAppends(c, a[1..], b, since, last);
      } else if Header(c, a[0]) {
        BlockAppends(c, a, b, since, last);
      } else {
        var seen := Advance(last, Stamp(a[0]));
        ScanAppends(c, a[1..], b, since, seen);
        var first := Scan(c, a[1..], since, seen);
        Grouped(LineHits(c, a[0]), first.findings, Scan(c, b, since, first.last).findings);
      }
    }
  }

  /** The finding for the traceback that the first line heads. */
  function HeadFinding(c: Classifiers, lines: seq<string>): Finding
    requires lines != []
  {
    var rest := lines[1..];
    TracebackFinding(c, Stamp(lines[0]), [Body(c, lines[0])] + Bodies(c, rest[..BlockLength(c, rest, MAX_BLOCK - 1)]))
  }

  /** The lines after that traceback. */
  function AfterBlock(c: Classifiers, lines: seq<string>): (r: seq<string>)
    requires lines != []
    ensures |r| < |lines|
  {
    lines[1..][BlockLength(c, lines[1..], MAX_BLOCK - 1)..]
  }

  lemma ScanOfHead(c: Classifiers, lines: seq<string>, since: Option<string>, last: Option<string>)
    requires lines != [] && !Skipped(Stamp(lines[0]), since) && Header(c, lines[0])
    ensures var later := Scan(c, AfterBlock(c, lines), since, Advance(last, Stamp(lines[0])));
            Scan(c, lines, since, last) == Report([HeadFinding(c, lines)] + later.findings, later.last)
  {
  }

  lemma BlockOfAppended(c: Classifiers, a: seq<string>, b: seq<string>)
    requires StartsAfresh(c, b) && a != []
    ensures HeadFinding(c, a + b) == HeadFinding(c, a)
    ensures AfterBlock(c, a + b) == AfterBlock(c, a) + b
  {
    hide BlockLength, Bodies, Body, Stamp, TracebackFinding;
    var (rest, more) := (a[1..], (a + b)[1..]);
    var n := BlockLength(c, rest, MAX_BLOCK - 1);
    assert more == rest + b;
    BlockStops(c, rest, b, MAX_BLOCK - 1);
    SplitAppended(rest, b, n);
    assert (a + b)[0] == a[0];
  }

  lemma {:induction false} BlockAppends(c: Classifiers, a: seq<string>, b: seq<string>, since: Option<string>,
                                        last: Option<string>)
    requires StartsAfresh(c, b) && a != [] && !Skipped(Stamp(a[0]), since) && Header(c, a[0])
    ensures var first := Scan(c, a, since, last);
            Scan(c, a + b, since, last) == Followed(first, Scan(c, b, since, first.last))
    decreases |a|, 0
  {
    var seen := Advance(last, Stamp(a[0]));
    BlockOfAppended(c, a, b);
    ScanOfHead(c, a, since, last);
    ScanOfHead(c, a + b, since, last);
    ScanAppends(c, AfterBlock(c, a), b, since, seen);
    var first := Scan(c, AfterBlock(c, a), since, seen);
    Grouped([HeadFinding(c, a)], first.findings, Scan(c, b, since, first.last).findings);
  }

  predicate NoneSkipped(lines: seq<string>, cursor: Option<string>) {
    forall i :: 0 <= i < |lines| ==> !Skipped(Stamp(lines[i]), cursor)
  }

  /** Where nothing is skipped, neither the cursor nor the latest timestamp so far shows in the findings. */
  lemma {:induction false} NoneSkippedScan(c: Classifiers, lines: seq<string>, s: Option<string>, t: Option<string>,
                                           l: Option<string>, m: Option<string>)
    requires NoneSkipped(lines, s) && NoneSkipped(lines, t)
    ensures Scan(c, lines, s, l).findings == Scan(c, lines, t, m).findings
    decreases |lines|
  {
    if lines != [] {
      var (line, rest) := (lines[0], lines[1..]);
      var (x, y) := (Advance(l, Stamp(line)), Advance(m, Stamp(line)));
      SuffixSkipsNothing(lines, 1, s);
      SuffixSkipsNothing(lines, 1, t);
      if Header(c, line) {
        var n := BlockLength(c, rest, MAX_BLOCK - 1);
        SuffixSkipsNothing(rest, n, s);
        SuffixSkipsNothing(rest, n, t);
        NoneSkippedScan(c, AfterBlock(c, lines), s, t, x, y);
        ScanOfHead(c, lines, s, l);
        ScanOfHead(c, lines, t, m);
      } else {
        NoneSkippedScan(c, rest, s, t, x, y);
      }
    }
  }

  lemma SuffixSkipsNothing(lines: seq<string>, n: nat, cursor: Option<string>)
    requires n <= |lines| && NoneSkipped(lines, cursor)
    ensures NoneSkipped(lines[n..], cursor)
    ensures lines != [] ==> !Skipped(Stamp(lines[0]), cursor)
  {
    forall i | 0 <= i < |lines[n..]| ensures !Skipped(Stamp(lines[n..][i]), cursor) {
      assert lines[n..][i] == lines[n + i];
    }
  }

  lemma EarlierSkipsNothing(lines: seq<string>, since: Option<string>, cursor: Option<string>)
    requires AtLeast(cursor, since) && NoneSkipped(lines, cursor)
    ensures NoneSkipped(lines, since)
  {
    forall i | 0 <= i < |lines| ensures !Skipped(Stamp(lines[i]), since) {
      if Skipped(Stamp(lines[i]), since) { CoversMore(cursor, since, Stamp(lines[i])); }
    }
  }

  /** For every log, with tracebacks or without, that grows by lines which the cursor does not skip and which
      do not continue its last traceback: the two polls together report what one scan of the grown log reports
      if and only if no line of the first part newer than the cursor, or without a timestamp, heads a
      traceback or reports by itself. */
  lemma GrownLogIff(c: Classifiers, a: seq<string>, b: seq<string>, since: Option<string>, calendar: Calendar)
    requires StartsAfresh(c, b) && NoneSkipped(b, ScanFrom(c, a, since, calendar).last)
    ensures var first := ScanFrom(c, a, since, calendar);
            var again := ScanFrom(c, a + b, first.last, calendar);
            first.findings + again.findings == ScanFrom(c, a + b, since, calendar).findings
            <==> NothingNew(c, a, first.last)
  {
    var from := Start(since, calendar);
    var first := Scan(c, a, from, from);
    var cursor := first.last;
    StartIsSettled(since, calendar);
    ScanIsSettled(c, a, from, from, calendar);
    ScanGrows(c, a, from, from);
    ScanAppends(c, a, b, from, from);
    ScanAppends(c, a, b, cursor, cursor);
    EarlierSkipsNothing(b, from, cursor);
    var repeat := Scan(c, a, cursor, cursor);
    NoneSkippedScan(c, b, from, cursor, cursor, repeat.last);
    SilentScanIff(c, a, cursor, cursor);
    RepeatsExactly(first.findings, repeat.findings, Scan(c, b, from, cursor).findings);
  }

  lemma RepeatsExactly<T>(first: seq<T>, repeat: seq<T>, more: seq<T>)
    ensures first + (repeat + more) == first + more <==> repeat == []
  {
    assert repeat == [] ==> repeat + more == more;
    if first + (repeat + more) == first + more {
      assert |repeat| == 0;
    }
  }
}
