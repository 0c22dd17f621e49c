/** Single tracebacks in a log that is polled again (src/services/alerts/log-scan.ts:142-153): one that a poll cuts
    in two, and one whose continuation lines are newer than its header. */
module LogBlocks {
  import opened Text
  import opened Wrappers
  import opened LogStamps
  import opened LogScan
  import opened LogResume
  import opened LogTracebacks

  /** A header that the scan sees, and lines that continue it, up to the most a block takes. */
  predicate IsBlock(c: Classifiers, h: string, q: seq<string>, since: Option<string>) {
    && Header(c, h) && !Continues(c, h) && !Skipped(Stamp(h), since)
    && |q| <= MAX_BLOCK - 1 && forall i :: 0 <= i < |q| ==> Continues(c, q[i])
  }

  /** The finding for a header and its continuation. */
  function BlockOf(c: Classifiers, h: string, q: seq<string>): Finding {
    TracebackFinding(c, Stamp(h), [Body(c, h)] + Bodies(c, q))
  }

  /** How many lines of `b` the block still takes. */
  function Taken(c: Classifiers, q: seq<string>, b: seq<string>): (n: nat)
    requires |q| <= MAX_BLOCK - 1
    ensures n <= |b|
  {
    BlockLength(c, b, MAX_BLOCK - 1 - |q|)
  }

  lemma BlockGoesOn(c: Classifiers, h: string, q: seq<string>, b: seq<string>, since: Option<string>)
    requires IsBlock(c, h, q, since)
    ensures BlockLength(c, q + b, MAX_BLOCK - 1) == |q| + Taken(c, q, b)
  {
    var n := Taken(c, q, b);
    forall i | 0 <= i < |q| + n ensures Continues(c, (q + b)[i]) {
      assert (q + b)[i] == if i < |q| then q[i] else b[i - |q|];
    }
    assert n < |b| ==> (q + b)[|q| + n] == b[n];
    BlockIs(c, q + b, MAX_BLOCK - 1, |q| + n);
  }

  /** What scanning a block and the lines after it comes to. */
  lemma ScanOfBlockAnd(c: Classifiers, h: string, q: seq<string>, b: seq<string>, since: Option<string>,
                       last: Option<string>)
    requires IsBlock(c, h, q, since)
    ensures var n := Taken(c, q, b);
            var later := Scan(c, b[n..], since, Advance(last, Stamp(h)));
            Scan(c, [h] + q + b, since, last) == Report([BlockOf(c, h, q + b[..n])] + later.findings, later.last)
  {
    hide BlockLength, Scan, Bodies, Body, Header, Continues, Skipped, TracebackFinding;
    var (n, lines) := (Taken(c, q, b), [h] + q + b);
    assert lines[0] == h && lines[1..] == q + b;
    BlockGoesOn(c, h, q, b, since);
    ScanOfHead(c, lines, since, last);
    assert (q + b)[..|q| + n] == q + b[..n] && (q + b)[|q| + n..] == b[n..];
  }

  /** The same with lines before it. */
  lemma ScanAroundBlock(c: Classifiers, p: seq<string>, h: string, q: seq<string>, b: seq<string>,
                        since: Option<string>, last: Option<string>)
    requires IsBlock(c, h, q, since)
    ensures var n := Taken(c, q, b);
            var before := Scan(c, p, since, last);
            var later := Scan(c, b[n..], since, Advance(before.last, Stamp(h)));
            Scan(c, p + [h] + q + b, since, last)
            == Report(before.findings + ([BlockOf(c, h, q + b[..n])] + later.findings), later.last)
  {
    hide Taken, Scan, BlockOf;
    var before := Scan(c, p, since, last);
    assert p + [h] + q + b == p + ([h] + q + b) && ([h] + q + b)[0] == h;
    ScanAppends(c, p, [h] + q + b, since, last);
    ScanOfBlockAnd(c, h, q, b, since, before.last);
  }

  // ------------------------------------------------------------------
  // A poll that ends inside a traceback
  // ------------------------------------------------------------------

  /** For every log that ends in a traceback, whatever comes next: a second poll completes the first one to what
      a single scan of the grown log reports if and only if the new lines leave the traceback's finding as it
      was, and the second poll reports exactly what follows it. */
  lemma CutTracebackIff(c: Classifiers, p: seq<string>, h: string, q: seq<string>, b: seq<string>,
                        since: Option<string>, calendar: Calendar, x: seq<Finding>)
    requires IsBlock(c, h, q, Start(since, calendar))
    ensures var n := Taken(c, q, b);
            var first := ScanFrom(c, p + [h] + q, since, calendar);
            var whole := ScanFrom(c, p + [h] + q + b, since, calendar);
            first.findings + x == whole.findings
            <==> BlockOf(c, h, q) == BlockOf(c, h, q + b[..n])
                 && x == Scan(c, b[n..], Start(since, calendar), first.last).findings
  {
    assert |q| <= MAX_BLOCK - 1;
    hide BlockOf, IsBlock;
    var (n, from) := (Taken(c, q, b), Start(since, calendar));
    var before := Scan(c, p, from, from);
    ScanOfCutLog(c, p, h, q, from);
    ScanAroundBlock(c, p, h, q, b, from, from);
    var later := Scan(c, b[n..], from, Advance(before.last, Stamp(h)));
    SameEnds(before.findings, BlockOf(c, h, q), x, BlockOf(c, h, q + b[..n]), later.findings);
  }

  lemma ScanOfCutLog(c: Classifiers, p: seq<string>, h: string, q: seq<string>, from: Option<string>)
    requires IsBlock(c, h, q, from)
    ensures var before := Scan(c, p, from, from);
            Scan(c, p + [h] + q, from, from)
            == Report(before.findings + [BlockOf(c, h, q)], Advance(before.last, Stamp(h)))
  {
    hide BlockOf, IsBlock;
    var before := Scan(c, p, from, from);
    ScanAroundBlock(c, p, h, q, [], from, from);
    assert p + [h] + q + [] == p + [h] + q && q + [][..Taken(c, q, [])] == q;
    assert Scan(c, [][Taken(c, q, [])..], from, Advance(before.last, Stamp(h)))
        == Report([], Advance(before.last, Stamp(h)));
    assert [BlockOf(c, h, q)] + [] == [BlockOf(c, h, q)];
  }

  lemma SameEnds<T>(a: seq<T>, f: T, x: seq<T>, g: T, y: seq<T>)
    ensures a + [f] + x == a + ([g] + y) <==> f == g && x == y
  {
    var (s, t) := (a + [f] + x, a + ([g] + y));
    assert s[|a|] == f && t[|a|] == g && s[|a| + 1..] == x && t[|a| + 1..] == y;
  }

  // ------------------------------------------------------------------
  // A traceback with lines newer than its header
  // ------------------------------------------------------------------

  /** For every traceback under a timestamp, anywhere in a log: polling the same log again from the first poll's
      cursor reports its continuation lines one by one, as far as they are newer than that cursor or have no
      timestamp, although the first poll has reported the traceback as a whole. */
  lemma TracebackIsReportedAgain(c: Classifiers, p: seq<string>, h: string, q: seq<string>, r: seq<string>,
                                 since: Option<string>, calendar: Calendar)
    requires IsBlock(c, h, q, Start(since, calendar)) && Stamp(h) != "" && HeaderFree(c, q) && StartsAfresh(c, r)
    ensures var log := p + [h] + q + r;
            var first := ScanFrom(c, log, since, calendar);
            var again := Scan(c, p, first.last, first.last);
            var after := Scan(c, r, first.last, Latest(q, again.last));
            && BlockOf(c, h, q) in first.findings
            && ScanFrom(c, log, first.last, calendar).findings
                 == again.findings + Hits(c, q, first.last) + after.findings
  {
    var (log, from) := (p + [h] + q + r, Start(since, calendar));
    var first := Scan(c, log, from, from);
    StartIsSettled(since, calendar);
    ScanIsSettled(c, log, from, from, calendar);
    FirstPollHasBlock(c, p, h, q, r, from);
    SecondPoll(c, p, h, q, r, first.last);
  }

  lemma FirstPollHasBlock(c: Classifiers, p: seq<string>, h: string, q: seq<string>, r: seq<string>,
                          from: Option<string>)
    requires IsBlock(c, h, q, from) && Stamp(h) != "" && StartsAfresh(c, r)
    ensures var first := Scan(c, p + [h] + q + r, from, from);
            BlockOf(c, h, q) in first.findings && Skipped(Stamp(h), first.last)
  {
    hide BlockOf, IsBlock;
    var before := Scan(c, p, from, from);
    ScanAroundBlock(c, p, h, q, r, from, from);
    AfreshTakesNothing(c, q, r);
    assert q + r[..0] == q && r[0..] == r;
    var seen := Advance(before.last, Stamp(h));
    var later := Scan(c, r, from, seen);
    AdvanceGrows(before.last, Stamp(h));
    ScanGrows(c, r, from, seen);
    CoversMore(later.last, seen, Stamp(h));
    var found := before.findings + ([BlockOf(c, h, q)] + later.findings);
    assert found[|before.findings|] == BlockOf(c, h, q);
  }

  lemma AfreshTakesNothing(c: Classifiers, q: seq<string>, r: seq<string>)
    requires |q| <= MAX_BLOCK - 1 && StartsAfresh(c, r)
    ensures Taken(c, q, r) == 0
  {
  }

  lemma FollowedFindings(a: Report, b: Report)
    ensures Followed(a, b).findings == a.findings + b.findings
  {
  }

  lemma SkippedFirst(c: Classifiers, lines: seq<string>, cursor: Option<string>, last: Option<string>)
    requires lines != [] && Skipped(Stamp(lines[0]), cursor)
    ensures Scan(c, lines, cursor, last) == Scan(c, lines[1..], cursor, last)
  {
  }

  lemma Regrouped<T>(p: seq<T>, h: T, q: seq<T>, r: seq<T>)
    ensures p + [h] + q + r == p + ([h] + q + r) && ([h] + q + r)[0] == h && ([h] + q + r)[1..] == q + r
  {
  }

  lemma SecondPoll(c: Classifiers, p: seq<string>, h: string, q: seq<string>, r: seq<string>, cursor: Option<string>)
    requires Skipped(Stamp(h), cursor) && !Continues(c, h) && HeaderFree(c, q) && StartsAfresh(c, r)
    ensures var again := Scan(c, p, cursor, cursor);
            var after := Scan(c, r, cursor, Latest(q, again.last));
            Scan(c, p + [h] + q + r, cursor, cursor).findings == again.findings + Hits(c, q, cursor) + after.findings
  {
    Regrouped(p, h, q, r);
    SecondPollOf(c, p, [h] + q + r, q, r, cursor);
  }

  lemma SecondPollOf(c: Classifiers, p: seq<string>, lines: seq<string>, q: seq<string>, r: seq<string>,
                     cursor: Option<string>)
    requires lines != [] && lines[1..] == q + r && Skipped(Stamp(lines[0]), cursor)
    requires StartsAfresh(c, lines) && HeaderFree(c, q) && StartsAfresh(c, r)
    ensures var again := Scan(c, p, cursor, cursor);
            var after := Scan(c, r, cursor, Latest(q, again.last));
            Scan(c, p + lines, cursor, cursor).findings == again.findings + Hits(c, q, cursor) + after.findings
  {
    hide *;
    var again := Scan(c, p, cursor, cursor);
    ScanAppends(c, p, lines, cursor, cursor);
    FollowedFindings(again, Scan(c, lines, cursor, again.last));
    SkippedFirst(c, lines, cursor, again.last);
    ScanGrows(c, p, cursor, cursor);
    LinesOneByOne(c, q, r, cursor, again.last);
    Grouped(again.findings, Hits(c, q, cursor), Scan(c, r, cursor, Latest(q, again.last)).findings);
  }

  lemma LinesOneByOne(c: Classifiers, q: seq<string>, r: seq<string>, cursor: Option<string>, last: Option<string>)
    requires HeaderFree(c, q) && StartsAfresh(c, r) && AtLeast(last, cursor)
    ensures Scan(c, q + r, cursor, last).findings
         == Hits(c, q, cursor) + Scan(c, r, cursor, Latest(q, last)).findings
  {
    hide Scan, Hits, Latest, HeaderFree;
    ScanAppends(c, q, r, cursor, last);
    HeaderFreeScan(c, q, cursor, last);
  }

  // ------------------------------------------------------------------
  // Logs in which both happen
  // ------------------------------------------------------------------

  /** Classifiers for two lines of log. */
  const SIMPLE := Classifiers(
    stripAnsi := s => s,
    traceback := s => s == "Traceback",
    continuation := s => s != "" && s[0] == ' ',
    json := _ => None,
    text := s => if s == " ERROR" then Some(Hit("error", s, "")) else None,
    redact := s => s,
    fingerprint := s => s)

  lemma PlainLine(s: string)
    requires s != "" && (s[0] == ' ' || ' ' !in s) && !IsSpace(s[|s| - 1])
    ensures Stamp(s) == "" && Body(SIMPLE, s) == s
  {
  }

  lemma PlainLines()
    ensures Stamp("Traceback") == "" && Body(SIMPLE, "Traceback") == "Traceback"
    ensures Stamp(" ERROR") == "" && Body(SIMPLE, " ERROR") == " ERROR"
  {
    hide Stamp, Body;
    assert ' ' !in "Traceback" && " ERROR"[0] == ' ';
    PlainLine("Traceback");
    PlainLine(" ERROR");
  }

  /** A poll that sees only the header: no second poll makes up for it. */
  lemma TornTraceback(calendar: Calendar, x: seq<Finding>)
    ensures ScanFrom(SIMPLE, ["Traceback"], None, calendar).findings + x
         != ScanFrom(SIMPLE, ["Traceback", " ERROR"], None, calendar).findings
  {
    var (h, b) := ("Traceback", [" ERROR"]);
    PlainLines();
    TornBlock();
    hide BlockOf, Body, Stamp, Scan;
    CutTracebackIff(SIMPLE, [], h, [], b, None, calendar, x);
    assert [] + [h] + [] == [h] && [] + [h] + [] + b == [h, " ERROR"];
    assert b[..1] == b && [] + b == b;
  }

  lemma TornBlock()
    ensures Taken(SIMPLE, [], [" ERROR"]) == 1
    ensures IsBlock(SIMPLE, "Traceback", [], None)
    ensures BlockOf(SIMPLE, "Traceback", []) != BlockOf(SIMPLE, "Traceback", [" ERROR"])
  {
    PlainLines();
    hide Body, Stamp;
    assert [" ERROR"][1..] == [];
    assert BlockOf(SIMPLE, "Traceback", []).message == "Traceback: " + "Traceback";
    assert BlockOf(SIMPLE, "Traceback", [" ERROR"]).message == "Traceback: " + " ERROR";
  }

  lemma SecondsHaveNoSpace(s: string)
    requires Seconds(s)
    ensures ' ' !in s
  {
    var (year, month, day, hour, minute, second) := (s[..4], s[5..7], s[8..10], s[11..13], s[14..16], s[17..]);
    SecondsParts(s);
    assert ' ' !in year && ' ' !in month && ' ' !in day && ' ' !in hour && ' ' !in minute && ' ' !in second;
  }

  lemma StampHasNoSpace(ts: string)
    requires UtcStamp(ts)
    ensures ' ' !in ts
  {
    var n := |ts| - 1;
    SecondsHaveNoSpace(ts[..19]);
    var f := ts[19..n];
    assert ' ' !in f by { assert f != "" ==> f == "." + f[1..]; }
    assert ts == ts[..19] + f + [ts[n]];
  }

  lemma StampedLine(ts: string, body: string)
    requires UtcStamp(ts)
    ensures SplitTimestamp(ts + " " + body) == Split(NormalizeUtc(ts), body)
  {
    assert ts != "";
    hide UtcStamp, NormalizeUtc;
    StampHasNoSpace(ts);
    IndexAfterPrefix(ts, ' ', body);
    var line := ts + " " + body;
    assert line[..|ts|] == ts && line[|ts| + 1..] == body;
  }

  /** An error line that continues a traceback with an earlier stamp: the second poll of the unchanged log
      reports that line again. */
  lemma RepeatedTraceback(one: string, two: string, calendar: Calendar)
    requires UtcStamp(one) && UtcStamp(two) && Less(NormalizeUtc(one), NormalizeUtc(two))
    ensures var log := [one + " " + "Traceback", two + " " + " ERROR"];
            var first := ScanFrom(SIMPLE, log, None, calendar);
            |first.findings| == 1 && |ScanFrom(SIMPLE, log, first.last, calendar).findings| == 1
  {
    NormalOfUtc(one);
    StampedPair(one, two);
    RepeatedPair(one + " " + "Traceback", two + " " + " ERROR", calendar);
  }

  lemma RepeatedPair(h: string, next: string, calendar: Calendar)
    requires IsBlock(SIMPLE, h, [next], None) && HeaderFree(SIMPLE, [next])
    requires Body(SIMPLE, next) == " ERROR" && Stamp(h) != "" && Less(Stamp(h), Stamp(next))
    ensures var first := ScanFrom(SIMPLE, [h, next], None, calendar);
            |first.findings| == 1 && |ScanFrom(SIMPLE, [h, next], first.last, calendar).findings| == 1
  {
    hide Less, IsBlock, HeaderFree, Stamp, Body, BlockOf, Hits;
    OnePoll(h, next);
    TracebackIsReportedAgain(SIMPLE, [], h, [next], [], None, calendar);
    assert [] + [h] + [next] + [] == [h, next];
    NotSkipped(h, next);
    OneHit(next, Some(Stamp(h)));
  }

  lemma NotSkipped(h: string, next: string)
    requires Less(Stamp(h), Stamp(next))
    ensures !Skipped(Stamp(next), Some(Stamp(h)))
  {
    LessIsTotal(Stamp(h), Stamp(next));
  }

  lemma OnePoll(h: string, next: string)
    requires IsBlock(SIMPLE, h, [next], None) && Stamp(h) != ""
    ensures var first := Scan(SIMPLE, [h, next], None, None); |first.findings| == 1 && first.last == Some(Stamp(h))
  {
    hide IsBlock, BlockOf;
    ScanOfCutLog(SIMPLE, [], h, [next], None);
    assert [] + [h] + [next] == [h, next];
  }

  lemma StampedPair(one: string, two: string)
    requires UtcStamp(one) && UtcStamp(two)
    ensures var (h, next) := (one + " " + "Traceback", two + " " + " ERROR");
            && Stamp(h) == NormalizeUtc(one) && Stamp(next) == NormalizeUtc(two)
            && Body(SIMPLE, h) == "Traceback" && Body(SIMPLE, next) == " ERROR"
            && IsBlock(SIMPLE, h, [next], None) && HeaderFree(SIMPLE, [next])
  {
    hide UtcStamp, NormalizeUtc;
    StampedLine(one, "Traceback");
    StampedLine(two, " ERROR");
  }

  lemma OneHit(next: string, cursor: Option<string>)
    requires Body(SIMPLE, next) == " ERROR" && !Skipped(Stamp(next), cursor)
    ensures |Hits(SIMPLE, [next], cursor)| == 1
  {
    assert [next][1..] == [];
  }
}
