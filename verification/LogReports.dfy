/** What a finding says, told from the line it comes from (src/services/alerts/log-scan.ts:65-76, 133-176). */
module LogReports {
  import opened Text
  import opened Wrappers
  import opened LogScan
  import opened LogTracebacks

  /** The finding for this level, message and detail: both texts redacted first and cut afterwards, and the fingerprint
      that of the message as stored. */
  predicate Shows(c: Classifiers, f: Finding, level: string, message: string, detail: string) {
    && f.level == level
    && f.message == First(c.redact(message), 500) && f.detail == First(c.redact(detail), 1800)
    && f.fingerprint == c.fingerprint(f.message)
  }

  function First(s: string, n: nat): string { if |s| > n then s[..n] else s }

  /** The finding stands for `line`, under its time: for a traceback that starts there, for the structured entry it
      holds, or, if it holds none, for the pattern it matches. */
  ghost predicate StandsFor(c: Classifiers, f: Finding, line: string) {
    var body := Body(c, line);
    && body != "" && f.timestamp == Stamp(line)
    && if c.traceback(body) then exists last, block :: Shows(c, f, "error", "Traceback: " + last, block)
       else if c.json(body).Some? then
         Shows(c, f, c.json(body).value.level, c.json(body).value.message, c.json(body).value.detail)
       else
         c.text(body).Some?
         && Shows(c, f, c.text(body).value.level, c.text(body).value.message, c.text(body).value.detail)
  }

  ghost predicate AllStand(c: Classifiers, findings: seq<Finding>, lines: seq<string>, since: Option<string>) {
    forall f :: f in findings ==> exists line :: line in lines && !Skipped(Stamp(line), since) && StandsFor(c, f, line)
  }

  lemma HitsStand(c: Classifiers, line: string)
    requires !Header(c, line)
    ensures forall f :: f in LineHits(c, line) ==> StandsFor(c, f, line)
  {
    var body := Body(c, line);
    if body != "" && c.json(body).Some? {
      MadeShows(c, Stamp(line), c.json(body).value);
    } else if body != "" && c.text(body).Some? {
      MadeShows(c, Stamp(line), c.text(body).value);
    }
    hide MakeFinding, Shows, Body, Stamp;
  }

  lemma MadeShows(c: Classifiers, t: string, h: Hit)
    ensures var f := MakeFinding(c, t, h); f.timestamp == t && Shows(c, f, h.level, h.message, h.detail)
  {
  }

  lemma TracebackStands(c: Classifiers, line: string, block: seq<string>)
    requires Header(c, line) && block != []
    ensures StandsFor(c, TracebackFinding(c, Stamp(line), block), line)
  {
    var f := TracebackFinding(c, Stamp(line), block);
    assert Shows(c, f, "error", "Traceback: " + block[|block| - 1], Join(block, '\n'));
  }

  lemma StandAmongMore(c: Classifiers, a: seq<Finding>, x: seq<string>, b: seq<Finding>, y: seq<string>,
                       lines: seq<string>, since: Option<string>)
    requires AllStand(c, a, x, since) && AllStand(c, b, y, since)
    requires (forall l :: l in x ==> l in lines) && (forall l :: l in y ==> l in lines)
    ensures AllStand(c, a + b, lines, since)
  {
    hide StandsFor, Skipped;
  }

  /** Every finding of a scan stands for a line that was not skipped. */
  lemma {:induction false} FindingsStandForLines(c: Classifiers, lines: seq<string>, since: Option<string>,
                                                 last: Option<string>)
    ensures AllStand(c, Scan(c, lines, since, last).findings, lines, since)
    decreases |lines|
  {
    if lines != [] {
      var (line, rest) := (lines[0], lines[1..]);
      var seen := Advance(last, Stamp(line));
      hide StandsFor, Header, Skipped, TracebackFinding, Body, LineHits, Advance;
      if Skipped(Stamp(line), since) {
        FindingsStandForLines(c, rest, since, last);
        StandAmongMore(c, [], [], Scan(c, rest, since, last).findings, rest, lines, since);
        assert [] + Scan(c, rest, since, last).findings == Scan(c, rest, since, last).findings;
      } else if Header(c, line) {
        var n := BlockLength(c, rest, MAX_BLOCK - 1);
        var block := [Body(c, line)] + Bodies(c, rest[..n]);
        FindingsStandForLines(c, rest[n..], since, seen);
        TracebackStands(c, line, block);
        assert AllStand(c, [TracebackFinding(c, Stamp(line), block)], [line], since);
        StandAmongMore(c, [TracebackFinding(c, Stamp(line), block)], [line], Scan(c, rest[n..], since, seen).findings,
                       rest[n..], lines, since);
      } else {
        FindingsStandForLines(c, rest, since, seen);
        HitsStand(c, line);
        assert AllStand(c, LineHits(c, line), [line], since);
        StandAmongMore(c, LineHits(c, line), [line], Scan(c, rest, since, seen).findings, rest, lines, since);
      }
    }
  }

  /** The lines as a traceback shows them. */
  predicate AreBodies(c: Classifiers, lines: seq<string>, bodies: seq<string>) {
    |bodies| == |lines| && forall i :: 0 <= i < |lines| ==> bodies[i] == Body(c, lines[i])
  }

  /** A header and up to 39 lines that continue it are one error, named after the last of them and showing them all; a
      fortieth is read on its own, like any line after the block. */
  lemma TracebackIsOneFinding(c: Classifiers, h: string, q: seq<string>, b: seq<string>, bodies: seq<string>,
                              since: Option<string>, last: Option<string>)
    requires Header(c, h) && !Skipped(Stamp(h), since)
    requires |q| <= 39 && (forall i :: 0 <= i < |q| ==> Continues(c, q[i])) && AreBodies(c, [h] + q, bodies)
    requires b == [] || |q| == 39 || !Continues(c, b[0])
    ensures var findings := Scan(c, [h] + q + b, since, last).findings;
            && findings != [] && findings[0].timestamp == Stamp(h)
            && Shows(c, findings[0], "error", "Traceback: " + bodies[|q|], Join(bodies, '\n'))
            && findings[1..] == Scan(c, b, since, Advance(last, Stamp(h))).findings
  {
    BlockBetween(c, h, q, b, bodies);
    hide Header, Skipped, Scan, Advance, Body, HeadFinding, AfterBlock, TracebackFinding, AreBodies;
    var lines := [h] + q + b;
    assert lines[0] == h;
    ScanOfHead(c, lines, since, last);
    TracebackShows(c, Stamp(h), bodies);
  }

  lemma TracebackShows(c: Classifiers, t: string, bodies: seq<string>)
    requires bodies != []
    ensures var f := TracebackFinding(c, t, bodies);
            f.timestamp == t && Shows(c, f, "error", "Traceback: " + bodies[|bodies| - 1], Join(bodies, '\n'))
  {
    MadeShows(c, t, Hit("error", "Traceback: " + bodies[|bodies| - 1], Join(bodies, '\n')));
  }

  lemma BlockBetween(c: Classifiers, h: string, q: seq<string>, b: seq<string>, bodies: seq<string>)
    requires |q| <= 39 && (forall i :: 0 <= i < |q| ==> Continues(c, q[i])) && AreBodies(c, [h] + q, bodies)
    requires b == [] || |q| == 39 || !Continues(c, b[0])
    ensures var lines := [h] + q + b;
            AfterBlock(c, lines) == b && HeadFinding(c, lines) == TracebackFinding(c, Stamp(h), bodies)
  {
    BlockEnds(c, q, b);
    Parts(h, q, b);
    hide Continues, Body, BlockLength, TracebackFinding;
    assert [Body(c, h)] + Bodies(c, q) == bodies;
  }

  lemma BlockEnds(c: Classifiers, q: seq<string>, b: seq<string>)
    requires |q| <= 39 && (forall i :: 0 <= i < |q| ==> Continues(c, q[i]))
    requires b == [] || |q| == 39 || !Continues(c, b[0])
    ensures BlockLength(c, q + b, 39) == |q|
  {
    hide Continues, BlockLength;
    assert forall i :: 0 <= i < |q| ==> (q + b)[i] == q[i];
    assert b != [] ==> (q + b)[|q|] == b[0];
    BlockIs(c, q + b, 39, |q|);
  }

  lemma Parts(h: string, q: seq<string>, b: seq<string>)
    ensures ([h] + q + b)[0] == h && ([h] + q + b)[1..] == q + b
    ensures (q + b)[..|q|] == q && (q + b)[|q|..] == b
  {
  }
}
