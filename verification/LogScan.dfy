/** The resumable log scanner (src/services/alerts/log-scan.ts). The regular expressions that classify a
    line, the redaction and the fingerprint text are parameters, so what is proved holds for all of them. */
module LogScan {
  import opened Text
  import opened Wrappers
  import opened LogStamps

  datatype Hit = Hit(level: string, message: string, detail: string)

  datatype Finding = Finding(timestamp: string, level: string, message: string, detail: string, fingerprint: string)

  /** The regular expressions. */
  datatype Classifiers = Classifiers(
    stripAnsi: string -> string,
    traceback: string -> bool,
    continuation: string -> bool,
    json: string -> Option<Hit>,
    text: string -> Option<Hit>,
    redact: string -> string,
    fingerprint: string -> string)

  const MAX_BLOCK: nat := 40
  const MAX_MESSAGE: nat := 500
  const MAX_DETAIL: nat := 1800

  datatype Split = Split(timestamp: string, body: string)

  datatype Report = Report(findings: seq<Finding>, last: Option<string>)

  function MakeFinding(c: Classifiers, timestamp: string, h: Hit): Finding {
    var message := Cut(c.redact(h.message), MAX_MESSAGE);
    Finding(timestamp, h.level, message, Cut(c.redact(h.detail), MAX_DETAIL), c.fingerprint(message))
  }

  /** `splitTimestamp`. */
  function SplitTimestamp(line: string): Split {
    var space := IndexOf(line, ' ');
    if space > 0 && UtcStamp(line[..space]) then Split(NormalizeUtc(line[..space]), line[space + 1..])
    else Split("", line)
  }

  function Stamp(line: string): string { SplitTimestamp(line).timestamp }

  function Body(c: Classifiers, line: string): string { TrimEnd(c.stripAnsi(SplitTimestamp(line).body)) }

  predicate Skipped(t: string, since: Option<string>) {
    t != "" && since.Some? && !Less(since.value, t)
  }

  function Advance(last: Option<string>, t: string): Option<string> {
    if t != "" && (last.None? || Less(last.value, t)) then Some(t) else last
  }

  predicate Header(c: Classifiers, line: string) { Body(c, line) != "" && c.traceback(Body(c, line)) }

  predicate Continues(c: Classifiers, line: string) { c.continuation(Body(c, line)) }

  /** What a line that heads no traceback reports: nothing or one finding. */
  function LineHits(c: Classifiers, line: string): (hits: seq<Finding>)
    ensures |hits| <= 1
  {
    var body := Body(c, line);
    if body == "" then []
    else if c.json(body).Some? then [MakeFinding(c, Stamp(line), c.json(body).value)]
    else if c.text(body).Some? then [MakeFinding(c, Stamp(line), c.text(body).value)]
    else []
  }

  /** How many of the first lines, up to `room`, continue a traceback. */
  function BlockLength(c: Classifiers, lines: seq<string>, room: nat): (n: nat)
    ensures n <= |lines| && n <= room
    ensures forall i :: 0 <= i < n ==> Continues(c, lines[i])
    ensures n < |lines| && n < room ==> !Continues(c, lines[n])
  {
    if room == 0 || lines == [] || !Continues(c, lines[0]) then 0 else 1 + BlockLength(c, lines[1..], room - 1)
  }

  function Bodies(c: Classifiers, lines: seq<string>): (r: seq<string>)
    ensures |r| == |lines|
  {
    seq(|lines|, i requires 0 <= i < |lines| => Body(c, lines[i]))
  }

  function TracebackFinding(c: Classifiers, timestamp: string, block: seq<string>): Finding
    requires block != []
  {
    MakeFinding(c, timestamp, Hit("error", "Traceback: " + block[|block| - 1], Join(block, '\n')))
  }

  /** The scan of the remaining lines, from the latest timestamp seen so far. */
  function Scan(c: Classifiers, lines: seq<string>, since: Option<string>, last: Option<string>): Report
    decreases |lines|
  {
    if lines == [] then Report([], last)
    else
      var (line, rest) := (lines[0], lines[1..]);
      if Skipped(Stamp(line), since) then Scan(c, rest, since, last)
      else
        var seen := Advance(last, Stamp(line));
        if Header(c, line) then
          var n := BlockLength(c, rest, MAX_BLOCK - 1);
          var found := TracebackFinding(c, Stamp(line), [Body(c, line)] + Bodies(c, rest[..n]));
          var report := Scan(c, rest[n..], since, seen);
          Report([found] + report.findings, report.last)
        else
          var report := Scan(c, rest, since, seen);
          Report(LineHits(c, line) + report.findings, report.last)
  }

  function Start(since: Option<string>, calendar: Calendar): Option<string> {
    if since.Some? && since.value != "" then Some(Normalize(since.value, calendar)) else None
  }

  /** The whole scan of a log from a cursor. */
  function ScanFrom(c: Classifiers, lines: seq<string>, since: Option<string>, calendar: Calendar): Report {
    Scan(c, lines, Start(since, calendar), Start(since, calendar))
  }

  // ------------------------------------------------------------------
  // The loop
  // ------------------------------------------------------------------

  function BlockEnd(c: Classifiers, lines: seq<string>, first: nat): (e: nat)
    requires first <= |lines|
    ensures first <= e <= |lines|
  {
    first + BlockLength(c, lines[first..], MAX_BLOCK - 1)
  }

  lemma BlockEndStops(c: Classifiers, lines: seq<string>, first: nat)
    requires first <= |lines|
    ensures BlockEnd(c, lines, first) < first + MAX_BLOCK
    ensures forall k :: first <= k < BlockEnd(c, lines, first) ==> Continues(c, lines[k])
    ensures BlockEnd(c, lines, first) < |lines| && BlockEnd(c, lines, first) < first + MAX_BLOCK - 1 ==>
              !Continues(c, lines[BlockEnd(c, lines, first)])
  {
    var rest := lines[first..];
    forall k | first <= k < BlockEnd(c, lines, first)
      ensures Continues(c, lines[k])
    {
      assert rest[k - first] == lines[k];
    }
  }

  lemma BodiesSnoc(c: Classifiers, lines: seq<string>, first: nat, i: nat)
    requires first <= i < |lines|
    ensures Bodies(c, lines[first..i + 1]) == Bodies(c, lines[first..i]) + [Body(c, lines[i])]
  {
    assert lines[first..i + 1] == lines[first..i] + [lines[i]];
  }

  method ReadBlock(c: Classifiers, lines: seq<string>, first: nat, header: string)
    returns (block: seq<string>, i: nat)
    requires first <= |lines|
    ensures i == BlockEnd(c, lines, first)
    ensures block == [header] + Bodies(c, lines[first..i])
  {
    hide BlockEnd, Body, Continues;
    block, i := [header], first;
    ghost var end := BlockEnd(c, lines, first);
    BlockEndStops(c, lines, first);
    while i < |lines| && |block| < MAX_BLOCK
      invariant first <= i <= end
      invariant |block| == 1 + i - first
      invariant block == [header] + Bodies(c, lines[first..i])
    {
      if !Continues(c, lines[i]) { break; }
      BodiesSnoc(c, lines, first, i);
      block := block + [Body(c, lines[i])];
      i := i + 1;
    }
  }

  /** The report of a suffix, put behind what was found before it. */
  function Rest(c: Classifiers, lines: seq<string>, i: nat, since: Option<string>, sofar: Report): Report
    requires i <= |lines|
  {
    var report := Scan(c, lines[i..], since, sofar.last);
    Report(sofar.findings + report.findings, report.last)
  }

  lemma RestSkips(c: Classifiers, lines: seq<string>, i: nat, since: Option<string>, sofar: Report)
    requires i < |lines| && Skipped(Stamp(lines[i]), since)
    ensures Rest(c, lines, i, since, sofar) == Rest(c, lines, i + 1, since, sofar)
  {
    assert lines[i..][0] == lines[i] && lines[i..][1..] == lines[i + 1..];
  }

  lemma RestOfLine(c: Classifiers, lines: seq<string>, i: nat, since: Option<string>, sofar: Report)
    requires i < |lines| && !Skipped(Stamp(lines[i]), since) && !Header(c, lines[i])
    ensures Rest(c, lines, i, since, sofar)
         == Rest(c, lines, i + 1, since,
                 Report(sofar.findings + LineHits(c, lines[i]), Advance(sofar.last, Stamp(lines[i]))))
  {
    assert lines[i..][0] == lines[i] && lines[i..][1..] == lines[i + 1..];
    var seen := Advance(sofar.last, Stamp(lines[i]));
    var later := Scan(c, lines[i + 1..], since, seen).findings;
    Grouped(sofar.findings, LineHits(c, lines[i]), later);
  }

  /** The finding for the traceback that line `i` heads. */
  function BlockFinding(c: Classifiers, lines: seq<string>, i: nat): Finding
    requires i < |lines|
  {
    TracebackFinding(c, Stamp(lines[i]), [Body(c, lines[i])] + Bodies(c, lines[i + 1..BlockEnd(c, lines, i + 1)]))
  }

  lemma RestOfBlock(c: Classifiers, lines: seq<string>, i: nat, since: Option<string>, sofar: Report)
    requires i < |lines| && !Skipped(Stamp(lines[i]), since) && Header(c, lines[i])
    ensures Rest(c, lines, i, since, sofar)
         == Rest(c, lines, BlockEnd(c, lines, i + 1), since,
                 Report(sofar.findings + [BlockFinding(c, lines, i)], Advance(sofar.last, Stamp(lines[i]))))
  {
    ScanOfBlock(c, lines, i, since, sofar.last);
    var later := Scan(c, lines[BlockEnd(c, lines, i + 1)..], since, Advance(sofar.last, Stamp(lines[i]))).findings;
    Grouped(sofar.findings, [BlockFinding(c, lines, i)], later);
  }

  lemma Grouped<T>(a: seq<T>, b: seq<T>, d: seq<T>)
    ensures a + (b + d) == a + b + d
  {
  }

  lemma ScanOfBlock(c: Classifiers, lines: seq<string>, i: nat, since: Option<string>, last: Option<string>)
    requires i < |lines| && !Skipped(Stamp(lines[i]), since) && Header(c, lines[i])
    ensures var later := Scan(c, lines[BlockEnd(c, lines, i + 1)..], since, Advance(last, Stamp(lines[i])));
            Scan(c, lines[i..], since, last) == Report([BlockFinding(c, lines, i)] + later.findings, later.last)
  {
    hide BlockLength, TracebackFinding, Bodies, Body, LineHits, Stamp, Header, Skipped, Advance;
    var end := BlockEnd(c, lines, i + 1);
    var rest := lines[i + 1..];
    assert lines[i..][0] == lines[i] && lines[i..][1..] == rest;
    assert rest[..end - i - 1] == lines[i + 1..end] && rest[end - i - 1..] == lines[end..];
  }

  method ScanLogLines(c: Classifiers, lines: seq<string>, since: Option<string>, calendar: Calendar)
    returns (findings: seq<Finding>, lastTimestamp: Option<string>)
    ensures Report(findings, lastTimestamp) == ScanFrom(c, lines, since, calendar)
  {
    var from := Start(since, calendar);
    findings, lastTimestamp := [], from;
    var i := 0;
    assert lines[0..] == lines;
    while i < |lines|
      invariant 0 <= i <= |lines|
      invariant Rest(c, lines, i, from, Report(findings, lastTimestamp)) == ScanFrom(c, lines, since, calendar)
    {
      var found;
      found, lastTimestamp, i := ScanLine(c, lines, i, from, findings, lastTimestamp);
      findings := found;
    }
    assert lines[|lines|..] == [];
  }

  /** One round of the loop: line `i`, and the traceback it may head. */
  method ScanLine(c: Classifiers, lines: seq<string>, i: nat, from: Option<string>, findings: seq<Finding>,
                  last: Option<string>)
    returns (more: seq<Finding>, lastTimestamp: Option<string>, next: nat)
    requires i < |lines|
    ensures i < next <= |lines|
    ensures Rest(c, lines, i, from, Report(findings, last)) == Rest(c, lines, next, from, Report(more, lastTimestamp))
  {
    var line := lines[i];
    ghost var sofar := Report(findings, last);
    more, lastTimestamp, next := findings, last, i + 1;
    if Skipped(Stamp(line), from) {
      RestSkips(c, lines, i, from, sofar);
      return;
    }
    lastTimestamp := Advance(last, Stamp(line));
    var body := Body(c, line);
    if body != "" && c.traceback(body) {
      RestOfBlock(c, lines, i, from, sofar);
      var block;
      block, next := ReadBlock(c, lines, i + 1, body);
      more := findings + [TracebackFinding(c, Stamp(line), block)];
    } else {
      RestOfLine(c, lines, i, from, sofar);
      var hits := ClassifyLine(c, line, body);
      more := findings + hits;
    }
  }

  method ClassifyLine(c: Classifiers, line: string, body: string) returns (hits: seq<Finding>)
    requires body == Body(c, line)
    ensures hits == LineHits(c, line)
  {
    if body == "" { return []; }
    var json := c.json(body);
    if json.Some? {
      return [MakeFinding(c, Stamp(line), json.value)];
    }
    var text := c.text(body);
    hits := if text.Some? then [MakeFinding(c, Stamp(line), text.value)] else [];
  }
}
