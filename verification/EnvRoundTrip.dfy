/** Printing rows and parsing the text gives the rows back (src/lib/env-files.ts). */
module EnvRoundTrip {
  import opened Wrappers
  import opened Text
  import opened EnvText
  import opened EnvFiles

  // ------------------------------------------------------------------
  // What the text means
  // ------------------------------------------------------------------

  /** An unquoted value that begins with an apostrophe is read as a single-quoted literal. */
  predicate ReadAsLiteral(v: string) {
    v != "" && v[0] == '\'' && !NeedsQuotes(v)
  }

  function ValueBack(v: string): string {
    if ReadAsLiteral(v) then ReadLiteral(v) else v
  }

  function TrimAll(parts: seq<string>): (r: seq<string>)
    ensures |r| == |parts|
  {
    seq(|parts|, i requires 0 <= i < |parts| => Trim(parts[i]))
  }

  function DescriptionBack(d: Option<string>): Option<string> {
    if d.Some? && d.value != "" then Some(Join(TrimAll(SplitOn(d.value, '\n')), '\n')) else None
  }

  function RowBack(row: EnvRow): EnvRow {
    EnvRow(row.key, ValueBack(Clean(row.value)), DescriptionBack(row.description))
  }

  function RowsBack(rows: seq<EnvRow>): (r: seq<EnvRow>)
    ensures |r| == |rows|
  {
    seq(|rows|, i requires 0 <= i < |rows| => RowBack(rows[i]))
  }

  function Cleaned(rows: seq<EnvRow>): (r: seq<EnvRow>)
    ensures |r| == |rows|
  {
    seq(|rows|, i requires 0 <= i < |rows| => rows[i].(value := Clean(rows[i].value)))
  }

  function KeysOf(rows: seq<EnvRow>): set<string> {
    set i | 0 <= i < |rows| :: rows[i].key
  }

  // ------------------------------------------------------------------
  // One comment line
  // ------------------------------------------------------------------

  lemma TrimOfTrimEnd(s: string)
    ensures Trim(TrimEnd(s)) == Trim(s)
  {
    TrimsCommute(s);
    TrimsCommute(TrimEnd(s));
    assert TrimEnd(TrimEnd(s)) == TrimEnd(s);
  }

  lemma TrimIgnoresFinalCr(s: string)
    ensures Trim(StripCr(s)) == Trim(s)
  {
    if s != "" && s[|s| - 1] == '\r' {
      var t := s[..|s| - 1];
      assert s == t + "\r";
      TrimEndBlank(t, "\r");
      TrimsCommute(s);
      TrimsCommute(t);
    }
  }

  lemma HashLine(part: string)
    ensures var line := Trim(StripCr("# " + part));
            line != "" && line[0] == '#' && Trim(line[1..]) == Trim(part)
  {
    hide TrimEnd;
    var s := StripCr("# " + part);
    var d := s[2..];
    assert s == "# " + d && d == StripCr(part);
    TrimIgnoresFinalCr(part);
    assert s == "#" + (" " + d);
    TrimEndStops("#", " " + d);
    assert TrimStart(s) == s;
    assert Trim(s) == "#" + TrimEnd(" " + d);
    assert Trim(s)[1..] == TrimEnd(" " + d);
    TrimOfTrimEnd(" " + d);
    assert (" " + d)[1..] == d;
  }

  lemma ParseOneHashed(part: string, tail: seq<string>, comments: seq<string>, seen: set<string>, rows: seq<EnvRow>)
    ensures ParseLines([StripCr("# " + part)] + tail, comments, seen, rows)
            == ParseLines(tail, comments + [Trim(part)], seen, rows)
  {
    HashLine(part);
    var lines := [StripCr("# " + part)] + tail;
    assert lines[1..] == tail;
  }

  lemma HashedFront(parts: seq<string>, tail: seq<string>)
    requires parts != []
    ensures StripAll(Hashed(parts)) + tail == [StripCr("# " + parts[0])] + (StripAll(Hashed(parts[1..])) + tail)
  {
    hide StripCr;
    assert Hashed(parts) == ["# " + parts[0]] + Hashed(parts[1..]);
  }

  lemma TrimAllFront(comments: seq<string>, parts: seq<string>)
    requires parts != []
    ensures comments + TrimAll(parts) == comments + [Trim(parts[0])] + TrimAll(parts[1..])
  {
    hide Trim;
    assert TrimAll(parts) == [Trim(parts[0])] + TrimAll(parts[1..]);
  }

  lemma {:induction false} ParseHashed(parts: seq<string>, tail: seq<string>, comments: seq<string>, seen: set<string>,
                                       rows: seq<EnvRow>)
    ensures ParseLines(StripAll(Hashed(parts)) + tail, comments, seen, rows)
            == ParseLines(tail, comments + TrimAll(parts), seen, rows)
    decreases |parts|
  {
    if parts == [] {
      assert StripAll(Hashed(parts)) + tail == tail && comments + TrimAll(parts) == comments;
    } else {
      hide *;
      var rest := StripAll(Hashed(parts[1..])) + tail;
      HashedFront(parts, tail);
      TrimAllFront(comments, parts);
      ParseOneHashed(parts[0], rest, comments, seen, rows);
      ParseHashed(parts[1..], tail, comments + [Trim(parts[0])], seen, rows);
    }
  }

  // ------------------------------------------------------------------
  // One key line
  // ------------------------------------------------------------------

  lemma KeyIsTrimmed(k: string)
    requires ValidKey(k)
    ensures Trim(k) == k && '=' !in k
    ensures !IsSpace(k[0]) && !IsSpace(k[|k| - 1]) && k[0] != '#'
  {
    TrimmedIsFixed(k);
    assert IsKeyStart(k[|k| - 1]) || IsDigit(k[|k| - 1]);
  }

  /** How the parser sees a printed key line. */
  lemma KeyLine(key: string, rest: string)
    requires ValidKey(key)
    ensures var raw := key + "=" + rest;
            var line := Trim(raw);
            && line != "" && line[0] != '#'
            && IndexOf(raw, '=') == |key| && Trim(raw[..|key|]) == key && raw[|key| + 1..] == rest
  {
    KeyIsTrimmed(key);
    var raw := key + "=" + rest;
    assert TrimStart(raw) == raw;
    assert raw == key + ("=" + rest);
    TrimEndStops(key, "=" + rest);
    IndexAfterPrefix(key, '=', rest);
    assert raw[..|key|] == key;
  }

  lemma ReadPrintedValue(v: string, following: seq<string>)
    ensures ReadValue(QuoteIfNeeded(v), following) == (ValueBack(v), following)
  {
    var q := QuoteIfNeeded(v);
    if NeedsQuotes(v) {
      ChainIsEscape(v);
      ClosingQuoteEndsEscape(v);
      UnescapeInvertsEscape(v);
      assert q[1..] == Escape(v) + "\"";
      assert q[1..][..|Escape(v)|] == Escape(v);
    } else if v != "" && v[0] != '\'' {
      assert !ForcesQuotes(v[0]);
      TrimmedIsFixed(v);
    }
  }

  lemma ParseKeyLine(row: EnvRow, tail: seq<string>, comments: seq<string>, seen: set<string>, rows: seq<EnvRow>)
    requires ValidKey(row.key)
    ensures ParseLines([RowLine(row)] + tail, comments, seen, rows)
            == if row.key in seen then Err("duplicate key: " + row.key)
               else ParseLines(tail, [], seen + {row.key},
                               rows + [EnvRow(row.key, ValueBack(Clean(row.value)), Describe(comments))])
  {
    var q := QuoteIfNeeded(Clean(row.value));
    KeyLine(row.key, q);
    var lines := [RowLine(row)] + tail;
    assert lines[1..] == tail;
    ReadPrintedValue(Clean(row.value), tail);
  }

  // ------------------------------------------------------------------
  // One row, all rows
  // ------------------------------------------------------------------

  lemma StripAllConcat(a: seq<string>, b: seq<string>)
    ensures StripAll(a + b) == StripAll(a) + StripAll(b)
  {
  }

  lemma RowLineHasNoCr(row: EnvRow)
    ensures StripCr(RowLine(row)) == RowLine(row)
  {
    QuotedIsOneLine(Clean(row.value));
  }

  lemma ParseRow(row: EnvRow, tail: seq<string>, seen: set<string>, rows: seq<EnvRow>)
    requires ValidKey(row.key)
    ensures ParseLines(StripAll(RowLines(row)) + tail, [], seen, rows)
            == if row.key in seen then Err("duplicate key: " + row.key)
               else ParseLines(tail, [], seen + {row.key}, rows + [RowBack(row)])
  {
    var comments := CommentLines(row.description);
    StripAllConcat(comments, [RowLine(row)]);
    RowLineHasNoCr(row);
    assert StripAll([RowLine(row)]) == [RowLine(row)];
    var rest := [RowLine(row)] + tail;
    assert StripAll(RowLines(row)) + tail == StripAll(comments) + rest;
    if row.description.Some? && row.description.value != "" {
      var parts := SplitOn(row.description.value, '\n');
      ParseHashed(parts, rest, [], seen, rows);
      assert [] + TrimAll(parts) == TrimAll(parts);
      ParseKeyLine(row, tail, TrimAll(parts), seen, rows);
    } else {
      assert StripAll(comments) + rest == rest;
      ParseKeyLine(row, tail, [], seen, rows);
    }
  }

  lemma {:induction false} ParseAllRows(rows: seq<EnvRow>, tail: seq<string>)
    requires ValidKeys(rows)
    ensures var r := ParseLines(StripAll(AllLines(rows)) + tail, [], {}, []);
            if DistinctKeys(rows) then r == ParseLines(tail, [], KeysOf(rows), RowsBack(rows)) else r.Err?
    decreases |rows|
  {
    if rows == [] {
      assert StripAll(AllLines(rows)) + tail == tail;
      assert KeysOf(rows) == {} && RowsBack(rows) == [];
    } else {
      var front, last := rows[..|rows| - 1], rows[|rows| - 1];
      var rest := StripAll(RowLines(last)) + tail;
      PrintedSnoc(rows, tail);
      ParseAllRows(front, rest);
      DistinctSnoc(rows);
      ParseRow(last, tail, KeysOf(front), RowsBack(front));
    }
  }

  lemma PrintedSnoc(rows: seq<EnvRow>, tail: seq<string>)
    requires rows != []
    ensures var front, last := rows[..|rows| - 1], rows[|rows| - 1];
            && StripAll(AllLines(rows)) + tail == StripAll(AllLines(front)) + (StripAll(RowLines(last)) + tail)
            && RowsBack(rows) == RowsBack(front) + [RowBack(last)]
  {
    hide StripAll, RowLines, RowBack;
    PrintedLines(AllLines(rows[..|rows| - 1]), RowLines(rows[|rows| - 1]), tail);
  }

  lemma PrintedLines(a: seq<string>, b: seq<string>, tail: seq<string>)
    ensures StripAll(a + b) + tail == StripAll(a) + (StripAll(b) + tail)
  {
    StripAllConcat(a, b);
  }

  lemma DistinctSnoc(rows: seq<EnvRow>)
    requires rows != []
    ensures var front, key := rows[..|rows| - 1], rows[|rows| - 1].key;
            && (DistinctKeys(rows) <==> DistinctKeys(front) && key !in KeysOf(front))
            && KeysOf(rows) == KeysOf(front) + {key}
  {
    var n := |rows| - 1;
    var front, key := rows[..n], rows[n].key;
    forall k ensures k in KeysOf(rows) <==> k in KeysOf(front) + {key} {
      if k in KeysOf(rows) {
        var i :| 0 <= i < |rows| && rows[i].key == k;
        if i < n { assert front[i].key == k; }
      }
      if k in KeysOf(front) {
        var i :| 0 <= i < n && front[i].key == k;
        assert rows[i].key == k;
      }
    }
    assert KeysOf(rows) == KeysOf(front) + {key};
    if DistinctKeys(front) && key !in KeysOf(front) {
      forall i, j | 0 <= i < j < |rows| ensures rows[i].key != rows[j].key {
        assert front[i].key == rows[i].key;
        if j < n { assert front[j].key == rows[j].key; }
      }
    }
    if DistinctKeys(rows) {
      forall i, j | 0 <= i < j < n ensures front[i].key != front[j].key {
        assert rows[i].key != rows[j].key;
      }
    }
  }

  lemma {:induction false} PrintedLinesAreLines(rows: seq<EnvRow>)
    requires ValidKeys(rows)
    ensures forall p :: p in AllLines(rows) ==> '\n' !in p
    ensures AllLines(rows) == [] <==> rows == []
    decreases |rows|
  {
    if rows != [] {
      var front, last := rows[..|rows| - 1], rows[|rows| - 1];
      PrintedLinesAreLines(front);
      RowLinesAreLines(last);
      LinesAppend(AllLines(front), RowLines(last));
    }
  }

  lemma LinesAppend(a: seq<string>, b: seq<string>)
    requires forall p :: p in a ==> '\n' !in p
    requires forall p :: p in b ==> '\n' !in p
    ensures forall p :: p in a + b ==> '\n' !in p
  {
  }

  lemma RowLinesAreLines(row: EnvRow)
    requires ValidKey(row.key)
    ensures forall p :: p in RowLines(row) ==> '\n' !in p
  {
    var comments := CommentLines(row.description);
    forall i | 0 <= i < |comments|
      ensures '\n' !in comments[i]
    {
      var parts := SplitOn(row.description.value, '\n');
      assert parts[i] in parts;
    }
    RowLineIsALine(row);
    LinesAppend(comments, [RowLine(row)]);
  }

  lemma RowLineIsALine(row: EnvRow)
    requires ValidKey(row.key)
    ensures '\n' !in RowLine(row)
  {
    QuotedIsOneLine(Clean(row.value));
    assert forall i :: 0 <= i < |row.key| ==> row.key[i] != '\n';
  }

  // ------------------------------------------------------------------
  // The round trip
  // ------------------------------------------------------------------

  /** What parsing printed rows gives, for all rows with valid keys. */
  lemma ParseOfPrinted(rows: seq<EnvRow>)
    requires ValidKeys(rows)
    ensures var r := ParseLines(SplitLines(Content(rows)), [], {}, []);
            if DistinctKeys(rows) then r == Ok(RowsBack(rows)) else r.Err?
  {
    PrintedLinesAreLines(rows);
    ParseAllRows(rows, [""]);
    assert [""][1..] == [] && Trim("") == "";
    if rows == [] {
      assert SplitLines("") == [""];
      assert StripAll(AllLines(rows)) + [""] == [""];
    } else {
      SplitPrinted(AllLines(rows));
    }
  }

  /** A description comes back when it is absent, or not empty with every line already trimmed. */
  predicate DescriptionSurvives(d: Option<string>) {
    d.None? || (d.value != "" && forall p :: p in SplitOn(d.value, '\n') ==> Trimmed(p))
  }

  predicate RowSurvives(row: EnvRow) {
    !ReadAsLiteral(Clean(row.value)) && DescriptionSurvives(row.description)
  }

  lemma LiteralIsShorter(v: string)
    requires ReadAsLiteral(v)
    ensures |ReadLiteral(v)| < |v|
  {
  }

  lemma {:induction false} TrimmedJoinIsShorter(parts: seq<string>)
    ensures |Join(TrimAll(parts), '\n')| <= |Join(parts, '\n')|
    ensures |Join(TrimAll(parts), '\n')| == |Join(parts, '\n')| ==> forall p :: p in parts ==> Trimmed(p)
  {
    if parts != [] {
      TrimmedIsFixed(parts[0]);
      assert |Trim(parts[0])| == |parts[0]| ==> Trim(parts[0]) == parts[0] by {
        if |Trim(parts[0])| == |parts[0]| { FullTrim(parts[0]); }
      }
      if |parts| > 1 {
        TrimmedJoinIsShorter(parts[1..]);
        assert TrimAll(parts)[1..] == TrimAll(parts[1..]);
        assert parts == [parts[0]] + parts[1..];
      }
    }
  }

  lemma FullTrim(s: string)
    requires |Trim(s)| == |s|
    ensures Trim(s) == s
  {
    assert |TrimStart(s)| == |s|;
  }

  lemma DescriptionBackIff(d: Option<string>)
    ensures DescriptionBack(d) == d <==> DescriptionSurvives(d)
  {
    if d.Some? && d.value != "" {
      var parts := SplitOn(d.value, '\n');
      JoinInvertsSplit(d.value, '\n');
      if DescriptionSurvives(d) {
        forall i | 0 <= i < |parts| ensures TrimAll(parts)[i] == parts[i] {
          assert parts[i] in parts;
          TrimmedIsFixed(parts[i]);
        }
        assert TrimAll(parts) == parts;
      } else {
        TrimmedJoinIsShorter(parts);
      }
    }
  }

  /** The round trip, exactly: rows with valid keys come back in order, with control characters stripped,
      if and only if no key repeats, no cleaned value is an unquoted one starting with an apostrophe, and
      every description is absent or non-empty with trimmed lines. */
  lemma RoundTrip(rows: seq<EnvRow>)
    requires ValidKeys(rows)
    ensures ParseLines(SplitLines(Content(rows)), [], {}, []) == Ok(Cleaned(rows))
            <==> DistinctKeys(rows) && forall i :: 0 <= i < |rows| ==> RowSurvives(rows[i])
  {
    ParseOfPrinted(rows);
    forall i | 0 <= i < |rows| ensures RowsBack(rows)[i] == Cleaned(rows)[i] <==> RowSurvives(rows[i]) {
      DescriptionBackIff(rows[i].description);
      if ReadAsLiteral(Clean(rows[i].value)) { LiteralIsShorter(Clean(rows[i].value)); }
    }
    if forall i :: 0 <= i < |rows| ==> RowSurvives(rows[i]) {
      assert RowsBack(rows) == Cleaned(rows);
    } else {
      var i :| 0 <= i < |rows| && !RowSurvives(rows[i]);
      assert RowsBack(rows)[i] != Cleaned(rows)[i];
    }
  }

  /** An apostrophe at the start is lost. */
  lemma ApostropheIsLost()
    ensures ParseLines(SplitLines(Content([EnvRow("K", "'a", None)])), [], {}, []) == Ok([EnvRow("K", "a", None)])
  {
    var row := EnvRow("K", "'a", None);
    var v := "'a";
    assert v == ['\'', 'a'] && v[1..] == "a" && v[1..][1..] == "";
    assert Clean("") == "" && Clean("a") == "a" && Clean(v) == v;
    assert !NeedsQuotes(v);
    assert LastIndexOf(v, '\'') == 0;
    ParseOfPrinted([row]);
    assert RowsBack([row]) == [EnvRow("K", "a", None)];
  }
}
