/** What the parser makes of dotenv text that somebody wrote by hand (src/lib/env-files.ts:66-124): forms the printer
    never emits, and the comments above a key. */
module EnvHandwritten {
  import opened Wrappers
  import opened Text
  import opened EnvText
  import opened EnvFiles
  import opened EnvRoundTrip

  function Parse(content: string): Result<seq<EnvRow>, string> { ParseLines(SplitLines(content), [], {}, []) }

  predicate White(s: string) { Text.Blank(s) }

  /** A line that gives key `k` the text `rest`. */
  function Assign(k: string, rest: string): string { k + "=" + rest }

  lemma OneLine(s: string)
    requires '\n' !in s
    ensures SplitLines(s) == [s]
  {
    assert IndexOf(s, '\n') < 0;
  }

  lemma PairStep(lines: seq<string>, comments: seq<string>, seen: set<string>, rows: seq<EnvRow>, k: string,
                 rest: string, value: string, after: seq<string>)
    requires lines != [] && ReadLine(lines[0]) == Pair(k, rest) && k !in seen
    requires ReadValue(rest, lines[1..]) == (value, after)
    ensures ParseLines(lines, comments, seen, rows)
         == ParseLines(after, [], seen + {k}, rows + [EnvRow(k, value, Describe(comments))])
  {
  }

  lemma CommentStep(lines: seq<string>, comments: seq<string>, seen: set<string>, rows: seq<EnvRow>, text: string)
    requires lines != [] && ReadLine(lines[0]) == Comment(text)
    ensures ParseLines(lines, comments, seen, rows) == ParseLines(lines[1..], comments + [text], seen, rows)
  {
  }

  lemma EndStep(lines: seq<string>, comments: seq<string>, seen: set<string>, rows: seq<EnvRow>)
    requires lines != [] && (ReadLine(lines[0]) == Line.Blank || ReadLine(lines[0]) == NoPair)
    ensures ParseLines(lines, comments, seen, rows) == ParseLines(lines[1..], [], seen, rows)
  {
  }

  lemma AssignIsRead(k: string, rest: string)
    requires ValidKey(k)
    ensures ReadLine(Assign(k, rest)) == Pair(k, rest)
  {
    KeyLine(k, rest);
  }

  /** One such line alone. */
  lemma OneRow(k: string, rest: string, value: string)
    requires ValidKey(k) && '\n' !in rest && ReadValue(rest, []) == (value, [])
    ensures Parse(Assign(k, rest)) == Ok([EnvRow(k, value, None)])
  {
    var raw := Assign(k, rest);
    KeyHasNoBreak(k);
    assert '\n' !in raw;
    hide ReadValue, ReadLine, SplitLines, ParseLines, ValidKey, Assign;
    OneLine(raw);
    AssignIsRead(k, rest);
    assert [raw][1..] == [];
    PairStep([raw], [], {}, [], k, rest, value, []);
    assert [] + [EnvRow(k, value, Describe([]))] == [EnvRow(k, value, None)];
    NothingLeft({} + {k}, [EnvRow(k, value, None)]);
  }

  lemma NothingLeft(seen: set<string>, rows: seq<EnvRow>)
    ensures ParseLines([], [], seen, rows) == Ok(rows)
  {
  }

  lemma KeyHasNoBreak(k: string)
    requires ValidKey(k)
    ensures '\n' !in k && '\r' !in k
  {
  }

  // ------------------------------------------------------------------
  // Single quotes
  // ------------------------------------------------------------------

  /** Between single quotes everything is literal, apostrophes included; what follows the last quote is dropped. */
  lemma SingleQuotedIsLiteral(k: string, t: string, after: string)
    requires ValidKey(k) && '\n' !in t && '\n' !in after && '\'' !in after
    ensures Parse(Assign(k, "'" + t + "'" + after)) == Ok([EnvRow(k, t, None)])
  {
    var rest := "'" + t + "'" + after;
    assert rest[|t| + 1] == '\'' && rest[|t| + 2..] == after;
    forall i | |t| + 1 < i < |rest| ensures rest[i] != '\'' { assert rest[i] == after[i - |t| - 2]; }
    assert rest[1..|t| + 1] == t;
    OneRow(k, rest, t);
  }

  /** Without a closing quote the value is the rest of the line. */
  lemma UnclosedQuoteTakesTheLine(k: string, t: string)
    requires ValidKey(k) && '\n' !in t && '\'' !in t
    ensures Parse(Assign(k, "'" + t)) == Ok([EnvRow(k, t, None)])
  {
    var rest := "'" + t;
    assert rest[1..] == t && forall i :: 0 < i < |rest| ==> rest[i] == t[i - 1];
    OneRow(k, rest, t);
  }

  // ------------------------------------------------------------------
  // Bare values
  // ------------------------------------------------------------------

  lemma {:induction false} TrimStartAfterBlank(a: string, s: string)
    requires White(a)
    ensures TrimStart(a + s) == TrimStart(s)
  {
    if a == "" {
      assert a + s == s;
    } else {
      assert (a + s)[1..] == a[1..] + s;
      TrimStartAfterBlank(a[1..], s);
    }
  }

  /** White space around a text is all that trimming takes. */
  lemma TrimBetweenBlanks(a: string, t: string, b: string)
    requires White(a) && White(b) && Trimmed(t)
    ensures Trim(a + t + b) == t
  {
    assert a + t + b == a + (t + b);
    TrimStartAfterBlank(a, t + b);
    TrimsCommute(t + b);
    TrimEndBlank(t, b);
    TrimsCommute(t);
    TrimmedIsFixed(t);
  }

  predicate Quoted(s: string) { s != "" && (s[0] == '"' || s[0] == '\'') }

  /** A bare value is the text without the white space around it. */
  lemma BareValueIsTrimmed(k: string, a: string, t: string, b: string)
    requires ValidKey(k) && White(a) && White(b) && Trimmed(t)
    requires '\n' !in a + t + b && !Quoted(a + t + b)
    ensures Parse(Assign(k, a + t + b)) == Ok([EnvRow(k, t, None)])
  {
    TrimBetweenBlanks(a, t, b);
    OneRow(k, a + t + b, t);
  }

  // ------------------------------------------------------------------
  // Double quotes over several lines
  // ------------------------------------------------------------------

  /** Text that needs no escape. */
  predicate Plain(t: string) { '"' !in t && '\\' !in t && '\r' !in t }

  lemma {:induction false} PlainIsUnescaped(t: string)
    requires '\\' !in t
    ensures Unescape(t) == t
  {
    if t != "" {
      PlainIsUnescaped(t[1..]);
      assert t == [t[0]] + t[1..];
    }
  }

  /** A backslash before any other character stays, and so does the character. */
  lemma OtherEscapesStay(c: char, tail: string)
    requires !IsEscapeLetter(c)
    ensures Unescape("\\" + [c] + tail) == "\\" + Unescape([c] + tail)
  {
    assert ("\\" + [c] + tail)[1..] == [c] + tail;
  }

  lemma {:induction false} PlainHasNoClosingQuote(t: string)
    requires '"' !in t && '\\' !in t
    ensures ClosingQuote(t) == -1 && ClosingQuote(t + "\"") == |t|
  {
    if t != "" {
      PlainHasNoClosingQuote(t[1..]);
      assert (t + "\"")[1..] == t[1..] + "\"";
    }
  }

  /** Lines with the closing quote behind the last of them. */
  function Closed(parts: seq<string>): seq<string>
    requires parts != []
  {
    parts[..|parts| - 1] + [parts[|parts| - 1] + "\""]
  }

  lemma {:induction false} CollectPlain(parts: seq<string>)
    requires parts != [] && forall p :: p in parts ==> Plain(p)
    ensures CollectQuoted(Closed(parts)[0], Closed(parts)[1..]) == (Join(parts, '\n'), [])
    decreases |parts|
  {
    var lines := Closed(parts);
    assert parts[0] in parts;
    PlainHasNoClosingQuote(parts[0]);
    if |parts| == 1 {
      assert (parts[0] + "\"")[..|parts[0]|] == parts[0];
    } else {
      CollectPlain(parts[1..]);
      assert lines[1..] == Closed(parts[1..]) && lines[0] == parts[0];
      assert parts[0] + "\n" + Join(parts[1..], '\n') == Join(parts, '\n');
    }
  }

  lemma {:induction false} SplitWithoutCr(s: string)
    requires '\r' !in s
    ensures SplitLines(s) == SplitOn(s, '\n')
    decreases |s|
  {
    var k := IndexOf(s, '\n');
    if k >= 0 {
      SplitWithoutCr(s[k + 1..]);
      assert StripCr(s[..k]) == s[..k];
    }
  }

  /** Text put before the first line. */
  function Headed(x: string, lines: seq<string>): seq<string>
    requires lines != []
  {
    [x + lines[0]] + lines[1..]
  }

  lemma JoinHeaded(x: string, lines: seq<string>)
    requires lines != []
    ensures Join(Headed(x, lines), '\n') == x + Join(lines, '\n')
  {
    assert Headed(x, lines)[1..] == lines[1..];
    if |lines| > 1 {
      assert x + lines[0] + "\n" + Join(lines[1..], '\n') == x + (lines[0] + "\n" + Join(lines[1..], '\n'));
    }
  }

  lemma {:induction false} JoinClosed(parts: seq<string>)
    requires parts != []
    ensures Join(Closed(parts), '\n') == Join(parts, '\n') + "\""
    decreases |parts|
  {
    if |parts| > 1 {
      JoinClosed(parts[1..]);
      var (a, j) := (parts[0], Join(parts[1..], '\n'));
      assert Closed(parts)[1..] == Closed(parts[1..]) && Closed(parts)[0] == a;
      assert a + "\n" + (j + "\"") == a + "\n" + j + "\"";
    }
  }

  /** Between double quotes a value may go on over any number of lines, line breaks included. */
  lemma DoubleQuotedSpansLines(k: string, t: string)
    requires ValidKey(k) && Plain(t)
    ensures Parse(Assign(k, "\"" + t + "\"")) == Ok([EnvRow(k, t, None)])
  {
    var parts := SplitOn(t, '\n');
    JoinInvertsSplit(t, '\n');
    PartsArePlain(t);
    var (lines, head) := (Closed(parts), k + "=\"");
    JoinClosed(parts);
    JoinHeaded(head, lines);
    assert Assign(k, "\"" + t + "\"") == Join(Headed(head, lines), '\n');
    SplitsInto(k, t, parts);
    CollectPlain(parts);
    PlainIsUnescaped(t);
    QuotedRow(k, lines, t);
  }

  lemma PartsArePlain(t: string)
    requires Plain(t)
    ensures forall p :: p in SplitOn(t, '\n') ==> Plain(p) && '\n' !in p
  {
    var parts := SplitOn(t, '\n');
    JoinInvertsSplit(t, '\n');
    forall p | p in parts ensures Plain(p) { PartOfJoin(parts, p); }
  }

  lemma {:induction false} PartOfJoin(parts: seq<string>, p: string)
    requires p in parts
    ensures forall c :: c in p ==> c in Join(parts, '\n')
  {
    if |parts| > 1 {
      var (a, rest) := (parts[0], parts[1..]);
      assert parts == [a] + rest;
      if p != a { PartOfJoin(rest, p); }
      forall c | c in p ensures c in Join(parts, '\n') {
        assert Join(parts, '\n') == a + ['\n'] + Join(rest, '\n');
      }
    }
  }

  lemma SplitsInto(k: string, t: string, parts: seq<string>)
    requires ValidKey(k) && Plain(t) && parts == SplitOn(t, '\n')
    requires Assign(k, "\"" + t + "\"") == Join(Headed(k + "=\"", Closed(parts)), '\n')
    ensures SplitLines(Assign(k, "\"" + t + "\"")) == Headed(k + "=\"", Closed(parts))
  {
    PartsArePlain(t);
    KeyHasNoBreak(k);
    var lines := Headed(k + "=\"", Closed(parts));
    forall p | p in lines ensures '\n' !in p { LineHasNoBreak(k, parts, p); }
    hide ValidKey, SplitOn, Join, SplitLines, Headed, Closed;
    SplitWithoutCr(Assign(k, "\"" + t + "\""));
    SplitInvertsJoin(lines, '\n');
  }

  lemma LineHasNoBreak(k: string, parts: seq<string>, line: string)
    requires '\n' !in k && parts != [] && (forall p :: p in parts ==> '\n' !in p)
    requires line in Headed(k + "=\"", Closed(parts))
    ensures '\n' !in line
  {
    var i :| 0 <= i < |parts| && Headed(k + "=\"", Closed(parts))[i] == line;
    assert parts[i] in parts;
  }

  lemma QuotedRow(k: string, lines: seq<string>, t: string)
    requires ValidKey(k) && lines != []
    requires CollectQuoted(lines[0], lines[1..]) == (t, []) && Unescape(t) == t
    ensures ParseLines(Headed(k + "=\"", lines), [], {}, []) == Ok([EnvRow(k, t, None)])
  {
    hide CollectQuoted, Unescape, ReadLine, ParseLines, ValidKey;
    var (all, rest) := (Headed(k + "=\"", lines), "\"" + lines[0]);
    assert all[0] == Assign(k, rest) && all[1..] == lines[1..] && rest[1..] == lines[0];
    AssignIsRead(k, rest);
    PairStep(all, [], {}, [], k, rest, t, []);
    assert [] + [EnvRow(k, t, Describe([]))] == [EnvRow(k, t, None)];
    NothingLeft({} + {k}, [EnvRow(k, t, None)]);
  }

  // ------------------------------------------------------------------
  // Comments above a key
  // ------------------------------------------------------------------

  /** A comment, with the text it stands for. */
  ghost predicate IsComment(line: string, text: string) {
    exists pad, x :: White(pad) && line == pad + "#" + x && text == Trim(x)
  }

  /** Neither a comment nor white space, and no pair: there is no `=`, or no key before the first. */
  ghost predicate IsPairless(line: string) {
    && Trim(line) != "" && Trim(line)[0] != '#'
    && ('=' !in line || exists x, y :: line == x + "=" + y && '=' !in x && !ValidKey(Trim(x)))
  }

  ghost predicate EndsBlock(line: string) { White(line) || IsPairless(line) }

  ghost predicate CommentsAre(lines: seq<string>, texts: seq<string>) {
    |lines| == |texts| && forall i :: 0 <= i < |lines| ==> IsComment(lines[i], texts[i])
  }

  ghost predicate NoPairs(lines: seq<string>) {
    forall l :: l in lines ==> EndsBlock(l) || exists text :: IsComment(l, text)
  }

  lemma CommentIsRead(line: string, text: string)
    requires IsComment(line, text)
    ensures ReadLine(line) == Comment(text)
  {
    var pad, x :| White(pad) && line == pad + "#" + x && text == Trim(x);
    assert line == pad + ("#" + x);
    TrimStartAfterBlank(pad, "#" + x);
    assert TrimStart("#" + x) == "#" + x;
    TrimEndStops("#", x);
    TrimOfTrimEnd(x);
    assert Trim(line)[1..] == TrimEnd(x);
  }

  lemma EndIsRead(line: string)
    requires EndsBlock(line)
    ensures ReadLine(line) == Line.Blank || ReadLine(line) == NoPair
  {
    if White(line) {
      TrimBetweenBlanks(line, "", "");
      assert line + "" + "" == line;
    } else if '=' in line {
      var x, y :| line == x + "=" + y && '=' !in x && !ValidKey(Trim(x));
      IndexAfterPrefix(x, '=', y);
      assert line[..|x|] == x;
    }
  }

  lemma CommentsFront(lines: seq<string>, texts: seq<string>)
    requires CommentsAre(lines, texts) && lines != []
    ensures texts != [] && IsComment(lines[0], texts[0]) && CommentsAre(lines[1..], texts[1..])
  {
  }

  lemma {:induction false} CommentsAreCollected(lines: seq<string>, texts: seq<string>, after: seq<string>,
                                                sofar: seq<string>, seen: set<string>, rows: seq<EnvRow>)
    requires CommentsAre(lines, texts)
    ensures ParseLines(lines + after, sofar, seen, rows) == ParseLines(after, sofar + texts, seen, rows)
    decreases |lines|
  {
    if lines == [] {
      assert lines + after == after && sofar + texts == sofar;
    } else {
      CommentsFront(lines, texts);
      CommentIsRead(lines[0], texts[0]);
      hide *;
      FirstMoved(sofar, texts);
      FirstApart(lines, after);
      CommentStep(lines + after, sofar, seen, rows, texts[0]);
      CommentsAreCollected(lines[1..], texts[1..], after, sofar + [texts[0]], seen, rows);
    }
  }

  lemma FirstApart(lines: seq<string>, after: seq<string>)
    requires lines != []
    ensures lines + after != [] && (lines + after)[0] == lines[0] && (lines + after)[1..] == lines[1..] + after
  {
  }

  lemma FirstMoved(sofar: seq<string>, texts: seq<string>)
    requires texts != []
    ensures sofar + [texts[0]] + texts[1..] == sofar + texts
  {
  }

  lemma {:induction false} BlocksAboveAreForgotten(above: seq<string>, after: seq<string>, sofar: seq<string>,
                                                   seen: set<string>, rows: seq<EnvRow>)
    requires NoPairs(above) && above != [] && EndsBlock(above[|above| - 1])
    ensures ParseLines(above + after, sofar, seen, rows) == ParseLines(after, [], seen, rows)
    decreases |above|
  {
    hide ParseLines, ReadLine, EndsBlock, IsComment;
    var all := above + after;
    assert all[0] == above[0] && all[1..] == above[1..] + after && above[0] in above;
    if |above| == 1 {
      EndIsRead(above[0]);
      EndStep(all, sofar, seen, rows);
      assert above[1..] + after == after;
    } else {
      assert forall l :: l in above[1..] ==> l in above;
      if EndsBlock(above[0]) {
        EndIsRead(above[0]);
        EndStep(all, sofar, seen, rows);
        BlocksAboveAreForgotten(above[1..], after, [], seen, rows);
      } else {
        var text :| IsComment(above[0], text);
        CommentIsRead(above[0], text);
        CommentStep(all, sofar, seen, rows, text);
        BlocksAboveAreForgotten(above[1..], after, sofar + [text], seen, rows);
      }
    }
  }

  /** A row's description is the comments directly above its key and nothing else: whatever stands above a blank or
      pairless line, or above the row before, does not belong to it. */
  lemma DescriptionIsTheBlockAbove(above: seq<string>, lines: seq<string>, texts: seq<string>, k: string, t: string,
                                   after: seq<string>, seen: set<string>, rows: seq<EnvRow>)
    requires NoPairs(above) && (above == [] || EndsBlock(above[|above| - 1]))
    requires CommentsAre(lines, texts) && ValidKey(k) && k !in seen && Trimmed(t) && !Quoted(t)
    ensures ParseLines(above + (lines + ([Assign(k, t)] + after)), [], seen, rows)
         == ParseLines(after, [], seen + {k},
                       rows + [EnvRow(k, t, if texts == [] then None else Some(Join(texts, '\n')))])
  {
    var pair := [Assign(k, t)] + after;
    if above == [] {
      assert above + (lines + pair) == lines + pair;
    } else {
      BlocksAboveAreForgotten(above, lines + pair, [], seen, rows);
    }
    CommentsAreCollected(lines, texts, pair, [], seen, rows);
    assert [] + texts == texts;
    AssignIsRead(k, t);
    TrimmedIsFixed(t);
    assert pair[1..] == after;
    PairStep(pair, texts, seen, rows, k, t, t, after);
  }

  // ------------------------------------------------------------------
  // Lines that are not rows, and line endings
  // ------------------------------------------------------------------

  const KEY_CHARACTERS := "ABCDEFGHIJKLMNOPQRSTUVWXYZ_0123456789"

  /** A line whose key has any other character, or begins with a digit, is no row. */
  lemma OtherKeysAreSkipped(k: string, rest: string)
    requires k != "" && Trimmed(k) && k[0] != '#' && '=' !in k && '\n' !in k + rest
    requires '0' <= k[0] <= '9' || exists c :: c in k && c !in KEY_CHARACTERS
    ensures Parse(Assign(k, rest)) == Ok([])
  {
    var line := Assign(k, rest);
    IndexAfterPrefix(k, '=', rest);
    assert line[..|k|] == k;
    TrimmedIsFixed(k);
    LeadingBlanksOnly(line);
    NotAKey(k);
    OneLine(line);
    hide ValidKey;
    assert ReadLine(line) == NoPair;
    EndStep([line], [], {}, []);
    NothingLeft({}, []);
  }

  lemma NotAKey(k: string)
    requires k != "" && ('0' <= k[0] <= '9' || exists c :: c in k && c !in KEY_CHARACTERS)
    ensures !ValidKey(k)
  {
    if c :| c in k && c !in KEY_CHARACTERS {
      var i :| 0 <= i < |k| && k[i] == c;
      if IsKeyStart(c) || IsDigit(c) { KeyCharactersAre(c); }
    }
  }

  lemma KeyCharactersAre(c: char)
    requires IsKeyStart(c) || IsDigit(c)
    ensures c in KEY_CHARACTERS
  {
    var n := c as int;
    if IsDigit(c) {
      assert KEY_CHARACTERS[27 + (n - 48)] == c;
    } else if c != '_' {
      assert KEY_CHARACTERS[n - 65] == c;
    }
  }

  lemma LeadingBlanksOnly(s: string)
    requires s != "" && !IsSpace(s[0])
    ensures Trim(s) != "" && Trim(s)[0] == s[0]
  {
    assert TrimStart(s) == s;
    var t := s[1..];
    assert s == [s[0]] + t;
    TrimEndStops([s[0]], t);
  }

  /** The lines with `\r\n` between them. */
  function WithCrlf(lines: seq<string>): string
    requires lines != []
  {
    if |lines| == 1 then lines[0] else lines[0] + "\r\n" + WithCrlf(lines[1..])
  }

  /** Text with `\r\n` line endings reads as its lines. */
  lemma {:induction false} CrlfIsALineEnding(lines: seq<string>)
    requires lines != [] && forall i :: 0 <= i < |lines| ==> '\n' !in lines[i]
    ensures SplitLines(WithCrlf(lines)) == lines
  {
    if |lines| == 1 {
      OneLine(lines[0]);
    } else {
      hide SplitLines;
      CrlfIsALineEnding(lines[1..]);
      CrlfEndsALine(lines[0], WithCrlf(lines[1..]));
      assert [lines[0]] + lines[1..] == lines;
    }
  }

  lemma CrlfEndsALine(a: string, rest: string)
    requires '\n' !in a
    ensures SplitLines(a + "\r\n" + rest) == [a] + SplitLines(rest)
  {
    hide SplitLines;
    CrSeparately(a, rest);
    SplitFirstLine(a + "\r", rest);
  }

  lemma CrSeparately(a: string, rest: string)
    ensures a + "\r\n" + rest == (a + "\r") + "\n" + rest && StripCr(a + "\r") == a
  {
  }
}
