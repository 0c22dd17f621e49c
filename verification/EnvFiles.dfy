/** dotenv rows to text and back (src/lib/env-files.ts `parseRows`, `serializeRows`, `rowErrors`). */
module EnvFiles {
  import opened Wrappers
  import opened Text
  import opened EnvText

  datatype EnvRow = EnvRow(key: string, value: string, description: Option<string>)

  predicate IsKeyStart(c: char) { 'A' <= c <= 'Z' || c == '_' }

  predicate ValidKey(k: string) {
    k != "" && IsKeyStart(k[0]) && forall i :: 0 <= i < |k| ==> IsKeyStart(k[i]) || IsDigit(k[i])
  }

  // ------------------------------------------------------------------
  // Parsing
  // ------------------------------------------------------------------

  /** A quoted value up to its closing quote, over as many lines as it takes; and the lines after it. */
  function CollectQuoted(buf: string, following: seq<string>): (r: (string, seq<string>))
    ensures |r.1| <= |following|
    decreases |following|
  {
    var end := ClosingQuote(buf);
    if end >= 0 then (buf[..end], following)
    else if following == [] then (buf, [])
    else
      var (more, after) := CollectQuoted(following[0], following[1..]);
      (buf + "\n" + more, after)
  }

  /** A single-quoted literal closes on its last quote. */
  function ReadLiteral(rest: string): string
    requires rest != "" && rest[0] == '\''
  {
    var end := LastIndexOf(rest, '\'');
    if end > 0 then rest[1..end] else rest[1..]
  }

  function ReadValue(rest: string, following: seq<string>): (r: (string, seq<string>))
    ensures |r.1| <= |following|
  {
    if rest != "" && rest[0] == '"' then
      var (text, after) := CollectQuoted(rest[1..], following);
      (Unescape(text), after)
    else if rest != "" && rest[0] == '\'' then (ReadLiteral(rest), following)
    else (Trim(rest), following)
  }

  function Describe(comments: seq<string>): Option<string> {
    if comments == [] then None else Some(Join(comments, '\n'))
  }

  /** What one line is, on its own. */
  datatype Line = Blank | Comment(text: string) | NoPair | Pair(key: string, rest: string)

  function ReadLine(raw: string): Line {
    var line := Trim(raw);
    if line == "" then Blank
    else if line[0] == '#' then Comment(Trim(line[1..]))
    else
      var eq := IndexOf(raw, '=');
      var key := if eq >= 0 then Trim(raw[..eq]) else "";
      if eq < 0 || !ValidKey(key) then NoPair else Pair(key, raw[eq + 1..])
  }

  function ParseLines(lines: seq<string>, comments: seq<string>, seen: set<string>, rows: seq<EnvRow>)
    : Result<seq<EnvRow>, string>
    decreases |lines|
  {
    if lines == [] then Ok(rows)
    else
      match ReadLine(lines[0])
      case Blank => ParseLines(lines[1..], [], seen, rows)
      case NoPair => ParseLines(lines[1..], [], seen, rows)
      case Comment(text) => ParseLines(lines[1..], comments + [text], seen, rows)
      case Pair(key, rest) =>
        var (value, after) := ReadValue(rest, lines[1..]);
        if key in seen then Err("duplicate key: " + key)
        else ParseLines(after, [], seen + {key}, rows + [EnvRow(key, value, Describe(comments))])
  }

  lemma {:induction false} JoinLast(c: seq<string>, a: string, b: string)
    ensures Join(c + [a + "\n" + b], '\n') == Join(c + [a] + [b], '\n')
  {
    if c == [] {
      assert ([a] + [b])[1..] == [b];
      assert [] + [a] + [b] == [a] + [b] && [] + [a + "\n" + b] == [a + "\n" + b];
    } else {
      JoinLast(c[1..], a, b);
      assert (c + [a + "\n" + b])[1..] == c[1..] + [a + "\n" + b];
      assert (c + [a] + [b])[1..] == c[1..] + [a] + [b];
    }
  }

  /** The inner loop: collect lines from line `i` on until the closing quote; `j` is the last line used. */
  method ReadQuoted(lines: seq<string>, i: nat, first: string) returns (text: string, j: nat)
    requires i < |lines|
    ensures i <= j <= |lines|
    ensures (text, lines[if j < |lines| then j + 1 else j..]) == CollectQuoted(first, lines[i + 1..])
  {
    var collected: seq<string> := [];
    var buf := first;
    j := i;
    while true
      invariant i <= j < |lines|
      invariant CollectQuoted(first, lines[i + 1..]).1 == CollectQuoted(buf, lines[j + 1..]).1
      invariant CollectQuoted(first, lines[i + 1..]).0 == Join(collected + [CollectQuoted(buf, lines[j + 1..]).0], '\n')
      decreases |lines| - j
    {
      var end := FindClosingDquote(buf);
      if end >= 0 {
        collected := collected + [buf[..end]];
        break;
      }
      if j + 1 < |lines| {
        assert lines[j + 1..][0] == lines[j + 1] && lines[j + 1..][1..] == lines[j + 2..];
        JoinLast(collected, buf, CollectQuoted(lines[j + 1], lines[j + 2..]).0);
      }
      collected := collected + [buf];
      j := j + 1;
      if j >= |lines| {
        break;
      }
      buf := lines[j];
    }
    text := Join(collected, '\n');
  }

  /** The parse of the lines from `i` on. */
  function ParseFrom(lines: seq<string>, i: nat, comments: seq<string>, seen: set<string>, rows: seq<EnvRow>)
    : Result<seq<EnvRow>, string>
    requires i <= |lines|
  {
    ParseLines(lines[i..], comments, seen, rows)
  }

  lemma ParseStep(lines: seq<string>, i: nat, comments: seq<string>, seen: set<string>, rows: seq<EnvRow>)
    requires i < |lines|
    ensures ParseFrom(lines, i, comments, seen, rows)
         == match ReadLine(lines[i])
            case Blank => ParseFrom(lines, i + 1, [], seen, rows)
            case NoPair => ParseFrom(lines, i + 1, [], seen, rows)
            case Comment(text) => ParseFrom(lines, i + 1, comments + [text], seen, rows)
            case Pair(key, rest) =>
              var (value, after) := ReadValue(rest, lines[i + 1..]);
              if key in seen then Err("duplicate key: " + key)
              else ParseLines(after, [], seen + {key}, rows + [EnvRow(key, value, Describe(comments))])
  {
    assert lines[i..][0] == lines[i] && lines[i..][1..] == lines[i + 1..];
  }

  method ParseRows(content: string) returns (r: Result<seq<EnvRow>, string>)
    ensures r == ParseLines(SplitLines(content), [], {}, [])
  {
    hide SplitLines, ReadLine, ReadValue, Describe;
    var rows: seq<EnvRow> := [];
    var seen: set<string> := {};
    var lines := SplitLines(content);
    var comments: seq<string> := [];
    var i := 0;
    assert lines[0..] == lines;
    while i < |lines|
      invariant 0 <= i <= |lines|
      invariant ParseLines(lines, [], {}, []) == ParseFrom(lines, i, comments, seen, rows)
      decreases |lines| - i
    {
      ParseStep(lines, i, comments, seen, rows);
      match ReadLine(lines[i]) {
        case Blank =>
          comments := [];
          i := i + 1;
        case Comment(text) =>
          comments := comments + [text];
          i := i + 1;
        case NoPair =>
          comments := [];
          i := i + 1;
        case Pair(key, rest) =>
          var value, next := ParseValue(lines, i, rest);
          if key in seen {
            return Err("duplicate key: " + key);
          }
          seen := seen + {key};
          rows := rows + [EnvRow(key, value, Describe(comments))];
          comments := [];
          i := next;
      }
    }
    assert lines[|lines|..] == [];
    r := Ok(rows);
  }

  /** The value after the `=` of line `i`, and the line to go on with. */
  method ParseValue(lines: seq<string>, i: nat, rest: string) returns (value: string, next: nat)
    requires i < |lines|
    ensures i < next <= |lines|
    ensures (value, lines[next..]) == ReadValue(rest, lines[i + 1..])
  {
    if rest != "" && rest[0] == '"' {
      var text, j := ReadQuoted(lines, i, rest[1..]);
      value := Unescape(text);
      next := if j < |lines| then j + 1 else j;
    } else if rest != "" && rest[0] == '\'' {
      // Close on the last quote.
      var end := LastIndexOf(rest, '\'');
      value, next := if end > 0 then rest[1..end] else rest[1..], i + 1;
    } else {
      value, next := Trim(rest), i + 1;
    }
  }

  // ------------------------------------------------------------------
  // Printing
  // ------------------------------------------------------------------

  /** The comment lines of a description. */
  function Hashed(parts: seq<string>): (r: seq<string>)
    ensures |r| == |parts|
  {
    seq(|parts|, i requires 0 <= i < |parts| => "# " + parts[i])
  }

  function CommentLines(d: Option<string>): seq<string> {
    if d.Some? && d.value != "" then Hashed(SplitOn(d.value, '\n')) else []
  }

  function RowLine(row: EnvRow): string {
    row.key + "=" + QuoteIfNeeded(Clean(row.value))
  }

  function RowLines(row: EnvRow): seq<string> {
    CommentLines(row.description) + [RowLine(row)]
  }

  function AllLines(rows: seq<EnvRow>): seq<string> {
    if rows == [] then [] else AllLines(rows[..|rows| - 1]) + RowLines(rows[|rows| - 1])
  }

  function Content(rows: seq<EnvRow>): string {
    if AllLines(rows) == [] then "" else Join(AllLines(rows), '\n') + "\n"
  }

  /** The keys whose value lost a control character, in row order. */
  function StrippedKeys(rows: seq<EnvRow>): seq<string> {
    if rows == [] then []
    else
      var last := rows[|rows| - 1];
      StrippedKeys(rows[..|rows| - 1]) + if Clean(last.value) != last.value then [last.key] else []
  }

  method PushComments(out: seq<string>, description: Option<string>) returns (more: seq<string>)
    ensures more == out + CommentLines(description)
  {
    more := out;
    if description.Some? && description.value != "" {
      var parts := SplitOn(description.value, '\n');
      for j := 0 to |parts|
        invariant more == out + Hashed(parts[..j])
      {
        assert Hashed(parts[..j + 1]) == Hashed(parts[..j]) + ["# " + parts[j]];
        more := more + ["# " + parts[j]];
      }
      assert parts[..|parts|] == parts;
    }
  }

  /** A row's comment lines and its key line. */
  method PushRow(out: seq<string>, row: EnvRow, cleaned: string) returns (more: seq<string>)
    requires cleaned == Clean(row.value)
    ensures more == out + RowLines(row)
  {
    more := PushComments(out, row.description);
    more := more + [row.key + "=" + QuoteIfNeeded(cleaned)];
    assert more == out + (CommentLines(row.description) + [RowLine(row)]);
  }

  lemma RowsSnoc(rows: seq<EnvRow>, i: nat)
    requires i < |rows|
    ensures AllLines(rows[..i + 1]) == AllLines(rows[..i]) + RowLines(rows[i])
    ensures StrippedKeys(rows[..i + 1])
         == StrippedKeys(rows[..i]) + if Clean(rows[i].value) != rows[i].value then [rows[i].key] else []
  {
    assert rows[..i + 1][..i] == rows[..i] && rows[..i + 1][i] == rows[i];
  }

  method SerializeRows(rows: seq<EnvRow>) returns (content: string, stripped: seq<string>)
    ensures content == Content(rows) && stripped == StrippedKeys(rows)
  {
    stripped := [];
    var out: seq<string> := [];
    for i := 0 to |rows|
      invariant out == AllLines(rows[..i]) && stripped == StrippedKeys(rows[..i])
    {
      var row := rows[i];
      RowsSnoc(rows, i);
      var cleaned := Clean(row.value);
      if cleaned != row.value {
        stripped := stripped + [row.key];
      }
      out := PushRow(out, row, cleaned);
    }
    assert rows[..|rows|] == rows;
    content := if out != [] then Join(out, '\n') + "\n" else "";
  }

  // ------------------------------------------------------------------
  // Row errors
  // ------------------------------------------------------------------

  predicate DistinctKeys(rows: seq<EnvRow>) {
    forall i, j :: 0 <= i < j < |rows| ==> rows[i].key != rows[j].key
  }

  predicate ValidKeys(rows: seq<EnvRow>) {
    forall i :: 0 <= i < |rows| ==> ValidKey(rows[i].key)
  }

  /** The structured editor accepts rows exactly when every key is valid and none is repeated. */
  method RowErrors(rows: seq<EnvRow>) returns (errors: seq<string>)
    ensures errors == [] <==> ValidKeys(rows) && DistinctKeys(rows)
  {
    errors := [];
    var seen: set<string> := {};
    for i := 0 to |rows|
      invariant errors == [] <==> ValidKeys(rows[..i]) && DistinctKeys(rows[..i])
      invariant forall k :: k in seen <==> k != "" && exists j :: 0 <= j < i && rows[j].key == k
    {
      var r := rows[i];
      ghost var was := errors;
      if r.key == "" {
        errors := errors + ["empty key"];
      } else if !ValidKey(r.key) {
        errors := errors + ["invalid key: " + r.key];
      }
      if r.key != "" {
        if r.key in seen {
          errors := errors + ["duplicate key: " + r.key];
        }
        seen := seen + {r.key};
      }
      assert ValidKeys(rows[..i + 1]) <==> ValidKeys(rows[..i]) && ValidKey(r.key) by {
        assert forall j :: 0 <= j < i ==> rows[..i][j] == rows[..i + 1][j];
        assert rows[..i + 1][i] == r;
      }
      assert DistinctKeys(rows[..i + 1])
        <==> DistinctKeys(rows[..i]) && forall j :: 0 <= j < i ==> rows[j].key != r.key by {
        assert forall j :: 0 <= j < i ==> rows[..i][j] == rows[j] && rows[..i + 1][j] == rows[j];
        assert rows[..i + 1][i] == r;
      }
    }
    assert rows[..|rows|] == rows;
  }
}
