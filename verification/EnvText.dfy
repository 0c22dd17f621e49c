/** The character level of the dotenv format (src/lib/env-files.ts): quoting, escaping, lines. */
module EnvText {
  import opened Text

  // ------------------------------------------------------------------
  // Escapes
  // ------------------------------------------------------------------

  /** `s.replace(/c/g, text)`. */
  function ReplaceAll(s: string, c: char, text: string): string {
    if s == "" then "" else (if s[0] == c then text else [s[0]]) + ReplaceAll(s[1..], c, text)
  }

  /** The five replacements `quoteIfNeeded` makes, one after the other. */
  function EscapeChain(v: string): string {
    ReplaceAll(ReplaceAll(ReplaceAll(ReplaceAll(ReplaceAll(v,
      '\\', "\\\\"), '"', "\\\""), '\n', "\\n"), '\r', "\\r"), '\t', "\\t")
  }

  function EscapeChar(c: char): string {
    match c
    case '\\' => "\\\\"
    case '"' => "\\\""
    case '\n' => "\\n"
    case '\r' => "\\r"
    case '\t' => "\\t"
    case _ => [c]
  }

  /** Every character escaped on its own. */
  function Escape(v: string): string {
    if v == "" then "" else EscapeChar(v[0]) + Escape(v[1..])
  }

  lemma {:induction false} ReplaceAllConcat(s: string, t: string, c: char, text: string)
    ensures ReplaceAll(s + t, c, text) == ReplaceAll(s, c, text) + ReplaceAll(t, c, text)
  {
    if s == "" {
      assert s + t == t;
    } else {
      assert (s + t)[1..] == s[1..] + t;
      ReplaceAllConcat(s[1..], t, c, text);
    }
  }

  lemma ReplaceOne(a: char, c: char, text: string)
    ensures ReplaceAll([a], c, text) == if a == c then text else [a]
  {
    assert [a][1..] == "";
  }

  lemma ReplaceTwo(a: char, b: char, c: char, text: string)
    requires a != c && b != c
    ensures ReplaceAll([a, b], c, text) == [a, b]
  {
    assert [a, b][1..] == [b];
    ReplaceOne(b, c, text);
  }

  lemma ChainOfOne(a: char)
    ensures EscapeChain([a]) == EscapeChar(a)
  {
    ReplaceOne(a, '\\', "\\\\");
    ReplaceOne(a, '"', "\\\"");
    ReplaceOne(a, '\n', "\\n");
    ReplaceOne(a, '\r', "\\r");
    ReplaceOne(a, '\t', "\\t");
    if a == '\\' {
      ReplaceTwo('\\', '\\', '"', "\\\""); ReplaceTwo('\\', '\\', '\n', "\\n");
      ReplaceTwo('\\', '\\', '\r', "\\r"); ReplaceTwo('\\', '\\', '\t', "\\t");
    } else if a == '"' {
      ReplaceTwo('\\', '"', '\n', "\\n"); ReplaceTwo('\\', '"', '\r', "\\r"); ReplaceTwo('\\', '"', '\t', "\\t");
    } else if a == '\n' {
      ReplaceTwo('\\', 'n', '\r', "\\r"); ReplaceTwo('\\', 'n', '\t', "\\t");
    } else if a == '\r' {
      ReplaceTwo('\\', 'r', '\t', "\\t");
    }
  }

  /** The sequential replacements escape character by character: no later one touches what an earlier
      one wrote. */
  lemma {:induction false} ChainIsEscape(v: string)
    ensures EscapeChain(v) == Escape(v)
  {
    if v != "" {
      ChainIsEscape(v[1..]);
      ChainOfOne(v[0]);
      assert v == [v[0]] + v[1..];
      var a, b := [v[0]], v[1..];
      ReplaceAllConcat(a, b, '\\', "\\\\");
      var a1, b1 := ReplaceAll(a, '\\', "\\\\"), ReplaceAll(b, '\\', "\\\\");
      ReplaceAllConcat(a1, b1, '"', "\\\"");
      var a2, b2 := ReplaceAll(a1, '"', "\\\""), ReplaceAll(b1, '"', "\\\"");
      ReplaceAllConcat(a2, b2, '\n', "\\n");
      var a3, b3 := ReplaceAll(a2, '\n', "\\n"), ReplaceAll(b2, '\n', "\\n");
      ReplaceAllConcat(a3, b3, '\r', "\\r");
      var a4, b4 := ReplaceAll(a3, '\r', "\\r"), ReplaceAll(b3, '\r', "\\r");
      ReplaceAllConcat(a4, b4, '\t', "\\t");
    }
  }

  predicate IsEscapeLetter(c: char) { c == '"' || c == '\\' || c == 'n' || c == 'r' || c == 't' }

  function Unescaped(c: char): char {
    match c
    case 'n' => '\n'
    case 'r' => '\r'
    case 't' => '\t'
    case _ => c
  }

  /** `unescapeDquote`: each backslash with an escape letter after it, from left to right. */
  function Unescape(s: string): string {
    if s == "" then ""
    else if s[0] == '\\' && |s| >= 2 && IsEscapeLetter(s[1]) then [Unescaped(s[1])] + Unescape(s[2..])
    else [s[0]] + Unescape(s[1..])
  }

  lemma {:induction false} UnescapeInvertsEscape(v: string)
    ensures Unescape(Escape(v)) == v
  {
    if v != "" {
      UnescapeInvertsEscape(v[1..]);
      UnescapeOne(v[0], Escape(v[1..]));
    }
  }

  lemma UnescapeOne(c: char, tail: string)
    ensures Unescape(EscapeChar(c) + tail) == [c] + Unescape(tail)
  {
    var head := EscapeChar(c);
    assert (head + tail)[|head|..] == tail;
  }

  // ------------------------------------------------------------------
  // The closing quote
  // ------------------------------------------------------------------

  /** Where the first unescaped double quote is, -1 when there is none. */
  function ClosingQuote(s: string): (k: int)
    ensures -1 <= k < |s|
  {
    if s == "" then -1
    else if s[0] == '\\' then
      if |s| < 2 then -1 else var k := ClosingQuote(s[2..]); if k < 0 then -1 else k + 2
    else if s[0] == '"' then 0
    else var k := ClosingQuote(s[1..]); if k < 0 then -1 else k + 1
  }

  method FindClosingDquote(s: string) returns (k: int)
    ensures k == ClosingQuote(s)
  {
    var i := 0;
    while i < |s|
      invariant 0 <= i <= |s| + 1
      invariant i <= |s| ==>
                  ClosingQuote(s) == if ClosingQuote(s[i..]) < 0 then -1 else i + ClosingQuote(s[i..])
      invariant i > |s| ==> ClosingQuote(s) == -1
    {
      if s[i] == '\\' {
        assert i + 2 <= |s| ==> s[i..][2..] == s[i + 2..];
        i := i + 2;
      } else {
        if s[i] == '"' {
          return i;
        }
        assert s[i..][1..] == s[i + 1..];
        i := i + 1;
      }
    }
    k := -1;
  }

  /** On an escaped value the search stops exactly at the quote that was added. */
  lemma {:induction false} ClosingQuoteEndsEscape(v: string)
    ensures ClosingQuote(Escape(v) + "\"") == |Escape(v)|
  {
    if v != "" {
      ClosingQuoteEndsEscape(v[1..]);
      var head, tail := EscapeChar(v[0]), Escape(v[1..]);
      assert (head + tail + "\"")[|head|..] == tail + "\"";
      assert |head| == 2 ==> head[0] == '\\';
    }
  }

  // ------------------------------------------------------------------
  // Control characters, quoting
  // ------------------------------------------------------------------

  predicate IsStripped(c: char) {
    c <= '\U{8}' || c == '\U{B}' || c == '\U{C}' || '\U{E}' <= c <= '\U{1F}' || '\U{7F}' <= c <= '\U{9F}'
  }

  function Clean(v: string): (r: string)
    ensures forall i :: 0 <= i < |r| ==> !IsStripped(r[i])
  {
    if v == "" then "" else if IsStripped(v[0]) then Clean(v[1..]) else [v[0]] + Clean(v[1..])
  }

  /** Nothing else is dropped, and nothing moves: of each character of a text, what is left is the character itself,
      or nothing if it is a control character other than tab, line feed and carriage return. */
  lemma {:induction false} CleanDropsControls(u: string, c: char, w: string)
    ensures Clean(u + [c] + w)
         == Clean(u)
            + (if c as int <= 8 || c as int in {11, 12} || 14 <= c as int <= 31 || 127 <= c as int <= 159 then ""
               else [c])
            + Clean(w)
  {
    if u == "" {
      assert u + [c] + w == [c] + w && ([c] + w)[1..] == w;
    } else {
      assert (u + [c] + w)[1..] == u[1..] + [c] + w;
      CleanDropsControls(u[1..], c, w);
    }
  }

  predicate ForcesQuotes(c: char) {
    c == '\n' || c == '\r' || c == '\t' || c == '"' || c == '#' || c == '='
  }

  predicate NeedsQuotes(v: string) {
    v != "" && ((exists i :: 0 <= i < |v| && ForcesQuotes(v[i])) || IsSpace(v[0]) || IsSpace(v[|v| - 1]))
  }

  function QuoteIfNeeded(v: string): string {
    if NeedsQuotes(v) then "\"" + EscapeChain(v) + "\"" else v
  }

  lemma {:induction false} EscapeIsNoShorter(v: string)
    ensures |Escape(v)| >= |v|
  {
    if v != "" { EscapeIsNoShorter(v[1..]); }
  }

  /** A value is printed as it is exactly if it could not be taken for anything else: no white space around it, and no
      line break, tab, quote, `#` or `=` inside. */
  lemma PrintedBareIff(v: string)
    ensures QuoteIfNeeded(v) == v <==> Trimmed(v) && forall c :: c in v ==> c !in "\n\r\t\"#="
  {
    ChainIsEscape(v);
    EscapeIsNoShorter(v);
    if i :| 0 <= i < |v| && ForcesQuotes(v[i]) {
      assert v[i] in v && v[i] in "\n\r\t\"#=";
    }
    if c :| c in v && c in "\n\r\t\"#=" {
      var i :| 0 <= i < |v| && v[i] == c;
      assert ForcesQuotes(v[i]);
    }
  }

  lemma {:induction false} EscapeHasNoLineBreak(v: string)
    ensures '\n' !in Escape(v) && '\r' !in Escape(v)
  {
    if v != "" {
      EscapeHasNoLineBreak(v[1..]);
    }
  }

  /** A printed value stays on its line, and the line does not end in a carriage return. */
  lemma QuotedIsOneLine(v: string)
    ensures '\n' !in QuoteIfNeeded(v)
    ensures var q := QuoteIfNeeded(v); q != "" ==> q[|q| - 1] != '\r'
  {
    if NeedsQuotes(v) {
      ChainIsEscape(v);
      EscapeHasNoLineBreak(v);
    }
  }

  // ------------------------------------------------------------------
  // Lines
  // ------------------------------------------------------------------

  function StripCr(s: string): string {
    if s != "" && s[|s| - 1] == '\r' then s[..|s| - 1] else s
  }

  /** `s.split(/\r?\n/)`. */
  function SplitLines(s: string): (lines: seq<string>)
    ensures lines != []
    decreases |s|
  {
    var k := IndexOf(s, '\n');
    if k < 0 then [s] else [StripCr(s[..k])] + SplitLines(s[k + 1..])
  }

  function StripAll(lines: seq<string>): (r: seq<string>)
    ensures |r| == |lines|
  {
    seq(|lines|, i requires 0 <= i < |lines| => StripCr(lines[i]))
  }

  lemma SplitFirstLine(a: string, rest: string)
    requires '\n' !in a
    ensures SplitLines(a + "\n" + rest) == [StripCr(a)] + SplitLines(rest)
  {
    var s := a + "\n" + rest;
    IndexAfterPrefix(a, '\n', rest);
    assert s[..|a|] == a && s[|a| + 1..] == rest;
  }

  /** Every line with a line break after it. */
  function Printed(lines: seq<string>): string {
    if lines == [] then "" else lines[0] + "\n" + Printed(lines[1..])
  }

  lemma {:induction false} JoinIsPrinted(lines: seq<string>)
    requires lines != []
    ensures Join(lines, '\n') + "\n" == Printed(lines)
  {
    if |lines| > 1 {
      JoinIsPrinted(lines[1..]);
      var (a, j, p) := (lines[0], Join(lines[1..], '\n'), Printed(lines[1..]));
      assert a + "\n" + j + "\n" == a + "\n" + (j + "\n");
    }
  }

  lemma {:induction false} SplitOfPrinted(lines: seq<string>)
    requires forall p :: p in lines ==> '\n' !in p
    ensures SplitLines(Printed(lines)) == StripAll(lines) + [""]
  {
    if lines == [] {
      assert SplitLines("") == [""];
    } else {
      SplitOfPrinted(lines[1..]);
      SplitFirstLine(lines[0], Printed(lines[1..]));
      StripFirst(lines, [""]);
    }
  }

  lemma StripFirst(lines: seq<string>, tail: seq<string>)
    requires lines != []
    ensures StripAll(lines) + tail == [StripCr(lines[0])] + (StripAll(lines[1..]) + tail)
  {
  }

  /** Reading back printed lines: every line comes back, less a final carriage return, and the final
      line break leaves one empty line. */
  lemma SplitPrinted(lines: seq<string>)
    requires lines != [] && forall p :: p in lines ==> '\n' !in p
    ensures SplitLines(Join(lines, '\n') + "\n") == StripAll(lines) + [""]
  {
    JoinIsPrinted(lines);
    SplitOfPrinted(lines);
  }
}
