/** String functions of the JavaScript library that several components use. A string is a sequence of
    characters; the source only ever inspects characters of the Basic Multilingual Plane. */
module Text {
  import opened Wrappers

  predicate IsDigit(c: char) { '0' <= c <= '9' }

  predicate AllDigits(s: string) { forall i :: 0 <= i < |s| ==> IsDigit(s[i]) }

  /** White space for `trim` and for `\s`. */
  predicate IsSpace(c: char) {
    c == ' ' || '\t' <= c <= '\r' || c == '\U{A0}' || c == '\U{1680}' || '\U{2000}' <= c <= '\U{200A}'
    || c == '\U{2028}' || c == '\U{2029}' || c == '\U{202F}' || c == '\U{205F}' || c == '\U{3000}' || c == '\U{FEFF}'
  }

  // ------------------------------------------------------------------
  // trim
  // ------------------------------------------------------------------

  function TrimStart(s: string): (r: string)
    ensures |r| <= |s| && (r != "" ==> !IsSpace(r[0])) && (|r| == |s| ==> r == s)
  {
    if s != "" && IsSpace(s[0]) then TrimStart(s[1..]) else s
  }

  function TrimEnd(s: string): (r: string)
    ensures r <= s && (r != "" ==> !IsSpace(r[|r| - 1]))
  {
    if s != "" && IsSpace(s[|s| - 1]) then TrimEnd(s[..|s| - 1]) else s
  }

  function Trim(s: string): string {
    TrimEnd(TrimStart(s))
  }

  predicate Trimmed(s: string) {
    s == "" || (!IsSpace(s[0]) && !IsSpace(s[|s| - 1]))
  }

  predicate Blank(s: string) { forall i :: 0 <= i < |s| ==> IsSpace(s[i]) }

  lemma TrimmedIsFixed(s: string)
    ensures Trim(s) == s <==> Trimmed(s)
  {
    if Trim(s) == s && s != "" {
      assert |TrimStart(s)| == |s|;
      assert TrimEnd(TrimStart(s)) <= TrimStart(s);
      assert TrimStart(s) == s;
    }
  }

  /** White space after the text is trimmed away. */
  lemma {:induction false} TrimEndBlank(s: string, t: string)
    requires Blank(t)
    ensures TrimEnd(s + t) == TrimEnd(s)
    decreases |t|
  {
    if t == "" {
      assert s + t == s;
    } else {
      assert (s + t)[..|s + t| - 1] == s + t[..|t| - 1];
      TrimEndBlank(s, t[..|t| - 1]);
    }
  }

  /** Trimming from the end does not reach past a character that is no white space. */
  lemma {:induction false} TrimEndStops(s: string, t: string)
    requires s != "" && !IsSpace(s[|s| - 1])
    ensures TrimEnd(s + t) == s + TrimEnd(t)
    decreases |t|
  {
    if t == "" {
      assert s + t == s;
    } else if IsSpace(t[|t| - 1]) {
      assert (s + t)[..|s + t| - 1] == s + t[..|t| - 1];
      TrimEndStops(s, t[..|t| - 1]);
    }
  }

  /** Both ends are trimmed independently. */
  lemma {:induction false} TrimsCommute(s: string)
    ensures Trim(s) == TrimStart(TrimEnd(s))
    decreases |s|
  {
    if s != "" {
      if IsSpace(s[0]) {
        TrimsCommute(s[1..]);
        LeadingSpaceAfterTrimEnd(s);
      } else if IsSpace(s[|s| - 1]) {
        TrimEndStops(s[..1], s[1..]);
        assert s == s[..1] + s[1..];
      }
    }
  }

  lemma {:induction false} LeadingSpaceAfterTrimEnd(s: string)
    requires s != "" && IsSpace(s[0])
    ensures TrimStart(TrimEnd(s)) == TrimStart(TrimEnd(s[1..]))
    decreases |s|
  {
    if |s| == 1 {
      assert s[..0] == "" && s[1..] == "";
      assert TrimEnd(s) == TrimEnd(s[..0]);
    } else if IsSpace(s[|s| - 1]) {
      LeadingSpaceAfterTrimEnd(s[..|s| - 1]);
      assert s[..|s| - 1][1..] == s[1..][..|s| - 2];
    } else {
      assert TrimEnd(s) == s && TrimEnd(s[1..]) == s[1..];
    }
  }

  /** `s.slice(0, n)`. */
  function Cut(s: string, n: nat): string { if |s| <= n then s else s[..n] }

  // ------------------------------------------------------------------
  // Decimal numbers
  // ------------------------------------------------------------------

  function DigitChar(d: nat): (c: char)
    requires d < 10
    ensures IsDigit(c) && DigitValue(c) == d
  {
    '0' + d as char
  }

  function DigitValue(c: char): (d: nat)
    requires IsDigit(c)
    ensures d < 10
  {
    (c - '0') as nat
  }

  /** A number's shortest decimal text. */
  function Decimal(n: nat): (s: string)
    ensures s != "" && AllDigits(s)
  {
    if n < 10 then [DigitChar(n)] else Decimal(n / 10) + [DigitChar(n % 10)]
  }

  /** The number a text of digits denotes. */
  function Value(s: string): nat
    requires AllDigits(s)
  {
    if s == "" then 0 else 10 * Value(s[..|s| - 1]) + DigitValue(s[|s| - 1])
  }

  lemma {:induction false} ValueOfDecimal(n: nat)
    ensures Value(Decimal(n)) == n
  {
    if n >= 10 {
      var s := Decimal(n / 10);
      assert (s + [DigitChar(n % 10)])[..|s|] == s;
      ValueOfDecimal(n / 10);
    } else {
      assert [DigitChar(n)][..0] == "";
    }
  }

  /** The largest integer a JavaScript number holds exactly with all below it. */
  const MAX_SAFE_INTEGER := 9_007_199_254_740_991

  /** `Number(text)` kept if an integer. Digits denote their value and white space denotes 0; `other` says
      what the remaining notations (signs, exponents, hexadecimal, ...) denote. */
  function JsInteger(text: string, other: string -> Option<int>): Option<int> {
    if Blank(text) then Some(0)
    else if AllDigits(text) && Value(text) <= MAX_SAFE_INTEGER then Some(Value(text))
    else other(text)
  }

  /** `lastIndexOf` of one character, -1 when absent. */
  function LastIndexOf(s: string, c: char): (k: int)
    ensures -1 <= k < |s|
    ensures k >= 0 ==> s[k] == c
    ensures forall i :: k < i < |s| ==> s[i] != c
  {
    if s == "" then -1 else if s[|s| - 1] == c then |s| - 1 else LastIndexOf(s[..|s| - 1], c)
  }

  /** `indexOf` of one character, -1 when absent. */
  function IndexOf(s: string, c: char): (k: int)
    ensures -1 <= k < |s|
    ensures k >= 0 ==> s[k] == c
    ensures forall i :: 0 <= i < |s| && (k < 0 || i < k) ==> s[i] != c
  {
    if s == "" then -1
    else if s[0] == c then 0
    else var k := IndexOf(s[1..], c); if k < 0 then -1 else k + 1
  }

  // ------------------------------------------------------------------
  // split and join
  // ------------------------------------------------------------------

  /** `s.split(c)`. */
  function SplitOn(s: string, c: char): (parts: seq<string>)
    ensures parts != [] && forall p :: p in parts ==> c !in p
    decreases |s|
  {
    var k := IndexOf(s, c);
    if k < 0 then [s] else [s[..k]] + SplitOn(s[k + 1..], c)
  }

  /** `parts.join(c)`. */
  function Join(parts: seq<string>, c: char): string {
    if parts == [] then "" else if |parts| == 1 then parts[0] else parts[0] + [c] + Join(parts[1..], c)
  }

  lemma IndexAfterPrefix(a: string, c: char, b: string)
    requires c !in a
    ensures IndexOf(a + [c] + b, c) == |a|
  {
    var s := a + [c] + b;
    assert s[|a|] == c;
    assert forall i :: 0 <= i < |a| ==> s[i] == a[i];
  }

  lemma {:induction false} JoinInvertsSplit(s: string, c: char)
    ensures Join(SplitOn(s, c), c) == s
    decreases |s|
  {
    var k := IndexOf(s, c);
    if k >= 0 {
      JoinInvertsSplit(s[k + 1..], c);
      var rest := SplitOn(s[k + 1..], c);
      assert ([s[..k]] + rest)[1..] == rest;
      assert s == s[..k] + [c] + s[k + 1..];
    }
  }

  lemma {:induction false} SplitInvertsJoin(parts: seq<string>, c: char)
    requires parts != [] && forall p :: p in parts ==> c !in p
    ensures SplitOn(Join(parts, c), c) == parts
  {
    if |parts| == 1 {
      assert parts[0] in parts;
      SplitWhole(parts[0], c);
      assert parts == [parts[0]];
    } else {
      SplitInvertsJoin(parts[1..], c);
      SplitFirst(parts[0], Join(parts[1..], c), c);
      assert parts == [parts[0]] + parts[1..];
    }
  }

  lemma SplitWhole(a: string, c: char)
    requires c !in a
    ensures SplitOn(a, c) == [a]
  {
    assert IndexOf(a, c) == -1;
  }

  lemma SplitFirst(a: string, rest: string, c: char)
    requires c !in a
    ensures SplitOn(a + [c] + rest, c) == [a] + SplitOn(rest, c)
  {
    var s := a + [c] + rest;
    IndexAfterPrefix(a, c, rest);
    assert s[..|a|] == a && s[|a| + 1..] == rest;
  }

  // ------------------------------------------------------------------
  // String order
  // ------------------------------------------------------------------

  /** `<` on strings: the order of the first difference. */
  predicate Less(a: string, b: string) {
    b != "" && (a == "" || a[0] < b[0] || (a[0] == b[0] && Less(a[1..], b[1..])))
  }

  lemma {:induction false} LessIsTransitive(a: string, b: string, c: string)
    requires Less(a, b) && Less(b, c)
    ensures Less(a, c)
    decreases |a|
  {
    if a != "" && a[0] == b[0] && b[0] == c[0] {
      LessIsTransitive(a[1..], b[1..], c[1..]);
    }
  }

  lemma {:induction false} LessIsTotal(a: string, b: string)
    ensures !Less(a, a)
    ensures Less(a, b) || Less(b, a) || a == b
    ensures !(Less(a, b) && Less(b, a))
    decreases |a|
  {
    if a != "" && b != "" && a[0] == b[0] {
      LessIsTotal(a[1..], b[1..]);
      assert a == [a[0]] + a[1..] && b == [b[0]] + b[1..];
    } else if a != "" {
      LessIsTotal(a[1..], a[1..]);
    }
  }
}
