/** Log line timestamps in the form of section 5.6 of RFC 3339, and the text form under which the scanner
    compares them. Calendar arithmetic for a zone offset is a parameter: the text that converting the
    stamp to UTC prints, or nothing when the date does not exist. */
module LogStamps {
  import opened Powers
  import opened Text
  import opened Wrappers

  /** What printing an instant in UTC yields: some text ending in `Z`. */
  type UtcText = s: string | s != "" && s[|s| - 1] == 'Z' witness "Z"

  type Calendar = string -> Option<UtcText>

  predicate Seconds(s: string) {
    && |s| == 19
    && AllDigits(s[..4]) && s[4] == '-' && AllDigits(s[5..7]) && s[7] == '-' && AllDigits(s[8..10])
    && s[10] == 'T'
    && AllDigits(s[11..13]) && s[13] == ':' && AllDigits(s[14..16]) && s[16] == ':' && AllDigits(s[17..])
  }

  predicate Fraction(f: string) {
    f == "" || (|f| >= 2 && f[0] == '.' && AllDigits(f[1..]))
  }

  predicate Offset(z: string) {
    && |z| == 6
    && (z[0] == '+' || z[0] == '-') && AllDigits(z[1..3]) && z[3] == ':' && AllDigits(z[4..])
  }

  predicate UtcStamp(s: string) {
    |s| >= 20 && Seconds(s[..19]) && Fraction(s[19..|s| - 1]) && s[|s| - 1] == 'Z'
  }

  predicate OffsetStamp(s: string) {
    |s| >= 25 && Seconds(s[..19]) && Fraction(s[19..|s| - 6]) && Offset(s[|s| - 6..])
  }

  /** The digits after the decimal point. */
  function FractionDigits(s: string): (f: string)
    requires UtcStamp(s)
    ensures AllDigits(f)
  {
    if s[19..|s| - 1] == "" then "" else s[20..|s| - 1]
  }

  function Zeros(k: nat): (z: string)
    ensures |z| == k && forall i :: 0 <= i < k ==> z[i] == '0'
  {
    if k == 0 then "" else ['0'] + Zeros(k - 1)
  }

  /** Padded with zeros to nine characters, and cut there. */
  function Nine(f: string): (n: string)
    requires AllDigits(f)
    ensures AllDigits(n) && |n| == 9
  {
    (f + Zeros(9))[..9]
  }

  function NormalizeUtc(s: string): string {
    if UtcStamp(s) then s[..19] + "." + Nine(FractionDigits(s)) + "Z" else s
  }

  /** `normalizeTs`. */
  function Normalize(ts: string, calendar: Calendar): string {
    if OffsetStamp(ts) then
      match calendar(ts)
      case None => ts
      case Some(utc) => NormalizeUtc(utc)
    else NormalizeUtc(ts)
  }

  /** Thirty characters with nine fraction digits: what `Normalize` makes of every UTC stamp. */
  predicate Normal(s: string) {
    |s| == 30 && Seconds(s[..19]) && s[19] == '.' && AllDigits(s[20..29]) && s[29] == 'Z'
  }

  lemma NormalOfUtc(s: string)
    requires UtcStamp(s)
    ensures Normal(NormalizeUtc(s))
    ensures NormalizeUtc(s)[..19] == s[..19] && NormalizeUtc(s)[20..29] == Nine(FractionDigits(s))
  {
    var n := NormalizeUtc(s);
    assert n[..19] == s[..19] && n[20..29] == Nine(FractionDigits(s));
  }

  lemma NormalIsFixed(s: string)
    requires Normal(s)
    ensures UtcStamp(s) && NormalizeUtc(s) == s
  {
    assert s[19..29][1..] == s[20..29];
    assert UtcStamp(s);
    assert FractionDigits(s) == s[20..29];
    assert Nine(s[20..29]) == s[20..29];
    assert s == s[..19] + [s[19]] + s[20..29] + [s[29]];
  }

  /** Normalising twice is normalising once, whatever the text and the calendar. */
  lemma NormalizeIsIdempotent(ts: string, calendar: Calendar)
    ensures Normalize(Normalize(ts, calendar), calendar) == Normalize(ts, calendar)
  {
    if OffsetStamp(ts) {
      match calendar(ts)
      case None =>
      case Some(utc) => UtcIsFixed(utc, calendar);
    } else if UtcStamp(ts) {
      UtcIsFixed(ts, calendar);
    }
  }

  lemma UtcIsFixed(utc: UtcText, calendar: Calendar)
    ensures Normalize(NormalizeUtc(utc), calendar) == NormalizeUtc(utc)
  {
    if UtcStamp(utc) {
      NormalOfUtc(utc);
      NormalIsFixed(NormalizeUtc(utc));
      NotAnOffset(NormalizeUtc(utc));
    } else {
      NotAnOffset(utc);
    }
  }

  lemma NotAnOffset(s: string)
    requires s != "" && s[|s| - 1] == 'Z'
    ensures !OffsetStamp(s)
  {
    if |s| >= 25 {
      var z := s[|s| - 6..];
      assert Offset(z) ==> IsDigit(z[4..][1]);
      assert z[5] == s[|s| - 1];
    }
  }

  // ------------------------------------------------------------------
  // Text order is time order
  // ------------------------------------------------------------------

  /** Year, month, day, hour, minute and second, read as one number. */
  function Clock(s: string): nat
    requires Seconds(s)
  {
    Value(ClockDigits(s))
  }

  function ClockDigits(s: string): (d: string)
    requires Seconds(s)
    ensures |d| == 14 && AllDigits(d)
  {
    s[..4] + s[5..7] + s[8..10] + s[11..13] + s[14..16] + s[17..]
  }

  /** One stamp denotes an earlier instant than another: by its clock reading, then by its fraction, and
      the fractions compare as the rational numbers they write. */
  predicate Earlier(a: string, b: string)
    requires UtcStamp(a) && UtcStamp(b)
  {
    var (i, j) := (FractionDigits(a), FractionDigits(b));
    || Clock(a[..19]) < Clock(b[..19])
    || (Clock(a[..19]) == Clock(b[..19]) && LessFraction(Value(i), Pow10(|i|), Value(j), Pow10(|j|)))
  }

  /** `x / p < y / q`. */
  predicate LessFraction(x: nat, p: nat, y: nat, q: nat) { x * q < y * p }

  lemma {:induction false} LessByParts(x: string, y: string, u: string, v: string)
    requires |x| == |y|
    ensures Less(x + u, y + v) <==> Less(x, y) || (x == y && Less(u, v))
  {
    if x == "" {
      assert x + u == u && y + v == v;
    } else {
      LessByParts(x[1..], y[1..], u, v);
      assert (x + u)[1..] == x[1..] + u && (y + v)[1..] == y[1..] + v;
      assert x == [x[0]] + x[1..] && y == [y[0]] + y[1..];
    }
  }

  function Without(s: string, k: nat): string
    requires k < |s|
  {
    s[..k] + s[k + 1..]
  }

  /** A character two texts share at one place does not decide their order. */
  lemma CommonCharacter(a: string, b: string, k: nat)
    requires k < |a| == |b| && a[k] == b[k]
    ensures Less(a, b) <==> Less(Without(a, k), Without(b, k))
  {
    assert a == a[..k] + ([a[k]] + a[k + 1..]) && b == b[..k] + ([b[k]] + b[k + 1..]);
    LessByParts(a[..k], b[..k], [a[k]] + a[k + 1..], [b[k]] + b[k + 1..]);
    LessByParts([a[k]], [b[k]], a[k + 1..], b[k + 1..]);
    LessByParts(a[..k], b[..k], a[k + 1..], b[k + 1..]);
    LessIsTotal([a[k]], [a[k]]);
  }

  /** A reading without its punctuation. */
  function Bare(s: string): string
    requires Seconds(s)
  {
    Without(Without(Without(Without(Without(s, 16), 13), 10), 7), 4)
  }

  lemma BareOrder(a: string, b: string)
    requires Seconds(a) && Seconds(b)
    ensures Less(a, b) <==> Less(Bare(a), Bare(b))
  {
    CommonCharacter(a, b, 16);
    var (a1, b1) := (Without(a, 16), Without(b, 16));
    CommonCharacter(a1, b1, 13);
    var (a2, b2) := (Without(a1, 13), Without(b1, 13));
    CommonCharacter(a2, b2, 10);
    var (a3, b3) := (Without(a2, 10), Without(b2, 10));
    CommonCharacter(a3, b3, 7);
    var (a4, b4) := (Without(a3, 7), Without(b3, 7));
    CommonCharacter(a4, b4, 4);
  }

  lemma BareIsClockDigits(s: string)
    requires Seconds(s)
    ensures Bare(s) == ClockDigits(s)
  {
    var s1 := Without(s, 16);
    assert s1 == s[..16] + s[17..];
    var s2 := Without(s1, 13);
    assert s2 == s[..13] + s[14..16] + s[17..];
    var s3 := Without(s2, 10);
    assert s3 == s[..10] + s[11..13] + s[14..16] + s[17..];
    var s4 := Without(s3, 7);
    assert s4 == s[..7] + s[8..10] + s[11..13] + s[14..16] + s[17..];
    assert Without(s4, 4) == s[..4] + s[5..7] + s[8..10] + s[11..13] + s[14..16] + s[17..];
  }

  lemma BareDetermines(a: string, b: string)
    requires Seconds(a) && Seconds(b) && ClockDigits(a) == ClockDigits(b)
    ensures a == b
  {
    var (d, e) := (ClockDigits(a), ClockDigits(b));
    assert d[..4] == a[..4] && e[..4] == b[..4];
    assert d[4..6] == a[5..7] && e[4..6] == b[5..7];
    assert d[6..8] == a[8..10] && e[6..8] == b[8..10];
    assert d[8..10] == a[11..13] && e[8..10] == b[11..13];
    assert d[10..12] == a[14..16] && e[10..12] == b[14..16];
    assert d[12..] == a[17..] && e[12..] == b[17..];
    SecondsParts(a);
    SecondsParts(b);
  }

  lemma SecondsParts(s: string)
    requires Seconds(s)
    ensures s == s[..4] + "-" + s[5..7] + "-" + s[8..10] + "T" + s[11..13] + ":" + s[14..16] + ":" + s[17..]
  {
  }

  lemma {:induction false} ValueFromTheFront(s: string)
    requires s != "" && AllDigits(s)
    ensures Value(s) == DigitValue(s[0]) * Pow10(|s| - 1) + Value(s[1..])
  {
    var n := |s| - 1;
    if n == 0 {
      assert s[..0] == "" && s[1..] == "" && Pow10(0) == 1;
    } else {
      ValueFromTheFront(s[..n]);
      var (d, last, p, v) := (DigitValue(s[0]), DigitValue(s[n]), Pow10(n - 1), Value(s[1..n]));
      ValueSnoc(s);
      ValueSnoc(s[1..]);
      assert s[1..][..n - 1] == s[1..n] && s[..n][1..] == s[1..n] && s[1..][n - 1] == s[n];
      Shifted(d, p, v, last);
    }
  }

  lemma ValueSnoc(s: string)
    requires s != "" && AllDigits(s)
    ensures Value(s) == 10 * Value(s[..|s| - 1]) + DigitValue(s[|s| - 1])
  {
  }

  lemma Shifted(d: nat, p: nat, v: nat, last: nat)
    ensures 10 * (d * p + v) + last == d * (10 * p) + (10 * v + last)
  {
  }

  lemma {:induction false} ValueIsBounded(s: string)
    requires AllDigits(s)
    ensures Value(s) < Pow10(|s|)
  {
    if s != "" {
      ValueIsBounded(s[..|s| - 1]);
    }
  }

  /** Texts of equally many digits order as their numbers do. */
  lemma {:induction false} DigitsOrder(a: string, b: string)
    requires AllDigits(a) && AllDigits(b) && |a| == |b|
    ensures Less(a, b) <==> Value(a) < Value(b)
    ensures Value(a) == Value(b) ==> a == b
  {
    if a != "" {
      DigitsOrder(a[1..], b[1..]);
      ValueFromTheFront(a);
      ValueFromTheFront(b);
      ValueIsBounded(a[1..]);
      ValueIsBounded(b[1..]);
      LeadingDigit(DigitValue(a[0]), DigitValue(b[0]), Pow10(|a| - 1), Value(a[1..]), Value(b[1..]));
      assert a == [a[0]] + a[1..] && b == [b[0]] + b[1..];
    }
  }

  lemma LeadingDigit(d: nat, e: nat, p: nat, x: nat, y: nat)
    requires x < p && y < p
    ensures d < e ==> d * p + x < e * p + y
    ensures e < d ==> e * p + y < d * p + x
  {
    if d < e {
      assert (d + 1) * p <= e * p;
    } else if e < d {
      assert (e + 1) * p <= d * p;
    }
  }

  lemma ValueOfZeroLast(s: string)
    requires AllDigits(s)
    ensures AllDigits(s + "0") && Value(s + "0") == 10 * Value(s)
  {
    assert (s + "0")[..|s|] == s;
  }

  lemma TenTimes(x: nat, k: nat)
    ensures 10 * (x * Pow10(k)) == x * Pow10(k + 1)
  {
  }

  lemma {:induction false} ValueWithZeros(f: string, z: string)
    requires AllDigits(f) && forall i :: 0 <= i < |z| ==> z[i] == '0'
    ensures AllDigits(f + z) && Value(f + z) == Value(f) * Pow10(|z|)
    decreases |z|
  {
    if z == "" {
      assert f + z == f;
    } else {
      var y := z[..|z| - 1];
      ValueWithZeros(f, y);
      assert f + z == f + y + "0";
      ValueOfZeroLast(f + y);
      TenTimes(Value(f), |y|);
    }
  }

  lemma NineIsNanoseconds(f: string)
    requires AllDigits(f) && |f| <= 9
    ensures Value(Nine(f)) == Value(f) * Pow10(9 - |f|)
  {
    hide Value, Pow10, Zeros;
    var z := Zeros(9)[..9 - |f|];
    assert Nine(f) == f + z;
    ValueWithZeros(f, z);
  }

  lemma TimesPositive(x: nat, y: nat, p: nat)
    requires p > 0
    ensures x * p < y * p <==> x < y
  {
    if x < y {
      TimesMonotone(x + 1, y, p);
    } else {
      TimesMonotone(y, x, p);
    }
  }

  lemma {:induction false} TimesMonotone(x: nat, y: nat, p: nat)
    requires x <= y
    ensures x * p <= y * p
  {
    if x < y { TimesMonotone(x, y - 1, p); }
  }

  lemma {:induction false} ValueConcat(f: string, r: string)
    requires AllDigits(f) && AllDigits(r)
    ensures AllDigits(f + r) && Value(f + r) == Value(f) * Pow10(|r|) + Value(r)
    decreases |r|
  {
    if r == "" {
      assert f + r == f;
    } else {
      var n := |r| - 1;
      ValueConcat(f, r[..n]);
      assert (f + r)[..|f + r| - 1] == f + r[..n];
      ValueSnoc(f + r);
      ValueSnoc(r);
      OneMoreDigit(Value(f), n, Value(r[..n]), DigitValue(r[n]));
    }
  }

  lemma OneMoreDigit(x: nat, k: nat, v: nat, d: nat)
    ensures 10 * (x * Pow10(k) + v) + d == x * Pow10(k + 1) + (10 * v + d)
  {
    TenTimes(x, k);
  }

  /** `v` is the whole part of `x * nine / p`. */
  predicate IsFloor(v: nat, x: nat, p: nat, nine: nat) { v * p <= x * nine < (v + 1) * p }

  /** Padding and cutting to nine digits takes the whole nanoseconds of a fraction. */
  lemma NineIsTheFloor(f: string)
    requires AllDigits(f)
    ensures IsFloor(Value(Nine(f)), Value(f), Pow10(|f|), Pow10(9))
  {
    hide Value, Pow10, IsFloor, Nine;
    if |f| <= 9 { PaddedFloor(f); } else { CutFloor(f); }
  }

  lemma PaddedFloor(f: string)
    requires AllDigits(f) && |f| <= 9
    ensures IsFloor(Value(Nine(f)), Value(f), Pow10(|f|), Pow10(9))
  {
    hide Value, Pow10, IsFloor, Nine;
    NineIsNanoseconds(f);
    Pow10Adds(|f|, 9 - |f|);
    ExactFloor(Value(f), Pow10(9 - |f|), Pow10(|f|), Pow10(9));
  }

  lemma CutFloor(f: string)
    requires AllDigits(f) && |f| > 9
    ensures IsFloor(Value(Nine(f)), Value(f), Pow10(|f|), Pow10(9))
  {
    hide Value, Pow10, IsFloor;
    var (n, r) := (f[..9], f[9..]);
    assert Nine(f) == n && f == n + r;
    ValueConcat(n, r);
    ValueIsBounded(r);
    Pow10Adds(9, |r|);
    RoundedFloor(Value(n), Pow10(|r|), Value(r), Pow10(9));
  }

  lemma ExactFloor(x: nat, q: nat, p: nat, nine: nat)
    requires p > 0 && p * q == nine
    ensures IsFloor(x * q, x, p, nine)
  {
    assert (x * q) * p == x * nine by { assert (x * q) * p == x * (q * p); Commutes(p, q); }
    assert (x * q + 1) * p == (x * q) * p + p;
  }

  lemma RoundedFloor(v: nat, r: nat, x: nat, nine: nat)
    requires x < r && nine > 0
    ensures IsFloor(v, v * r + x, nine * r, nine)
  {
    Spread(v, r, x, nine);
    assert (v + 1) * (nine * r) == v * (nine * r) + nine * r;
    TimesMonotone(x + 1, r, nine);
    Commutes(r, nine);
  }

  lemma Spread(v: nat, r: nat, x: nat, nine: nat)
    ensures (v * r + x) * nine == v * (nine * r) + x * nine
  {
    assert (v * r + x) * nine == (v * r) * nine + x * nine;
    assert (v * r) * nine == v * (r * nine);
    Commutes(r, nine);
  }

  /** Fewer whole nanoseconds make the lesser fraction. */
  lemma FloorsOrder(f: string, g: string)
    requires AllDigits(f) && AllDigits(g) && Value(Nine(f)) < Value(Nine(g))
    ensures LessFraction(Value(f), Pow10(|f|), Value(g), Pow10(|g|))
  {
    hide Value, Pow10, Nine, IsFloor, LessFraction;
    NineIsTheFloor(f);
    NineIsTheFloor(g);
    CompareFloors(Value(f), Value(g), Pow10(|f|), Pow10(|g|), Pow10(9), Value(Nine(f)), Value(Nine(g)));
  }

  lemma CompareFloors(x: nat, y: nat, p: nat, q: nat, nine: nat, v: nat, w: nat)
    requires p > 0 && q > 0 && nine > 0 && v < w
    requires IsFloor(v, x, p, nine) && IsFloor(w, y, q, nine)
    ensures LessFraction(x, p, y, q)
  {
    TimesPositive(x * nine, (v + 1) * p, q);
    TimesMonotone(v + 1, w, p * q);
    TimesMonotone(w * q, y * nine, p);
    Swap(v + 1, p, q);
    Swap(w, q, p);
    Swap(x, nine, q);
    Swap(y, nine, p);
    TimesPositive(x * q, y * p, nine);
  }

  /** Two factors trade places. */
  lemma Swap(x: nat, a: nat, b: nat)
    ensures (x * a) * b == (x * b) * a && (x * a) * b == x * (a * b) && (x * a) * b == x * (b * a)
  {
    assert (x * a) * b == x * (a * b);
    assert (x * b) * a == x * (b * a);
    Commutes(a, b);
  }

  /** With nine digits or less nothing is cut: nanoseconds compare as the fractions do. */
  lemma FractionsOrder(f: string, g: string)
    requires AllDigits(f) && AllDigits(g) && |f| <= 9 && |g| <= 9
    ensures Value(Nine(f)) < Value(Nine(g)) <==> LessFraction(Value(f), Pow10(|f|), Value(g), Pow10(|g|))
  {
    hide Value, Pow10, Nine;
    NineIsNanoseconds(f);
    NineIsNanoseconds(g);
    Scale(Value(f), Value(g), |f|, |g|);
  }

  lemma Scale(x: nat, y: nat, i: nat, j: nat)
    requires i <= 9 && j <= 9
    ensures x * Pow10(9 - i) < y * Pow10(9 - j) <==> x * Pow10(j) < y * Pow10(i)
  {
    Pow10Adds(i, 9 - i);
    Pow10Adds(j, 9 - j);
    CrossMultiply(x, y, Pow10(i), Pow10(j), Pow10(9 - i), Pow10(9 - j));
  }

  lemma CrossMultiply(x: nat, y: nat, p: nat, q: nat, pp: nat, qq: nat)
    requires p > 0 && q > 0 && pp > 0 && qq > 0 && p * pp == q * qq
    ensures x * pp < y * qq <==> x * q < y * p
  {
    ProductIsPositive(p, q);
    ProductIsPositive(p, pp);
    TimesPositive(x * pp, y * qq, p * q);
    TimesPositive(x * q, y * p, p * pp);
    Regroup(x, pp, p, q);
    Regroup(y, qq, q, p);
    Commutes(p, q);
  }

  lemma Commutes(p: nat, q: nat)
    ensures p * q == q * p
  {
  }

  lemma ProductIsPositive(p: nat, q: nat)
    requires p > 0 && q > 0
    ensures p * q > 0
  {
  }

  lemma Regroup(x: nat, a: nat, b: nat, c: nat)
    ensures (x * a) * (b * c) == (x * c) * (b * a)
  {
    assert (x * a) * (b * c) == x * (a * (b * c));
    assert a * (b * c) == c * (b * a);
    assert (x * c) * (b * a) == x * (c * (b * a));
  }

  lemma SecondsOrder(a: string, b: string)
    requires Seconds(a) && Seconds(b)
    ensures Less(a, b) <==> Clock(a) < Clock(b)
    ensures Clock(a) == Clock(b) <==> a == b
  {
    BareOrder(a, b);
    BareIsClockDigits(a);
    BareIsClockDigits(b);
    DigitsOrder(ClockDigits(a), ClockDigits(b));
    if Clock(a) == Clock(b) {
      BareDetermines(a, b);
    }
  }

  lemma NormalOrder(a: string, b: string)
    requires Normal(a) && Normal(b)
    ensures Less(a, b) <==> Less(a[..19], b[..19]) || (a[..19] == b[..19] && Less(a[20..29], b[20..29]))
  {
    CommonCharacter(a, b, 29);
    var (a1, b1) := (Without(a, 29), Without(b, 29));
    CommonCharacter(a1, b1, 19);
    assert Without(a1, 19) == a[..19] + a[20..29] && Without(b1, 19) == b[..19] + b[20..29];
    LessByParts(a[..19], b[..19], a[20..29], b[20..29]);
  }

  /** The text order of normalised stamps, for every two UTC stamps: by the clock reading, then by the whole
      nanoseconds. */
  lemma NormalizeComparesNanoseconds(a: string, b: string)
    requires UtcStamp(a) && UtcStamp(b)
    ensures var (v, w) := (Value(Nine(FractionDigits(a))), Value(Nine(FractionDigits(b))));
            && (Less(NormalizeUtc(a), NormalizeUtc(b)) <==>
                  Clock(a[..19]) < Clock(b[..19]) || (Clock(a[..19]) == Clock(b[..19]) && v < w))
            && (NormalizeUtc(a) == NormalizeUtc(b) <==> Clock(a[..19]) == Clock(b[..19]) && v == w)
  {
    var (f, g) := (Nine(FractionDigits(a)), Nine(FractionDigits(b)));
    NormalOfUtc(a);
    NormalOfUtc(b);
    NormalOrder(NormalizeUtc(a), NormalizeUtc(b));
    SecondsOrder(a[..19], b[..19]);
    DigitsOrder(f, g);
  }

  /** Normalising keeps the order of instants, but for the ties it makes: for every two UTC stamps the texts
      compare if and only if the instants do and the normal forms differ. */
  lemma NormalizeKeepsOrder(a: string, b: string)
    requires UtcStamp(a) && UtcStamp(b)
    ensures Less(NormalizeUtc(a), NormalizeUtc(b)) <==> Earlier(a, b) && NormalizeUtc(a) != NormalizeUtc(b)
  {
    var (f, g) := (FractionDigits(a), FractionDigits(b));
    hide NormalizeUtc, Value, Pow10, Nine, Clock, LessFraction;
    NormalizeComparesNanoseconds(a, b);
    if Value(Nine(f)) < Value(Nine(g)) { FloorsOrder(f, g); }
    if Value(Nine(g)) < Value(Nine(f)) {
      FloorsOrder(g, f);
      NotBoth(Value(f), Pow10(|f|), Value(g), Pow10(|g|));
    }
  }

  lemma NotBoth(x: nat, p: nat, y: nat, q: nat)
    ensures !(LessFraction(x, p, y, q) && LessFraction(y, q, x, p))
  {
  }

  /** Stamps of at most nine fraction digits never tie wrongly: text order is the order of instants. */
  lemma NineDigitsKeepOrder(a: string, b: string)
    requires UtcStamp(a) && UtcStamp(b)
    requires |FractionDigits(a)| <= 9 && |FractionDigits(b)| <= 9
    ensures Less(NormalizeUtc(a), NormalizeUtc(b)) <==> Earlier(a, b)
  {
    var (f, g) := (FractionDigits(a), FractionDigits(b));
    hide NormalizeUtc, Value, Pow10, Nine, Clock, LessFraction;
    NormalizeComparesNanoseconds(a, b);
    FractionsOrder(f, g);
  }

  /** A cursor with an offset compares as its instant does: with every UTC stamp, either way round. One the calendar
      has no date for stays as it is. */
  lemma OffsetsCompareAsInstants(ts: string, calendar: Calendar, b: string)
    requires OffsetStamp(ts) && UtcStamp(b) && (calendar(ts).Some? ==> UtcStamp(calendar(ts).value))
    ensures calendar(ts) == None ==> Normalize(ts, calendar) == ts
    ensures calendar(ts).Some? ==>
              var (x, y, utc) := (Normalize(ts, calendar), Normalize(b, calendar), calendar(ts).value);
              && (Less(x, y) <==> Earlier(utc, b) && x != y)
              && (Less(y, x) <==> Earlier(b, utc) && x != y)
  {
    NotAnOffset(b);
    assert calendar(ts) == None || calendar(ts).Some?;
    if calendar(ts).Some? {
      NormalizeKeepsOrder(calendar(ts).value, b);
      NormalizeKeepsOrder(b, calendar(ts).value);
    }
  }

  /** Beyond nine digits they do: of two stamps that differ in the tenth digit alone one is earlier, and both
      read alike. */
  lemma TenthDigitsTie(s: string, n: string, d: char, e: char)
    requires Seconds(s) && |n| == 9 && AllDigits(n) && IsDigit(d) && IsDigit(e) && d < e
    ensures var (a, b) := (Fractional(s, n + [d]), Fractional(s, n + [e]));
            UtcStamp(a) && UtcStamp(b) && Earlier(a, b) && NormalizeUtc(a) == NormalizeUtc(b)
  {
    var (f, g) := (n + [d], n + [e]);
    FractionalParts(s, f);
    FractionalParts(s, g);
    assert f[..9] == n && g[..9] == n;
    ValueSnoc(f);
    ValueSnoc(g);
    TimesPositive(Value(f), Value(g), Pow10(10));
  }

  function Fractional(s: string, f: string): string { s + "." + f + "Z" }

  lemma FractionalParts(s: string, f: string)
    requires Seconds(s) && |f| >= 9 && AllDigits(f)
    ensures var a := Fractional(s, f);
            UtcStamp(a) && a[..19] == s && FractionDigits(a) == f && Nine(f) == f[..9]
  {
    var a := Fractional(s, f);
    assert a[..19] == s && a[19..|a| - 1] == "." + f && a[20..|a| - 1] == f && ("." + f)[1..] == f;
  }
}
