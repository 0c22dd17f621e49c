/** When the Jobs of two nodes get one name (src/services/bundle-import.ts:83-90): exactly, for all services,
    tags and nodes. */
module JobNameClashes {
  import opened BundleNames
  import opened Text

  /** The text ends with a dash and `s`. */
  predicate EndsWith(t: string, s: string) { |s| < |t| && t[|t| - |s| - 1..] == "-" + s }

  /** What precedes that dash. */
  function Before(t: string, s: string): string
    requires |s| < |t|
  {
    t[..|t| - |s| - 1]
  }

  /** The base a name has beside a segment. */
  function BaseBeside(service: string, tag: string, seg: string, lower: Lower): string {
    Base(service, tag, if |seg| <= 61 then 61 - |seg| else 0, lower)
  }

  /** `t` ends in `s`, and its base `d` is shorter than the base `b` by exactly what `t` puts back. */
  predicate PutsBack(b: string, s: string, d: string, t: string) {
    EndsWith(t, s) && b == d + "-" + Before(t, s)
  }

  /** The segments are equal, or one swallows the other: cutting more off the base for the longer one removed
      exactly what it puts back. */
  predicate SameText(b: string, s: string, d: string, t: string) {
    s == t || PutsBack(b, s, d, t) || PutsBack(d, t, b, s)
  }

  predicate SameName(service: string, tag: string, s: string, t: string, lower: Lower) {
    SameText(BaseBeside(service, tag, s, lower), s, BaseBeside(service, tag, t, lower), t)
  }

  lemma SameLength(base: string, s: string, t: string)
    ensures base + "-" + s == base + "-" + t <==> s == t
  {
    assert (base + "-" + s)[|base| + 1..] == s && (base + "-" + t)[|base| + 1..] == t;
  }

  /** Two texts with a dash and an ending each, the second ending longer. */
  lemma LongerEnding(b: string, s: string, d: string, t: string)
    requires |s| < |t|
    ensures b + "-" + s == d + "-" + t <==> EndsWith(t, s) && b == d + "-" + Before(t, s)
  {
    var (x, y) := (b + "-" + s, d + "-" + t);
    assert x[..|x| - |s| - 1] == b && x[|x| - |s| - 1..] == "-" + s;
    var k := |t| - |s| - 1;
    assert y == d + "-" + t[..k] + t[k..];
    assert y[..|y| - |s| - 1] == d + "-" + t[..k] && y[|y| - |s| - 1..] == t[k..];
    if EndsWith(t, s) && b == d + "-" + Before(t, s) {
      assert x == b + ("-" + s) && y == d + "-" + t[..k] + ("-" + s);
    }
  }

  lemma SameAssembled(b: string, s: string, d: string, t: string)
    requires |s| == |t| ==> b == d
    ensures b + "-" + s == d + "-" + t <==> SameText(b, s, d, t)
  {
    if |s| == |t| {
      SameLength(b, s, t);
    } else if |s| < |t| {
      LongerEnding(b, s, d, t);
    } else {
      LongerEnding(d, t, b, s);
    }
  }

  /** For all services, tags and nodes: two nodes get the same Job name if and only if they have the same
      segment, or one segment swallows the other. */
  lemma JobNamesCollideIff(service: string, tag: string, a: string, b: string, lower: Lower, digest: Digest)
    requires a != "" && b != ""
    ensures ImportJobName(service, tag, a, lower, digest) == ImportJobName(service, tag, b, lower, digest)
       <==> SameName(service, tag, NodeSegment(a, lower, digest), NodeSegment(b, lower, digest), lower)
  {
    NameWithNode(service, tag, a, lower, digest);
    NameWithNode(service, tag, b, lower, digest);
    var (s, t) := (NodeSegment(a, lower, digest), NodeSegment(b, lower, digest));
    BesideIsBase(service, tag, s, lower);
    BesideIsBase(service, tag, t, lower);
    SegmentsAssemble(service, tag, s, t, lower);
  }

  lemma BesideIsBase(service: string, tag: string, seg: string, lower: Lower)
    requires |seg| <= 61
    ensures BaseBeside(service, tag, seg, lower) == Base(service, tag, 61 - |seg|, lower)
  {
  }

  lemma SegmentsAssemble(service: string, tag: string, s: string, t: string, lower: Lower)
    ensures BaseBeside(service, tag, s, lower) + "-" + s == BaseBeside(service, tag, t, lower) + "-" + t
       <==> SameName(service, tag, s, t, lower)
  {
    SameAssembled(BaseBeside(service, tag, s, lower), s, BaseBeside(service, tag, t, lower), t);
  }

  // ------------------------------------------------------------------
  // Names that are not cut
  // ------------------------------------------------------------------

  lemma WholeBase(service: string, tag: string, budget: nat, lower: Lower)
    requires |STEM + Tail(service, tag, lower)| <= budget
    ensures Base(service, tag, budget, lower) == TrimEndDashes(STEM + Tail(service, tag, lower))
  {
  }

  /** When service and tag stay whole beside both segments, only equal segments give equal names. */
  lemma WholeNamesCollideIff(service: string, tag: string, a: string, b: string, lower: Lower, digest: Digest)
    requires a != "" && b != ""
    requires |STEM + Tail(service, tag, lower)| + |NodeSegment(a, lower, digest)| <= 61
    requires |STEM + Tail(service, tag, lower)| + |NodeSegment(b, lower, digest)| <= 61
    ensures ImportJobName(service, tag, a, lower, digest) == ImportJobName(service, tag, b, lower, digest)
       <==> NodeSegment(a, lower, digest) == NodeSegment(b, lower, digest)
  {
    hide ImportJobName, NodeSegment, Base, BaseBeside, Tail, TrimEndDashes;
    JobNamesCollideIff(service, tag, a, b, lower, digest);
    var (s, t) := (NodeSegment(a, lower, digest), NodeSegment(b, lower, digest));
    WholeBase(service, tag, 61 - |s|, lower);
    WholeBase(service, tag, 61 - |t|, lower);
    BesideIsBase(service, tag, s, lower);
    BesideIsBase(service, tag, t, lower);
    assert |BaseBeside(service, tag, s, lower)| == |BaseBeside(service, tag, t, lower)|;
  }

  // ------------------------------------------------------------------
  // Names that are cut
  // ------------------------------------------------------------------

  /** Lower-casing leaves letters that are lower case, digits and dashes alone. */
  ghost predicate LeavesNamesAlone(lower: Lower) {
    forall s :: NameText(s) ==> lower(s) == s
  }

  lemma {:induction false} CollapseOfName(s: string)
    requires NameText(s) && forall i :: 0 <= i < |s| - 1 ==> IsAlnum(s[i]) || IsAlnum(s[i + 1])
    ensures Collapse(s) == s
    decreases |s|
  {
    if s != "" {
      CollapseOfName(s[1..]);
      assert s == [s[0]] + s[1..];
      if !IsAlnum(s[0]) { assert DropOthers(s[1..]) == s[1..]; }
    }
  }

  /** A label without two dashes in a row is its own slug. */
  lemma SlugOfName(s: string, lower: Lower)
    requires LeavesNamesAlone(lower) && Label(s)
    requires forall i :: 0 <= i < |s| - 1 ==> IsAlnum(s[i]) || IsAlnum(s[i + 1])
    ensures Slug(s, lower) == s
  {
    CollapseOfName(s);
    TrimmedIsUntouched(s);
  }

  lemma PlainSegments(lower: Lower, digest: Digest)
    requires LeavesNamesAlone(lower)
    ensures Verbatim("a", lower) && Verbatim("x-a", lower)
    ensures NodeSegment("a", lower, digest) == "a" && NodeSegment("x-a", lower, digest) == "x-a"
  {
    hide Slug;
    SlugOfName("a", lower);
    SlugOfName("x-a", lower);
  }

  lemma CutBases(tail: string)
    requires var t := STEM + tail; |t| >= 60 && t[57] != '-' && t[58..60] == "-x"
    ensures PutsBack(BaseOf(tail, 60), "a", BaseOf(tail, 58), "x-a")
  {
    var t := STEM + tail;
    var (long, short) := (Cut(t, 60), Cut(t, 58));
    assert t[58] == '-' && t[59] == 'x' by { assert t[58..60][0] == '-' && t[58..60][1] == 'x'; }
    assert long == short + "-" + "x";
    assert long[|long| - 1] != '-' && short[|short| - 1] != '-';
    assert EndsWith("x-a", "a") && Before("x-a", "a") == "x";
  }

  /** The unrestricted converse is false. When the cut falls beside a dash of service or tag, two nodes whose
      names were not even hashed, and whose segments differ, get one Job name. */
  lemma CutNamesClash(service: string, tag: string, lower: Lower, digest: Digest)
    requires LeavesNamesAlone(lower)
    requires var t := STEM + Tail(service, tag, lower); |t| >= 60 && t[57] != '-' && t[58..60] == "-x"
    ensures NodeSegment("a", lower, digest) != NodeSegment("x-a", lower, digest)
    ensures ImportJobName(service, tag, "a", lower, digest) == ImportJobName(service, tag, "x-a", lower, digest)
  {
    PlainSegments(lower, digest);
    CutBases(Tail(service, tag, lower));
    assert SameName(service, tag, "a", "x-a", lower);
    JobNamesCollideIff(service, tag, "a", "x-a", lower, digest);
  }

  function LongTag(): string { seq(30, _ => 'a') + "-x1234" }

  /** One such import: service `payments-api` and a tag of thirty letters, a dash and five more characters. */
  lemma PaymentsClash(lower: Lower, digest: Digest)
    requires LeavesNamesAlone(lower)
    ensures ImportJobName("payments-api", LongTag(), "a", lower, digest)
         == ImportJobName("payments-api", LongTag(), "x-a", lower, digest)
  {
    SlugOfName("payments-api", lower);
    LongTagIsALabel();
    SlugOfName(LongTag(), lower);
    PaymentsText();
    CutNamesClash("payments-api", LongTag(), lower, digest);
  }

  lemma LongTagIsALabel()
    ensures Label(LongTag()) && |LongTag()| == 36
    ensures forall i :: 0 <= i < 35 ==> IsAlnum(LongTag()[i]) || IsAlnum(LongTag()[i + 1])
  {
  }

  lemma PaymentsText()
    ensures var t := STEM + ("-" + "payments-api" + "-" + LongTag()); |t| >= 60 && t[57] != '-' && t[58..60] == "-x"
  {
    var t := STEM + ("-" + "payments-api" + "-" + LongTag());
    assert t[28..] == LongTag();
    assert t[57] == LongTag()[29] && t[58] == LongTag()[30] && t[59] == LongTag()[31];
  }
}
