/** Names of import Jobs (src/services/bundle-import.ts:60-90). `toLowerCase` and the first six hex digits of
    a SHA-256 are parameters. */
module BundleNames {
  import opened Text

  predicate IsAlnum(c: char) { 'a' <= c <= 'z' || '0' <= c <= '9' }

  predicate IsHex(c: char) { '0' <= c <= '9' || 'a' <= c <= 'f' }

  type Hex6 = s: string | |s| == 6 && forall i :: 0 <= i < 6 ==> IsHex(s[i]) witness "000000"

  type Lower = string -> string

  type Digest = string -> Hex6

  // ------------------------------------------------------------------
  // slug
  // ------------------------------------------------------------------

  function DropOthers(s: string): (r: string)
    ensures |r| <= |s| && (r != "" ==> IsAlnum(r[0]))
  {
    if s != "" && !IsAlnum(s[0]) then DropOthers(s[1..]) else s
  }

  /** Every run of other characters becomes one dash. */
  function Collapse(s: string): string
    decreases |s|
  {
    if s == "" then ""
    else if IsAlnum(s[0]) then [s[0]] + Collapse(s[1..])
    else "-" + Collapse(DropOthers(s[1..]))
  }

  function TrimStartDashes(s: string): (r: string)
    ensures |r| <= |s| && r == s[|s| - |r|..] && (r != "" ==> r[0] != '-')
  {
    if s != "" && s[0] == '-' then TrimStartDashes(s[1..]) else s
  }

  function TrimEndDashes(s: string): (r: string)
    ensures r <= s && (r != "" ==> r[|r| - 1] != '-')
  {
    if s != "" && s[|s| - 1] == '-' then TrimEndDashes(s[..|s| - 1]) else s
  }

  function TrimDashes(s: string): string { TrimEndDashes(TrimStartDashes(s)) }

  function Slug(s: string, lower: Lower): string { TrimDashes(Collapse(lower(s))) }

  predicate NameText(s: string) { forall i :: 0 <= i < |s| ==> IsAlnum(s[i]) || s[i] == '-' }

  /** The host-name syntax of section 2.1 of RFC 1123, for one label: letters, digits and dashes, no dash at
      either end, at most 63 characters. */
  predicate Label(s: string) {
    1 <= |s| <= 63 && NameText(s) && IsAlnum(s[0]) && IsAlnum(s[|s| - 1])
  }

  lemma {:induction false} CollapseIsNameText(s: string)
    ensures NameText(Collapse(s))
    decreases |s|
  {
    if s == "" {
    } else if IsAlnum(s[0]) {
      CollapseIsNameText(s[1..]);
    } else {
      CollapseIsNameText(DropOthers(s[1..]));
    }
  }

  lemma SlugIsALabelOrEmpty(s: string, lower: Lower)
    ensures var r := Slug(s, lower);
            NameText(r) && (r != "" ==> IsAlnum(r[0]) && IsAlnum(r[|r| - 1]))
  {
    CollapseIsNameText(lower(s));
    var t := TrimStartDashes(Collapse(lower(s)));
    assert NameText(t);
    assert TrimEndDashes(t) <= t;
  }

  // ------------------------------------------------------------------
  // nodeSegment
  // ------------------------------------------------------------------

  /** The text ends like a hashed segment. */
  predicate LooksHashed(s: string) {
    |s| >= 7 && s[|s| - 7] == '-' && forall i :: |s| - 6 <= i < |s| ==> IsHex(s[i])
  }

  predicate Verbatim(node: string, lower: Lower) {
    var s := Slug(node, lower);
    |s| <= 17 && s == node && !LooksHashed(s)
  }

  function NodeSegment(node: string, lower: Lower, digest: Digest): string {
    var s := Slug(node, lower);
    if |s| <= 17 && s == node && !LooksHashed(s) then s else Cut(s, 17) + "-" + digest(node)
  }

  lemma HashedSegment(node: string, lower: Lower, digest: Digest)
    requires !Verbatim(node, lower)
    ensures var seg := NodeSegment(node, lower, digest);
            LooksHashed(seg) && seg[|seg| - 6..] == digest(node) && seg[..|seg| - 7] == Cut(Slug(node, lower), 17)
  {
    hide Slug;
  }

  /** Two nodes share a segment only when both are hashed, with the same stem and the same six digits. */
  lemma SegmentsCollideIff(a: string, b: string, lower: Lower, digest: Digest)
    requires a != b
    ensures NodeSegment(a, lower, digest) == NodeSegment(b, lower, digest)
       <==> !Verbatim(a, lower) && !Verbatim(b, lower) && digest(a) == digest(b)
            && Cut(Slug(a, lower), 17) == Cut(Slug(b, lower), 17)
  {
    if !Verbatim(a, lower) { HashedSegment(a, lower, digest); }
    if !Verbatim(b, lower) { HashedSegment(b, lower, digest); }
  }

  lemma SegmentText(node: string, lower: Lower, digest: Digest)
    requires node != ""
    ensures var seg := NodeSegment(node, lower, digest);
            1 <= |seg| <= 24 && NameText(seg) && IsAlnum(seg[|seg| - 1])
  {
    hide Slug;
    SlugIsALabelOrEmpty(node, lower);
    var seg := NodeSegment(node, lower, digest);
    if !Verbatim(node, lower) {
      HashedSegment(node, lower, digest);
      assert seg[|seg| - 1] == digest(node)[5];
    }
  }

  // ------------------------------------------------------------------
  // importJobName
  // ------------------------------------------------------------------

  const STEM := "celeste-import"

  /** The text a name begins with, cut to what the segment leaves room for. */
  function Base(service: string, tag: string, budget: nat, lower: Lower): string {
    BaseOf(Tail(service, tag, lower), budget)
  }

  function BaseOf(tail: string, budget: nat): string { TrimEndDashes(Cut(STEM + tail, budget)) }

  function Tail(service: string, tag: string, lower: Lower): string {
    "-" + Slug(service, lower) + "-" + Slug(tag, lower)
  }

  /** `importJobName`; an absent node is the empty text. */
  function ImportJobName(service: string, tag: string, node: string, lower: Lower, digest: Digest): string {
    var seg := if node != "" then NodeSegment(node, lower, digest) else "";
    var budget := 62 - if seg != "" then |seg| + 1 else 0;
    var base := Base(service, tag, if budget >= 0 then budget else 0, lower);
    Finish(base, seg)
  }

  function Finish(base: string, seg: string): string {
    var trimmed := TrimDashes(if seg != "" then base + "-" + seg else base);
    if trimmed != "" then trimmed else STEM
  }

  /** The shape every base has. */
  predicate Stemmed(base: string, budget: nat) {
    && 1 <= |base| <= budget && NameText(base)
    && IsAlnum(base[0]) && IsAlnum(base[|base| - 1])
  }

  lemma CutKeepsStem(tail: string, budget: nat)
    requires NameText(tail) && |STEM| <= budget
    ensures var cut := Cut(STEM + tail, budget);
            NameText(cut) && |STEM| <= |cut| <= budget && cut[0] == 'c' && cut[13] == 't'
  {
    var cut := Cut(STEM + tail, budget);
    assert NameText(STEM);
    assert forall i :: 0 <= i < |cut| ==> cut[i] == (STEM + tail)[i];
  }

  lemma TrimmedEnd(s: string)
    requires NameText(s) && |s| > 13 && s[0] == 'c' && s[13] == 't'
    ensures Stemmed(TrimEndDashes(s), |s|)
  {
  }

  lemma BaseOfIsStemmed(tail: string, budget: nat)
    requires NameText(tail) && |STEM| <= budget
    ensures Stemmed(BaseOf(tail, budget), budget)
  {
    CutKeepsStem(tail, budget);
    TrimmedEnd(Cut(STEM + tail, budget));
  }

  lemma Dashed(a: string, b: string)
    requires NameText(a) && NameText(b)
    ensures NameText("-" + a + "-" + b)
  {
  }

  lemma BaseIsStemmed(service: string, tag: string, budget: nat, lower: Lower)
    requires 37 <= budget
    ensures Stemmed(Base(service, tag, budget, lower), budget)
  {
    SlugIsALabelOrEmpty(service, lower);
    SlugIsALabelOrEmpty(tag, lower);
    Dashed(Slug(service, lower), Slug(tag, lower));
    BaseOfIsStemmed(Tail(service, tag, lower), budget);
  }

  lemma TrimmedIsUntouched(s: string)
    requires s != "" && s[0] != '-' && s[|s| - 1] != '-'
    ensures TrimDashes(s) == s
  {
    assert TrimStartDashes(s) == s;
  }

  /** The characters a segment leaves for the base. */
  function Room(seg: string): int { if seg == "" then 62 else 61 - |seg| }

  function Assembled(base: string, seg: string): string { if seg == "" then base else base + "-" + seg }

  /** The final trimming never has anything to trim. */
  lemma FinishIsLabel(base: string, seg: string)
    requires |seg| <= 24 && Room(seg) >= 0 && Stemmed(base, Room(seg))
    requires NameText(seg) && (seg != "" ==> IsAlnum(seg[|seg| - 1]))
    ensures Label(Finish(base, seg)) && Finish(base, seg) == Assembled(base, seg)
  {
    var full := Assembled(base, seg);
    assert full[0] == base[0];
    assert seg != "" ==> full[|full| - 1] == seg[|seg| - 1];
    assert NameText(full);
    TrimmedIsUntouched(full);
  }

  /** Every Job name is a valid label, for all services, tags and nodes. */
  lemma ImportJobNameIsALabel(service: string, tag: string, node: string, lower: Lower, digest: Digest)
    ensures Label(ImportJobName(service, tag, node, lower, digest))
  {
    if node == "" {
      BaseIsStemmed(service, tag, 62, lower);
      FinishIsLabel(Base(service, tag, 62, lower), "");
    } else {
      NameWithNode(service, tag, node, lower, digest);
    }
  }

  lemma NameWithNode(service: string, tag: string, node: string, lower: Lower, digest: Digest)
    requires node != ""
    ensures var name := ImportJobName(service, tag, node, lower, digest);
            var seg := NodeSegment(node, lower, digest);
            && Label(name) && 1 <= |seg| <= 24
            && name == Base(service, tag, 61 - |seg|, lower) + "-" + seg
  {
    SegmentText(node, lower, digest);
    var seg := NodeSegment(node, lower, digest);
    BaseIsStemmed(service, tag, 61 - |seg|, lower);
    FinishIsLabel(Base(service, tag, 61 - |seg|, lower), seg);
  }
}
