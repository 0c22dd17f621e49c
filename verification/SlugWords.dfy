/** What a slug makes of a text (src/services/bundle-import.ts:60-63): its runs of letters and digits, joined by
    dashes. */
module SlugWords {
  import opened BundleNames
  import opened Text

  /** Letters and digits, at least one. */
  predicate Word(s: string) { s != "" && forall i :: 0 <= i < |s| ==> IsAlnum(s[i]) }

  /** Characters of other kinds. */
  predicate Gap(s: string) { forall i :: 0 <= i < |s| ==> !IsAlnum(s[i]) }

  /** Words with gaps between them; after the last word there may be none. */
  predicate Apart(words: seq<string>, gaps: seq<string>) {
    && |words| == |gaps|
    && (forall i :: 0 <= i < |words| ==> Word(words[i]) && Gap(gaps[i]))
    && forall i :: 0 <= i < |gaps| - 1 ==> gaps[i] != ""
  }

  function Spaced(words: seq<string>, gaps: seq<string>): string
    requires |words| == |gaps|
  {
    if words == [] then "" else words[0] + (gaps[0] + Spaced(words[1..], gaps[1..]))
  }

  lemma {:induction false} CollapseWord(w: string, rest: string)
    requires forall i :: 0 <= i < |w| ==> IsAlnum(w[i])
    ensures Collapse(w + rest) == w + Collapse(rest)
  {
    if w == "" {
      assert w + rest == rest;
    } else {
      CollapseWord(w[1..], rest);
      assert (w + rest)[1..] == w[1..] + rest;
      assert [w[0]] + (w[1..] + Collapse(rest)) == w + Collapse(rest);
    }
  }

  lemma {:induction false} DropGap(g: string, rest: string)
    requires Gap(g) && (rest == "" || IsAlnum(rest[0]))
    ensures DropOthers(g + rest) == rest
  {
    if g == "" {
      assert g + rest == rest;
    } else {
      DropGap(g[1..], rest);
      assert (g + rest)[1..] == g[1..] + rest;
    }
  }

  lemma CollapseGap(g: string, rest: string)
    requires g != "" && Gap(g) && (rest == "" || IsAlnum(rest[0]))
    ensures Collapse(g + rest) == "-" + Collapse(rest)
  {
    assert (g + rest)[1..] == g[1..] + rest;
    DropGap(g[1..], rest);
  }

  lemma SpacedStart(words: seq<string>, gaps: seq<string>)
    requires Apart(words, gaps)
    ensures Spaced(words, gaps) == "" || IsAlnum(Spaced(words, gaps)[0])
  {
    if words != [] { assert Spaced(words, gaps)[0] == words[0][0]; }
  }

  lemma ApartRest(words: seq<string>, gaps: seq<string>)
    requires Apart(words, gaps) && words != []
    ensures Apart(words[1..], gaps[1..])
  {
  }

  /** A final dash when text follows the last word. */
  function Trail(gaps: seq<string>): string { if gaps != [] && gaps[|gaps| - 1] != "" then "-" else "" }

  lemma {:induction false} CollapseSpaced(words: seq<string>, gaps: seq<string>)
    requires Apart(words, gaps)
    ensures Collapse(Spaced(words, gaps)) == Join(words, '-') + Trail(gaps)
  {
    if words != [] {
      var (w, g, rest) := (words[0], gaps[0], Spaced(words[1..], gaps[1..]));
      ApartRest(words, gaps);
      SpacedStart(words[1..], gaps[1..]);
      CollapseSpaced(words[1..], gaps[1..]);
      CollapseWord(w, g + rest);
      if g == "" {
        assert |words| == 1 && g + rest == "";
      } else {
        CollapseGap(g, rest);
        OneMoreWord(words, gaps);
      }
    }
  }

  lemma OneMoreWord(words: seq<string>, gaps: seq<string>)
    requires words != [] && |words| == |gaps| && gaps[0] != ""
    ensures words[0] + ("-" + (Join(words[1..], '-') + Trail(gaps[1..]))) == Join(words, '-') + Trail(gaps)
  {
    if |words| > 1 {
      assert gaps[1..][|gaps| - 2] == gaps[|gaps| - 1];
      hide Join, Trail;
      JoinFront(words);
      Regrouped(words[0], Join(words[1..], '-'), Trail(gaps));
    } else {
      assert words[0] + ("-" + "") == words[0] + "-";
    }
  }

  lemma JoinFront(words: seq<string>)
    requires |words| > 1
    ensures Join(words, '-') == words[0] + "-" + Join(words[1..], '-')
  {
  }

  lemma Regrouped(a: string, b: string, d: string)
    ensures a + ("-" + (b + d)) == a + "-" + b + d
  {
  }

  lemma {:induction false} JoinedEnds(words: seq<string>)
    requires words != [] && forall i :: 0 <= i < |words| ==> Word(words[i])
    ensures var j := Join(words, '-'); j != "" && IsAlnum(j[0]) && IsAlnum(j[|j| - 1])
  {
    if |words| > 1 { JoinedEnds(words[1..]); }
  }

  lemma TrimsToWords(words: seq<string>, lead: string, trail: string)
    requires forall i :: 0 <= i < |words| ==> Word(words[i])
    requires (lead == "" || lead == "-") && (trail == "" || trail == "-") && (words == [] ==> trail == "")
    ensures TrimDashes(lead + (Join(words, '-') + trail)) == Join(words, '-')
  {
    var j := Join(words, '-');
    if words == [] {
      assert j == "";
      TrimsToNothing(lead, trail);
      hide Join;
    } else {
      JoinedEnds(words);
      hide Join, TrimDashes;
      TrimsTo(j, lead, trail);
    }
  }

  lemma TrimsToNothing(lead: string, trail: string)
    requires (lead == "" || lead == "-") && trail == ""
    ensures TrimDashes(lead + ("" + trail)) == ""
  {
    assert lead + ("" + trail) == lead;
    if lead == "-" { assert lead[1..] == "" && TrimStartDashes(lead) == TrimStartDashes(""); }
  }

  lemma TrimLead(lead: string, t: string)
    requires (lead == "" || lead == "-") && t != "" && t[0] != '-'
    ensures TrimStartDashes(lead + t) == t
  {
    if lead == "-" { assert (lead + t)[1..] == t; } else { assert lead + t == t; }
  }

  lemma TrimTrail(j: string, trail: string)
    requires (trail == "" || trail == "-") && j != "" && j[|j| - 1] != '-'
    ensures TrimEndDashes(j + trail) == j
  {
    if trail == "-" {
      assert (j + trail)[..|j + trail| - 1] == j && (j + trail)[|j|] == '-';
    } else {
      assert j + trail == j;
    }
  }

  lemma TrimsTo(j: string, lead: string, trail: string)
    requires j != "" && IsAlnum(j[0]) && IsAlnum(j[|j| - 1])
    requires (lead == "" || lead == "-") && (trail == "" || trail == "-")
    ensures TrimDashes(lead + (j + trail)) == j
  {
    assert (j + trail)[0] == j[0];
    hide TrimStartDashes, TrimEndDashes;
    TrimLead(lead, j + trail);
    TrimTrail(j, trail);
  }

  /** However words and gaps make up the lower-cased text, the slug is the words joined by single dashes. */
  lemma SlugJoinsTheWords(s: string, lower: Lower, lead: string, words: seq<string>, gaps: seq<string>)
    requires Gap(lead) && Apart(words, gaps) && lower(s) == lead + Spaced(words, gaps)
    ensures Slug(s, lower) == Join(words, '-')
  {
    SpacedStart(words, gaps);
    CollapseSpaced(words, gaps);
    if lead == "" {
      assert lead + Spaced(words, gaps) == Spaced(words, gaps);
      TrimsToWords(words, "", Trail(gaps));
      assert "" + (Join(words, '-') + Trail(gaps)) == Join(words, '-') + Trail(gaps);
    } else {
      CollapseGap(lead, Spaced(words, gaps));
      TrimsToWords(words, "-", Trail(gaps));
    }
  }
}
