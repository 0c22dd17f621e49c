/** Sequences without repeats. */
module Sequences {

  predicate NoRepeats<T(==)>(s: seq<T>) { forall i, j :: 0 <= i < j < |s| ==> s[i] != s[j] }

  /** A sequence repeats nothing exactly when it has as many members as places. */
  lemma {:induction false} DistinctCount<T>(s: seq<T>)
    ensures |set m | m in s| <= |s|
    ensures |set m | m in s| == |s| <==> NoRepeats(s)
  {
    if s != [] {
      var n := |s| - 1;
      var front := s[..n];
      DistinctCount(front);
      var (all, most) := (set m | m in s, set m | m in front);
      assert s == front + [s[n]];
      assert all == most + {s[n]};
      if s[n] in front {
        var k :| 0 <= k < n && front[k] == s[n];
        assert all == most && s[k] == s[n];
      }
    }
  }
}
