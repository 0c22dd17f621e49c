/** Choosing from a non-empty set. */
module Sets {

  lemma NoMember<T>(s: set<T>)
    requires forall x :: x !in s
    ensures s == {}
  {
  }

  lemma Member<T>(s: set<T>) returns (x: T)
    requires s != {}
    ensures x in s
  {
    if forall x :: x !in s {
      NoMember(s);
    }
    x :| x in s;
  }

  lemma LeastExists(s: set<int>)
    requires s != {}
    ensures exists m :: m in s && forall k :: k in s ==> m <= k
  {
    var x := Member(s);
    if s != {x} {
      var rest := s - {x};
      assert s == rest + {x};
      LeastExists(rest);
      var m :| m in rest && forall k :: k in rest ==> m <= k;
      var least := if x < m then x else m;
      assert least in s && forall k :: k in s ==> least <= k;
    }
  }

  lemma GreatestExists(s: set<int>)
    requires s != {}
    ensures exists m :: m in s && forall k :: k in s ==> k <= m
  {
    var x := Member(s);
    if s != {x} {
      var rest := s - {x};
      assert s == rest + {x};
      GreatestExists(rest);
      var m :| m in rest && forall k :: k in rest ==> k <= m;
      var greatest := if x > m then x else m;
      assert greatest in s && forall k :: k in s ==> k <= greatest;
    }
  }
}
