/** Finite sets: a member to pick, and sizes of subsets. */
module Sets {
  /** Something to pick for a loop over a set. */
  lemma {:induction false} HasMember(s: set<int>)
    requires s != {}
    ensures exists x :: x in s
  {
    NoMember(s);
  }

  lemma {:induction false} NoMember(s: set<int>)
    ensures (forall x :: x !in s) ==> s == {}
  {
    if forall x :: x !in s {
      assert s == {};
    }
  }

  lemma {:induction false} SubsetSize<T>(a: set<T>, b: set<T>)
    requires a <= b
    ensures |a| <= |b|
    ensures a != b ==> |a| < |b|
  {
    assert a + (b - a) == b && a + {} == a;
  }
}
