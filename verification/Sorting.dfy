/** Sorting by a total order, as the standard library promises it: the result is ordered, holds
    the same elements, and is the only such sequence. */
module Sorting {
  ghost predicate TotalOrder<T(!new)>(leq: (T, T) -> bool) {
    && (forall x, y :: leq(x, y) || leq(y, x))
    && (forall x, y :: leq(x, y) && leq(y, x) ==> x == y)
    && (forall x, y, z :: leq(x, y) && leq(y, z) ==> leq(x, z))
  }

  ghost predicate SortedBy<T>(s: seq<T>, leq: (T, T) -> bool) {
    forall i, j :: 0 <= i < j < |s| ==> leq(s[i], s[j])
  }

  function Count<T(==)>(s: seq<T>, x: T): nat {
    if s == [] then 0 else (if s[0] == x then 1 else 0) + Count(s[1..], x)
  }

  ghost predicate SameElements<T(!new)>(a: seq<T>, b: seq<T>) {
    forall x :: Count(a, x) == Count(b, x)
  }

  lemma {:induction false} CountAppend<T>(a: seq<T>, b: seq<T>, x: T)
    ensures Count(a + b, x) == Count(a, x) + Count(b, x)
  {
    if a == [] {
      assert a + b == b;
    } else {
      assert (a + b)[1..] == a[1..] + b;
      CountAppend(a[1..], b, x);
    }
  }

  lemma {:induction false} CountIn<T>(s: seq<T>, x: T)
    ensures Count(s, x) > 0 <==> x in s
  {
    if s != [] {
      assert s == [s[0]] + s[1..];
      CountIn(s[1..], x);
    }
  }

  lemma {:induction false} SameElementsSameMultiset<T(!new)>(a: seq<T>, b: seq<T>)
    requires SameElements(a, b)
    ensures multiset(a) == multiset(b)
  {
    forall x
      ensures multiset(a)[x] == multiset(b)[x]
    {
      CountIsMultiplicity(a, x);
      CountIsMultiplicity(b, x);
      assert Count(a, x) == Count(b, x);
    }
  }

  lemma {:induction false} CountIsMultiplicity<T>(s: seq<T>, x: T)
    ensures Count(s, x) == multiset(s)[x]
  {
    if s != [] {
      assert s == [s[0]] + s[1..];
      CountIsMultiplicity(s[1..], x);
    }
  }

  function Insert<T(!new)>(x: T, s: seq<T>, leq: (T, T) -> bool): seq<T> {
    if s == [] then [x]
    else if leq(x, s[0]) then [x] + s
    else [s[0]] + Insert(x, s[1..], leq)
  }

  function Sort<T(!new)>(s: seq<T>, leq: (T, T) -> bool): seq<T> {
    if s == [] then [] else Insert(s[0], Sort(s[1..], leq), leq)
  }

  lemma {:induction false} InsertCount<T(!new)>(x: T, s: seq<T>, leq: (T, T) -> bool, y: T)
    ensures Count(Insert(x, s, leq), y) == Count(s, y) + if x == y then 1 else 0
    ensures |Insert(x, s, leq)| == |s| + 1
  {
    if s != [] {
      if leq(x, s[0]) {
        assert ([x] + s)[1..] == s;
      } else {
        InsertCount(x, s[1..], leq, y);
        assert ([s[0]] + Insert(x, s[1..], leq))[1..] == Insert(x, s[1..], leq);
      }
    } else {
      assert [x][1..] == [];
    }
  }

  lemma {:induction false} InsertSorted<T(!new)>(x: T, s: seq<T>, leq: (T, T) -> bool)
    requires TotalOrder(leq) && SortedBy(s, leq)
    ensures SortedBy(Insert(x, s, leq), leq)
    ensures forall y :: y in Insert(x, s, leq) ==> y == x || y in s
  {
    if s != [] && !leq(x, s[0]) {
      InsertSorted(x, s[1..], leq);
      var rest := Insert(x, s[1..], leq);
      forall i, j | 0 <= i < j < |rest| + 1
        ensures leq(([s[0]] + rest)[i], ([s[0]] + rest)[j])
      {
        assert rest[j - 1] in rest;
      }
    }
  }

  lemma {:induction false} SortCount<T(!new)>(s: seq<T>, leq: (T, T) -> bool)
    ensures |Sort(s, leq)| == |s| && SameElements(Sort(s, leq), s)
  {
    if s != [] {
      SortCount(s[1..], leq);
      forall y
        ensures Count(Sort(s, leq), y) == Count(s, y)
      {
        assert Count(Sort(s[1..], leq), y) == Count(s[1..], y);
        InsertCount(s[0], Sort(s[1..], leq), leq, y);
      }
      InsertCount(s[0], Sort(s[1..], leq), leq, s[0]);
    }
  }

  lemma {:induction false} SortSorts<T(!new)>(s: seq<T>, leq: (T, T) -> bool)
    requires TotalOrder(leq)
    ensures SortedBy(Sort(s, leq), leq)
  {
    if s != [] {
      SortSorts(s[1..], leq);
      InsertSorted(s[0], Sort(s[1..], leq), leq);
    }
  }

  lemma {:induction false} SameMembers<T(!new)>(a: seq<T>, b: seq<T>, x: T)
    requires SameElements(a, b)
    ensures x in a <==> x in b
  {
    CountIn(a, x);
    CountIn(b, x);
  }

  /** Only one sequence of given elements is ordered. */
  lemma {:induction false} SortedUnique<T(!new)>(a: seq<T>, b: seq<T>, leq: (T, T) -> bool)
    requires TotalOrder(leq) && SortedBy(a, leq) && SortedBy(b, leq) && SameElements(a, b)
    ensures a == b
  {
    if a == [] {
      if b != [] {
        SameMembers(a, b, b[0]);
      }
    } else {
      SameMembers(a, b, a[0]);
      assert a[0] in b;
      SameMembers(a, b, b[0]);
      assert a[0] == b[0];
      forall x
        ensures Count(a[1..], x) == Count(b[1..], x)
      {
        assert Count(a, x) == Count(b, x);
      }
      SortedUnique(a[1..], b[1..], leq);
      assert a == [a[0]] + a[1..] && b == [b[0]] + b[1..];
    }
  }

  /** The order in which the elements arrive makes no difference to the sorted sequence. */
  lemma {:induction false} ArrivalOrder<T(!new)>(a: seq<T>, b: seq<T>, leq: (T, T) -> bool)
    requires TotalOrder(leq) && SameElements(a, b)
    ensures Sort(a, leq) == Sort(b, leq)
  {
    SortSorts(a, leq);
    SortSorts(b, leq);
    SortCount(a, leq);
    SortCount(b, leq);
    forall x
      ensures Count(Sort(a, leq), x) == Count(Sort(b, leq), x)
    {
      assert Count(Sort(a, leq), x) == Count(a, x) == Count(b, x) == Count(Sort(b, leq), x);
    }
    SortedUnique(Sort(a, leq), Sort(b, leq), leq);
  }
}
