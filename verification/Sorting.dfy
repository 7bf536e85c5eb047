/** The stable sort of the standard library, as a function. */
module Sorting {

  ghost predicate TotalPreorder<T(!new)>(le: (T, T) -> bool) {
    && (forall a, b :: le(a, b) || le(b, a))
    && (forall a, b, c :: le(a, b) && le(b, c) ==> le(a, c))
  }

  /** Puts x before the first element it does not exceed. */
  function Inserted<T>(x: T, s: seq<T>, le: (T, T) -> bool): seq<T> {
    if s == [] then [x]
    else if le(x, s[0]) then [x] + s
    else [s[0]] + Inserted(x, s[1..], le)
  }

  function Sorted<T>(s: seq<T>, le: (T, T) -> bool): seq<T> {
    if s == [] then [] else Inserted(s[0], Sorted(s[1..], le), le)
  }

  ghost predicate InOrder<T(!new)>(s: seq<T>, le: (T, T) -> bool) {
    forall i, j :: 0 <= i < j < |s| ==> le(s[i], s[j])
  }

  /** Elements that compare equal stand in the order `before`. */
  ghost predicate TiesInOrder<T(!new)>(s: seq<T>, le: (T, T) -> bool, before: (T, T) -> bool) {
    forall i, j :: 0 <= i < j < |s| && le(s[j], s[i]) ==> before(s[i], s[j])
  }

  lemma {:induction false} InsertedHolds<T(!new)>(x: T, s: seq<T>, le: (T, T) -> bool)
    ensures multiset(Inserted(x, s, le)) == multiset([x] + s)
  {
    if s != [] {
      InsertedHolds(x, s[1..], le);
      assert s == [s[0]] + s[1..];
    }
  }

  lemma {:induction false} InsertedIs<T(!new)>(x: T, s: seq<T>, le: (T, T) -> bool)
    requires TotalPreorder(le) && InOrder(s, le)
    ensures multiset(Inserted(x, s, le)) == multiset([x] + s)
    ensures InOrder(Inserted(x, s, le), le)
  {
    InsertedHolds(x, s, le);
    if s == [] {
    } else if le(x, s[0]) {
      assert le(s[0], s[0]);
      assert forall j :: 0 <= j < |s| ==> le(s[0], s[j]);
    } else {
      InsertedIs(x, s[1..], le);
      InsertedHolds(x, s[1..], le);
      var later := Inserted(x, s[1..], le);
      forall j | 0 <= j < |later| ensures le(s[0], later[j]) {
        assert later[j] in multiset([x] + s[1..]);
        assert later[j] == x || later[j] in s[1..];
      }
    }
  }

  /** The result is ordered and holds the same elements. */
  lemma {:induction false} SortedIs<T(!new)>(s: seq<T>, le: (T, T) -> bool)
    requires TotalPreorder(le)
    ensures InOrder(Sorted(s, le), le) && multiset(Sorted(s, le)) == multiset(s)
  {
    if s != [] {
      SortedIs(s[1..], le);
      InsertedIs(s[0], Sorted(s[1..], le), le);
      assert s == [s[0]] + s[1..];
    }
  }

  lemma {:induction false} InsertedKeepsTies<T(!new)>(x: T, s: seq<T>, le: (T, T) -> bool, before: (T, T) -> bool)
    requires TotalPreorder(le) && InOrder(s, le) && TiesInOrder(s, le, before)
    requires forall y :: y in s ==> before(x, y)
    ensures TiesInOrder(Inserted(x, s, le), le, before)
  {
    if s != [] && !le(x, s[0]) {
      var later := Inserted(x, s[1..], le);
      InsertedKeepsTies(x, s[1..], le, before);
      InsertedIs(x, s[1..], le);
      forall j | 0 <= j < |later| && le(later[j], s[0]) ensures before(s[0], later[j]) {
        assert later[j] in multiset(later);
        assert later[j] in s[1..];
      }
    }
  }

  /** The sort is stable: a relation that holds along the input holds along the
      ties of the result. */
  lemma {:induction false} SortedIsStable<T(!new)>(s: seq<T>, le: (T, T) -> bool, before: (T, T) -> bool)
    requires TotalPreorder(le)
    requires forall i, j :: 0 <= i < j < |s| ==> before(s[i], s[j])
    ensures TiesInOrder(Sorted(s, le), le, before)
  {
    if s != [] {
      var later := Sorted(s[1..], le);
      SortedIsStable(s[1..], le, before);
      SortedIs(s[1..], le);
      forall y | y in later ensures before(s[0], y) {
        assert y in multiset(later);
        assert y in s[1..];
      }
      InsertedKeepsTies(s[0], later, le, before);
    }
  }
}
