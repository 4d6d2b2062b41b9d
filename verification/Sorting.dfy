/** Python's stable sort, by an order given as a function: `before(x, y)` says that x has to come before y in it. */
module Sorting {

  /** A strict weak order: what a comparison has to be for sorting to make sense. */
  ghost predicate StrictWeak<T(!new)>(before: (T, T) -> bool) {
    (forall x, y :: before(x, y) ==> !before(y, x)) &&
    (forall x, y, z :: before(x, z) ==> before(x, y) || before(y, z))
  }

  ghost predicate Ordered<T>(s: seq<T>, before: (T, T) -> bool) {
    forall i, j :: 0 <= i < j < |s| ==> !before(s[j], s[i])
  }

  function Place<T>(s: seq<T>, x: T, before: (T, T) -> bool): (p: nat)
    ensures p <= |s|
    ensures forall i :: 0 <= i < p ==> !before(x, s[i])
    ensures p < |s| ==> before(x, s[p])
  {
    if s == [] || before(x, s[0]) then 0 else 1 + Place(s[1..], x, before)
  }

  function Insert<T>(s: seq<T>, x: T, before: (T, T) -> bool): seq<T> {
    var p := Place(s, x, before);
    s[..p] + [x] + s[p..]
  }

  /** Equal elements keep their order. */
  function Sort<T>(s: seq<T>, before: (T, T) -> bool): (r: seq<T>)
    ensures |r| == |s|
  {
    if s == [] then [] else Insert(Sort(s[..|s| - 1], before), s[|s| - 1], before)
  }

  lemma SortNext<T>(s: seq<T>, n: nat, before: (T, T) -> bool)
    requires n < |s|
    ensures Sort(s[..n + 1], before) == Insert(Sort(s[..n], before), s[n], before)
  {
    assert s[..n + 1][..n] == s[..n];
  }

  lemma InsertKeepsOrder<T(!new)>(s: seq<T>, x: T, before: (T, T) -> bool)
    requires StrictWeak(before) && Ordered(s, before)
    ensures Ordered(Insert(s, x, before), before)
  {
    var p, r := Place(s, x, before), Insert(s, x, before);
    forall i, j | 0 <= i < j < |r|
      ensures !before(r[j], r[i])
    {
      if i == p && j > p + 1 {
        assert r[j] == s[j - 1] && !before(s[j - 1], s[p]);
      }
    }
  }

  lemma {:induction false} SortOrders<T(!new)>(s: seq<T>, before: (T, T) -> bool)
    requires StrictWeak(before)
    ensures Ordered(Sort(s, before), before)
  {
    if s != [] {
      SortOrders(s[..|s| - 1], before);
      InsertKeepsOrder(Sort(s[..|s| - 1], before), s[|s| - 1], before);
    }
  }

  lemma InsertPermutes<T>(s: seq<T>, x: T, before: (T, T) -> bool)
    ensures multiset(Insert(s, x, before)) == multiset(s) + multiset{x}
  {
    var p := Place(s, x, before);
    assert s == s[..p] + s[p..];
  }

  lemma {:induction false} SortPermutes<T>(s: seq<T>, before: (T, T) -> bool)
    ensures multiset(Sort(s, before)) == multiset(s)
  {
    hide Insert;
    if s != [] {
      SortPermutes(s[..|s| - 1], before);
      InsertPermutes(Sort(s[..|s| - 1], before), s[|s| - 1], before);
      assert s == s[..|s| - 1] + [s[|s| - 1]];
    }
  }

  lemma SortMembers<T>(s: seq<T>, before: (T, T) -> bool)
    ensures forall x :: x in Sort(s, before) <==> x in s
  {
    SortPermutes(s, before);
    forall x ensures x in Sort(s, before) <==> x in s {
      assert x in multiset(Sort(s, before)) <==> x in multiset(s);
    }
  }
}
