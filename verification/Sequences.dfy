/** Sums and concatenations over sequences, and what they owe to the order of the elements of the sequence: nothing. */
module Sequences {

  function Remove<T>(s: seq<T>, i: nat): seq<T>
    requires i < |s|
  {
    s[..i] + s[i + 1..]
  }

  function Map<A, B>(f: A -> B, s: seq<A>): (r: seq<B>)
    ensures |r| == |s| && forall i :: 0 <= i < |s| ==> r[i] == f(s[i])
  {
    seq(|s|, i requires 0 <= i < |s| => f(s[i]))
  }

  function Range(n: nat): (r: seq<nat>)
    ensures |r| == n && forall i :: 0 <= i < n ==> r[i] == i
  {
    seq(n, i => i)
  }

  predicate InRange(idx: seq<nat>, n: nat) {
    forall i :: 0 <= i < |idx| ==> idx[i] < n
  }

  function Select<T>(rows: seq<T>, idx: seq<nat>): (r: seq<T>)
    requires InRange(idx, |rows|)
    ensures |r| == |idx|
  {
    seq(|idx|, i requires 0 <= i < |idx| => rows[idx[i]])
  }

  function SumOf<T>(s: seq<T>, f: T -> int): int {
    if s == [] then 0 else SumOf(s[..|s| - 1], f) + f(s[|s| - 1])
  }

  function Flatten<T>(s: seq<seq<T>>): seq<T> {
    if s == [] then [] else Flatten(s[..|s| - 1]) + s[|s| - 1]
  }

  lemma SplitLast<T>(s: seq<T>)
    requires s != []
    ensures s == s[..|s| - 1] + [s[|s| - 1]]
  {
  }

  lemma SplitAt<T>(s: seq<T>, i: nat)
    requires i < |s|
    ensures s == s[..i] + [s[i]] + s[i + 1..]
  {
  }

  lemma RemoveMultiset<T>(s: seq<T>, i: nat)
    requires i < |s|
    ensures multiset(Remove(s, i)) + multiset{s[i]} == multiset(s)
  {
    assert s == s[..i] + [s[i]] + s[i + 1..];
  }

  lemma {:induction false} SumConcat<T>(a: seq<T>, b: seq<T>, f: T -> int)
    ensures SumOf(a + b, f) == SumOf(a, f) + SumOf(b, f)
  {
    if b == [] {
      assert a + b == a;
    } else {
      SumConcat(a, b[..|b| - 1], f);
      assert (a + b)[..|a + b| - 1] == a + b[..|b| - 1];
    }
  }

  lemma SumLast<T>(s: seq<T>, x: T, f: T -> int)
    ensures SumOf(s + [x], f) == SumOf(s, f) + f(x)
  {
    assert (s + [x])[..|s|] == s;
  }

  lemma SumThrough<T>(front: seq<T>, x: T, back: seq<T>, f: T -> int)
    ensures SumOf(front + [x] + back, f) == SumOf(front + back, f) + f(x)
  {
    SumConcat(front + [x], back, f);
    SumConcat(front, back, f);
    assert (front + [x])[..|front|] == front;
  }

  lemma SumRemove<T>(s: seq<T>, i: nat, f: T -> int)
    requires i < |s|
    ensures SumOf(Remove(s, i), f) + f(s[i]) == SumOf(s, f)
  {
    SplitAt(s, i);
    SumThrough(s[..i], s[i], s[i + 1..], f);
  }

  lemma {:induction false} FlattenConcat<T>(a: seq<seq<T>>, b: seq<seq<T>>)
    ensures Flatten(a + b) == Flatten(a) + Flatten(b)
  {
    if b == [] {
      assert a + b == a;
    } else {
      FlattenConcat(a, b[..|b| - 1]);
      assert (a + b)[..|a + b| - 1] == a + b[..|b| - 1];
    }
  }

  lemma FlattenThrough<T>(front: seq<seq<T>>, x: seq<T>, back: seq<seq<T>>)
    ensures Flatten(front + [x] + back) == Flatten(front) + x + Flatten(back)
    ensures Flatten(front + back) == Flatten(front) + Flatten(back)
  {
    FlattenConcat(front + [x], back);
    FlattenConcat(front, back);
    assert (front + [x])[..|front|] == front;
  }

  lemma FlattenRemove<T>(s: seq<seq<T>>, i: nat)
    requires i < |s|
    ensures multiset(Flatten(Remove(s, i))) + multiset(s[i]) == multiset(Flatten(s))
  {
    hide Flatten;
    SplitAt(s, i);
    FlattenThrough(s[..i], s[i], s[i + 1..]);
  }

  lemma Find<T>(s: seq<T>, x: T) returns (i: nat)
    requires x in s
    ensures i < |s| && s[i] == x
  {
    i :| 0 <= i < |s| && s[i] == x;
  }

  /** The step shared by the permutation proofs: the last element of one sequence is somewhere in the other. */
  lemma LastElsewhere<T>(a: seq<T>, b: seq<T>) returns (i: nat)
    requires a != [] && multiset(a) == multiset(b)
    ensures i < |b| && b[i] == a[|a| - 1] && multiset(a[..|a| - 1]) == multiset(Remove(b, i))
  {
    SplitLast(a);
    assert a[|a| - 1] in multiset(b);
    var x := a[|a| - 1];
    i := Find(b, x);
    RemoveMultiset(b, i);
    assert multiset(a[..|a| - 1]) == multiset(a) - multiset{x};
    assert multiset(Remove(b, i)) == multiset(b) - multiset{x};
  }

  lemma {:induction false} SumPermutes<T>(a: seq<T>, b: seq<T>, f: T -> int)
    requires multiset(a) == multiset(b)
    ensures SumOf(a, f) == SumOf(b, f)
    decreases |a|
  {
    if a == [] {
      assert |multiset(b)| == 0;
    } else {
      var i := LastElsewhere(a, b);
      SumPermutes(a[..|a| - 1], Remove(b, i), f);
      SumRemove(b, i, f);
    }
  }

  lemma {:induction false} FlattenPermutes<T>(a: seq<seq<T>>, b: seq<seq<T>>)
    requires multiset(a) == multiset(b)
    ensures multiset(Flatten(a)) == multiset(Flatten(b))
    decreases |a|
  {
    if a == [] {
      assert |multiset(b)| == 0;
    } else {
      var i := LastElsewhere(a, b);
      FlattenPermutes(a[..|a| - 1], Remove(b, i));
      FlattenRemove(b, i);
    }
  }

  lemma {:induction false} MapPermutes<A, B>(a: seq<A>, b: seq<A>, f: A -> B)
    requires multiset(a) == multiset(b)
    ensures multiset(Map(f, a)) == multiset(Map(f, b))
    decreases |a|
  {
    if a == [] {
      assert |multiset(b)| == 0;
    } else {
      var i := LastElsewhere(a, b);
      MapPermutes(a[..|a| - 1], Remove(b, i), f);
      assert Map(f, a) == Map(f, a[..|a| - 1]) + [f(a[|a| - 1])];
      assert Map(f, Remove(b, i)) == Remove(Map(f, b), i);
      RemoveMultiset(Map(f, b), i);
    }
  }

  lemma {:induction false} MapFlatten<A, B>(f: A -> B, s: seq<seq<A>>)
    ensures Map(f, Flatten(s)) == Flatten(Map(p => Map(f, p), s))
  {
    if s != [] {
      var g := (p: seq<A>) => Map(f, p);
      MapFlatten(f, s[..|s| - 1]);
      assert Map(g, s)[..|s| - 1] == Map(g, s[..|s| - 1]);
      assert Map(f, Flatten(s)) == Map(f, Flatten(s[..|s| - 1])) + Map(f, s[|s| - 1]);
    }
  }

  lemma {:induction false} SumFlatten<T>(s: seq<seq<T>>, f: T -> int)
    ensures SumOf(Flatten(s), f) == SumOf(s, p => SumOf(p, f))
  {
    if s != [] {
      SumFlatten(s[..|s| - 1], f);
      SumConcat(Flatten(s[..|s| - 1]), s[|s| - 1], f);
    }
  }

  lemma {:induction false} SumBound<T>(s: seq<T>, f: T -> int, bound: int)
    requires forall x :: x in s ==> f(x) <= bound
    ensures SumOf(s, f) <= |s| * bound
  {
    if s != [] {
      SumBound(s[..|s| - 1], f, bound);
    }
  }

  lemma {:induction false} SumLowerBound<T>(s: seq<T>, f: T -> int, bound: int)
    requires forall x :: x in s ==> f(x) >= bound
    ensures SumOf(s, f) >= |s| * bound
  {
    if s != [] {
      SumLowerBound(s[..|s| - 1], f, bound);
    }
  }

  lemma SumMember<T>(s: seq<T>, f: T -> int, x: T)
    requires x in s && forall y :: y in s ==> f(y) >= 0
    ensures f(x) <= SumOf(s, f)
  {
    var i := Find(s, x);
    SumRemove(s, i, f);
    SumLowerBound(Remove(s, i), f, 0);
  }
}
