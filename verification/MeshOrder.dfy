/** Meshes of a scene put in the annotation's order by their face counts. */
module MeshOrder {
  import opened Wrappers
  import opened Sequences
  import opened Permutations
  import opened FaceCounts

  datatype Mesh<T> = Mesh(faces: nat, content: T)

  function ActualCounts<T>(meshes: seq<Mesh<T>>): (r: seq<nat>)
    ensures |r| == |meshes|
  {
    seq(|meshes|, i requires 0 <= i < |meshes| => meshes[i].faces)
  }

  // ---------- Specification ----------

  /** Mesh indices placed so far (None where the annotated mesh has no counterpart at all), and those left over. */
  datatype Picks = Picks(placed: seq<Option<nat>>, remaining: seq<nat>)

  /** The position of the first remaining mesh with this face count; |remaining| if there is none. */
  function FirstMatch(counts: seq<nat>, remaining: seq<nat>, expected: nat): (k: nat)
    requires InRange(remaining, |counts|)
    ensures k <= |remaining|
    ensures k < |remaining| ==> counts[remaining[k]] == expected
    ensures forall j :: 0 <= j < k ==> counts[remaining[j]] != expected
  {
    if remaining == [] || counts[remaining[0]] == expected then 0
    else
      assert forall j :: 1 <= j < |remaining| ==> remaining[j] == remaining[1..][j - 1];
      1 + FirstMatch(counts, remaining[1..], expected)
  }

  function FirstIndex(s: seq<nat>, x: nat): (k: nat)
    requires x in s
    ensures k < |s| && s[k] == x
    ensures forall j :: 0 <= j < k ==> s[j] != x
  {
    if s[0] == x then 0 else 1 + FirstIndex(s[1..], x)
  }

  /** Place a mesh for annotated mesh i. */
  function PickNext(counts: seq<nat>, s: Picks, i: nat, expected: nat): Picks
    requires InRange(s.remaining, |counts|)
  {
    var k := FirstMatch(counts, s.remaining, expected);
    if k < |s.remaining| then
      Picks(s.placed + [Some(s.remaining[k])], Remove(s.remaining, k))
    else if i < |counts| then
      Picks(s.placed + [Some(i)], if i in s.remaining then Remove(s.remaining, FirstIndex(s.remaining, i)) else s.remaining)
    else
      Picks(s.placed + [None], s.remaining)
  }

  function Pick(counts: seq<nat>, targets: seq<nat>, n: nat): (s: Picks)
    requires n <= |targets|
    ensures |s.placed| == n && InRange(s.remaining, |counts|)
    ensures forall i :: 0 <= i < n && s.placed[i].Some? ==> s.placed[i].value < |counts|
  {
    if n == 0 then Picks([], Range(|counts|))
    else PickNext(counts, Pick(counts, targets, n - 1), n - 1, targets[n - 1])
  }

  /** What is left of a list when every None is dropped. */
  function Somes<T>(placed: seq<Option<T>>): seq<T> {
    if placed == [] then []
    else
      var last := placed[|placed| - 1];
      Somes(placed[..|placed| - 1]) + (if last.Some? then [last.value] else [])
  }

  lemma {:induction false} SomesMembers<T>(placed: seq<Option<T>>, x: T)
    ensures x in Somes(placed) <==> Some(x) in placed
  {
    if placed != [] {
      SomesMembers(placed[..|placed| - 1], x);
      SplitLast(placed);
    }
  }

  lemma SomesLast<T>(placed: seq<Option<T>>, x: T)
    ensures Somes(placed + [Some(x)]) == Somes(placed) + [x]
  {
    assert (placed + [Some(x)])[..|placed|] == placed;
  }

  function MeshAt<T>(meshes: seq<Mesh<T>>, p: Option<nat>): Option<Mesh<T>>
    requires p.Some? ==> p.value < |meshes|
  {
    if p.Some? then Some(meshes[p.value]) else None
  }

  lemma {:induction false} SomesSelect<T>(meshes: seq<Mesh<T>>, placed: seq<Option<nat>>, reordered: seq<Option<Mesh<T>>>)
    requires |placed| == |reordered|
    requires forall k :: 0 <= k < |placed| && placed[k].Some? ==> placed[k].value < |meshes|
    requires forall k :: 0 <= k < |placed| ==> reordered[k] == MeshAt(meshes, placed[k])
    ensures InRange(Somes(placed), |meshes|) && Somes(reordered) == Select(meshes, Somes(placed))
  {
    if placed != [] {
      SomesSelect(meshes, placed[..|placed| - 1], reordered[..|placed| - 1]);
      var front, last := Somes(placed[..|placed| - 1]), placed[|placed| - 1];
      if last.Some? {
        assert Select(meshes, front + [last.value]) == Select(meshes, front) + [meshes[last.value]];
      } else {
        assert Somes(placed) == front && Somes(reordered) == Somes(reordered[..|placed| - 1]);
      }
    }
  }

  lemma SelectRange<T>(rows: seq<T>)
    ensures Select(rows, Range(|rows|)) == rows
  {
  }

  lemma SomesInRange(placed: seq<Option<nat>>, n: nat)
    requires forall k :: 0 <= k < |placed| && placed[k].Some? ==> placed[k].value < n
    ensures InRange(Somes(placed), n)
  {
    var list := Somes(placed);
    forall i | 0 <= i < |list| ensures list[i] < n {
      assert list[i] in list;
      SomesMembers(placed, list[i]);
    }
  }

  /** The order that the meshes are returned in; an index can occur twice. */
  function Order(counts: seq<nat>, targets: seq<nat>): (order: seq<nat>)
    ensures InRange(order, |counts|)
  {
    var s := Pick(counts, targets, |targets|);
    SomesInRange(s.placed, |counts|);
    Somes(s.placed) + s.remaining
  }

  /** The whole function: which mesh is where, or a missing annotation. */
  function ReorderIndices(counts: seq<nat>, faceNum: map<int, nat>): (r: Result<seq<nat>>)
    ensures r.Ok? ==> InRange(r.value, |counts|)
  {
    if |faceNum| == 0 || counts == [] then Ok(Range(|counts|))
    else
      var targets :- Counts(faceNum);
      Ok(if counts == targets then Range(|counts|) else Order(counts, targets))
  }

  function Reorder<T>(meshes: seq<Mesh<T>>, faceNum: map<int, nat>): Result<seq<Mesh<T>>> {
    var order :- ReorderIndices(ActualCounts(meshes), faceNum);
    Ok(Select(meshes, order))
  }

  // ---------- The loop ----------

  /** Search and removal, for one annotated mesh. */
  method PickRemaining<T>(meshes: seq<Mesh<T>>, remaining: seq<nat>, expected: nat) returns (found: Option<nat>)
    requires InRange(remaining, |meshes|)
    ensures var k := FirstMatch(ActualCounts(meshes), remaining, expected);
      found == if k < |remaining| then Some(k) else None
  {
    hide FirstMatch;
    ghost var counts := ActualCounts(meshes);
    ghost var k := FirstMatch(counts, remaining, expected);
    for j := 0 to |remaining|
      invariant j <= k
    {
      assert counts[remaining[j]] == meshes[remaining[j]].faces;
      if meshes[remaining[j]].faces == expected {
        return Some(j);
      }
    }
    return None;
  }

  lemma PickNone(counts: seq<nat>, targets: seq<nat>)
    ensures Pick(counts, targets, 0) == Picks([], Range(|counts|))
  {
  }

  lemma PickOne(counts: seq<nat>, targets: seq<nat>, i: nat)
    requires i < |targets|
    ensures var s := Pick(counts, targets, i);
      Pick(counts, targets, i + 1) == PickNext(counts, s, i, targets[i])
  {
  }

  /** The greedy matching: which mesh goes where, and what is left. */
  method MatchGreedily<T(==)>(meshes: seq<Mesh<T>>, targets: seq<nat>)
    returns (reordered: seq<Option<Mesh<T>>>, remaining: seq<nat>)
    ensures remaining == Pick(ActualCounts(meshes), targets, |targets|).remaining
    ensures var placed := Pick(ActualCounts(meshes), targets, |targets|).placed;
      InRange(Somes(placed), |meshes|) && Somes(reordered) == Select(meshes, Somes(placed))
  {
    hide FirstMatch, FirstIndex, ActualCounts, Remove, Somes, Pick;
    var n := |targets|;
    PickNone(ActualCounts(meshes), targets);
    ghost var actual := ActualCounts(meshes);
    remaining := Range(|meshes|);
    reordered := seq(n, _ => None);
    for i := 0 to n
      invariant |reordered| == n && remaining == Pick(actual, targets, i).remaining
      invariant forall k :: 0 <= k < i ==> reordered[k] == MeshAt(meshes, Pick(actual, targets, i).placed[k])
      invariant forall k :: i <= k < n ==> reordered[k] == None
    {
      PickOne(actual, targets, i);
      var found := PickRemaining(meshes, remaining, targets[i]);
      if found.Some? {
        reordered := reordered[i := Some(meshes[remaining[found.value]])];
        remaining := Remove(remaining, found.value);
      } else if i < |meshes| {
        reordered := reordered[i := Some(meshes[i])];
        if i in remaining {
          remaining := Remove(remaining, FirstIndex(remaining, i));
        }
      }
    }
    SomesSelect(meshes, Pick(actual, targets, n).placed, reordered);
  }

  /** `reorder_meshes_by_face_num` */
  method ReorderMeshesByFaceNum<T(==)>(meshes: seq<Mesh<T>>, faceNum: map<int, nat>) returns (r: Result<seq<Mesh<T>>>)
    ensures r == Reorder(meshes, faceNum)
  {
    hide Pick, Somes;
    SelectRange(meshes);
    if |faceNum| == 0 || |meshes| == 0 {
      return Ok(meshes);
    }
    var targets :- Counts(faceNum);
    if ActualCounts(meshes) == targets {
      return Ok(meshes);
    }
    var reordered, remaining := MatchGreedily(meshes, targets);
    ghost var front := Somes(reordered);
    for j := 0 to |remaining|
      invariant Somes(reordered) == front + Select(meshes, remaining[..j])
    {
      SomesLast(reordered, meshes[remaining[j]]);
      reordered := reordered + [Some(meshes[remaining[j]])];
      assert Select(meshes, remaining[..j + 1]) == Select(meshes, remaining[..j]) + [meshes[remaining[j]]];
    }
    assert remaining[..|remaining|] == remaining;
    assert Select(meshes, Order(ActualCounts(meshes), targets)) == front + Select(meshes, remaining);
    r := Ok(Somes(reordered));
  }

  // ---------- Which mesh goes where ----------

  /** Mesh x has the face count and is not among those placed before. */
  ghost predicate Fits(counts: seq<nat>, expected: nat, before: seq<Option<nat>>, x: nat) {
    x < |counts| && counts[x] == expected && Some(x) !in before
  }

  /** For annotated mesh i: the first mesh that fits; without one, mesh i whether it was placed or not, if there is a mesh i. */
  ghost predicate PlacedRightly(counts: seq<nat>, expected: nat, before: seq<Option<nat>>, p: Option<nat>) {
    if exists x :: Fits(counts, expected, before, x)
    then p.Some? && Fits(counts, expected, before, p.value) && forall x: nat :: x < p.value ==> !Fits(counts, expected, before, x)
    else p == if |before| < |counts| then Some(|before|) else None
  }

  ghost predicate Ascending(s: seq<nat>) {
    forall j, k :: 0 <= j < k < |s| ==> s[j] < s[k]
  }

  /** The indices that were not placed. */
  ghost predicate IsRest(rest: seq<nat>, n: nat, placed: seq<Option<nat>>) {
    Ascending(rest) && forall x: nat :: x in rest <==> x < n && Some(x) !in placed
  }

  lemma RemoveFromRest(rest: seq<nat>, n: nat, placed: seq<Option<nat>>, k: nat)
    requires IsRest(rest, n, placed) && k < |rest|
    ensures IsRest(Remove(rest, k), n, placed + [Some(rest[k])])
  {
    var less := Remove(rest, k);
    forall x: nat ensures x in less <==> x in rest && x != rest[k] {
      if x in rest && x != rest[k] {
        RemoveKeeps(rest, k, x);
      }
      if x in less {
        var j := Find(less, x);
        assert less[j] == rest[if j < k then j else j + 1];
      }
    }
  }

  lemma PlacesNext(counts: seq<nat>, s: Picks, expected: nat)
    requires IsRest(s.remaining, |counts|, s.placed) && InRange(s.remaining, |counts|)
    ensures var next := PickNext(counts, s, |s.placed|, expected);
      IsRest(next.remaining, |counts|, next.placed) && |next.placed| == |s.placed| + 1 &&
      next.placed[..|s.placed|] == s.placed && PlacedRightly(counts, expected, s.placed, next.placed[|s.placed|])
  {
    hide Remove, FirstMatch, FirstIndex;
    var i, k := |s.placed|, FirstMatch(counts, s.remaining, expected);
    if k < |s.remaining| {
      RemoveFromRest(s.remaining, |counts|, s.placed, k);
      FirstFits(counts, s, expected);
    } else {
      NoneFits(counts, s, expected);
      if i in s.remaining {
        RemoveFromRest(s.remaining, |counts|, s.placed, FirstIndex(s.remaining, i));
      }
    }
  }

  lemma FirstFits(counts: seq<nat>, s: Picks, expected: nat)
    requires IsRest(s.remaining, |counts|, s.placed) && InRange(s.remaining, |counts|)
    requires FirstMatch(counts, s.remaining, expected) < |s.remaining|
    ensures PlacedRightly(counts, expected, s.placed, Some(s.remaining[FirstMatch(counts, s.remaining, expected)]))
  {
    hide FirstMatch;
    var k := FirstMatch(counts, s.remaining, expected);
    assert s.remaining[k] in s.remaining;
    assert Fits(counts, expected, s.placed, s.remaining[k]);
    forall x: nat | x < s.remaining[k] ensures !Fits(counts, expected, s.placed, x) {
      if x in s.remaining {
        var j := Find(s.remaining, x);
        assert j < k;
      }
    }
  }

  lemma NoneFits(counts: seq<nat>, s: Picks, expected: nat)
    requires IsRest(s.remaining, |counts|, s.placed) && InRange(s.remaining, |counts|)
    requires FirstMatch(counts, s.remaining, expected) == |s.remaining|
    ensures forall x :: !Fits(counts, expected, s.placed, x)
  {
    hide FirstMatch;
    forall x: nat ensures !Fits(counts, expected, s.placed, x) {
      if x in s.remaining {
        var j := Find(s.remaining, x);
      }
    }
  }

  lemma {:induction false} PicksRightly(counts: seq<nat>, targets: seq<nat>, n: nat)
    requires n <= |targets|
    ensures var s := Pick(counts, targets, n);
      IsRest(s.remaining, |counts|, s.placed) &&
      forall i :: 0 <= i < n ==> PlacedRightly(counts, targets[i], s.placed[..i], s.placed[i])
  {
    hide PlacedRightly, PickNext;
    if n == 0 {
      forall x: nat ensures x in Range(|counts|) <==> x < |counts| {
        assert x < |counts| ==> Range(|counts|)[x] == x;
      }
    } else {
      PicksRightly(counts, targets, n - 1);
      var prior := Pick(counts, targets, n - 1);
      PlacesNext(counts, prior, targets[n - 1]);
      var s := Pick(counts, targets, n);
      forall i | 0 <= i < n ensures PlacedRightly(counts, targets[i], s.placed[..i], s.placed[i]) {
        assert s.placed[..i] == prior.placed[..i];
        assert i < n - 1 ==> s.placed[i] == s.placed[..n - 1][i];
      }
    }
  }

  /** What the result is: the meshes placed for the annotated ones, in their order, and then the others, in theirs. */
  lemma OrderMeans(counts: seq<nat>, faceNum: map<int, nat>) returns (placed: seq<Option<nat>>, rest: seq<nat>)
    requires Counts(faceNum).Ok?
    ensures |placed| == |Counts(faceNum).value| && IsRest(rest, |counts|, placed)
    ensures forall i :: 0 <= i < |placed| ==> PlacedRightly(counts, Counts(faceNum).value[i], placed[..i], placed[i])
    ensures ReorderIndices(counts, faceNum) ==
      Ok(if |faceNum| == 0 || counts == [] || counts == Counts(faceNum).value then Range(|counts|) else Somes(placed) + rest)
  {
    hide Pick, PlacedRightly, IsRest, Somes;
    var targets := Counts(faceNum).value;
    var s := Pick(counts, targets, |targets|);
    PicksRightly(counts, targets, |targets|);
    placed, rest := s.placed, s.remaining;
  }

  // ---------- Nothing is lost ----------

  lemma {:induction false} PickKeepsAll(counts: seq<nat>, targets: seq<nat>, n: nat, x: nat)
    requires n <= |targets| && x < |counts|
    ensures x in Pick(counts, targets, n).remaining || Some(x) in Pick(counts, targets, n).placed
  {
    if n == 0 {
      assert Range(|counts|)[x] == x;
    } else {
      PickKeepsAll(counts, targets, n - 1, x);
      PickNextKeeps(counts, Pick(counts, targets, n - 1), n - 1, targets[n - 1], x);
    }
  }

  lemma RemoveKeeps(s: seq<nat>, k: nat, x: nat)
    requires k < |s| && x in s
    ensures x in Remove(s, k) || x == s[k]
  {
    RemoveMultiset(s, k);
    assert x in multiset(s);
  }

  lemma PickNextKeeps(counts: seq<nat>, s: Picks, i: nat, expected: nat, x: nat)
    requires InRange(s.remaining, |counts|) && (x in s.remaining || Some(x) in s.placed)
    ensures var s' := PickNext(counts, s, i, expected);
      x in s'.remaining || Some(x) in s'.placed
  {
    hide Remove, FirstMatch, FirstIndex;
    var k := FirstMatch(counts, s.remaining, expected);
    if x in s.remaining {
      if k < |s.remaining| {
        RemoveKeeps(s.remaining, k, x);
      } else if i in s.remaining {
        RemoveKeeps(s.remaining, FirstIndex(s.remaining, i), x);
      }
    }
  }

  /** Whatever the annotation, every mesh is in the result. */
  lemma NothingIsLost(counts: seq<nat>, faceNum: map<int, nat>, x: nat)
    requires ReorderIndices(counts, faceNum).Ok? && x < |counts|
    ensures x in ReorderIndices(counts, faceNum).value
  {
    hide Pick;
    assert Range(|counts|)[x] == x;
    if |faceNum| > 0 {
      var targets := Counts(faceNum).value;
      var s := Pick(counts, targets, |targets|);
      PickKeepsAll(counts, targets, |targets|, x);
      SomesMembers(s.placed, x);
    }
  }

  // ---------- When the annotation fits ----------

  lemma {:induction false} SomesAll(placed: seq<Option<nat>>, front: seq<nat>)
    requires |placed| == |front| && forall k :: 0 <= k < |front| ==> placed[k] == Some(front[k])
    ensures Somes(placed) == front
  {
    if placed != [] {
      SomesAll(placed[..|placed| - 1], front[..|placed| - 1]);
    }
  }

  /** As long as the counts still to be matched are all there, so is the next one. */
  lemma StillThere(counts: seq<nat>, targets: seq<nat>, front: seq<nat>, remaining: seq<nat>)
    requires multiset(targets) <= multiset(counts) && |front| < |targets|
    requires |front + remaining| == |counts| && IsPermutation(front + remaining)
    requires InRange(front, |counts|) && InRange(remaining, |counts|)
    requires Select(counts, front) == targets[..|front|]
    ensures targets[|front|] in Select(counts, remaining)
  {
    var n, x := |front|, targets[|front|];
    SelectAll(counts, front + remaining);
    assert Select(counts, front + remaining) == targets[..n] + Select(counts, remaining);
    assert multiset(counts) == multiset(targets[..n]) + multiset(Select(counts, remaining));
    assert targets == targets[..n] + [x] + targets[n + 1..];
    assert multiset(targets)[x] > multiset(targets[..n])[x];
    assert x in multiset(Select(counts, remaining));
  }

  lemma {:induction false} PickFits(counts: seq<nat>, targets: seq<nat>, n: nat) returns (front: seq<nat>)
    requires multiset(targets) <= multiset(counts) && n <= |targets|
    ensures var s := Pick(counts, targets, n);
      |front| == n && (forall k :: 0 <= k < n ==> s.placed[k] == Some(front[k])) &&
      |front + s.remaining| == |counts| && IsPermutation(front + s.remaining) &&
      InRange(front, |counts|) && Select(counts, front) == targets[..n]
  {
    hide FirstMatch, FirstIndex, Remove, IsPermutation;
    if n == 0 {
      front := [];
      assert [] + Range(|counts|) == Range(|counts|);
      RangeIsPermutation(|counts|);
    } else {
      front := PickFits(counts, targets, n - 1);
      var s := Pick(counts, targets, n - 1);
      StillThere(counts, targets, front, s.remaining);
      var j := Find(Select(counts, s.remaining), targets[n - 1]);
      var k := FirstMatch(counts, s.remaining, targets[n - 1]);
      assert k < |s.remaining|;
      MoveAcross(front, s.remaining, k);
      front := front + [s.remaining[k]];
      assert targets[..n] == targets[..n - 1] + [targets[n - 1]];
    }
  }

  lemma RangeIsPermutation(n: nat)
    ensures IsPermutation(Range(n))
  {
  }

  lemma MoveAcross(front: seq<nat>, remaining: seq<nat>, k: nat)
    requires k < |remaining| && IsPermutation(front + remaining)
    ensures IsPermutation(front + [remaining[k]] + Remove(remaining, k))
    ensures |Remove(remaining, k)| == |remaining| - 1
  {
    RemoveMultiset(remaining, k);
  }

  /** The result holds the same meshes, the first ones with the annotated face counts. */
  ghost predicate Follows<T>(result: seq<Mesh<T>>, meshes: seq<Mesh<T>>, targets: seq<nat>) {
    multiset(result) == multiset(meshes) && |targets| <= |result| &&
    ActualCounts(result[..|targets|]) == targets
  }

  lemma FollowsFits<T>(result: seq<Mesh<T>>, meshes: seq<Mesh<T>>, targets: seq<nat>)
    requires Follows(result, meshes, targets)
    ensures multiset(targets) <= multiset(ActualCounts(meshes))
  {
    var f := (m: Mesh<T>) => m.faces;
    MapPermutes(result, meshes, f);
    assert Map(f, meshes) == ActualCounts(meshes);
    assert Map(f, result) == targets + ActualCounts(result[|targets|..]);
  }

  lemma FitsFollows<T>(meshes: seq<Mesh<T>>, targets: seq<nat>)
    requires multiset(targets) <= multiset(ActualCounts(meshes))
    ensures Follows(Select(meshes, Order(ActualCounts(meshes), targets)), meshes, targets)
  {
    hide Pick, Somes, IsPermutation;
    var counts := ActualCounts(meshes);
    var front := PickFits(counts, targets, |targets|);
    var s := Pick(counts, targets, |targets|);
    SomesAll(s.placed, front);
    SelectAll(meshes, front + s.remaining);
    var result := Select(meshes, front + s.remaining);
    assert result[..|targets|] == Select(meshes, front);
    assert ActualCounts(Select(meshes, front)) == Select(counts, front);
    assert targets[..|targets|] == targets;
  }

  /**
   * The result is a permutation of the meshes that starts with the annotated face counts exactly when the meshes'
   * counts include the annotated ones, with their multiplicity.
   */
  lemma ReorderFollowsIff<T>(meshes: seq<Mesh<T>>, faceNum: map<int, nat>)
    requires Counts(faceNum).Ok?
    ensures Reorder(meshes, faceNum).Ok?
    ensures Follows(Reorder(meshes, faceNum).value, meshes, Counts(faceNum).value) <==>
      multiset(Counts(faceNum).value) <= multiset(ActualCounts(meshes))
  {
    hide Order, Follows;
    var targets, counts := Counts(faceNum).value, ActualCounts(meshes);
    var result := Reorder(meshes, faceNum).value;
    if Follows(result, meshes, targets) {
      FollowsFits(result, meshes, targets);
    }
    if multiset(targets) <= multiset(counts) {
      FitsFollows(meshes, targets);
      if |faceNum| == 0 || counts == [] || counts == targets {
        SelectRange(meshes);
        if counts == [] { NoTargets(targets); }
        UnchangedFollows(meshes, targets);
      }
    }
  }

  lemma UnchangedFollows<T>(meshes: seq<Mesh<T>>, targets: seq<nat>)
    requires targets == [] || ActualCounts(meshes) == targets
    ensures Follows(meshes, meshes, targets)
  {
    assert meshes[..|meshes|] == meshes;
  }

  lemma NoTargets(targets: seq<nat>)
    requires multiset(targets) <= multiset{}
    ensures targets == []
  {
    assert |multiset(targets)| == |targets|;
  }

  // ---------- How many meshes come back ----------

  /** Annotated mesh i falls back on mesh i, which was already placed. */
  predicate Reuses(counts: seq<nat>, targets: seq<nat>, i: nat)
    requires i < |targets|
  {
    var remaining := Pick(counts, targets, i).remaining;
    FirstMatch(counts, remaining, targets[i]) == |remaining| && i < |counts| && i !in remaining
  }

  function Reused(counts: seq<nat>, targets: seq<nat>, n: nat): nat
    requires n <= |targets|
  {
    if n == 0 then 0 else Reused(counts, targets, n - 1) + (if Reuses(counts, targets, n - 1) then 1 else 0)
  }

  lemma {:induction false} ReusedNone(counts: seq<nat>, targets: seq<nat>, n: nat)
    requires n <= |targets|
    ensures Reused(counts, targets, n) == 0 <==> forall i :: 0 <= i < n ==> !Reuses(counts, targets, i)
  {
    hide Reuses;
    if n > 0 {
      ReusedNone(counts, targets, n - 1);
    }
  }

  lemma PickNextSize(counts: seq<nat>, s: Picks, i: nat, expected: nat)
    requires InRange(s.remaining, |counts|)
    ensures var next, k := PickNext(counts, s, i, expected), FirstMatch(counts, s.remaining, expected);
      |Somes(next.placed)| + |next.remaining| == |Somes(s.placed)| + |s.remaining| +
        if k == |s.remaining| && i < |counts| && i !in s.remaining then 1 else 0
  {
    hide FirstMatch, FirstIndex;
    var next := PickNext(counts, s, i, expected);
    assert next.placed[..|s.placed|] == s.placed;
  }

  lemma {:induction false} PickSize(counts: seq<nat>, targets: seq<nat>, n: nat)
    requires n <= |targets|
    ensures var s := Pick(counts, targets, n);
      |Somes(s.placed)| + |s.remaining| == |counts| + Reused(counts, targets, n)
  {
    hide FirstMatch, PickNext;
    if n > 0 {
      PickSize(counts, targets, n - 1);
      PickNextSize(counts, Pick(counts, targets, n - 1), n - 1, targets[n - 1]);
    }
  }

  lemma FitsNeverReuses(counts: seq<nat>, targets: seq<nat>, i: nat)
    requires multiset(targets) <= multiset(counts) && i < |targets|
    ensures !Reuses(counts, targets, i)
  {
    hide IsPermutation, FirstMatch;
    var front := PickFits(counts, targets, i);
    var remaining := Pick(counts, targets, i).remaining;
    StillThere(counts, targets, front, remaining);
    var j := Find(Select(counts, remaining), targets[i]);
    assert counts[remaining[j]] == targets[i];
  }

  lemma IndicesSize(counts: seq<nat>, faceNum: map<int, nat>)
    requires Counts(faceNum).Ok?
    ensures var targets, r := Counts(faceNum).value, ReorderIndices(counts, faceNum);
      r.Ok? && |r.value| == |counts| + Reused(counts, targets, |targets|)
  {
    hide Reuses, Reused, Pick, Somes;
    var targets := Counts(faceNum).value;
    PickSize(counts, targets, |targets|);
    ReusedNone(counts, targets, |targets|);
    if counts == [] {
      hide *;
      NothingToReuse(targets);
    } else if counts == targets {
      forall i | 0 <= i < |targets| ensures !Reuses(counts, targets, i) {
        FitsNeverReuses(counts, targets, i);
      }
    }
  }

  lemma NothingToReuse(targets: seq<nat>)
    ensures forall i :: 0 <= i < |targets| ==> !Reuses([], targets, i)
  {
  }

  /**
   * One mesh more comes back for every annotated mesh that falls back on a mesh already placed. So the result has the
   * length of the input exactly when there is none, and then it is a permutation of the meshes.
   */
  lemma ReorderKeepsLengthIff<T>(meshes: seq<Mesh<T>>, faceNum: map<int, nat>)
    requires Counts(faceNum).Ok?
    ensures Reorder(meshes, faceNum).Ok?
    ensures var counts, targets, r := ActualCounts(meshes), Counts(faceNum).value, Reorder(meshes, faceNum).value;
      |r| == |meshes| + Reused(counts, targets, |targets|) &&
      (|r| == |meshes| <==> forall i :: 0 <= i < |targets| ==> !Reuses(counts, targets, i)) &&
      (|r| == |meshes| ==> multiset(r) == multiset(meshes))
  {
    hide Reuses, Reused, ReorderIndices;
    var counts, targets := ActualCounts(meshes), Counts(faceNum).value;
    IndicesSize(counts, faceNum);
    ReusedNone(counts, targets, |targets|);
    var order := ReorderIndices(counts, faceNum).value;
    if |order| == |meshes| {
      forall x | 0 <= x < |meshes| ensures x in order {
        NothingIsLost(counts, faceNum, x);
      }
      NoneMissing(order);
      SelectAll(meshes, order);
    }
  }

  lemma PickRepeated()
    ensures Reuses([5, 7], [7, 9], 1)
    ensures Pick([5, 7], [7, 9], 2) == Picks([Some(1), Some(1)], [0])
  {
    var counts, targets := [5, 7], [7, 9];
    assert Pick(counts, targets, 0).remaining == [0, 1];
    assert [0, 1][1..] == [1];
    assert FirstMatch(counts, [1], 7) == 0;
    assert Pick(counts, targets, 1) == Picks([Some(1)], [0]);
    assert [0][1..] == [];
    assert FirstMatch(counts, [0], 9) == 1;
  }

  /** Two meshes that come back as three. */
  lemma MeshRepeated()
    ensures Reuses([5, 7], [7, 9], 1)
    ensures ReorderIndices([5, 7], map[0 := 7, 1 := 9]) == Ok([1, 1, 0])
  {
    hide Pick, Somes, Reuses;
    var counts, targets := [5, 7], [7, 9];
    var faceNum: map<int, nat> := map[0 := 7, 1 := 9];
    assert faceNum.Keys == {0, 1};
    assert CountsUpTo(faceNum, 2).value == targets;
    PickRepeated();
    SomesAll([Some(1), Some(1)], [1, 1]);
    assert |faceNum| == |faceNum.Keys| == 2;
    assert Counts(faceNum) == Ok(targets);
    assert Order(counts, targets) == [1, 1] + [0] == [1, 1, 0];
    assert counts[0] != targets[0];
  }
}
