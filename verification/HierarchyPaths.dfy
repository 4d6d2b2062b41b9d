/** The nodes that a cut, the list of mask ids and the depth speak of, addressed by their paths from the root. */
module HierarchyPaths {
  import opened Wrappers
  import opened Sequences
  import opened Hierarchy

  /** The child numbers on the way down. */
  type Path = seq<nat>

  function NodeAt(node: Node, path: Path): Option<Node>
    decreases |path|
  {
    if path == [] then Some(node)
    else if node.Leaf? || path[0] >= |node.children| then None
    else NodeAt(node.children[path[0]], path[1..])
  }

  /** In the order of the tree: a node goes before those below it, and those before those below later children. */
  predicate Before(p: Path, q: Path) {
    if q == [] then false
    else if p == [] then true
    else p[0] < q[0] || (p[0] == q[0] && Before(p[1..], q[1..]))
  }

  ghost predicate InOrder(paths: seq<Path>) {
    forall i, j :: 0 <= i < j < |paths| ==> Before(paths[i], paths[j])
  }

  function Under(k: nat, paths: seq<Path>): seq<Path> { Map((p: Path) => [k] + p, paths) }

  lemma Below(node: Node, k: nat, p: Path)
    requires node.Inner? && k < |node.children|
    ensures NodeAt(node, [k] + p) == NodeAt(node.children[k], p)
  {
    assert ([k] + p)[1..] == p;
  }

  lemma UnderInOrder(k: nat, first: seq<Path>, rest: seq<Path>)
    requires InOrder(first) && InOrder(rest) && forall q :: q in rest ==> q != [] && q[0] > k
    ensures InOrder(Under(k, first) + rest)
  {
    var paths := Under(k, first) + rest;
    forall i, j | 0 <= i < j < |paths| ensures Before(paths[i], paths[j]) {
      if j < |first| {
        assert paths[i][1..] == first[i] && paths[j][1..] == first[j];
      } else {
        assert paths[j] in rest;
      }
    }
  }

  lemma InUnder(k: nat, first: seq<Path>, p: Path)
    ensures p in Under(k, first) <==> p != [] && p[0] == k && p[1..] in first
  {
    if p != [] && p[0] == k && p[1..] in first {
      var i := Find(first, p[1..]);
      assert Under(k, first)[i] == [k] + p[1..] == p;
    }
    if p in Under(k, first) {
      var i := Find(Under(k, first), p);
      assert p == [k] + first[i] && p[1..] == first[i];
    }
  }

  // ---------- Cuts ----------

  /** A part: a node at depth d with some mask id below or on it, or a masked leaf less deep. */
  ghost predicate IsPart(root: Node, d: nat, path: Path) {
    NodeAt(root, path).Some? &&
    var node := NodeAt(root, path).value;
    CollectMaskIds(node) != [] && (|path| == d || (|path| < d && node.Leaf?))
  }

  /** Each group is the list of mask ids of the node at its path. */
  ghost predicate IdsOf(root: Node, paths: seq<Path>, groups: seq<seq<int>>) {
    |paths| == |groups| &&
    forall i :: 0 <= i < |paths| ==>
      NodeAt(root, paths[i]).Some? && groups[i] == CollectMaskIds(NodeAt(root, paths[i]).value)
  }

  /** The groups of a cut are the parts at its depth, each once, in the order of the tree. */
  lemma {:induction false} CutIsParts(node: Node, depth: nat, d: nat) returns (paths: seq<Path>)
    ensures InOrder(paths) && forall p :: p in paths <==> IsPart(node, d, p)
    ensures IdsOf(node, paths, Cut(node, depth, depth + d))
    decreases node, if node.Inner? then |node.children| + 1 else 0
  {
    if node.Leaf? || d == 0 {
      paths := if CollectMaskIds(node) == [] then [] else [[]];
    } else {
      paths := CutIsPartsFrom(node, 0, depth + 1, d - 1);
      assert node.children[0..] == node.children;
    }
  }

  lemma {:induction false} CutIsPartsFrom(node: Node, from: nat, depth: nat, d: nat) returns (paths: seq<Path>)
    requires node.Inner? && from <= |node.children|
    ensures InOrder(paths)
    ensures forall p :: p in paths <==> p != [] && p[0] >= from && IsPart(node, d + 1, p)
    ensures IdsOf(node, paths, CutAll(node.children[from..], depth, depth + d))
    decreases node, |node.children| - from
  {
    hide Cut, CollectMaskIds;
    if from == |node.children| {
      paths := [];
    } else {
      var child := node.children[from];
      var first := CutIsParts(child, depth, d);
      var rest := CutIsPartsFrom(node, from + 1, depth, d);
      paths := Under(from, first) + rest;
      UnderInOrder(from, first, rest);
      forall p ensures p in paths <==> p != [] && p[0] >= from && IsPart(node, d + 1, p) {
        InUnder(from, first, p);
      }
      assert node.children[from..][1..] == node.children[from + 1..];
      forall i | 0 <= i < |first| ensures NodeAt(node, paths[i]) == NodeAt(child, first[i]) {
        Below(node, from, first[i]);
      }
    }
  }

  // ---------- Mask ids ----------

  ghost predicate Masked(root: Node, path: Path) {
    NodeAt(root, path).Some? && NodeAt(root, path).value.maskId.Some?
  }

  ghost predicate MasksOf(root: Node, paths: seq<Path>, ids: seq<int>) {
    |paths| == |ids| && forall i :: 0 <= i < |paths| ==>
      NodeAt(root, paths[i]).Some? && NodeAt(root, paths[i]).value.maskId == Some(ids[i])
  }

  /** The ids of a subtree are those of its masked nodes, each once, in the order of the tree. */
  lemma {:induction false} IdsAreMasks(node: Node) returns (paths: seq<Path>)
    ensures InOrder(paths) && forall p :: p in paths <==> Masked(node, p)
    ensures MasksOf(node, paths, CollectMaskIds(node))
    decreases node, if node.Inner? then |node.children| + 1 else 0
  {
    var own: seq<Path> := if node.maskId.Some? then [[]] else [];
    var below: seq<Path> := [];
    if node.Inner? {
      below := IdsAreMasksFrom(node, 0);
      assert node.children[0..] == node.children;
    }
    OwnFirst(own, below);
    paths := own + below;
  }

  lemma OwnFirst(own: seq<Path>, below: seq<Path>)
    requires (own == [] || own == [[]]) && InOrder(below) && forall q :: q in below ==> q != []
    ensures InOrder(own + below)
  {
    forall j | 0 <= j < |below| ensures below[j] != [] {
      assert below[j] in below;
    }
  }

  lemma {:induction false} IdsAreMasksFrom(node: Node, from: nat) returns (paths: seq<Path>)
    requires node.Inner? && from <= |node.children|
    ensures InOrder(paths)
    ensures forall p :: p in paths <==> p != [] && p[0] >= from && Masked(node, p)
    ensures MasksOf(node, paths, CollectAll(node.children[from..]))
    decreases node, |node.children| - from
  {
    hide CollectMaskIds;
    if from == |node.children| {
      paths := [];
    } else {
      var child := node.children[from];
      var first := IdsAreMasks(child);
      var rest := IdsAreMasksFrom(node, from + 1);
      paths := Under(from, first) + rest;
      UnderInOrder(from, first, rest);
      forall p ensures p in paths <==> p != [] && p[0] >= from && Masked(node, p) {
        InUnder(from, first, p);
      }
      assert node.children[from..][1..] == node.children[from + 1..];
      forall i | 0 <= i < |first| ensures NodeAt(node, paths[i]) == NodeAt(child, first[i]) {
        Below(node, from, first[i]);
      }
    }
  }

  // ---------- Depth ----------

  ghost predicate Childless(root: Node, path: Path) {
    NodeAt(root, path).Some? && NodeAt(root, path).value.Inner? && NodeAt(root, path).value.children == []
  }

  /** The depth is the length of a longest path; it raises exactly if some node has an empty list of children. */
  lemma {:induction false} DepthIsLongest(node: Node, depth: nat) returns (path: Path)
    ensures var r := MaxDepth(node, depth);
      if r.Ok? then NodeAt(node, path).Some? && depth + |path| == r.value else Childless(node, path)
    ensures var r := MaxDepth(node, depth);
      r.Ok? ==> forall p :: NodeAt(node, p).Some? ==> depth + |p| <= r.value && !Childless(node, p)
    decreases node, if node.Inner? then |node.children| + 1 else 0
  {
    if node.Leaf? || node.children == [] {
      path := [];
    } else {
      path := DepthIsLongestFrom(node, 0, depth + 1);
      assert node.children[0..] == node.children;
    }
  }

  lemma {:induction false} DepthIsLongestFrom(node: Node, from: nat, depth: nat) returns (path: Path)
    requires node.Inner? && from < |node.children|
    ensures var r := MaxDepthAll(node.children[from..], depth);
      if r.Ok? then path != [] && NodeAt(node, path).Some? && depth + |path| - 1 == r.value
      else Childless(node, path)
    ensures var r := MaxDepthAll(node.children[from..], depth);
      r.Ok? ==> forall p :: p != [] && p[0] >= from && NodeAt(node, p).Some? ==>
        depth + |p| - 1 <= r.value && !Childless(node, p)
    decreases node, |node.children| - from
  {
    hide MaxDepth;
    var child := node.children[from];
    var first := DepthIsLongest(child, depth);
    path := [from] + first;
    Below(node, from, first);
    assert node.children[from..][1..] == node.children[from + 1..];
    if from + 1 < |node.children| && MaxDepth(child, depth).Ok? {
      var rest := DepthIsLongestFrom(node, from + 1, depth);
      var later := MaxDepthAll(node.children[from + 1..], depth);
      path := if later.Raised? || later.value > MaxDepth(child, depth).value then rest else path;
    }
  }

  // ---------- Kept depths ----------

  /** A depth is kept only with more than one part and no more than allowed, and it is the first depth with its cut. */
  lemma {:induction false} KeptAreFirst(root: Node, depths: seq<nat>, maxParts: Option<int>, n: nat, d: nat)
    requires LeafMasks(root) && UniqueIds(root) && Rising(depths) && n <= |depths| && d in Kept(root, depths, maxParts, n)
    ensures d in depths[..n] && 1 < |Cut(root, 0, d)| && (maxParts.Some? ==> |Cut(root, 0, d)| <= maxParts.value)
    ensures forall e :: e in depths && e < d && 1 < |Cut(root, 0, e)| ==>
      SetOfSets(Cut(root, 0, e)) != SetOfSets(Cut(root, 0, d))
  {
    hide SetOfSets, Cut, UniqueIds, LeafMasks;
    var before := Kept(root, depths, maxParts, n - 1);
    if d in before {
      KeptAreFirst(root, depths, maxParts, n - 1, d);
    } else {
      assert d == depths[n - 1];
      var now := before + [d];
      assert Kept(root, depths, maxParts, n) == now;
      forall e | e in depths && e < d && 1 < |Cut(root, 0, e)|
        ensures SetOfSets(Cut(root, 0, e)) != SetOfSets(Cut(root, 0, d))
      {
        if SetOfSets(Cut(root, 0, e)) == SetOfSets(Cut(root, 0, d)) {
          CountsDecide(root, e, d);
          var i := Find(depths, e);
          KeptRepresentsAll(root, depths, maxParts, n - 1, i);
          var k :| k in before && SetOfSets(Cut(root, 0, k)) == SetOfSets(Cut(root, 0, e));
          var j := Find(before, k);
          KeptRise(root, depths, maxParts, n, j, |before|);
          KeptBelow(root, depths, maxParts, n, j);
          CountsDecide(root, k, d);
        }
      }
    }
  }
}
