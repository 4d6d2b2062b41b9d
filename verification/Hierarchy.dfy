/** The part hierarchy: cutting it at a depth, and the depths a training row keeps. */
module Hierarchy {
  import opened Wrappers
  import opened Sequences

  /** A leaf has no list of children; either kind of node may lack a mask id. */
  datatype Node = Leaf(maskId: Option<int>) | Inner(maskId: Option<int>, children: seq<Node>)

  function Own(node: Node): seq<int> {
    if node.maskId.Some? then [node.maskId.value] else []
  }

  /** All mask ids of a subtree. */
  function CollectMaskIds(node: Node): seq<int>
    decreases node, 1
  {
    if node.Inner? then Own(node) + CollectAll(node.children) else Own(node)
  }

  function CollectAll(nodes: seq<Node>): seq<int>
    decreases nodes, 0
  {
    if nodes == [] then [] else CollectMaskIds(nodes[0]) + CollectAll(nodes[1..])
  }

  /** The groups of mask ids at a target depth. */
  function Cut(node: Node, depth: nat, target: nat): seq<seq<int>>
    decreases node, 1
  {
    if node.Leaf? && node.maskId.Some? then [[node.maskId.value]]
    else if depth == target then
      var ids := CollectMaskIds(node);
      if ids != [] then [ids] else []
    else if node.Leaf? then []
    else CutAll(node.children, depth + 1, target)
  }

  function CutAll(nodes: seq<Node>, depth: nat, target: nat): seq<seq<int>>
    decreases nodes, 0
  {
    if nodes == [] then [] else Cut(nodes[0], depth, target) + CutAll(nodes[1..], depth, target)
  }

  /** The depth of the tree; Python's `max` raises on a node with an empty list of children. */
  function MaxDepth(node: Node, depth: nat): Result<nat>
    decreases node, 1
  {
    if node.Leaf? then Ok(depth) else MaxDepthAll(node.children, depth + 1)
  }

  function MaxDepthAll(nodes: seq<Node>, depth: nat): Result<nat>
    decreases nodes, 0
  {
    if nodes == [] then Raised
    else
      var first :- MaxDepth(nodes[0], depth);
      if |nodes| == 1 then Ok(first)
      else
        var rest :- MaxDepthAll(nodes[1..], depth);
        Ok(if rest > first then rest else first)
  }

  // ---------- Nothing is lost below the cut ----------

  /** The mask ids of inner nodes strictly above the cut: the cut passes over them. */
  function Above(node: Node, depth: nat, target: nat): seq<int>
    decreases node, 1
  {
    if node.Leaf? || depth == target then []
    else Own(node) + AboveAll(node.children, depth + 1, target)
  }

  function AboveAll(nodes: seq<Node>, depth: nat, target: nat): seq<int>
    decreases nodes, 0
  {
    if nodes == [] then [] else Above(nodes[0], depth, target) + AboveAll(nodes[1..], depth, target)
  }

  /** A cut and what it passes over make up all mask ids; with nothing above, in the order of the tree. */
  lemma {:induction false} CutCovers(node: Node, depth: nat, target: nat)
    ensures multiset(Flatten(Cut(node, depth, target))) + multiset(Above(node, depth, target)) ==
            multiset(CollectMaskIds(node))
    ensures Above(node, depth, target) == [] ==> Flatten(Cut(node, depth, target)) == CollectMaskIds(node)
    decreases node, 1
  {
    hide Flatten;
    NothingCut();
    if node.Leaf? || depth == target {
      OneGroupFlat(CollectMaskIds(node));
    } else {
      CutCoversAll(node.children, depth + 1, target);
    }
  }

  lemma {:induction false} CutCoversAll(nodes: seq<Node>, depth: nat, target: nat)
    ensures multiset(Flatten(CutAll(nodes, depth, target))) + multiset(AboveAll(nodes, depth, target)) ==
            multiset(CollectAll(nodes))
    ensures AboveAll(nodes, depth, target) == [] ==> Flatten(CutAll(nodes, depth, target)) == CollectAll(nodes)
    decreases nodes, 0
  {
    hide Flatten, Cut, Above, CollectMaskIds;
    if nodes == [] {
      NothingCut();
    } else {
      CutCovers(nodes[0], depth, target);
      CutCoversAll(nodes[1..], depth, target);
      FlattenConcat(Cut(nodes[0], depth, target), CutAll(nodes[1..], depth, target));
      BothSides(Flatten(Cut(nodes[0], depth, target)), Above(nodes[0], depth, target), CollectMaskIds(nodes[0]),
                Flatten(CutAll(nodes[1..], depth, target)), AboveAll(nodes[1..], depth, target), CollectAll(nodes[1..]));
    }
  }

  lemma BothSides(a: seq<int>, b: seq<int>, c: seq<int>, x: seq<int>, y: seq<int>, z: seq<int>)
    requires multiset(a) + multiset(b) == multiset(c) && multiset(x) + multiset(y) == multiset(z)
    ensures multiset(a + x) + multiset(b + y) == multiset(c + z)
  {
  }

  lemma OneGroupFlat(ids: seq<int>)
    ensures Flatten([ids]) == ids
  {
  }

  lemma NothingCut()
    ensures Flatten<int>([]) == []
  {
  }

  /** The groups list exactly the ids of the tree, in order, if and only if no inner node above the cut has an id. */
  lemma CutIsCompleteIff(root: Node, target: nat)
    ensures Flatten(Cut(root, 0, target)) == CollectMaskIds(root) <==> Above(root, 0, target) == []
  {
    CutCovers(root, 0, target);
    var cut, above, all := Flatten(Cut(root, 0, target)), Above(root, 0, target), CollectMaskIds(root);
    assert |cut| + |above| == |multiset(cut) + multiset(above)| == |multiset(all)| == |all|;
  }

  /** Mask ids on leaves only: the shape of the annotations. */
  predicate LeafMasks(node: Node)
    decreases node, 1
  {
    node.Inner? ==> node.maskId.None? && LeafMasksAll(node.children)
  }

  predicate LeafMasksAll(nodes: seq<Node>)
    decreases nodes, 0
  {
    nodes == [] || (LeafMasks(nodes[0]) && LeafMasksAll(nodes[1..]))
  }

  lemma {:induction false} LeafMasksAbove(node: Node, depth: nat, target: nat)
    requires LeafMasks(node)
    ensures Above(node, depth, target) == []
    decreases node, 1
  {
    if node.Inner? && depth != target {
      LeafMasksAboveAll(node.children, depth + 1, target);
    }
  }

  lemma {:induction false} LeafMasksAboveAll(nodes: seq<Node>, depth: nat, target: nat)
    requires LeafMasksAll(nodes)
    ensures AboveAll(nodes, depth, target) == []
    decreases nodes, 0
  {
    if nodes != [] {
      LeafMasksAbove(nodes[0], depth, target);
      LeafMasksAboveAll(nodes[1..], depth, target);
    }
  }

  // ---------- Refinement ----------

  /** `parts[i]` is how the finer cut divides the i-th group. */
  ghost predicate Divides(parts: seq<seq<seq<int>>>, coarse: seq<seq<int>>, fine: seq<seq<int>>) {
    Flatten(parts) == fine && |parts| == |coarse| &&
    forall i :: 0 <= i < |parts| ==> parts[i] != [] && Flatten(parts[i]) == coarse[i]
  }

  ghost predicate Refines(fine: seq<seq<int>>, coarse: seq<seq<int>>) {
    exists parts :: Divides(parts, coarse, fine)
  }

  lemma RefinesConcat(fine0: seq<seq<int>>, coarse0: seq<seq<int>>, fine1: seq<seq<int>>, coarse1: seq<seq<int>>)
    requires Refines(fine0, coarse0) && Refines(fine1, coarse1)
    ensures Refines(fine0 + fine1, coarse0 + coarse1)
  {
    hide Divides;
    var parts0 :| Divides(parts0, coarse0, fine0);
    var parts1 :| Divides(parts1, coarse1, fine1);
    DividesConcat(parts0, coarse0, fine0, parts1, coarse1, fine1);
  }

  lemma DividesConcat(parts0: seq<seq<seq<int>>>, coarse0: seq<seq<int>>, fine0: seq<seq<int>>,
                      parts1: seq<seq<seq<int>>>, coarse1: seq<seq<int>>, fine1: seq<seq<int>>)
    requires Divides(parts0, coarse0, fine0) && Divides(parts1, coarse1, fine1)
    ensures Divides(parts0 + parts1, coarse0 + coarse1, fine0 + fine1)
  {
    hide Flatten;
    FlattenConcat(parts0, parts1);
  }

  lemma RefinesOneGroup(fine: seq<seq<int>>, group: seq<int>)
    requires Flatten(fine) == group
    ensures group != [] ==> Refines(fine, [group])
  {
    if group != [] {
      DividesOnce(fine, group);
    }
  }

  lemma DividesOnce(fine: seq<seq<int>>, group: seq<int>)
    requires Flatten(fine) == group != []
    ensures Divides([fine], [group], fine)
  {
    assert Flatten([fine]) == Flatten([fine][..0]) + fine;
    assert [fine][..0] == [];
  }

  /** No group is empty. */
  lemma {:induction false} GroupsNotEmpty(node: Node, depth: nat, target: nat)
    ensures [] !in Cut(node, depth, target)
    decreases node, 1
  {
    if node.Inner? && depth != target {
      GroupsNotEmptyAll(node.children, depth + 1, target);
    }
  }

  lemma {:induction false} GroupsNotEmptyAll(nodes: seq<Node>, depth: nat, target: nat)
    ensures [] !in CutAll(nodes, depth, target)
    decreases nodes, 0
  {
    if nodes != [] {
      GroupsNotEmpty(nodes[0], depth, target);
      GroupsNotEmptyAll(nodes[1..], depth, target);
    }
  }

  lemma OneGroupRefines(node: Node, depth: nat, target: nat)
    requires LeafMasks(node) && (node.Leaf? || depth == target)
    ensures Refines(Cut(node, depth, target + 1), Cut(node, depth, target))
  {
    var fine, coarse := Cut(node, depth, target + 1), Cut(node, depth, target);
    LeafMasksAbove(node, depth, target + 1);
    CutCovers(node, depth, target + 1);
    if CollectMaskIds(node) == [] {
      GroupsNotEmpty(node, depth, target + 1);
      assert Divides([], [], []);
    } else {
      RefinesOneGroup(fine, CollectMaskIds(node));
      assert coarse == [CollectMaskIds(node)];
    }
  }

  /** The cut one level deeper divides every group into groups of its own. */
  lemma {:induction false} DeeperRefines(node: Node, depth: nat, target: nat)
    requires LeafMasks(node) && depth <= target
    ensures Refines(Cut(node, depth, target + 1), Cut(node, depth, target))
    decreases node, 1
  {
    if node.Leaf? || depth == target {
      OneGroupRefines(node, depth, target);
    } else {
      DeeperRefinesAll(node.children, depth + 1, target);
    }
  }

  lemma {:induction false} DeeperRefinesAll(nodes: seq<Node>, depth: nat, target: nat)
    requires LeafMasksAll(nodes) && depth <= target
    ensures Refines(CutAll(nodes, depth, target + 1), CutAll(nodes, depth, target))
    decreases nodes, 0
  {
    if nodes == [] {
      assert Divides([], [], []);
    } else {
      DeeperRefines(nodes[0], depth, target);
      DeeperRefinesAll(nodes[1..], depth, target);
      RefinesConcat(Cut(nodes[0], depth, target + 1), Cut(nodes[0], depth, target),
                    CutAll(nodes[1..], depth, target + 1), CutAll(nodes[1..], depth, target));
    }
  }

  // ---------- Counting groups ----------

  lemma {:induction false} PartsAtLeastOne(parts: seq<seq<seq<int>>>)
    requires forall i :: 0 <= i < |parts| ==> parts[i] != []
    ensures |Flatten(parts)| >= |parts|
    ensures |Flatten(parts)| == |parts| ==> forall i :: 0 <= i < |parts| ==> parts[i] == [Flatten(parts)[i]]
  {
    if parts != [] {
      PartsAtLeastOne(parts[..|parts| - 1]);
    }
  }

  /** A refinement has at least as many groups, and with as many it is the same cut. */
  lemma RefinesCounts(fine: seq<seq<int>>, coarse: seq<seq<int>>)
    requires Refines(fine, coarse)
    ensures |fine| >= |coarse|
    ensures |fine| == |coarse| ==> fine == coarse
  {
    var parts :| Divides(parts, coarse, fine);
    PartsAtLeastOne(parts);
    if |fine| == |coarse| {
      forall i | 0 <= i < |fine| ensures fine[i] == coarse[i] {
        assert parts[i] == [fine[i]] && Flatten([fine[i]]) == fine[i];
      }
    }
  }

  lemma {:induction false} DeeperCounts(root: Node, d: nat, e: nat)
    requires LeafMasks(root) && d <= e
    ensures |Cut(root, 0, d)| <= |Cut(root, 0, e)|
    ensures |Cut(root, 0, d)| == |Cut(root, 0, e)| ==> Cut(root, 0, d) == Cut(root, 0, e)
    decreases e
  {
    if d < e {
      DeeperCounts(root, d, e - 1);
      DeeperRefines(root, 0, e - 1);
      RefinesCounts(Cut(root, 0, e), Cut(root, 0, e - 1));
    }
  }

  // ---------- The deepest cut ----------

  function Single(id: int): seq<int> { [id] }

  /** From the maximum depth on, every masked leaf is a group of its own. */
  lemma {:induction false} DeepestCut(node: Node, depth: nat, target: nat)
    requires LeafMasks(node) && MaxDepth(node, depth).Ok? && depth <= MaxDepth(node, depth).value <= target
    ensures Cut(node, depth, target) == Map(Single, CollectMaskIds(node))
    decreases node, 1
  {
    if node.Inner? {
      DepthGrows(node.children, depth + 1);
      DeepestCutAll(node.children, depth + 1, target);
    }
  }

  lemma {:induction false} DeepestCutAll(nodes: seq<Node>, depth: nat, target: nat)
    requires LeafMasksAll(nodes) && nodes != [] && MaxDepthAll(nodes, depth).Ok?
    requires depth <= MaxDepthAll(nodes, depth).value <= target
    ensures CutAll(nodes, depth, target) == Map(Single, CollectAll(nodes))
    decreases nodes, 0
  {
    DepthStarts(nodes[0], depth);
    DeepestCut(nodes[0], depth, target);
    if |nodes| == 1 {
      assert nodes[1..] == [];
    } else {
      DepthGrows(nodes[1..], depth);
      DeepestCutAll(nodes[1..], depth, target);
    }
  }

  lemma {:induction false} DepthStarts(node: Node, depth: nat)
    requires MaxDepth(node, depth).Ok?
    ensures MaxDepth(node, depth).value >= depth + (if node.Inner? then 1 else 0)
    decreases node, 1
  {
    if node.Inner? {
      DepthGrows(node.children, depth + 1);
    }
  }

  lemma {:induction false} DepthGrows(nodes: seq<Node>, depth: nat)
    requires MaxDepthAll(nodes, depth).Ok?
    ensures nodes != [] && MaxDepthAll(nodes, depth).value >= depth
    decreases nodes, 0
  {
    DepthStarts(nodes[0], depth);
  }

  // ---------- Cuts as sets of sets ----------

  function Members(ids: seq<int>): set<int> { set x | x in ids }

  /** The frozenset of frozensets that two depths are compared by. */
  function SetOfSets(groups: seq<seq<int>>): set<set<int>> { set g | g in groups :: Members(g) }

  ghost predicate UniqueIds(root: Node) {
    forall x :: multiset(CollectMaskIds(root))[x] <= 1
  }

  lemma OnceInFront(front: seq<int>, back: seq<int>)
    requires forall x :: multiset(front + back)[x] <= 1
    ensures forall x :: multiset(front)[x] <= 1
  {
    forall x ensures multiset(front)[x] <= 1 {
      assert multiset(front + back)[x] == multiset(front)[x] + multiset(back)[x];
    }
  }

  lemma {:induction false} DisjointGroups(groups: seq<seq<int>>)
    requires [] !in groups && forall x :: multiset(Flatten(groups))[x] <= 1
    ensures |SetOfSets(groups)| == |groups|
  {
    if groups == [] {
      assert SetOfSets(groups) == {};
    } else {
      var n := |groups| - 1;
      var prior, last := groups[..n], groups[n];
      assert Flatten(groups) == Flatten(prior) + last;
      OnceInFront(Flatten(prior), last);
      DisjointGroups(prior);
      LastIsNew(prior, last);
      assert groups == prior + [last];
      assert SetOfSets(groups) == SetOfSets(prior) + {Members(last)};
    }
  }

  lemma LastIsNew(prior: seq<seq<int>>, last: seq<int>)
    requires last != [] && forall x :: multiset(Flatten(prior) + last)[x] <= 1
    ensures Members(last) !in SetOfSets(prior)
  {
    forall g | g in prior ensures Members(g) != Members(last) {
      var x := last[0];
      assert x in Members(last);
      if x in g {
        InFlatten(prior, g, x);
        InBoth(Flatten(prior), last, x);
      }
    }
  }

  lemma InBoth(a: seq<int>, b: seq<int>, x: int)
    requires x in a && x in b
    ensures multiset(a + b)[x] >= 2
  {
    assert x in multiset(a) && x in multiset(b);
  }

  lemma {:induction false} InFlatten(groups: seq<seq<int>>, g: seq<int>, x: int)
    requires g in groups && x in g
    ensures x in Flatten(groups)
  {
    if g != groups[|groups| - 1] {
      SplitLast(groups);
      InFlatten(groups[..|groups| - 1], g, x);
    }
  }

  /** In an annotation the number of groups tells apart exactly the cuts that differ as sets of sets. */
  lemma CountsDecide(root: Node, d: nat, e: nat)
    requires LeafMasks(root) && UniqueIds(root) && d <= e
    ensures SetOfSets(Cut(root, 0, d)) == SetOfSets(Cut(root, 0, e)) <==> |Cut(root, 0, d)| == |Cut(root, 0, e)|
  {
    DeeperCounts(root, d, e);
    CutIsDisjoint(root, d);
    CutIsDisjoint(root, e);
  }

  lemma CutIsDisjoint(root: Node, d: nat)
    requires LeafMasks(root) && UniqueIds(root)
    ensures |SetOfSets(Cut(root, 0, d))| == |Cut(root, 0, d)|
  {
    LeafMasksAbove(root, 0, d);
    CutCovers(root, 0, d);
    GroupsNotEmpty(root, 0, d);
    DisjointGroups(Cut(root, 0, d));
  }

  // ---------- The depths that are kept ----------

  /** A depth is considered when it has at least two groups and not too many. */
  predicate Considered(groups: seq<seq<int>>, maxParts: Option<int>) {
    |groups| > 1 && (maxParts.Some? ==> |groups| <= maxParts.value)
  }

  /** The depths kept among the first n, with the comparison against the one kept last. */
  function Kept(root: Node, depths: seq<nat>, maxParts: Option<int>, n: nat): (r: seq<nat>)
    requires n <= |depths|
    ensures |r| <= n
  {
    if n == 0 then []
    else
      var kept := Kept(root, depths, maxParts, n - 1);
      var d := depths[n - 1];
      if Considered(Cut(root, 0, d), maxParts) &&
         (kept == [] || SetOfSets(Cut(root, 0, d)) != SetOfSets(Cut(root, 0, kept[|kept| - 1])))
      then kept + [d]
      else kept
  }

  method FilterDepths(root: Node, depths: seq<nat>, maxParts: Option<int>) returns (kept: seq<nat>)
    ensures kept == Kept(root, depths, maxParts, |depths|)
  {
    kept := [];
    var previous: Option<set<set<int>>> := None;
    for n := 0 to |depths|
      invariant kept == Kept(root, depths, maxParts, n)
      invariant previous == if kept == [] then None else Some(SetOfSets(Cut(root, 0, kept[|kept| - 1])))
    {
      var groups := Cut(root, 0, depths[n]);
      if |groups| <= 1 {
        continue;
      }
      if maxParts.Some? && |groups| > maxParts.value {
        continue;
      }
      var current := SetOfSets(groups);
      if previous == Some(current) {
        continue;
      }
      previous := Some(current);
      kept := kept + [depths[n]];
    }
  }

  ghost predicate Rising(depths: seq<nat>) {
    forall i, j :: 0 <= i < j < |depths| ==> depths[i] < depths[j]
  }

  lemma {:induction false} KeptBelow(root: Node, depths: seq<nat>, maxParts: Option<int>, n: nat, i: nat)
    requires Rising(depths) && n <= |depths| && i < |Kept(root, depths, maxParts, n)|
    ensures n > 0 && Kept(root, depths, maxParts, n)[i] <= depths[n - 1]
  {
    if i < |Kept(root, depths, maxParts, n - 1)| {
      KeptBelow(root, depths, maxParts, n - 1, i);
      assert depths[n - 2] < depths[n - 1];
    }
  }

  /** The number of groups rises strictly from one kept depth to the next. */
  lemma {:induction false} KeptRise(root: Node, depths: seq<nat>, maxParts: Option<int>, n: nat, i: nat, j: nat)
    requires LeafMasks(root) && UniqueIds(root) && Rising(depths) && n <= |depths|
    requires i < j < |Kept(root, depths, maxParts, n)|
    ensures var kept := Kept(root, depths, maxParts, n);
      |Cut(root, 0, kept[i])| < |Cut(root, 0, kept[j])|
  {
    hide SetOfSets, Cut;
    var kept, d := Kept(root, depths, maxParts, n - 1), depths[n - 1];
    if j < |kept| {
      KeptRise(root, depths, maxParts, n - 1, i, j);
    } else {
      var last := |kept| - 1;
      if i < last {
        KeptRise(root, depths, maxParts, n - 1, i, last);
      }
      KeptBelow(root, depths, maxParts, n - 1, last);
      assert depths[n - 2] < d;
      CountsDecide(root, kept[last], d);
      DeeperCounts(root, kept[last], d);
    }
  }

  /** So comparing with the last kept cut alone leaves cuts that are pairwise different. */
  lemma KeptAreDistinct(root: Node, depths: seq<nat>, maxParts: Option<int>, i: nat, j: nat)
    requires LeafMasks(root) && UniqueIds(root) && Rising(depths)
    requires i < j < |Kept(root, depths, maxParts, |depths|)|
    ensures var kept := Kept(root, depths, maxParts, |depths|);
      SetOfSets(Cut(root, 0, kept[i])) != SetOfSets(Cut(root, 0, kept[j])) &&
      |Cut(root, 0, kept[i])| < |Cut(root, 0, kept[j])|
  {
    hide SetOfSets, Cut, Kept;
    KeptRise(root, depths, maxParts, |depths|, i, j);
    var kept := Kept(root, depths, maxParts, |depths|);
    CutIsDisjoint(root, kept[i]);
    CutIsDisjoint(root, kept[j]);
  }

  /** And no cut is lost: each depth that was considered is kept or has the cut of a kept depth. */
  lemma {:induction false} KeptRepresentsAll(root: Node, depths: seq<nat>, maxParts: Option<int>, n: nat, i: nat)
    requires LeafMasks(root) && UniqueIds(root) && Rising(depths) && i < n <= |depths|
    requires var parts := |Cut(root, 0, depths[i])|; 1 < parts && (maxParts.Some? ==> parts <= maxParts.value)
    ensures exists d :: (
      d in Kept(root, depths, maxParts, n) && SetOfSets(Cut(root, 0, d)) == SetOfSets(Cut(root, 0, depths[i])))
  {
    var kept := Kept(root, depths, maxParts, n - 1);
    if i < n - 1 {
      KeptRepresentsAll(root, depths, maxParts, n - 1, i);
      var d :| d in kept && SetOfSets(Cut(root, 0, d)) == SetOfSets(Cut(root, 0, depths[i]));
      assert d in Kept(root, depths, maxParts, n);
    } else {
      var now := Kept(root, depths, maxParts, n);
      assert now[|now| - 1] in now;
    }
  }
}
