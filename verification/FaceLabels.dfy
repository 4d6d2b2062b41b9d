/** From annotated faces to a class label for every sampled point. */
module FaceLabels {
  import opened Wrappers
  import opened Sequences
  import opened FaceCounts

  /** Under each mask id, the meshes it touches and the faces listed in each, numbered within the mesh. */
  type Masks = map<int, seq<(nat, seq<int>)>>

  // ---------- Faces of the concatenated mesh ----------

  function Offset(counts: seq<nat>, m: nat): nat
    requires m <= |counts|
  {
    if m == 0 then 0 else Offset(counts, m - 1) + counts[m - 1]
  }

  lemma {:induction false} OffsetGrows(counts: seq<nat>, a: nat, b: nat)
    requires a <= b <= |counts|
    ensures Offset(counts, a) <= Offset(counts, b)
    ensures a < b ==> Offset(counts, a) + counts[a] <= Offset(counts, b)
    decreases b
  {
    if a < b {
      OffsetGrows(counts, a, b - 1);
    }
  }

  ghost predicate IsFace(counts: seq<nat>, m: nat, face: int) { m < |counts| && 0 <= face < counts[m] }

  /** Face numbers of the concatenated mesh name one mesh and one face of it. */
  lemma FacesAreDistinct(counts: seq<nat>, m: nat, f: int, m': nat, f': int)
    requires IsFace(counts, m, f) && IsFace(counts, m', f')
    requires Offset(counts, m) + f == Offset(counts, m') + f'
    ensures m == m' && f == f'
  {
    if m < m' {
      OffsetGrows(counts, m, m');
    } else if m' < m {
      OffsetGrows(counts, m', m);
    }
  }

  /** And every face number below the total names one. */
  lemma {:induction false} FaceIsSomewhere(counts: seq<nat>, n: nat, g: nat) returns (m: nat, face: nat)
    requires n <= |counts| && g < Offset(counts, n)
    ensures IsFace(counts, m, face) && g == Offset(counts, m) + face
  {
    if g >= Offset(counts, n - 1) {
      m, face := n - 1, g - Offset(counts, n - 1);
    } else {
      m, face := FaceIsSomewhere(counts, n - 1, g);
    }
  }

  // ---------- What the annotation lists ----------

  ghost predicate ListedUnder(masks: Masks, counts: seq<nat>, mid: int, m: nat, face: int) {
    m < |counts| &&
    if masks == map[] then mid == m && 0 <= face < counts[m]
    else mid in masks && exists e :: e in masks[mid] && e.0 == m && face in e.1
  }

  ghost predicate Listed(masks: Masks, counts: seq<nat>, group: seq<int>, m: nat, face: int) {
    exists mid :: mid in group && ListedUnder(masks, counts, mid, m, face)
  }

  /** A listed face that has the number of a real face of the concatenated mesh is that face, or that one is listed too. */
  ghost predicate NothingLeaks(masks: Masks, counts: seq<nat>, group: seq<int>) {
    forall m: nat, face: int, m': nat, face': int ::
      Listed(masks, counts, group, m, face) && IsFace(counts, m', face') && Number(counts, m, face) == Number(counts, m', face') ==>
        Listed(masks, counts, group, m', face')
  }

  /** The number of a face in the concatenated mesh. */
  function Number(counts: seq<nat>, m: nat, face: int): int {
    if m <= |counts| then Offset(counts, m) + face else 0
  }

  // ---------- Part masks ----------

  function Shift(faces: seq<int>, offset: int): (r: seq<int>)
    ensures |r| == |faces| && forall i :: 0 <= i < |r| ==> r[i] == faces[i] + offset
  {
    seq(|faces|, i requires 0 <= i < |faces| => faces[i] + offset)
  }

  function EntryFaces(counts: seq<nat>, e: (nat, seq<int>)): seq<int> {
    if e.0 < |counts| then Shift(e.1, Offset(counts, e.0)) else []
  }

  function EntriesFaces(counts: seq<nat>, entries: seq<(nat, seq<int>)>): seq<int> {
    if entries == [] then []
    else EntriesFaces(counts, entries[..|entries| - 1]) + EntryFaces(counts, entries[|entries| - 1])
  }

  function MaskFaces(masks: Masks, counts: seq<nat>, mid: int): seq<int> {
    if masks == map[] && 0 <= mid < |counts| then Shift(Range(counts[mid]), Offset(counts, mid))
    else if mid !in masks then []
    else EntriesFaces(counts, masks[mid])
  }

  function PartFaces(masks: Masks, counts: seq<nat>, group: seq<int>): seq<int> {
    if group == [] then []
    else PartFaces(masks, counts, group[..|group| - 1]) + MaskFaces(masks, counts, group[|group| - 1])
  }

  function Row(faceIdx: seq<int>, faces: seq<int>): (r: seq<nat>)
    ensures |r| == |faceIdx| && forall p :: 0 <= p < |r| ==> r[p] == if faceIdx[p] in faces then 1 else 0
  {
    seq(|faceIdx|, p requires 0 <= p < |faceIdx| => if faceIdx[p] in faces then 1 else 0)
  }

  method CollectEntries(entries: seq<(nat, seq<int>)>, offsets: seq<nat>, ghost counts: seq<nat>) returns (faces: seq<int>)
    requires |offsets| == |counts| && forall m :: 0 <= m < |counts| ==> offsets[m] == Offset(counts, m)
    ensures faces == EntriesFaces(counts, entries)
  {
    hide Offset;
    faces := [];
    for j := 0 to |entries|
      invariant faces == EntriesFaces(counts, entries[..j])
    {
      assert entries[..j + 1][..j] == entries[..j];
      var (mesh, local) := entries[j];
      if mesh < |offsets| {
        faces := faces + Shift(local, offsets[mesh]);
      }
    }
    assert entries[..|entries|] == entries;
  }

  method CollectPartFaces(masks: Masks, faceNum: map<int, nat>, offsets: seq<nat>, group: seq<int>, ghost counts: seq<nat>)
    returns (faces: seq<int>)
    requires Counts(faceNum) == Ok(counts)
    requires |offsets| == |counts| && forall m :: 0 <= m < |counts| ==> offsets[m] == Offset(counts, m)
    ensures faces == PartFaces(masks, counts, group)
  {
    hide Offset, Shift, EntriesFaces, Counts;
    CountsInOrder(faceNum, counts);
    faces := [];
    for i := 0 to |group|
      invariant faces == PartFaces(masks, counts, group[..i])
    {
      assert group[..i + 1][..i] == group[..i];
      var mid := group[i];
      if masks == map[] && mid in faceNum {
        faces := faces + Shift(Range(faceNum[mid]), offsets[mid]);
        continue;
      }
      if mid !in masks {
        assert MaskFaces(masks, counts, mid) == [];
        continue;
      }
      var more := CollectEntries(masks[mid], offsets, counts);
      faces := faces + more;
    }
    assert group[..|group|] == group;
  }

  /** Where the faces of each mesh start; a missing mesh number raises. */
  method FaceOffsets(faceNum: map<int, nat>) returns (r: Result<seq<nat>>)
    ensures r.Ok? <==> Counts(faceNum).Ok?
    ensures r.Ok? ==> var counts := Counts(faceNum).value;
      |r.value| == |counts| && forall m :: 0 <= m < |counts| ==> r.value[m] == Offset(counts, m)
  {
    var n, offsets, offset := |faceNum|, [], 0;
    ghost var counts := if Counts(faceNum).Ok? then Counts(faceNum).value else [];
    for i := 0 to n
      invariant forall j :: 0 <= j < i ==> j in faceNum
      invariant |offsets| == i
      invariant Counts(faceNum).Ok? ==> offset == Offset(counts, i)
      invariant Counts(faceNum).Ok? ==> forall m :: 0 <= m < i ==> offsets[m] == Offset(counts, m)
    {
      offsets := offsets + [offset];
      if i !in faceNum {
        return Raised;
      }
      offset := offset + faceNum[i];
    }
    r := Ok(offsets);
  }

  /** `_build_face_to_part_masks` */
  method BuildFaceToPartMasks(faceIdx: seq<int>, masks: Masks, faceNum: map<int, nat>, targets: seq<seq<int>>)
    returns (r: Result<seq<seq<nat>>>)
    ensures r.Ok? <==> Counts(faceNum).Ok?
    ensures r.Ok? ==> AreMasks(r.value, masks, Counts(faceNum).value, targets, faceIdx)
  {
    hide Offset, Counts;
    var located := FaceOffsets(faceNum);
    if located.Raised? {
      return Raised;
    }
    var offsets := located.value;
    ghost var counts := Counts(faceNum).value;
    var rows := seq(|targets|, _ => seq(|faceIdx|, _ => 0));
    for s := 0 to |targets|
      invariant |rows| == |targets|
      invariant forall t :: 0 <= t < s ==> rows[t] == Row(faceIdx, PartFaces(masks, counts, targets[t]))
    {
      var faces := CollectPartFaces(masks, faceNum, offsets, targets[s], counts);
      rows := rows[s := Row(faceIdx, faces)];
    }
    r := Ok(rows);
  }

  // ---------- What a mask means ----------

  lemma {:induction false} EntriesMembers(counts: seq<nat>, entries: seq<(nat, seq<int>)>, g: int)
    ensures g in EntriesFaces(counts, entries) <==>
      exists e :: e in entries && g in EntryFaces(counts, e)
  {
    if entries != [] {
      EntriesMembers(counts, entries[..|entries| - 1], g);
      SplitLast(entries);
    }
  }

  lemma {:induction false} PartMembers(masks: Masks, counts: seq<nat>, group: seq<int>, g: int)
    ensures g in PartFaces(masks, counts, group) <==>
      exists mid :: mid in group && g in MaskFaces(masks, counts, mid)
  {
    hide MaskFaces;
    if group != [] {
      PartMembers(masks, counts, group[..|group| - 1], g);
      SplitLast(group);
    }
  }

  lemma ShiftMembers(faces: seq<int>, offset: int, g: int)
    ensures g in Shift(faces, offset) <==> g - offset in faces
  {
    if g - offset in faces {
      var i := Find(faces, g - offset);
      assert Shift(faces, offset)[i] == g;
    }
  }

  lemma WholeMeshMembers(counts: seq<nat>, m: nat, g: int)
    requires m < |counts|
    ensures g in Shift(Range(counts[m]), Offset(counts, m)) <==> IsFace(counts, m, g - Offset(counts, m))
  {
    hide Offset, Shift;
    var face := g - Offset(counts, m);
    ShiftMembers(Range(counts[m]), Offset(counts, m), g);
    if IsFace(counts, m, face) {
      assert Range(counts[m])[face] == face;
    }
  }

  lemma FaceOfEntry(counts: seq<nat>, e: (nat, seq<int>), g: int)
    requires g in EntryFaces(counts, e)
    ensures e.0 < |counts| && g - Offset(counts, e.0) in e.1
  {
    hide Shift;
    if e.0 < |counts| {
      ShiftMembers(e.1, Offset(counts, e.0), g);
    }
  }

  lemma FaceOfMask(masks: Masks, counts: seq<nat>, mid: int, g: int) returns (m: nat, face: int)
    requires g in MaskFaces(masks, counts, mid)
    ensures ListedUnder(masks, counts, mid, m, face) && g == Offset(counts, m) + face
  {
    hide Offset, Shift, EntryFaces, EntriesFaces;
    if masks == map[] && 0 <= mid < |counts| {
      m := mid;
      WholeMeshMembers(counts, m, g);
    } else {
      EntriesMembers(counts, masks[mid], g);
      var e :| e in masks[mid] && g in EntryFaces(counts, e);
      m := e.0;
      FaceOfEntry(counts, e, g);
    }
    face := g - Offset(counts, m);
  }

  lemma MaskOfFace(masks: Masks, counts: seq<nat>, mid: int, m: nat, face: int)
    requires ListedUnder(masks, counts, mid, m, face)
    ensures Offset(counts, m) + face in MaskFaces(masks, counts, mid)
  {
    hide Offset, Shift, EntriesFaces;
    var g := Offset(counts, m) + face;
    if masks == map[] {
      WholeMeshMembers(counts, m, g);
    } else {
      var e :| e in masks[mid] && e.0 == m && face in e.1;
      ShiftMembers(e.1, Offset(counts, m), g);
      EntriesMembers(counts, masks[mid], g);
    }
  }

  /** The numbers of a part are those of the faces listed for it. */
  lemma PartIsListed(masks: Masks, counts: seq<nat>, group: seq<int>, g: int)
    ensures g in PartFaces(masks, counts, group) <==>
      exists m: nat, face: int :: Listed(masks, counts, group, m, face) && Number(counts, m, face) == g
  {
    hide ListedUnder, MaskFaces, PartFaces;
    PartMembers(masks, counts, group, g);
    if g in PartFaces(masks, counts, group) {
      var mid :| mid in group && g in MaskFaces(masks, counts, mid);
      var m, face := FaceOfMask(masks, counts, mid, g);
      assert Listed(masks, counts, group, m, face);
      ListedMesh(masks, counts, mid, m, face);
    }
    forall m: nat, face: int | Listed(masks, counts, group, m, face) && Number(counts, m, face) == g
      ensures g in PartFaces(masks, counts, group)
    {
      var mid :| mid in group && ListedUnder(masks, counts, mid, m, face);
      ListedMesh(masks, counts, mid, m, face);
      MaskOfFace(masks, counts, mid, m, face);
    }
  }

  lemma ListedMesh(masks: Masks, counts: seq<nat>, mid: int, m: nat, face: int)
    requires ListedUnder(masks, counts, mid, m, face)
    ensures m < |counts|
  {
  }

  /** A point on a real face is in a part's mask exactly when its mesh and face are listed for the part. */
  lemma MaskMeansListed(masks: Masks, counts: seq<nat>, group: seq<int>, faceIdx: seq<int>, p: nat, m: nat, face: int)
    requires p < |faceIdx| && IsFace(counts, m, face) && faceIdx[p] == Number(counts, m, face)
    requires NothingLeaks(masks, counts, group)
    ensures Row(faceIdx, PartFaces(masks, counts, group))[p] == 1 <==> Listed(masks, counts, group, m, face)
  {
    hide Listed, PartFaces, Number;
    PartIsListed(masks, counts, group, faceIdx[p]);
  }

  /** Every point on a real face is masked for the part exactly when its face is listed. */
  ghost predicate MasksAreRight(masks: Masks, counts: seq<nat>, group: seq<int>) {
    forall m: nat, face: int :: IsFace(counts, m, face) ==>
      (Row([Number(counts, m, face)], PartFaces(masks, counts, group))[0] == 1 <==> Listed(masks, counts, group, m, face))
  }

  /** That is so for all faces if and only if nothing leaks. */
  lemma MasksAreRightIff(masks: Masks, counts: seq<nat>, group: seq<int>)
    ensures MasksAreRight(masks, counts, group) <==> NothingLeaks(masks, counts, group)
  {
    hide Listed, PartFaces, Number;
    if NothingLeaks(masks, counts, group) {
      forall m: nat, face: int | IsFace(counts, m, face)
        ensures Row([Number(counts, m, face)], PartFaces(masks, counts, group))[0] == 1 <==>
          Listed(masks, counts, group, m, face)
      {
        MaskMeansListed(masks, counts, group, [Number(counts, m, face)], 0, m, face);
      }
    }
    if MasksAreRight(masks, counts, group) {
      forall m: nat, face: int, m': nat, face': int |
        Listed(masks, counts, group, m, face) && IsFace(counts, m', face') && Number(counts, m, face) == Number(counts, m', face')
        ensures Listed(masks, counts, group, m', face')
      {
        PartIsListed(masks, counts, group, Number(counts, m, face));
      }
    }
  }

  /** Nothing leaks if every listed face exists. */
  lemma ExistingFacesDoNotLeak(masks: Masks, counts: seq<nat>, group: seq<int>)
    requires forall m: nat, face: int :: Listed(masks, counts, group, m, face) ==> IsFace(counts, m, face)
    ensures NothingLeaks(masks, counts, group)
  {
    hide Listed, Offset;
    forall m: nat, face: int, m': nat, face': int |
      Listed(masks, counts, group, m, face) && IsFace(counts, m', face') && Number(counts, m, face) == Number(counts, m', face')
      ensures Listed(masks, counts, group, m', face')
    {
      FacesAreDistinct(counts, m, face, m', face');
    }
  }

  /** But a listed face that its mesh does not have can mark a face of the next mesh. */
  lemma FaceOutOfRange()
    ensures var masks: Masks, counts := map[0 := [(0, [2])]], [2, 3];
      !NothingLeaks(masks, counts, [0]) &&
      IsFace(counts, 1, 0) && Row([Number(counts, 1, 0)], PartFaces(masks, counts, [0]))[0] == 1 && !Listed(masks, counts, [0], 1, 0)
  {
    var masks: Masks, counts := map[0 := [(0, [2])]], [2, 3];
    assert Offset(counts, 0) == 0 && Offset(counts, 1) == 2;
    assert ListedUnder(masks, counts, 0, 0, 2) by { assert (0, [2]) in masks[0]; }
    assert Listed(masks, counts, [0], 0, 2);
    assert !Listed(masks, counts, [0], 1, 0) by {
      assert forall e :: e in masks[0] ==> e.0 == 0;
    }
    assert Number(counts, 0, 2) == 2 == Number(counts, 1, 0);
    PartIsListed(masks, counts, [0], 2);
  }

  // ---------- Class labels ----------

  /** `any` and `argmax` over the parts, for one point; no part at all is an error. */
  method LabelPoints(rows: seq<seq<nat>>, n: nat) returns (r: Result<seq<nat>>)
    requires forall s :: 0 <= s < |rows| ==> |rows[s]| == n
    requires forall s, p :: 0 <= s < |rows| && 0 <= p < n ==> rows[s][p] <= 1
    ensures r.Ok? <==> rows != []
    ensures r.Ok? ==> |r.value| == n && forall p :: 0 <= p < n ==> IsLabel(rows, p, r.value[p])
  {
    if |rows| == 0 {
      return Raised;
    }
    var labels: seq<nat> := seq(n, _ => 0);
    var hasPart := seq(n, _ => false);
    for p := 0 to n
      invariant |labels| == |hasPart| == n
      invariant forall q :: 0 <= q < p ==> labels[q] < |rows| && IsArgmax(rows, q, labels[q])
      invariant forall q :: 0 <= q < p ==> (hasPart[q] <==> exists s :: 0 <= s < |rows| && rows[s][q] != 0)
    {
      var best: nat, any := 0, rows[0][p] != 0;
      for s := 1 to |rows|
        invariant best < s
        invariant forall t :: 0 <= t < s ==> rows[t][p] <= rows[best][p]
        invariant forall t :: 0 <= t < best ==> rows[t][p] < rows[best][p]
        invariant any <==> exists t :: 0 <= t < s && rows[t][p] != 0
      {
        if rows[s][p] > rows[best][p] {
          best := s;
        }
        any := any || rows[s][p] != 0;
      }
      labels, hasPart := labels[p := best], hasPart[p := any];
    }
    for p := 0 to n
      invariant |labels| == n
      invariant forall q :: 0 <= q < p ==> IsLabel(rows, q, labels[q])
      invariant forall q :: p <= q < n ==> labels[q] < |rows| && IsArgmax(rows, q, labels[q])
    {
      if !hasPart[p] {
        labels := labels[p := |rows|];
      }
    }
    r := Ok(labels);
  }

  /** The first of the greatest entries. */
  ghost predicate IsArgmax(rows: seq<seq<nat>>, p: nat, best: nat)
    requires best < |rows| && forall s :: 0 <= s < |rows| ==> p < |rows[s]|
  {
    (forall s :: 0 <= s < |rows| ==> rows[s][p] <= rows[best][p]) &&
    forall s :: 0 <= s < best ==> rows[s][p] < rows[best][p]
  }

  /** The first part that the point is in; the number of parts if there is none. */
  ghost predicate IsLabel(rows: seq<seq<nat>>, p: nat, cls: nat)
    requires forall s :: 0 <= s < |rows| ==> p < |rows[s]|
  {
    cls <= |rows| &&
    (cls < |rows| ==> rows[cls][p] == 1) &&
    forall s :: 0 <= s < cls ==> rows[s][p] == 0
  }

  ghost predicate AreMasks(rows: seq<seq<nat>>, masks: Masks, counts: seq<nat>, targets: seq<seq<int>>, faceIdx: seq<int>) {
    |rows| == |targets| &&
    forall s :: 0 <= s < |targets| ==> rows[s] == Row(faceIdx, PartFaces(masks, counts, targets[s]))
  }

  /** A point's label is the first part that lists its face, and the number of parts if none does. */
  lemma LabelIsFirstPart(
      rows: seq<seq<nat>>, masks: Masks, counts: seq<nat>, targets: seq<seq<int>>, faceIdx: seq<int>,
      p: nat, m: nat, face: int, cls: nat, s: nat)
    requires AreMasks(rows, masks, counts, targets, faceIdx)
    requires p < |faceIdx| && IsFace(counts, m, face) && faceIdx[p] == Number(counts, m, face)
    requires IsLabel(rows, p, cls) && s < |targets| && NothingLeaks(masks, counts, targets[s])
    ensures cls <= |targets|
    ensures s < cls ==> !Listed(masks, counts, targets[s], m, face)
    ensures s == cls ==> Listed(masks, counts, targets[s], m, face)
  {
    hide Listed, PartFaces, Number;
    MaskMeansListed(masks, counts, targets[s], faceIdx, p, m, face);
  }
}
