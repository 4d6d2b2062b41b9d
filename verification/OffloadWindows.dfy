/** The map from offloaded groups to the layer whose commit waits for them. */
module OffloadWindows {
  import opened Arithmetic

  function Min(a: int, b: int): int {
    if a < b then a else b
  }

  /** The layer at which offloaded group `i` changes hands: `groups` windows, the longer ones first. */
  function Window(groups: int, layers: int, i: int): int
    requires 0 <= i < groups
  {
    (layers / groups) * (i + 1) - 1 + Min(i + 1, layers % groups)
  }

  function WindowMap(groups: int, layers: int): map<int, int> {
    map i | 0 <= i < groups :: Window(groups, layers, i)
  }

  method BuildWindowMap(groups: int, layers: int) returns (windows: map<int, int>)
    ensures windows == WindowMap(groups, layers)
  {
    windows := map[];
    var constant := 0;
    for i := 0 to if groups < 0 then 0 else groups
      invariant forall j :: j in windows <==> 0 <= j < i
      invariant forall j :: 0 <= j < i ==> windows[j] == Window(groups, layers, j)
      invariant constant == if groups > 0 then Min(i, layers % groups) else 0
    {
      windows := windows[i := (layers / groups) * (i + 1) - 1];
      if i < layers % groups {
        windows := windows[i := windows[i] + (i + 1)];
        constant := i + 1;
      } else {
        windows := windows[i := windows[i] + constant];
      }
    }
  }

  /** Consecutive windows differ by the quotient, or by one more as long as the remainder lasts. */
  lemma WindowStep(groups: int, layers: int, i: int)
    requires 0 <= i && i + 1 < groups
    ensures Window(groups, layers, i + 1) - Window(groups, layers, i) ==
      layers / groups + if i + 1 < layers % groups then 1 else 0
  {
    var q := layers / groups;
    assert q * (i + 2) == q * (i + 1) + q;
  }

  /** The last window closes at the last layer, and a group is complete before its window closes. */
  lemma WindowShape(groups: int, layers: int, i: int)
    requires layers > groups >= 1 && 0 <= i < groups
    ensures layers / groups >= 1
    ensures Window(groups, layers, groups - 1) == layers - 1
    ensures Window(groups, layers, i) >= i + 1
  {
    var q, r := layers / groups, layers % groups;
    DivideLayers(groups, layers, q, r);
    MulMonotone(if q >= 2 then 2 else 1, q, i + 1);
  }

  lemma DivideLayers(groups: int, layers: int, q: int, r: int)
    requires layers > groups >= 1 && q == layers / groups && r == layers % groups
    ensures layers == q * groups + r && q >= 1 && (q >= 2 || r >= 1)
  {
    if q <= 0 {
      MulMonotone(q, 0, groups);
    }
  }

  lemma {:induction false} WindowsIncrease(groups: int, layers: int, i: int, j: int)
    requires layers > groups >= 1 && 0 <= i <= j < groups
    ensures Window(groups, layers, j) - Window(groups, layers, i) >= j - i
    decreases j
  {
    hide Window;
    if i < j {
      WindowsIncrease(groups, layers, i, j - 1);
      WindowStep(groups, layers, j - 1);
      WindowShape(groups, layers, 0);
    }
  }

  // ---------- All that whole runs need of the windows ----------

  /** One window for each group, in strictly increasing order, from the second layer or later to the last. */
  ghost predicate SoundWindows(windows: map<int, int>, groups: int, layers: int) {
    groups >= 1 && (forall i :: i in windows <==> 0 <= i < groups) &&
    (forall i, j :: 0 <= i <= j < groups ==> windows[j] - windows[i] >= j - i) &&
    windows[0] >= 1 && windows[groups - 1] == layers - 1
  }

  lemma WindowMapIsSound(groups: int, layers: int)
    requires layers > groups >= 1
    ensures SoundWindows(WindowMap(groups, layers), groups, layers)
  {
    hide Window;
    WindowShape(groups, layers, 0);
    forall i, j | 0 <= i <= j < groups
      ensures Window(groups, layers, j) - Window(groups, layers, i) >= j - i
    {
      WindowsIncrease(groups, layers, i, j);
    }
  }

  /** A group's window closes after the group itself, and within `layers - groups` further layers. */
  lemma WindowSpan(windows: map<int, int>, groups: int, layers: int, i: int)
    requires SoundWindows(windows, groups, layers) && 0 <= i < groups
    ensures i < windows[i] <= i + layers - groups && windows[i] < layers
  {
    assert windows[i] - windows[0] >= i;
    assert windows[groups - 1] - windows[i] >= groups - 1 - i;
  }

  /** The number of groups whose window closed before layer `c`. */
  function Frontier(windows: map<int, int>, groups: int, c: int): (f: int)
    requires groups >= 1
    ensures 0 <= f <= groups
    ensures f in windows && f < groups ==> c <= windows[f]
    ensures f > 0 ==> f - 1 in windows && windows[f - 1] < c
  {
    FirstOpen(windows, groups, c, 0)
  }

  function FirstOpen(windows: map<int, int>, groups: int, c: int, i: int): (f: int)
    requires 0 <= i <= groups
    ensures i <= f <= groups
    ensures f in windows && f < groups ==> c <= windows[f]
    ensures f > i ==> f - 1 in windows && windows[f - 1] < c
    decreases groups - i
  {
    if i < groups && i in windows && windows[i] < c then FirstOpen(windows, groups, c, i + 1) else i
  }

  /** Moving on by one layer closes one window, and only at the layer that window names. */
  lemma FrontierStep(windows: map<int, int>, groups: int, layers: int, c: int)
    requires SoundWindows(windows, groups, layers)
    ensures var f := Frontier(windows, groups, c);
      Frontier(windows, groups, c + 1) == if f < groups && windows[f] == c then f + 1 else f
  {
    hide FirstOpen;
    var f := Frontier(windows, groups, c);
  }

  /** Before the first layer no window has closed, and after the last layer all have. */
  lemma FrontierEnds(windows: map<int, int>, groups: int, layers: int)
    requires SoundWindows(windows, groups, layers)
    ensures Frontier(windows, groups, 0) == 0
    ensures Frontier(windows, groups, layers) == groups
  {
    hide FirstOpen;
    var f, g := Frontier(windows, groups, 0), Frontier(windows, groups, layers);
  }

  /** Going back by one layer opens the window that closed last, exactly if it closed at that layer. */
  lemma FrontierBack(windows: map<int, int>, groups: int, layers: int, c: int)
    requires SoundWindows(windows, groups, layers) && 0 < c <= layers
    ensures var f := Frontier(windows, groups, c);
      var last := if f > 1 then f - 1 else 0;
      last in windows && Frontier(windows, groups, c - 1) == if windows[last] == c - 1 then f - 1 else f
    ensures c == layers ==> Frontier(windows, groups, c) == groups
    ensures Frontier(windows, groups, c) == 0 ==> windows[0] >= c
  {
    hide FirstOpen;
    FrontierStep(windows, groups, layers, c - 1);
    FrontierEnds(windows, groups, layers);
  }

  /** Groups awaiting their window and the layers up to `c` are never more than `layers - groups + 1` layers apart. */
  lemma FrontierSpan(windows: map<int, int>, groups: int, layers: int, c: int)
    requires SoundWindows(windows, groups, layers) && 0 <= c <= layers
    ensures var f := Frontier(windows, groups, c);
      c - f <= layers - groups && f <= c && (c > 0 ==> f < c)
  {
    hide FirstOpen;
    var f := Frontier(windows, groups, c);
    if f < groups { WindowSpan(windows, groups, layers, f); }
    if f > 0 { WindowSpan(windows, groups, layers, f - 1); }
  }
}
