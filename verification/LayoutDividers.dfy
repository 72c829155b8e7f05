/** The seams between siblings, and the paths they are addressed by. */
module LayoutDividers {
  import opened Prelude
  import opened LayoutTrees
  import opened LayoutRects
  import opened LayoutRatios

  datatype Divider = Divider(path: SplitPath, boundary: nat, axis: Direction, rect: Rect)

  function Less(n: nat): nat {
    if n == 0 then 0 else n - 1
  }

  /** The last column or row of the rectangle before a seam. */
  function SeamRect(d: Direction, left: Rect): Rect {
    if d == Horizontal then Rect(left.x + Less(left.width), left.y, 1, left.height)
    else Rect(left.x, left.y + Less(left.height), left.width, 1)
  }

  // ---- Seams under their true paths ------------------------------------------------------------

  /** The first `n` seams of one split. */
  function OwnSeams(d: Direction, rects: seq<Rect>, path: SplitPath, n: nat): (r: seq<Divider>)
    requires n < |rects| || n == 0
    ensures |r| == n
  {
    if n == 0 then [] else OwnSeams(d, rects, path, n - 1) + [Divider(path, n - 1, d, SeamRect(d, rects[n - 1]))]
  }

  function Seams(node: LayoutNode, area: Rect, path: SplitPath, split: Splitter): seq<Divider>
    decreases node, 0
  {
    if Empty(area) || !node.Split? then [] else
      var rects := ChildRects(node, area, split);
      OwnSeams(node.direction, rects, path, Less(|rects|))
      + SeamsUpTo(node.children, rects, Pairs(node.children, rects), path, split)
  }

  function SeamsUpTo(children: seq<LayoutNode>, rects: seq<Rect>, n: nat, path: SplitPath, split: Splitter)
    : seq<Divider>
    requires n <= |children| && n <= |rects|
    decreases children, n
  {
    if n == 0 then [] else
      SeamsUpTo(children, rects, n - 1, path, split) + Seams(children[n - 1], rects[n - 1], path + [n - 1], split)
  }

  // ---- Seams as they are recorded ----------------------------------------------------------------

  /** Every index cut to a byte, as `idx as u8` does. */
  function Bytes(path: SplitPath): (r: SplitPath)
    ensures |r| == |path|
  {
    seq(|path|, i requires 0 <= i < |path| => path[i] % 256)
  }

  function Recorded(seams: seq<Divider>): (r: seq<Divider>)
    ensures |r| == |seams|
  {
    seq(|seams|, i requires 0 <= i < |seams| => seams[i].(path := Bytes(seams[i].path)))
  }

  lemma RecordedAppend(a: seq<Divider>, b: seq<Divider>)
    ensures Recorded(a + b) == Recorded(a) + Recorded(b)
  {
  }

  lemma BytesPush(path: SplitPath, i: nat)
    ensures Bytes(path + [i]) == Bytes(path) + [i % 256]
  {
  }

  /** First loop of `collect_dividers`: the seams of one split. */
  method CollectOwn(
      d: Direction, rects: seq<Rect>, path: SplitPath, ghost truePath: SplitPath, start: seq<Divider>)
    returns (out: seq<Divider>)
    requires path == Bytes(truePath)
    ensures out == start + Recorded(OwnSeams(d, rects, truePath, Less(|rects|)))
  {
    out := start;
    AppendEmpty(out);
    for i := 0 to Less(|rects|)
      invariant out == start + Recorded(OwnSeams(d, rects, truePath, i))
    {
      var seam := Divider(path, i, d, SeamRect(d, rects[i]));
      ghost var before := OwnSeams(d, rects, truePath, i);
      RecordedAppend(before, [seam.(path := truePath)]);
      assert Recorded([seam.(path := truePath)]) == [seam];
      AppendAssoc(start, Recorded(before), [seam]);
      out := out + [seam];
    }
  }

  /** `collect_dividers`, appending to `start`. */
  method CollectDividers(
      node: LayoutNode, area: Rect, path: SplitPath, ghost truePath: SplitPath, split: Splitter, start: seq<Divider>)
    returns (out: seq<Divider>)
    requires Normal(node) && KeepsCount(split) && path == Bytes(truePath)
    ensures out == start + Recorded(Seams(node, area, truePath, split))
    decreases node, 1
  {
    if area.width == 0 || area.height == 0 || !node.Split? {
      AppendEmpty(start);
      return start;
    }
    TotalNeedsRatios(node.ratios);
    var rects := ChildRects(node, area, split);
    out := CollectOwn(node.direction, rects, path, truePath, start);
    out := CollectBelow(node, rects, path, truePath, split, out);
    ghost var own := OwnSeams(node.direction, rects, truePath, Less(|rects|));
    ghost var below := SeamsUpTo(node.children, rects, |node.children|, truePath, split);
    RecordedAppend(own, below);
    AppendAssoc(start, Recorded(own), Recorded(below));
  }

  /** Second loop of `collect_dividers`: the seams below the children. */
  method CollectBelow(
      node: LayoutNode, rects: seq<Rect>, path: SplitPath, ghost truePath: SplitPath, split: Splitter,
      start: seq<Divider>)
    returns (out: seq<Divider>)
    requires node.Split? && Normal(node) && |rects| == |node.children| && KeepsCount(split) && path == Bytes(truePath)
    ensures out == start + Recorded(SeamsUpTo(node.children, rects, |node.children|, truePath, split))
    decreases node, 0
  {
    out := start;
    AppendEmpty(out);
    for idx := 0 to |node.children|
      invariant out == start + Recorded(SeamsUpTo(node.children, rects, idx, truePath, split))
    {
      BytesPush(truePath, idx);
      RecordedStep(node.children, rects, idx, truePath, split, start, out);
      out := CollectDividers(node.children[idx], rects[idx], path + [idx % 256], truePath + [idx], split, out);
    }
  }

  lemma RecordedStep(
      children: seq<LayoutNode>, rects: seq<Rect>, n: nat, path: SplitPath, split: Splitter,
      start: seq<Divider>, sofar: seq<Divider>)
    requires n < |children| && n < |rects|
    requires sofar == start + Recorded(SeamsUpTo(children, rects, n, path, split))
    ensures sofar + Recorded(Seams(children[n], rects[n], path + [n], split))
         == start + Recorded(SeamsUpTo(children, rects, n + 1, path, split))
  {
    var before, next := SeamsUpTo(children, rects, n, path, split), Seams(children[n], rects[n], path + [n], split);
    RecordedAppend(before, next);
    AppendAssoc(start, Recorded(before), Recorded(next));
  }

  /** `dividers`. */
  method Dividers(root: LayoutNode, area: Rect, split: Splitter) returns (out: seq<Divider>)
    requires Normal(root) && KeepsCount(split)
    ensures out == Recorded(Seams(root, area, [], split))
  {
    out := CollectDividers(root, area, [], [], split, []);
    AppendEmpty(Recorded(Seams(root, area, [], split)));
  }

  // ---- Every seam belongs to a split -------------------------------------------------------------

  /** The divider's path leads to a split that has this seam. */
  ghost predicate Addresses(root: LayoutNode, d: Divider) {
    match NodeAt(root, d.path)
    case Some(node) => node.Split? && d.boundary + 1 < |node.children|
    case None => false
  }

  /** The path goes on from `path` into one of the first `n` children. */
  predicate Below(path: SplitPath, n: nat, d: Divider) {
    |d.path| > |path| && d.path[..|path|] == path && d.path[|path|] < n
  }

  lemma {:induction false} OwnSeamAt(d: Direction, rects: seq<Rect>, path: SplitPath, n: nat, i: nat)
    requires n < |rects| && i < n
    ensures OwnSeams(d, rects, path, n)[i] == Divider(path, i, d, SeamRect(d, rects[i]))
  {
    if i < n - 1 {
      OwnSeamAt(d, rects, path, n - 1, i);
    }
  }

  lemma BelowChild(path: SplitPath, i: nat, d: Divider)
    requires path + [i] <= d.path
    ensures Below(path, i + 1, d) && !Below(path, i, d)
  {
    assert d.path[|path|] == (path + [i])[|path|];
    assert d.path[..|path|] == path;
  }

  lemma {:induction false} SeamAddresses(
      root: LayoutNode, node: LayoutNode, area: Rect, path: SplitPath, split: Splitter, k: nat)
    requires Normal(node) && KeepsCount(split) && NodeAt(root, path) == Some(node)
    requires k < |Seams(node, area, path, split)|
    ensures Addresses(root, Seams(node, area, path, split)[k])
    ensures path <= Seams(node, area, path, split)[k].path
    decreases node, 0
  {
    TotalNeedsRatios(node.ratios);
    var rects := ChildRects(node, area, split);
    if k < |rects| - 1 {
      OwnSeamAt(node.direction, rects, path, |rects| - 1, k);
    } else {
      ChildSeamAddresses(root, node, rects, |rects|, path, split, k - (|rects| - 1));
    }
  }

  lemma {:induction false} ChildSeamAddresses(
      root: LayoutNode, node: LayoutNode, rects: seq<Rect>, n: nat, path: SplitPath, split: Splitter, k: nat)
    requires Normal(node) && node.Split? && KeepsCount(split) && NodeAt(root, path) == Some(node)
    requires n <= |node.children| == |rects|
    requires k < |SeamsUpTo(node.children, rects, n, path, split)|
    ensures Addresses(root, SeamsUpTo(node.children, rects, n, path, split)[k])
    ensures Below(path, n, SeamsUpTo(node.children, rects, n, path, split)[k])
    decreases node.children, n
  {
    var before := SeamsUpTo(node.children, rects, n - 1, path, split);
    if k < |before| {
      ChildSeamAddresses(root, node, rects, n - 1, path, split, k);
    } else {
      NodeAtAppend(root, path, n - 1);
      SeamAddresses(root, node.children[n - 1], rects[n - 1], path + [n - 1], split, k - |before|);
      BelowChild(path, n - 1, Seams(node.children[n - 1], rects[n - 1], path + [n - 1], split)[k - |before|]);
    }
  }

  // ---- No seam is listed twice --------------------------------------------------------------------

  predicate SameKey(a: Divider, b: Divider) {
    a.path == b.path && a.boundary == b.boundary
  }

  ghost predicate DistinctKeys(s: seq<Divider>) {
    forall i, j :: 0 <= i < j < |s| ==> !SameKey(s[i], s[j])
  }

  lemma {:induction false} SeamsDiffer(
      root: LayoutNode, node: LayoutNode, area: Rect, path: SplitPath, split: Splitter, i: nat, j: nat)
    requires Normal(node) && KeepsCount(split) && NodeAt(root, path) == Some(node)
    requires i < j < |Seams(node, area, path, split)|
    ensures !SameKey(Seams(node, area, path, split)[i], Seams(node, area, path, split)[j])
    decreases node, 0
  {
    TotalNeedsRatios(node.ratios);
    var rects := ChildRects(node, area, split);
    var own := |rects| - 1;
    if i < own {
      OwnSeamAt(node.direction, rects, path, own, i);
      if j < own {
        OwnSeamAt(node.direction, rects, path, own, j);
      } else {
        ChildSeamAddresses(root, node, rects, |rects|, path, split, j - own);
      }
    } else {
      ChildSeamsDiffer(root, node, rects, |rects|, path, split, i - own, j - own);
    }
  }

  lemma {:induction false} ChildSeamsDiffer(
      root: LayoutNode, node: LayoutNode, rects: seq<Rect>, n: nat, path: SplitPath, split: Splitter, i: nat, j: nat)
    requires Normal(node) && node.Split? && KeepsCount(split) && NodeAt(root, path) == Some(node)
    requires n <= |node.children| == |rects|
    requires i < j < |SeamsUpTo(node.children, rects, n, path, split)|
    ensures !SameKey(SeamsUpTo(node.children, rects, n, path, split)[i],
                     SeamsUpTo(node.children, rects, n, path, split)[j])
    decreases node.children, n
  {
    var before := SeamsUpTo(node.children, rects, n - 1, path, split);
    var child, rect := node.children[n - 1], rects[n - 1];
    if j < |before| {
      ChildSeamsDiffer(root, node, rects, n - 1, path, split, i, j);
    } else {
      NodeAtAppend(root, path, n - 1);
      if i < |before| {
        ChildSeamAddresses(root, node, rects, n - 1, path, split, i);
        SeamAddresses(root, child, rect, path + [n - 1], split, j - |before|);
        BelowChild(path, n - 1, Seams(child, rect, path + [n - 1], split)[j - |before|]);
      } else {
        SeamsDiffer(root, child, rect, path + [n - 1], split, i - |before|, j - |before|);
      }
    }
  }

  // ---- Dragging a divider ---------------------------------------------------------------------------

  /** Every index of the path fits a byte. */
  predicate FitsBytes(path: SplitPath) {
    forall i :: 0 <= i < |path| ==> path[i] < 256
  }

  lemma BytesOfFitting(path: SplitPath)
    ensures Bytes(path) == path <==> FitsBytes(path)
  {
    if Bytes(path) == path {
      forall i | 0 <= i < |path| ensures path[i] < 256 {
        assert Bytes(path)[i] == path[i] % 256;
      }
    }
  }

  /** No split has more than 256 children. */
  predicate Narrow(node: LayoutNode) {
    node.Split? ==> |node.children| <= 256 && forall i :: 0 <= i < |node.children| ==> Narrow(node.children[i])
  }

  lemma {:induction false} NarrowPaths(node: LayoutNode, path: SplitPath)
    requires Narrow(node) && NodeAt(node, path).Some?
    ensures FitsBytes(path)
    decreases |path|
  {
    if path != [] {
      NarrowPaths(node.children[path[0]], path[1..]);
      forall i | 0 <= i < |path| ensures path[i] < 256 {
        if i > 0 { assert path[i] == path[1..][i - 1]; }
      }
    }
  }

  /**
   * Main result. In a tree without a split of more than 256 children, every divider names
   * a real seam of a real split, no two name the same one, and dragging it by any
   * amount can only fail because a neighbour would become too small.
   */
  lemma DividersAreDraggable(root: LayoutNode, area: Rect, split: Splitter)
    requires Normal(root) && Narrow(root) && KeepsCount(split)
    ensures var dividers := Recorded(Seams(root, area, [], split));
            && DistinctKeys(dividers)
            && forall d :: d in dividers ==> IsSeam(root, d)
  {
    var seams := Seams(root, area, [], split);
    forall i, j | 0 <= i < j < |seams| ensures !SameKey(seams[i], seams[j]) {
      SeamsDiffer(root, root, area, [], split, i, j);
    }
    forall i | 0 <= i < |seams| ensures Recorded(seams)[i] == seams[i] && IsSeam(root, seams[i]) {
      var d := seams[i];
      SeamAddresses(root, root, area, [], split, i);
      NarrowPaths(root, d.path);
      BytesOfFitting(d.path);
      RatioCount(root, d.path);
    }
    assert Recorded(seams) == seams;
  }

  /** The divider names a seam, so that only a floor can refuse to move it. */
  ghost predicate IsSeam(root: LayoutNode, d: Divider) {
    && RatiosAt(root, d.path).Some? && d.boundary + 1 < |RatiosAt(root, d.path).value|
    && forall delta, floors ::
         var r := Adjusted(root, d.path, d.boundary, delta, floors);
         r.Ok? || r.error == BelowMinSize
  }

  // ---- When dividers are recorded truly -----------------------------------------------------------

  /** A split with two or more children is visible in `node`. */
  predicate ShowsSeam(node: LayoutNode, area: Rect, split: Splitter) {
    && !Empty(area) && node.Split?
    && var rects := ChildRects(node, area, split);
       || |rects| >= 2
       || exists i :: 0 <= i < |node.children| && i < |rects| && ShowsSeam(node.children[i], rects[i], split)
  }

  /** Such a split is visible at or below a child whose index exceeds 255. */
  predicate ShowsFarSeam(node: LayoutNode, area: Rect, split: Splitter) {
    && !Empty(area) && node.Split?
    && var rects := ChildRects(node, area, split);
       exists i :: 0 <= i < |node.children| && i < |rects|
                   && if i < 256 then ShowsFarSeam(node.children[i], rects[i], split)
                      else ShowsSeam(node.children[i], rects[i], split)
  }

  lemma {:induction false} ShowsSeamIff(node: LayoutNode, area: Rect, path: SplitPath, split: Splitter)
    requires Normal(node) && KeepsCount(split)
    ensures ShowsSeam(node, area, split) <==> Seams(node, area, path, split) != []
    decreases node, 0
  {
    if !Empty(area) && node.Split? {
      TotalNeedsRatios(node.ratios);
      ChildShowsSeamIff(node, ChildRects(node, area, split), |node.children|, path, split);
    }
  }

  lemma {:induction false} ChildShowsSeamIff(
      node: LayoutNode, rects: seq<Rect>, n: nat, path: SplitPath, split: Splitter)
    requires node.Split? && Normal(node) && KeepsCount(split) && n <= |node.children| == |rects|
    ensures (exists i :: 0 <= i < n && ShowsSeam(node.children[i], rects[i], split))
            <==> SeamsUpTo(node.children, rects, n, path, split) != []
    decreases node.children, n
  {
    if n > 0 {
      ChildShowsSeamIff(node, rects, n - 1, path, split);
      ShowsSeamIff(node.children[n - 1], rects[n - 1], path + [n - 1], split);
    }
  }

  /** Every path fits bytes. */
  predicate AllFit(seams: seq<Divider>) {
    seams == [] || (AllFit(seams[..|seams| - 1]) && FitsBytes(seams[|seams| - 1].path))
  }

  lemma {:induction false} AllFitIff(seams: seq<Divider>)
    ensures AllFit(seams) <==> forall k :: 0 <= k < |seams| ==> FitsBytes(seams[k].path)
  {
    if seams != [] {
      var init := seams[..|seams| - 1];
      AllFitIff(init);
      if forall k :: 0 <= k < |seams| ==> FitsBytes(seams[k].path) {
        forall k | 0 <= k < |init| ensures FitsBytes(init[k].path) {
          assert init[k] == seams[k];
        }
      } else if AllFit(seams) {
        forall k | 0 <= k < |seams| ensures FitsBytes(seams[k].path) {
          if k < |init| { assert init[k] == seams[k]; }
        }
      }
    }
  }

  lemma {:induction false} AllFitAppend(a: seq<Divider>, b: seq<Divider>)
    ensures AllFit(a + b) <==> AllFit(a) && AllFit(b)
  {
    if b == [] {
      assert a + b == a;
    } else {
      assert (a + b)[..|a + b| - 1] == a + b[..|b| - 1];
      AllFitAppend(a, b[..|b| - 1]);
    }
  }

  lemma {:induction false} OwnSeamsFit(d: Direction, rects: seq<Rect>, path: SplitPath, n: nat)
    requires n < |rects| && FitsBytes(path)
    ensures AllFit(OwnSeams(d, rects, path, n))
  {
    if n > 0 {
      OwnSeamsFit(d, rects, path, n - 1);
      assert OwnSeams(d, rects, path, n)[..n - 1] == OwnSeams(d, rects, path, n - 1);
    }
  }

  /** Below a child index above 255 no seam is recorded truly. */
  lemma FarSeamsDoNotFit(root: LayoutNode, node: LayoutNode, area: Rect, path: SplitPath, split: Splitter)
    requires Normal(node) && KeepsCount(split) && NodeAt(root, path) == Some(node) && !FitsBytes(path)
    ensures AllFit(Seams(node, area, path, split)) <==> !ShowsSeam(node, area, split)
  {
    ShowsSeamIff(node, area, path, split);
    if Seams(node, area, path, split) != [] {
      SeamAddresses(root, node, area, path, split, 0);
      AllFitIff(Seams(node, area, path, split));
      var i :| 0 <= i < |path| && path[i] >= 256;
      assert Seams(node, area, path, split)[0].path[i] == path[i];
    }
  }

  /** Child `i` shows a seam that is not recorded truly. */
  predicate FarChild(node: LayoutNode, rects: seq<Rect>, i: nat, split: Splitter)
    requires node.Split? && i < |node.children| && i < |rects|
  {
    if i < 256 then ShowsFarSeam(node.children[i], rects[i], split)
    else ShowsSeam(node.children[i], rects[i], split)
  }

  /** One of the first `n` children does. */
  predicate FarAmong(node: LayoutNode, rects: seq<Rect>, n: nat, split: Splitter)
    requires node.Split? && n <= |node.children| && n <= |rects|
  {
    exists i :: 0 <= i < n && FarChild(node, rects, i, split)
  }

  lemma ShowsFarSeamIff(node: LayoutNode, area: Rect, split: Splitter)
    requires !Empty(area) && node.Split? && |ChildRects(node, area, split)| == |node.children|
    ensures ShowsFarSeam(node, area, split)
            <==> FarAmong(node, ChildRects(node, area, split), |node.children|, split)
  {
    var rects := ChildRects(node, area, split);
    if i :| 0 <= i < |node.children| && FarChild(node, rects, i, split) {
      assert if i < 256 then ShowsFarSeam(node.children[i], rects[i], split)
             else ShowsSeam(node.children[i], rects[i], split);
    }
    if ShowsFarSeam(node, area, split) {
      var i :| 0 <= i < |node.children| && i < |rects|
               && if i < 256 then ShowsFarSeam(node.children[i], rects[i], split)
                  else ShowsSeam(node.children[i], rects[i], split);
      assert FarChild(node, rects, i, split);
    }
  }

  lemma {:induction false} SeamsFitIff(
      root: LayoutNode, node: LayoutNode, area: Rect, path: SplitPath, split: Splitter)
    requires Normal(node) && KeepsCount(split) && NodeAt(root, path) == Some(node) && FitsBytes(path)
    ensures AllFit(Seams(node, area, path, split)) <==> !ShowsFarSeam(node, area, split)
    decreases node, 0
  {
    if Empty(area) || !node.Split? {
      assert Seams(node, area, path, split) == [];
    } else {
      TotalNeedsRatios(node.ratios);
      var rects := ChildRects(node, area, split);
      ChildSeamsFitIff(root, node, rects, |node.children|, path, split);
      ShowsFarSeamIff(node, area, split);
      OwnSeamsFit(node.direction, rects, path, |rects| - 1);
      AllFitAppend(OwnSeams(node.direction, rects, path, |rects| - 1),
                   SeamsUpTo(node.children, rects, |node.children|, path, split));
    }
  }

  lemma {:induction false} ChildSeamsFitIff(
      root: LayoutNode, node: LayoutNode, rects: seq<Rect>, n: nat, path: SplitPath, split: Splitter)
    requires node.Split? && Normal(node) && KeepsCount(split) && n <= |node.children| == |rects|
    requires NodeAt(root, path) == Some(node) && FitsBytes(path)
    ensures FarAmong(node, rects, n, split) <==> !AllFit(SeamsUpTo(node.children, rects, n, path, split))
    decreases node.children, n
  {
    if n > 0 {
      ChildSeamsFitIff(root, node, rects, n - 1, path, split);
      ChildFitsIff(root, node, rects, n - 1, path, split);
      var before, last := SeamsUpTo(node.children, rects, n - 1, path, split),
        Seams(node.children[n - 1], rects[n - 1], path + [n - 1], split);
      AllFitAppend(before, last);
      assert SeamsUpTo(node.children, rects, n, path, split) == before + last;
      FarAmongNext(node, rects, n - 1, split);
    }
  }

  lemma FarAmongNext(node: LayoutNode, rects: seq<Rect>, n: nat, split: Splitter)
    requires node.Split? && n < |node.children| == |rects|
    ensures FarAmong(node, rects, n + 1, split) <==> FarChild(node, rects, n, split) || FarAmong(node, rects, n, split)
  {
  }

  lemma {:induction false} ChildFitsIff(
      root: LayoutNode, node: LayoutNode, rects: seq<Rect>, i: nat, path: SplitPath, split: Splitter)
    requires node.Split? && Normal(node) && KeepsCount(split) && i < |node.children| == |rects|
    requires NodeAt(root, path) == Some(node) && FitsBytes(path)
    ensures AllFit(Seams(node.children[i], rects[i], path + [i], split))
            <==> !FarChild(node, rects, i, split)
    decreases node.children, 0
  {
    NodeAtAppend(root, path, i);
    if i < 256 {
      SeamsFitIff(root, node.children[i], rects[i], path + [i], split);
    } else {
      assert (path + [i])[|path|] == i;
      FarSeamsDoNotFit(root, node.children[i], rects[i], path + [i], split);
    }
  }

  /**
   * Main result. For any tree, solver and area: every divider is recorded under its true
   * path if and only if no visible split of two or more children lies at or below
   * a child whose index exceeds 255.
   */
  lemma RecordedTrulyIff(root: LayoutNode, area: Rect, split: Splitter)
    requires Normal(root) && KeepsCount(split)
    ensures Recorded(Seams(root, area, [], split)) == Seams(root, area, [], split)
            <==> !ShowsFarSeam(root, area, split)
  {
    var seams := Seams(root, area, [], split);
    SeamsFitIff(root, root, area, [], split);
    AllFitIff(seams);
    forall k | 0 <= k < |seams| ensures Recorded(seams)[k] == seams[k] <==> FitsBytes(seams[k].path) {
      BytesOfFitting(seams[k].path);
    }
    if AllFit(seams) {
      assert Recorded(seams) == seams;
    }
  }

  // ---- A wide tree ----------------------------------------------------------------------------------

  /** The first seam of a visible child is listed. */
  lemma {:induction false} ChildSeamListed(
      children: seq<LayoutNode>, rects: seq<Rect>, n: nat, path: SplitPath, split: Splitter, i: nat) returns (k: nat)
    requires n <= |children| == |rects| && i < n && KeepsCount(split)
    requires Normal(children[i]) && children[i].Split? && |children[i].children| >= 2 && !Empty(rects[i])
    ensures k < |SeamsUpTo(children, rects, n, path, split)|
    ensures SeamsUpTo(children, rects, n, path, split)[k].path == path + [i]
    ensures SeamsUpTo(children, rects, n, path, split)[k].boundary == 0
  {
    var before := SeamsUpTo(children, rects, n - 1, path, split);
    if i < n - 1 {
      k := ChildSeamListed(children, rects, n - 1, path, split, i);
    } else {
      var inner := ChildRects(children[i], rects[i], split);
      TotalNeedsRatios(children[i].ratios);
      OwnSeamAt(children[i].direction, inner, path + [i], |inner| - 1, 0);
      k := |before|;
    }
  }

  /** One cell for each child, the last one taking what is left. */
  function UnitSplit(d: Direction, weights: seq<nat>, area: Rect): (rects: seq<Rect>)
    ensures |rects| == |weights|
  {
    seq(|weights|, i requires 0 <= i < |weights| => UnitStrip(d, |weights|, area, i))
  }

  function Least(a: nat, b: nat): nat {
    if a < b then a else b
  }

  function UnitStrip(d: Direction, n: nat, area: Rect, i: nat): Rect
    requires i < n
  {
    var all := Extent(d, area);
    Strip(d, area, Least(i, all), if i < n - 1 then Least(i + 1, all) - Least(i, all) else all - Least(i, all))
  }

  lemma {:induction false} UnitOffsets(d: Direction, weights: seq<nat>, area: Rect, i: nat)
    requires i <= |weights|
    ensures Offset(d, UnitSplit(d, weights, area), i)
         == if i < |weights| || i == 0 then Least(i, Extent(d, area)) else Extent(d, area)
  {
    if i > 0 {
      UnitOffsets(d, weights, area, i - 1);
      assert UnitSplit(d, weights, area)[i - 1] == UnitStrip(d, |weights|, area, i - 1);
    }
  }

  /** It is a solver like any other. */
  lemma UnitSplitTiles()
    ensures IsTiling(UnitSplit)
  {
    forall d, weights, area | weights != [] ensures Tiles(d, UnitSplit(d, weights, area), area) {
      var rects := UnitSplit(d, weights, area);
      UnitOffsets(d, weights, area, |weights|);
      forall i | 0 <= i < |rects| ensures TileAt(d, rects, area, i) {
        UnitOffsets(d, weights, area, i);
      }
    }
  }

  function PairNode(i: nat): LayoutNode {
    Split(Horizontal, [0.5, 0.5], [Leaf(2 * i), Leaf(2 * i + 1)])
  }

  /** 257 children in a row, the first and the last of them split in two. */
  function WideTree(): LayoutNode {
    Split(Horizontal, seq(257, _ => 1.0 / 257.0),
          seq(257, i requires 0 <= i < 257 => if i == 0 || i == 256 then PairNode(i) else Leaf(2 * i)))
  }

  lemma {:induction false} SumOfEqual(ratios: seq<real>, x: real, n: nat)
    requires n <= |ratios| && forall i :: 0 <= i < |ratios| ==> ratios[i] == x
    ensures Sum(ratios, n) == n as real * x
  {
    if n > 0 {
      SumOfEqual(ratios, x, n - 1);
    }
  }

  lemma WideTreeNormal()
    ensures Normal(WideTree())
  {
    var t := WideTree();
    SumOfEqual(t.ratios, 1.0 / 257.0, 257);
    forall i | 0 <= i < 257 ensures Normal(t.children[i]) {
      SumOfEqual([0.5, 0.5], 0.5, 2);
      assert Normal(Leaf(2 * i)) && Normal(Leaf(2 * i + 1));
    }
  }

  /** A visible child that is split. */
  ghost predicate SplitChild(root: LayoutNode, rects: seq<Rect>, i: nat) {
    root.Split? && i < |root.children| && i < |rects| && !Empty(rects[i])
    && Normal(root.children[i]) && root.children[i].Split? && |root.children[i].children| >= 2
  }

  lemma RootSeamListed(root: LayoutNode, area: Rect, split: Splitter, i: nat) returns (k: nat)
    requires Normal(root) && KeepsCount(split) && root.Split? && !Empty(area)
    requires SplitChild(root, ChildRects(root, area, split), i)
    ensures k < |Seams(root, area, [], split)|
    ensures Seams(root, area, [], split)[k].path == [i] && Seams(root, area, [], split)[k].boundary == 0
  {
    TotalNeedsRatios(root.ratios);
    var rects := ChildRects(root, area, split);
    var below := ChildSeamListed(root.children, rects, |rects|, [], split, i);
    k := |rects| - 1 + below;
    assert Seams(root, area, [], split)[k] == SeamsUpTo(root.children, rects, |rects|, [], split)[below];
  }

  /** Two visible split children whose indexes are 256 apart have dividers under one key, that of the first. */
  lemma ChildrenCollide(root: LayoutNode, area: Rect, split: Splitter, i: nat) returns (near: nat, far: nat)
    requires Normal(root) && KeepsCount(split) && root.Split? && !Empty(area) && i < 256
    requires SplitChild(root, ChildRects(root, area, split), i)
    requires SplitChild(root, ChildRects(root, area, split), i + 256)
    ensures var seams := Seams(root, area, [], split);
            && near < |seams| && far < |seams|
            && seams[near].path == [i] && seams[far].path == [i + 256]
            && SameKey(Recorded(seams)[near], Recorded(seams)[far]) && Recorded(seams)[far].path == [i]
  {
    near := RootSeamListed(root, area, split, i);
    far := RootSeamListed(root, area, split, i + 256);
    assert Bytes([i]) == [i] && Bytes([i + 256]) == [i];
  }

  lemma WideTreeSplits()
    ensures var rects := ChildRects(WideTree(), Rect(0, 0, 257, 1), UnitSplit);
            SplitChild(WideTree(), rects, 0) && SplitChild(WideTree(), rects, 256)
  {
    var t, area := WideTree(), Rect(0, 0, 257, 1);
    WideTreeNormal();
    var rects := ChildRects(t, area, UnitSplit);
    assert rects[0] == UnitStrip(Horizontal, 257, area, 0) && rects[256] == UnitStrip(Horizontal, 257, area, 256);
    assert t.children[0] == PairNode(0) && t.children[256] == PairNode(256);
    assert Normal(t.children[0]) && Normal(t.children[256]);
  }

  /**
   * With a solver that tiles, in the wide tree the divider inside the last child is recorded
   * under the key of the divider inside the first one: dragging it moves the first child's seam.
   */
  lemma WideTreeMisrecords() returns (near: nat, far: nat)
    ensures IsTiling(UnitSplit) && Normal(WideTree())
    ensures var seams := Seams(WideTree(), Rect(0, 0, 257, 1), [], UnitSplit);
            && near < |seams| && far < |seams|
            && seams[near].path == [0] && seams[far].path == [256]
            && SameKey(Recorded(seams)[near], Recorded(seams)[far]) && Recorded(seams)[far].path == [0]
  {
    UnitSplitTiles();
    WideTreeNormal();
    WideTreeSplits();
    near, far := ChildrenCollide(WideTree(), Rect(0, 0, 257, 1), UnitSplit, 0);
  }
}
