/** Where every visible pane of a layout is painted. */
module LayoutRects {
  import opened Prelude
  import opened LayoutTrees

  datatype Rect = Rect(x: nat, y: nat, width: nat, height: nat)

  datatype Painted = Painted(id: PaneId, rect: Rect)

  predicate Contains(r: Rect, cx: nat, cy: nat) {
    r.x <= cx < r.x + r.width && r.y <= cy < r.y + r.height
  }

  predicate Within(r: Rect, area: Rect) {
    && area.x <= r.x && r.x + r.width <= area.x + area.width
    && area.y <= r.y && r.y + r.height <= area.y + area.height
  }

  // ---- The splitter ---------------------------------------------------------------------------

  /** The terminal library's layout solver: direction, ratio numerators, area. */
  type Splitter = (Direction, seq<nat>, Rect) -> seq<Rect>

  function Extent(d: Direction, r: Rect): nat {
    if d == Horizontal then r.width else r.height
  }

  /** The extents of the first `n` rectangles, added up. */
  function Offset(d: Direction, rects: seq<Rect>, n: nat): nat
    requires n <= |rects|
  {
    if n == 0 then 0 else Offset(d, rects, n - 1) + Extent(d, rects[n - 1])
  }

  /** The strip of `area` that starts at `offset` along the axis. */
  function Strip(d: Direction, area: Rect, offset: nat, extent: nat): Rect {
    if d == Horizontal then Rect(area.x + offset, area.y, extent, area.height)
    else Rect(area.x, area.y + offset, area.width, extent)
  }

  /** The rectangles follow each other along the axis and fill the area. */
  ghost predicate Tiles(d: Direction, rects: seq<Rect>, area: Rect) {
    && Offset(d, rects, |rects|) == Extent(d, area)
    && forall i :: 0 <= i < |rects| ==> TileAt(d, rects, area, i)
  }

  predicate TileAt(d: Direction, rects: seq<Rect>, area: Rect, i: nat)
    requires i < |rects|
  {
    rects[i] == Strip(d, area, Offset(d, rects, i), Extent(d, rects[i]))
  }

  /** Assumed of the solver: one rectangle for each ratio. */
  ghost predicate KeepsCount(split: Splitter) {
    forall d, weights, area :: weights != [] ==> |split(d, weights, area)| == |weights|
  }

  /** Assumed of the solver: its rectangles tile the area. */
  ghost predicate IsTiling(split: Splitter) {
    && KeepsCount(split)
    && forall d, weights, area :: weights != [] ==> Tiles(d, split(d, weights, area), area)
  }

  /** `(r * 10_000.0).round() as u32`: rounding half away from zero, saturating. */
  function Weight(r: real): nat {
    var scaled := (r * 10000.0 + 0.5).Floor;
    if r < 0.0 || scaled < 0 then 0 else if scaled > U32_MAX then U32_MAX else scaled
  }

  function Weights(ratios: seq<real>): (r: seq<nat>)
    ensures |r| == |ratios|
    ensures forall i :: 0 <= i < |ratios| ==> r[i] == Weight(ratios[i])
  {
    seq(|ratios|, i requires 0 <= i < |ratios| => Weight(ratios[i]))
  }

  function ChildRects(node: LayoutNode, area: Rect, split: Splitter): seq<Rect>
    requires node.Split?
  {
    split(node.direction, Weights(node.ratios), area)
  }

  // ---- What is painted ----------------------------------------------------------------------------

  predicate Empty(area: Rect) {
    area.width == 0 || area.height == 0
  }

  function PaintedBy(node: LayoutNode, area: Rect, split: Splitter): seq<Painted>
    decreases node, 0
  {
    if Empty(area) then [] else
      match node
      case Leaf(id) => [Painted(id, area)]
      case Tabs(members, active) => if active < |members| then [Painted(members[active], area)] else []
      case Split(_, _, children) =>
        var rects := ChildRects(node, area, split);
        PaintedUpTo(children, rects, Pairs(children, rects), split)
  }

  /** How many pairs `zip` yields. */
  function Pairs(children: seq<LayoutNode>, rects: seq<Rect>): nat {
    if |children| <= |rects| then |children| else |rects|
  }

  function PaintedUpTo(children: seq<LayoutNode>, rects: seq<Rect>, n: nat, split: Splitter): seq<Painted>
    requires n <= |children| && n <= |rects|
    decreases children, n
  {
    if n == 0 then [] else
      PaintedUpTo(children, rects, n - 1, split) + PaintedBy(children[n - 1], rects[n - 1], split)
  }

  /** `walk`, appending to `start`. */
  method Walk(node: LayoutNode, area: Rect, split: Splitter, start: seq<Painted>) returns (out: seq<Painted>)
    ensures out == start + PaintedBy(node, area, split)
    decreases node
  {
    out := start;
    AppendEmpty(out);
    if area.width == 0 || area.height == 0 {
      return;
    }
    match node {
      case Leaf(id) =>
        out := out + [Painted(id, area)];
      case Tabs(members, active) =>
        if active < |members| {
          out := out + [Painted(members[active], area)];
        }
      case Split(_, _, children) =>
        var rects := ChildRects(node, area, split);
        for i := 0 to Pairs(children, rects)
          invariant out == start + PaintedUpTo(children, rects, i, split)
        {
          out := Walk(children[i], rects[i], split, out);
          AppendAssoc(start, PaintedUpTo(children, rects, i, split), PaintedBy(children[i], rects[i], split));
        }
    }
  }

  /** `compute_rects`. */
  method ComputeRects(root: LayoutNode, area: Rect, split: Splitter) returns (out: seq<Painted>)
    ensures out == PaintedBy(root, area, split)
  {
    out := Walk(root, area, split, []);
    AppendEmpty(PaintedBy(root, area, split));
  }

  // ---- Every cell ------------------------------------------------------------------------------------

  /** How many of the first `n` painted rectangles contain the cell. */
  function Covering(painted: seq<Painted>, n: nat, cx: nat, cy: nat): nat
    requires n <= |painted|
  {
    if n == 0 then 0
    else Covering(painted, n - 1, cx, cy) + if Contains(painted[n - 1].rect, cx, cy) then 1 else 0
  }

  function CoveringAll(painted: seq<Painted>, cx: nat, cy: nat): nat {
    Covering(painted, |painted|, cx, cy)
  }

  lemma {:induction false} CoveringPrefix(a: seq<Painted>, b: seq<Painted>, n: nat, cx: nat, cy: nat)
    requires n <= |a|
    ensures Covering(a + b, n, cx, cy) == Covering(a, n, cx, cy)
  {
    if n > 0 {
      CoveringPrefix(a, b, n - 1, cx, cy);
    }
  }

  lemma {:induction false} CoveringAppend(a: seq<Painted>, b: seq<Painted>, n: nat, cx: nat, cy: nat)
    requires n <= |b|
    ensures Covering(a + b, |a| + n, cx, cy) == CoveringAll(a, cx, cy) + Covering(b, n, cx, cy)
  {
    if n == 0 {
      CoveringPrefix(a, b, |a|, cx, cy);
    } else {
      CoveringAppend(a, b, n - 1, cx, cy);
    }
  }

  /** The cell falls to a tab group without an active pane. */
  predicate Blank(node: LayoutNode, area: Rect, split: Splitter, cx: nat, cy: nat) {
    match node
    case Leaf(_) => false
    case Tabs(members, active) => active >= |members|
    case Split(_, _, children) =>
      var rects := ChildRects(node, area, split);
      exists i :: 0 <= i < |children| && i < |rects| && Contains(rects[i], cx, cy)
                  && Blank(children[i], rects[i], split, cx, cy)
  }

  /** Position of the cell along the axis. */
  function Along(d: Direction, area: Rect, cx: nat, cy: nat): int {
    if d == Horizontal then cx - area.x else cy - area.y
  }

  lemma {:induction false} OffsetMonotone(d: Direction, rects: seq<Rect>, i: nat, j: nat)
    requires i <= j <= |rects|
    ensures Offset(d, rects, i) <= Offset(d, rects, j)
  {
    if i < j {
      OffsetMonotone(d, rects, i, j - 1);
    }
  }

  lemma {:induction false} OffsetFind(d: Direction, rects: seq<Rect>, n: nat, at: int) returns (k: nat)
    requires n <= |rects| && 0 <= at < Offset(d, rects, n)
    ensures k < n && Offset(d, rects, k) <= at < Offset(d, rects, k + 1)
  {
    if at < Offset(d, rects, n - 1) {
      k := OffsetFind(d, rects, n - 1, at);
    } else {
      k := n - 1;
    }
  }

  /** A tile contains a cell of the area exactly when the cell lies between its offsets. */
  lemma TileContains(d: Direction, rects: seq<Rect>, area: Rect, i: nat, cx: nat, cy: nat)
    requires Tiles(d, rects, area) && i < |rects|
    ensures Contains(rects[i], cx, cy) <==>
            Contains(area, cx, cy) && Offset(d, rects, i) <= Along(d, area, cx, cy) < Offset(d, rects, i + 1)
    ensures Within(rects[i], area)
  {
    OffsetMonotone(d, rects, i + 1, |rects|);
    assert TileAt(d, rects, area, i);
  }

  lemma OffsetUnique(d: Direction, rects: seq<Rect>, i: nat, k: nat, at: int)
    requires i < |rects| && k < |rects|
    requires Offset(d, rects, i) <= at < Offset(d, rects, i + 1)
    requires Offset(d, rects, k) <= at < Offset(d, rects, k + 1)
    ensures i == k
  {
    if i < k {
      OffsetMonotone(d, rects, i + 1, k);
    } else if k < i {
      OffsetMonotone(d, rects, k + 1, i);
    }
  }

  lemma SameTile(d: Direction, rects: seq<Rect>, area: Rect, i: nat, k: nat, cx: nat, cy: nat)
    requires Tiles(d, rects, area) && i < |rects| && k < |rects|
    requires Contains(rects[i], cx, cy) && Contains(rects[k], cx, cy)
    ensures i == k
  {
    TileContains(d, rects, area, i, cx, cy);
    TileContains(d, rects, area, k, cx, cy);
    OffsetUnique(d, rects, i, k, Along(d, area, cx, cy));
  }

  /** Some tile contains a given cell of a tiled area. */
  lemma CellTile(d: Direction, rects: seq<Rect>, area: Rect, cx: nat, cy: nat) returns (k: nat)
    requires Tiles(d, rects, area) && Contains(area, cx, cy)
    ensures k < |rects| && Contains(rects[k], cx, cy)
  {
    k := OffsetFind(d, rects, |rects|, Along(d, area, cx, cy));
    TileContains(d, rects, area, k, cx, cy);
  }

  /** How often a cell must be covered. */
  function Expected(node: LayoutNode, area: Rect, split: Splitter, cx: nat, cy: nat): nat {
    if Contains(area, cx, cy) && !Blank(node, area, split, cx, cy) then 1 else 0
  }

  /**
   * Main result. With a solver that tiles, every cell of the area is covered by exactly
   * one painted rectangle, unless it falls to a tab group without an active pane,
   * and no cell outside is covered.
   */
  lemma {:induction false} EveryCellCovered(node: LayoutNode, area: Rect, split: Splitter, cx: nat, cy: nat)
    requires Normal(node) && IsTiling(split)
    ensures CoveringAll(PaintedBy(node, area, split), cx, cy) == Expected(node, area, split, cx, cy)
    decreases node, 0
  {
    if !Empty(area) {
      match node {
        case Leaf(id) =>
          assert Covering([Painted(id, area)], 0, cx, cy) == 0;
        case Tabs(members, active) =>
          if active < |members| {
            assert Covering([Painted(members[active], area)], 0, cx, cy) == 0;
          }
        case Split(d, ratios, children) =>
          TotalNeedsRatios(ratios);
          var rects := ChildRects(node, area, split);
          if Contains(area, cx, cy) {
            var k := CellTile(d, rects, area, cx, cy);
            forall i | 0 <= i < |rects| && Contains(rects[i], cx, cy) ensures i == k {
              SameTile(d, rects, area, i, k, cx, cy);
            }
            ChildrenCover(children, rects, |children|, k, split, cx, cy);
            BlankAtTile(node, area, split, k, cx, cy);
          } else {
            forall i | 0 <= i < |rects| ensures !Contains(rects[i], cx, cy) {
              TileContains(d, rects, area, i, cx, cy);
            }
            ChildrenCover(children, rects, |children|, |children|, split, cx, cy);
          }
      }
    }
  }

  lemma TotalNeedsRatios(ratios: seq<real>)
    requires Total(ratios) == 1.0
    ensures ratios != []
  {
  }

  lemma BlankAtTile(node: LayoutNode, area: Rect, split: Splitter, k: nat, cx: nat, cy: nat)
    requires node.Split? && |ChildRects(node, area, split)| == |node.children| && k < |node.children|
    requires Contains(ChildRects(node, area, split)[k], cx, cy)
    requires forall i :: 0 <= i < |node.children| && Contains(ChildRects(node, area, split)[i], cx, cy) ==> i == k
    ensures Blank(node, area, split, cx, cy)
            <==> Blank(node.children[k], ChildRects(node, area, split)[k], split, cx, cy)
  {
  }

  lemma CoverStep(children: seq<LayoutNode>, rects: seq<Rect>, n: nat, split: Splitter, cx: nat, cy: nat)
    requires n < |children| && n < |rects|
    ensures CoveringAll(PaintedUpTo(children, rects, n + 1, split), cx, cy)
         == CoveringAll(PaintedUpTo(children, rects, n, split), cx, cy)
            + CoveringAll(PaintedBy(children[n], rects[n], split), cx, cy)
  {
    var last := PaintedBy(children[n], rects[n], split);
    CoveringAppend(PaintedUpTo(children, rects, n, split), last, |last|, cx, cy);
  }

  /** Only the children whose rectangle contains the cell, here child `k`, cover it. */
  lemma {:induction false} ChildrenCover(
      children: seq<LayoutNode>, rects: seq<Rect>, n: nat, k: nat, split: Splitter, cx: nat, cy: nat)
    requires n <= |children| == |rects| && IsTiling(split)
    requires forall i :: 0 <= i < |children| ==> Normal(children[i])
    requires forall i :: 0 <= i < |rects| && Contains(rects[i], cx, cy) ==> i == k
    ensures CoveringAll(PaintedUpTo(children, rects, n, split), cx, cy)
            == if k < n then Expected(children[k], rects[k], split, cx, cy) else 0
    decreases children, n
  {
    if n > 0 {
      ChildrenCover(children, rects, n - 1, k, split, cx, cy);
      EveryCellCovered(children[n - 1], rects[n - 1], split, cx, cy);
      CoverStep(children, rects, n - 1, split, cx, cy);
    }
  }

  /** Every tab group shows one of its members. */
  predicate AllShown(node: LayoutNode) {
    match node
    case Leaf(_) => true
    case Tabs(members, active) => active < |members|
    case Split(_, _, children) => forall i :: 0 <= i < |children| ==> AllShown(children[i])
  }

  lemma {:induction false} NothingBlank(node: LayoutNode, area: Rect, split: Splitter, cx: nat, cy: nat)
    requires AllShown(node)
    ensures !Blank(node, area, split, cx, cy)
  {
    if node.Split? {
      var rects := ChildRects(node, area, split);
      forall i | 0 <= i < |node.children| && i < |rects|
        ensures !Blank(node.children[i], rects[i], split, cx, cy)
      {
        NothingBlank(node.children[i], rects[i], split, cx, cy);
      }
    }
  }

  /** When every tab group shows a member, each cell of the area is painted exactly once. */
  lemma NoGaps(root: LayoutNode, area: Rect, split: Splitter, cx: nat, cy: nat)
    requires Normal(root) && IsTiling(split) && AllShown(root)
    ensures CoveringAll(PaintedBy(root, area, split), cx, cy) == if Contains(area, cx, cy) then 1 else 0
  {
    EveryCellCovered(root, area, split, cx, cy);
    NothingBlank(root, area, split, cx, cy);
  }

  // ---- Inside, disjoint, one per pane --------------------------------------------------------------

  /** Every painted rectangle is a non-empty part of the area. */
  lemma {:induction false} PaintedInside(node: LayoutNode, area: Rect, split: Splitter)
    requires Normal(node) && IsTiling(split)
    ensures forall p :: p in PaintedBy(node, area, split) ==> Within(p.rect, area) && !Empty(p.rect)
    decreases node, 0
  {
    if !Empty(area) && node.Split? {
      TotalNeedsRatios(node.ratios);
      var rects := ChildRects(node, area, split);
      forall i | 0 <= i < |rects| ensures Within(rects[i], area) {
        TileContains(node.direction, rects, area, i, 0, 0);
      }
      ChildrenInside(node.children, rects, |node.children|, area, split);
    }
  }

  lemma {:induction false} ChildrenInside(
      children: seq<LayoutNode>, rects: seq<Rect>, n: nat, area: Rect, split: Splitter)
    requires n <= |children| == |rects| && IsTiling(split)
    requires forall i :: 0 <= i < |children| ==> Normal(children[i])
    requires forall i :: 0 <= i < |rects| ==> Within(rects[i], area)
    ensures forall p :: p in PaintedUpTo(children, rects, n, split) ==> Within(p.rect, area) && !Empty(p.rect)
    decreases children, n
  {
    if n > 0 {
      ChildrenInside(children, rects, n - 1, area, split);
      PaintedInside(children[n - 1], rects[n - 1], split);
    }
  }

  lemma {:induction false} CoveringTwo(painted: seq<Painted>, n: nat, i: nat, j: nat, cx: nat, cy: nat)
    requires i < j < |painted| && n <= |painted|
    requires Contains(painted[i].rect, cx, cy) && Contains(painted[j].rect, cx, cy)
    ensures Covering(painted, n, cx, cy) >= (if i < n then 1 else 0) + (if j < n then 1 else 0)
  {
    if n > 0 {
      CoveringTwo(painted, n - 1, i, j, cx, cy);
    }
  }

  /** No two painted rectangles share a cell. */
  lemma PaintedDisjoint(node: LayoutNode, area: Rect, split: Splitter, i: nat, j: nat, cx: nat, cy: nat)
    requires Normal(node) && IsTiling(split)
    requires i < j < |PaintedBy(node, area, split)|
    ensures !(Contains(PaintedBy(node, area, split)[i].rect, cx, cy)
              && Contains(PaintedBy(node, area, split)[j].rect, cx, cy))
  {
    var painted := PaintedBy(node, area, split);
    EveryCellCovered(node, area, split, cx, cy);
    if Contains(painted[i].rect, cx, cy) && Contains(painted[j].rect, cx, cy) {
      CoveringTwo(painted, |painted|, i, j, cx, cy);
    }
  }

  function PaintedIds(painted: seq<Painted>): (ids: seq<PaneId>)
    ensures |ids| == |painted|
  {
    seq(|painted|, i requires 0 <= i < |painted| => painted[i].id)
  }

  lemma PaintedIdsAppend(a: seq<Painted>, b: seq<Painted>)
    ensures PaintedIds(a + b) == PaintedIds(a) + PaintedIds(b)
  {
  }

  lemma MemberIsPart(members: seq<PaneId>, active: nat)
    requires active < |members|
    ensures multiset([members[active]]) <= multiset(members)
  {
    assert members == members[..active] + [members[active]] + members[active + 1..];
  }

  lemma {:induction false} PaintedAmongIds(node: LayoutNode, area: Rect, split: Splitter)
    requires Normal(node) && KeepsCount(split)
    ensures multiset(PaintedIds(PaintedBy(node, area, split))) <= multiset(Ids(node))
    decreases node, 0
  {
    if !Empty(area) {
      match node {
        case Leaf(id) =>
          assert PaintedIds([Painted(id, area)]) == [id];
        case Tabs(members, active) =>
          if active < |members| {
            MemberIsPart(members, active);
            assert PaintedIds([Painted(members[active], area)]) == [members[active]];
          }
        case Split(d, ratios, children) =>
          TotalNeedsRatios(ratios);
          var rects := ChildRects(node, area, split);
          ChildrenAmongIds(children, rects, |children|, split);
      }
    }
  }

  lemma {:induction false} ChildrenAmongIds(children: seq<LayoutNode>, rects: seq<Rect>, n: nat, split: Splitter)
    requires n <= |children| == |rects| && KeepsCount(split)
    requires forall i :: 0 <= i < |children| ==> Normal(children[i])
    ensures multiset(PaintedIds(PaintedUpTo(children, rects, n, split))) <= multiset(IdsUpTo(children, n))
    decreases children, n
  {
    if n > 0 {
      ChildrenAmongIds(children, rects, n - 1, split);
      PaintedAmongIds(children[n - 1], rects[n - 1], split);
      PaintedIdsAppend(PaintedUpTo(children, rects, n - 1, split), PaintedBy(children[n - 1], rects[n - 1], split));
    }
  }

  /** In a tree that `LayoutTree::new` accepts, no pane is painted twice, and only its own panes are. */
  lemma PaintedOncePerPane(root: LayoutNode, area: Rect, split: Splitter)
    requires Normal(root) && KeepsCount(split) && Checked(root, {}).Ok?
    ensures Distinct(PaintedIds(PaintedBy(root, area, split)))
    ensures forall id :: id in PaintedIds(PaintedBy(root, area, split)) ==> id in Ids(root)
  {
    UniqueIff(root);
    PaintedAmongIds(root, area, split);
    var ids := PaintedIds(PaintedBy(root, area, split));
    DistinctPart(ids, Ids(root));
    forall id | id in ids ensures id in Ids(root) {
      assert id in multiset(ids);
    }
  }
}
