/** Which pane is painted where: the node at each path, the rectangle it gets, the tab it shows. */
module LayoutPanes {
  import opened Prelude
  import opened LayoutTrees
  import opened LayoutRects
  import opened TabGroups
  import opened TabRuns

  // ---- Rectangles by path -----------------------------------------------------------------------

  /** The rectangle of the node at a path, found by going down child by child. */
  function RectAt(node: LayoutNode, area: Rect, path: SplitPath, split: Splitter): Option<Rect>
    decreases |path|
  {
    if path == [] then Some(area)
    else if !node.Split? || Empty(area) then None
    else
      var rects := ChildRects(node, area, split);
      if path[0] < |node.children| && path[0] < |rects|
      then RectAt(node.children[path[0]], rects[path[0]], path[1..], split) else None
  }

  /** A cell shows its pane, a tab group the member at its active index. */
  predicate Shows(node: LayoutNode, id: PaneId) {
    match node
    case Leaf(pane) => pane == id
    case Tabs(members, active) => active < |members| && members[active] == id
    case Split(_, _, _) => false
  }

  /** The node at the path shows the pane in the rectangle. */
  ghost predicate ShownAt(node: LayoutNode, area: Rect, path: SplitPath, split: Splitter, p: Painted) {
    && NodeAt(node, path).Some? && Shows(NodeAt(node, path).value, p.id)
    && RectAt(node, area, path, split) == Some(p.rect) && !Empty(p.rect)
  }

  ghost predicate ShownSomewhere(node: LayoutNode, area: Rect, split: Splitter, p: Painted) {
    exists path :: ShownAt(node, area, path, split, p)
  }

  lemma ShownBelow(node: LayoutNode, area: Rect, path: SplitPath, split: Splitter, p: Painted)
    requires path != []
    ensures ShownAt(node, area, path, split, p)
            <==> node.Split? && !Empty(area) && path[0] < Pairs(node.children, ChildRects(node, area, split))
                 && ShownAt(node.children[path[0]], ChildRects(node, area, split)[path[0]], path[1..], split, p)
  {
  }

  /** A child that shows something makes its parent show it. */
  lemma ChildShown(node: LayoutNode, area: Rect, i: nat, split: Splitter, p: Painted)
    requires node.Split? && !Empty(area) && i < Pairs(node.children, ChildRects(node, area, split))
    requires ShownSomewhere(node.children[i], ChildRects(node, area, split)[i], split, p)
    ensures ShownSomewhere(node, area, split, p)
  {
    var below: SplitPath :| ShownAt(node.children[i], ChildRects(node, area, split)[i], below, split, p);
    var path: SplitPath := [i] + below;
    assert path[1..] == below;
    ShownBelow(node, area, path, split, p);
  }

  /**
   * Main result on panes. A pane is painted in a rectangle if and only if some path leads to
   * its cell, or to a tab group whose active member it is, and the solver gives
   * that path this non-empty rectangle.
   */
  lemma {:induction false} PaintedIff(node: LayoutNode, area: Rect, split: Splitter, p: Painted)
    ensures p in PaintedBy(node, area, split) <==> ShownSomewhere(node, area, split, p)
    decreases node, 0
  {
    if Empty(area) || !node.Split? {
      if p in PaintedBy(node, area, split) {
        assert ShownAt(node, area, [], split, p);
      }
      if ShownSomewhere(node, area, split, p) {
        var path :| ShownAt(node, area, path, split, p);
        if path != [] {
          ShownBelow(node, area, path, split, p);
        }
      }
    } else {
      var rects := ChildRects(node, area, split);
      var n := Pairs(node.children, rects);
      ChildrenPaintedIff(node.children, rects, n, split, p);
      if p in PaintedUpTo(node.children, rects, n, split) {
        var i :| 0 <= i < n && ShownSomewhere(node.children[i], rects[i], split, p);
        ChildShown(node, area, i, split, p);
      }
      if ShownSomewhere(node, area, split, p) {
        var path :| ShownAt(node, area, path, split, p);
        assert path != [];
        ShownBelow(node, area, path, split, p);
        assert ShownSomewhere(node.children[path[0]], rects[path[0]], split, p);
      }
    }
  }

  lemma {:induction false} ChildrenPaintedIff(
      children: seq<LayoutNode>, rects: seq<Rect>, n: nat, split: Splitter, p: Painted)
    requires n <= |children| && n <= |rects|
    ensures p in PaintedUpTo(children, rects, n, split)
            <==> exists i :: 0 <= i < n && ShownSomewhere(children[i], rects[i], split, p)
    decreases children, n
  {
    if n > 0 {
      ChildrenPaintedIff(children, rects, n - 1, split, p);
      PaintedIff(children[n - 1], rects[n - 1], split, p);
    }
  }

  // ---- Replacing one tab group --------------------------------------------------------------------

  /** The tree with the node at `path` replaced. */
  function WithNode(node: LayoutNode, path: SplitPath, cell: LayoutNode): LayoutNode
    decreases |path|
  {
    if path == [] then cell
    else if node.Split? && path[0] < |node.children| then
      node.(children := node.children[path[0] := WithNode(node.children[path[0]], path[1..], cell)])
    else node
  }

  /** Replacing a cell gives no path another rectangle, and no other path another cell. */
  lemma {:induction false} WithNodeElsewhere(
      node: LayoutNode, area: Rect, path: SplitPath, cell: LayoutNode, split: Splitter, other: SplitPath)
    requires NodeAt(node, path).Some? && !NodeAt(node, path).value.Split? && !cell.Split?
    ensures RectAt(WithNode(node, path, cell), area, other, split) == RectAt(node, area, other, split)
    ensures NodeAt(WithNode(node, path, cell), path) == Some(cell)
    ensures var was, now := NodeAt(node, other), NodeAt(WithNode(node, path, cell), other);
            other != path ==> (was.Some? <==> now.Some?) && (was.Some? && !was.value.Split? ==> now == was)
                              && (was.Some? ==> (was.value.Split? <==> now.value.Split?))
    decreases |path|
  {
    if path != [] && other != [] {
      if path[0] == other[0] && !Empty(area) && path[0] < |ChildRects(node, area, split)| {
        WithNodeElsewhere(node.children[path[0]], ChildRects(node, area, split)[path[0]],
                          path[1..], cell, split, other[1..]);
      } else {
        WithNodeElsewhere(node.children[path[0]], area, path[1..], cell, split, other[1..]);
      }
      assert path == [path[0]] + path[1..] && other == [other[0]] + other[1..];
    } else if path != [] {
      WithNodeElsewhere(node.children[path[0]], area, path[1..], cell, split, []);
    }
  }

  /** What a handled request leaves on the screen: only the group's own rectangle changes hands. */
  lemma GroupPaints(root: LayoutNode, area: Rect, split: Splitter, path: SplitPath, g: Group, r: Request, rect: Rect)
    requires g.Valid() && !Panics(g, r) && NodeAt(root, path) == Some(g.Node())
    requires RectAt(root, area, path, split) == Some(rect) && !Empty(rect)
    ensures var now := Handled(g, r);
            var after := WithNode(root, path, now.Node());
            && (forall p :: ShownAt(after, area, path, split, p)
                            <==> PaneAt(now.members, now.active) == Some(p.id) && p.rect == rect)
            && (forall q: SplitPath, p :: q != path ==>
                  (ShownAt(after, area, q, split, p) <==> ShownAt(root, area, q, split, p)))
  {
    var now := Handled(g, r);
    var after := WithNode(root, path, now.Node());
    WithNodeElsewhere(root, area, path, now.Node(), split, path);
    forall q: SplitPath, p | q != path
      ensures ShownAt(after, area, q, split, p) <==> ShownAt(root, area, q, split, p)
    {
      WithNodeElsewhere(root, area, path, now.Node(), split, q);
    }
  }

  /** The active pane after a request is painted where the group is. */
  lemma ActivePainted(root: LayoutNode, area: Rect, split: Splitter, path: SplitPath, g: Group, r: Request, rect: Rect)
    requires g.Valid() && !Panics(g, r) && NodeAt(root, path) == Some(g.Node())
    requires RectAt(root, area, path, split) == Some(rect) && !Empty(rect)
    ensures var now := Handled(g, r);
            forall id :: PaneAt(now.members, now.active) == Some(id) ==>
              Painted(id, rect) in PaintedBy(WithNode(root, path, now.Node()), area, split)
  {
    var now := Handled(g, r);
    var after := WithNode(root, path, now.Node());
    GroupPaints(root, area, split, path, g, r, rect);
    forall id | PaneAt(now.members, now.active) == Some(id) ensures Painted(id, rect) in PaintedBy(after, area, split) {
      assert ShownAt(after, area, path, split, Painted(id, rect));
      PaintedIff(after, area, split, Painted(id, rect));
    }
  }

  /** Going to a tab paints it, going to the next paints the next, adding one paints the new one. */
  lemma SwitchingPaints(root: LayoutNode, area: Rect, split: Splitter, path: SplitPath, g: Group, rect: Rect)
    requires g.Valid() && g.members != [] && NodeAt(root, path) == Some(g.Node())
    requires RectAt(root, area, path, split) == Some(rect) && !Empty(rect)
    ensures forall i :: 0 <= i < |g.members| ==>
              Painted(g.members[i], rect) in PaintedBy(WithNode(root, path, Tabs(g.members, i)), area, split)
              && Handled(g, GotoTab(i)).Node() == Tabs(g.members, i)
    ensures var next := if g.active + 1 == |g.members| then 0 else g.active + 1;
            Painted(g.members[next], rect)
              in PaintedBy(WithNode(root, path, Handled(g, NextTab).Node()), area, split)
    ensures forall id, kind :: Accepts(g, AddTab(id, kind)) ==>
              Painted(id, rect)
                in PaintedBy(WithNode(root, path, Handled(g, AddTab(id, kind)).Node()), area, split)
  {
    forall i | 0 <= i < |g.members|
      ensures Painted(g.members[i], rect) in PaintedBy(WithNode(root, path, Tabs(g.members, i)), area, split)
              && Handled(g, GotoTab(i)).Node() == Tabs(g.members, i)
    {
      ActivePainted(root, area, split, path, g, GotoTab(i), rect);
    }
    NextIndex(g.active, |g.members|);
    ActivePainted(root, area, split, path, g, NextTab, rect);
    forall id, kind | Accepts(g, AddTab(id, kind))
      ensures Painted(id, rect)
                in PaintedBy(WithNode(root, path, Handled(g, AddTab(id, kind)).Node()), area, split)
    {
      ActivePainted(root, area, split, path, g, AddTab(id, kind), rect);
    }
  }

  // ---- Hidden tabs --------------------------------------------------------------------------------------

  lemma {:induction false} IdsOfChild(children: seq<LayoutNode>, n: nat, i: nat, id: PaneId)
    requires i < n <= |children|
    ensures multiset(IdsUpTo(children, n))[id] >= multiset(Ids(children[i]))[id]
  {
    if i < n - 1 {
      IdsOfChild(children, n - 1, i, id);
    }
  }

  lemma {:induction false} IdsOfTwoChildren(children: seq<LayoutNode>, n: nat, i: nat, j: nat, id: PaneId)
    requires i < j < n <= |children|
    ensures multiset(IdsUpTo(children, n))[id] >= multiset(Ids(children[i]))[id] + multiset(Ids(children[j]))[id]
  {
    if j < n - 1 {
      IdsOfTwoChildren(children, n - 1, i, j, id);
    } else {
      IdsOfChild(children, n - 1, i, id);
    }
  }

  /** The ids of a node at a path are among the tree's. */
  lemma {:induction false} IdsBelow(node: LayoutNode, path: SplitPath, id: PaneId)
    requires NodeAt(node, path).Some?
    ensures multiset(Ids(node))[id] >= multiset(Ids(NodeAt(node, path).value))[id]
    decreases |path|
  {
    if path != [] {
      IdsBelow(node.children[path[0]], path[1..], id);
      IdsOfChild(node.children, |node.children|, path[0], id);
    }
  }

  /** A pane that belongs to two cells occurs twice. */
  lemma {:induction false} IdTwice(node: LayoutNode, p: SplitPath, q: SplitPath, id: PaneId)
    requires p != q && NodeAt(node, p).Some? && NodeAt(node, q).Some?
    requires !NodeAt(node, p).value.Split? && !NodeAt(node, q).value.Split?
    requires id in Ids(NodeAt(node, p).value) && id in Ids(NodeAt(node, q).value)
    ensures multiset(Ids(node))[id] >= 2
    decreases |p|
  {
    var i, j := p[0], q[0];
    assert id in multiset(Ids(NodeAt(node, p).value)) && id in multiset(Ids(NodeAt(node, q).value));
    if i == j {
      assert p == [i] + p[1..] && q == [j] + q[1..];
      IdTwice(node.children[i], p[1..], q[1..], id);
      IdsOfChild(node.children, |node.children|, i, id);
    } else {
      IdsBelow(node.children[i], p[1..], id);
      IdsBelow(node.children[j], q[1..], id);
      IdsOfTwoChildren(node.children, |node.children|, if i < j then i else j, if i < j then j else i, id);
    }
  }

  /** In an accepted tree the other members of a tab group are painted nowhere. */
  lemma HiddenTabsAreNotPainted(
      root: LayoutNode, area: Rect, split: Splitter, path: SplitPath, k: nat, rect: Rect)
    requires Checked(root, {}).Ok? && NodeAt(root, path).Some? && NodeAt(root, path).value.Tabs?
    requires k < |NodeAt(root, path).value.members| && k != NodeAt(root, path).value.active
    ensures Painted(NodeAt(root, path).value.members[k], rect) !in PaintedBy(root, area, split)
  {
    var tabs := NodeAt(root, path).value;
    var id := tabs.members[k];
    PaintedIff(root, area, split, Painted(id, rect));
    UniqueIff(root);
    AtMostOnce(Ids(root), id);
    if ShownSomewhere(root, area, split, Painted(id, rect)) {
      var q :| ShownAt(root, area, q, split, Painted(id, rect));
      if q != path {
        IdTwice(root, path, q, id);
      } else {
        IdsBelow(root, path, id);
        TwoPlaces(tabs.members, k, tabs.active);
      }
    }
  }

  lemma TwoPlaces(s: seq<PaneId>, i: nat, j: nat)
    requires i < |s| && j < |s| && i != j && s[i] == s[j]
    ensures multiset(s)[s[i]] >= 2
  {
    var lo, hi := if i < j then i else j, if i < j then j else i;
    assert s == s[..lo] + [s[lo]] + s[lo + 1..hi] + [s[hi]] + s[hi + 1..];
  }

  // ---- Where the rectangles are ---------------------------------------------------------------------------

  /** With a solver that tiles, the children of a split stand side by side, in order, from edge to edge. */
  lemma ChildrenSideBySide(node: LayoutNode, area: Rect, split: Splitter, i: nat)
    requires Normal(node) && IsTiling(split) && node.Split? && !Empty(area) && i < |node.children|
    ensures RectAt(node, area, [i], split).Some?
    ensures var r := RectAt(node, area, [i], split).value;
            && (node.direction == Horizontal ==> r.y == area.y && r.height == area.height)
            && (node.direction != Horizontal ==> r.x == area.x && r.width == area.width)
    ensures i + 1 < |node.children| ==>
              var r, s := RectAt(node, area, [i], split).value, RectAt(node, area, [i + 1], split);
              s.Some? && if node.direction == Horizontal then s.value.x == r.x + r.width
                         else s.value.y == r.y + r.height
    ensures i == 0 ==> RectAt(node, area, [i], split).value.x == area.x
                       && RectAt(node, area, [i], split).value.y == area.y
  {
    TotalNeedsRatios(node.ratios);
    var rects := ChildRects(node, area, split);
    assert TileAt(node.direction, rects, area, i);
    if i + 1 < |node.children| {
      assert TileAt(node.direction, rects, area, i + 1);
    }
  }

  /** The solver is given each ratio in ten-thousandths, to the nearest. */
  lemma WeightIsNearest(r: real)
    requires 0.0 <= r && r * 10000.0 <= U32_MAX as real
    ensures -0.5 <= Weight(r) as real - r * 10000.0 <= 0.5
  {
  }
}
