/** Where the dividers are: exactly one on the far edge of every visible child but the last. */
module LayoutSeams {
  import opened Prelude
  import opened LayoutTrees
  import opened LayoutRects
  import opened LayoutDividers
  import opened LayoutPanes

  /** The last column of a rectangle, or its last row. */
  predicate IsFarEdge(axis: Direction, of: Rect, edge: Rect) {
    if axis == Horizontal
    then && edge.width == 1 && edge.y == of.y && edge.height == of.height
         && edge.x == if of.width == 0 then of.x else of.x + of.width - 1
    else && edge.height == 1 && edge.x == of.x && edge.width == of.width
         && edge.y == if of.height == 0 then of.y else of.y + of.height - 1
  }

  /** At the path is a visible split, and the divider is on the far edge of its child `boundary`, not the last. */
  ghost predicate SeamAt(node: LayoutNode, area: Rect, split: Splitter, d: Divider) {
    && NodeAt(node, d.path).Some? && NodeAt(node, d.path).value.Split?
    && RectAt(node, area, d.path, split).Some? && !Empty(RectAt(node, area, d.path, split).value)
    && d.axis == NodeAt(node, d.path).value.direction
    && d.boundary + 1 < |NodeAt(node, d.path).value.children|
    && RectAt(node, area, d.path + [d.boundary], split).Some?
    && IsFarEdge(d.axis, RectAt(node, area, d.path + [d.boundary], split).value, d.rect)
  }

  function Deeper(path: SplitPath, d: Divider): Divider {
    d.(path := path + d.path)
  }

  lemma SeamBelow(node: LayoutNode, area: Rect, split: Splitter, d: Divider)
    requires d.path != []
    ensures SeamAt(node, area, split, d)
            <==> node.Split? && !Empty(area) && d.path[0] < Pairs(node.children, ChildRects(node, area, split))
                 && SeamAt(node.children[d.path[0]], ChildRects(node, area, split)[d.path[0]], split,
                           d.(path := d.path[1..]))
  {
    assert (d.path + [d.boundary])[1..] == d.path[1..] + [d.boundary];
  }

  lemma {:induction false} SeamsStartWith(node: LayoutNode, area: Rect, path: SplitPath, split: Splitter)
    ensures forall d :: d in Seams(node, area, path, split) ==> path <= d.path
    decreases node, 0
  {
    if !Empty(area) && node.Split? {
      var rects := ChildRects(node, area, split);
      OwnSeamsIff(node.direction, rects, path, Less(|rects|));
      ChildSeamsStartWith(node.children, rects, Pairs(node.children, rects), path, split);
    }
  }

  lemma {:induction false} ChildSeamsStartWith(
      children: seq<LayoutNode>, rects: seq<Rect>, n: nat, path: SplitPath, split: Splitter)
    requires n <= |children| && n <= |rects|
    ensures forall d :: d in SeamsUpTo(children, rects, n, path, split) ==>
              path < d.path && d.path[|path|] < n
    decreases children, n
  {
    if n > 0 {
      ChildSeamsStartWith(children, rects, n - 1, path, split);
      SeamsStartWith(children[n - 1], rects[n - 1], path + [n - 1], split);
      forall d | d in Seams(children[n - 1], rects[n - 1], path + [n - 1], split)
        ensures path < d.path && d.path[|path|] < n
      {
        assert d.path[|path|] == (path + [n - 1])[|path|];
      }
    }
  }

  lemma {:induction false} OwnSeamsIff(axis: Direction, rects: seq<Rect>, path: SplitPath, n: nat)
    requires n < |rects| || n == 0
    ensures forall d :: d in OwnSeams(axis, rects, path, n)
              <==> d.path == path && d.boundary < n && d.axis == axis && d.rect == SeamRect(axis, rects[d.boundary])
  {
    if n > 0 {
      OwnSeamsIff(axis, rects, path, n - 1);
    }
  }

  lemma FarEdgeIff(axis: Direction, of: Rect, edge: Rect)
    ensures edge == SeamRect(axis, of) <==> IsFarEdge(axis, of, edge)
  {
  }

  /** The seams of a node, listed under the path it is reached by. */
  lemma {:induction false} SeamsIff(node: LayoutNode, area: Rect, path: SplitPath, split: Splitter, d: Divider)
    requires Normal(node) && KeepsCount(split)
    ensures Deeper(path, d) in Seams(node, area, path, split) <==> SeamAt(node, area, split, d)
    decreases node, 0
  {
    if !Empty(area) && node.Split? {
      TotalNeedsRatios(node.ratios);
      var rects := ChildRects(node, area, split);
      OwnSeamsIff(node.direction, rects, path, |rects| - 1);
      ChildSeamsStartWith(node.children, rects, |rects|, path, split);
      if d.path == [] {
        assert path + d.path == path;
        assert d.path + [d.boundary] == [d.boundary];
        if d.boundary < |rects| {
          FarEdgeIff(d.axis, rects[d.boundary], d.rect);
          assert RectAt(node, area, [d.boundary], split) == Some(rects[d.boundary]);
        }
      } else {
        assert |path + d.path| > |path|;
        SeamBelow(node, area, split, d);
        ChildSeamsIff(node.children, rects, |rects|, path, split, d);
      }
    } else if d.path != [] {
      SeamBelow(node, area, split, d);
    }
  }

  lemma {:induction false} ChildSeamsIff(
      children: seq<LayoutNode>, rects: seq<Rect>, n: nat, path: SplitPath, split: Splitter, d: Divider)
    requires n <= |children| == |rects| && KeepsCount(split) && d.path != []
    requires forall i :: 0 <= i < |children| ==> Normal(children[i])
    ensures Deeper(path, d) in SeamsUpTo(children, rects, n, path, split)
            <==> d.path[0] < n && SeamAt(children[d.path[0]], rects[d.path[0]], split, d.(path := d.path[1..]))
    decreases children, n
  {
    if n > 0 {
      ChildSeamsIff(children, rects, n - 1, path, split, d);
      if d.path[0] == n - 1 {
        assert path + d.path == path + [n - 1] + d.path[1..];
        SeamsIff(children[n - 1], rects[n - 1], path + [n - 1], split, d.(path := d.path[1..]));
      } else {
        SeamsStartWith(children[n - 1], rects[n - 1], path + [n - 1], split);
        assert (path + d.path)[|path|] == d.path[0] && (path + [n - 1])[|path|] == n - 1;
      }
    }
  }

  /**
   * Main result on dividers. A divider is listed if and only if its path leads to a visible split and
   * it is the last column or row of a child that has a next one.
   */
  lemma DividersIff(root: LayoutNode, area: Rect, split: Splitter, d: Divider)
    requires Normal(root) && KeepsCount(split)
    ensures d in Seams(root, area, [], split) <==> SeamAt(root, area, split, d)
  {
    assert [] + d.path == d.path;
    SeamsIff(root, area, [], split, d);
  }
}
