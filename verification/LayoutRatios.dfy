/** Moving the seams of a layout: one adjustment, and any run of them. */
module LayoutRatios {
  import opened Prelude
  import opened LayoutTrees

  datatype RatioError =
    | NoSplit(path: SplitPath)
    | BoundaryOutOfRange(boundary: nat, children: nat)
    | BelowMinSize

  // ---- Replacing the ratios of one split ---------------------------------------------------------

  /** The tree with the ratios at `path` replaced. */
  function WithRatios(node: LayoutNode, path: SplitPath, ratios: seq<real>): LayoutNode
    decreases |path|
  {
    if !node.Split? then node
    else if path == [] then node.(ratios := ratios)
    else if path[0] < |node.children| then
      node.(children := node.children[path[0] := WithRatios(node.children[path[0]], path[1..], ratios)])
    else node
  }

  /** The same tree up to the values of the ratios. */
  predicate SameShape(a: LayoutNode, b: LayoutNode) {
    if a.Split? then
      && b.Split? && a.direction == b.direction
      && |a.ratios| == |b.ratios| && |a.children| == |b.children|
      && forall i :: 0 <= i < |a.children| ==> SameShape(a.children[i], b.children[i])
    else a == b
  }

  lemma {:induction false} SameShapeReflexive(a: LayoutNode)
    ensures SameShape(a, a)
  {
    if a.Split? {
      forall i | 0 <= i < |a.children| ensures SameShape(a.children[i], a.children[i]) {
        SameShapeReflexive(a.children[i]);
      }
    }
  }

  lemma {:induction false} SameShapeTransitive(a: LayoutNode, b: LayoutNode, c: LayoutNode)
    requires SameShape(a, b) && SameShape(b, c)
    ensures SameShape(a, c)
  {
    if a.Split? {
      forall i | 0 <= i < |a.children| ensures SameShape(a.children[i], c.children[i]) {
        SameShapeTransitive(a.children[i], b.children[i], c.children[i]);
      }
    }
  }

  lemma {:induction false} WithRatiosShape(node: LayoutNode, path: SplitPath, ratios: seq<real>)
    requires RatiosAt(node, path).Some? && |ratios| == |RatiosAt(node, path).value|
    ensures SameShape(node, WithRatios(node, path, ratios))
    decreases |path|
  {
    var after := WithRatios(node, path, ratios);
    forall i | 0 <= i < |node.children| ensures SameShape(node.children[i], after.children[i]) {
      if path != [] && i == path[0] {
        WithRatiosShape(node.children[i], path[1..], ratios);
      } else {
        SameShapeReflexive(node.children[i]);
      }
    }
  }

  lemma {:induction false} WithRatiosNormal(node: LayoutNode, path: SplitPath, ratios: seq<real>)
    requires RatiosAt(node, path).Some? && |ratios| == |RatiosAt(node, path).value|
    requires Normal(node) && Total(ratios) == 1.0
    ensures Normal(WithRatios(node, path, ratios))
    decreases |path|
  {
    if path != [] {
      WithRatiosNormal(node.children[path[0]], path[1..], ratios);
    }
  }

  /** The split at `path` has the new ratios; every other one is untouched. */
  lemma {:induction false} RatiosAtWith(node: LayoutNode, path: SplitPath, ratios: seq<real>, other: SplitPath)
    requires RatiosAt(node, path).Some?
    ensures RatiosAt(WithRatios(node, path, ratios), other)
         == if other == path then Some(ratios) else RatiosAt(node, other)
    decreases |path|
  {
    if path != [] && other != [] {
      if path[0] == other[0] {
        RatiosAtWith(node.children[path[0]], path[1..], ratios, other[1..]);
        assert path == [path[0]] + path[1..] && other == [other[0]] + other[1..];
      }
    }
  }

  lemma {:induction false} WithRatiosTwice(node: LayoutNode, path: SplitPath, a: seq<real>, b: seq<real>)
    ensures WithRatios(WithRatios(node, path, a), path, b) == WithRatios(node, path, b)
    decreases |path|
  {
    if node.Split? && path != [] && path[0] < |node.children| {
      WithRatiosTwice(node.children[path[0]], path[1..], a, b);
    }
  }

  lemma {:induction false} WithOwnRatios(node: LayoutNode, path: SplitPath)
    requires RatiosAt(node, path).Some?
    ensures WithRatios(node, path, RatiosAt(node, path).value) == node
    decreases |path|
  {
    if path != [] {
      WithOwnRatios(node.children[path[0]], path[1..]);
    }
  }

  /** The ratio count of a normal tree's split is its child count. */
  lemma {:induction false} RatioCount(node: LayoutNode, path: SplitPath)
    requires Normal(node) && RatiosAt(node, path).Some?
    ensures |RatiosAt(node, path).value| == |NodeAt(node, path).value.children|
    ensures Total(RatiosAt(node, path).value) == 1.0
    decreases |path|
  {
    if path != [] {
      RatioCount(node.children[path[0]], path[1..]);
    }
  }

  // ---- The two operations -----------------------------------------------------------------------

  function FloorAt(floors: seq<real>, i: nat): real {
    if i < |floors| then floors[i] else 0.0
  }

  /** `delta` moved across a seam. */
  function Shifted(ratios: seq<real>, boundary: nat, delta: real): (r: seq<real>)
    requires boundary + 1 < |ratios|
    ensures |r| == |ratios|
  {
    ratios[boundary := ratios[boundary] + delta][boundary + 1 := ratios[boundary + 1] - delta]
  }

  /** Both neighbours of a seam meet their floors. */
  predicate AboveFloors(ratios: seq<real>, boundary: nat, floors: seq<real>)
    requires boundary + 1 < |ratios|
  {
    ratios[boundary] >= FloorAt(floors, boundary) && ratios[boundary + 1] >= FloorAt(floors, boundary + 1)
  }

  function Adjusted(root: LayoutNode, path: SplitPath, boundary: nat, delta: real, floors: seq<real>)
    : Result<LayoutNode, RatioError>
  {
    match RatiosAt(root, path)
    case None => Err(NoSplit(path))
    case Some(ratios) =>
      if boundary + 1 >= |ratios| then Err(BoundaryOutOfRange(boundary, |ratios|))
      else if !AboveFloors(Shifted(ratios, boundary, delta), boundary, floors) then Err(BelowMinSize)
      else Ok(WithRatios(root, path, Shifted(ratios, boundary, delta)))
  }

  function Reset(root: LayoutNode, path: SplitPath, newRatios: seq<real>): Result<LayoutNode, RatioError> {
    match RatiosAt(root, path)
    case None => Err(NoSplit(path))
    case Some(ratios) =>
      if |newRatios| != |ratios| then Err(BoundaryOutOfRange(|newRatios|, |ratios|))
      else if Total(newRatios) <= EPSILON then Err(BelowMinSize)
      else Ok(WithRatios(root, path, Scaled(newRatios)))
  }

  class LayoutTree {
    var root: LayoutNode

    constructor (node: LayoutNode)
      ensures root == node
    {
      root := node;
    }

    /** `adjust_ratio`; a refused call leaves the tree alone. */
    method AdjustRatio(path: SplitPath, boundary: nat, delta: real, floors: seq<real>)
      returns (error: Option<RatioError>)
      modifies this
      ensures match Adjusted(old(root), path, boundary, delta, floors)
              case Ok(after) => error == None && root == after
              case Err(e) => error == Some(e) && root == old(root)
    {
      var node := FindSplit(root, path);
      if node.None? || !node.value.Split? { return Some(NoSplit(path)); }
      var ratios := node.value.ratios;
      var n := |ratios|;
      if boundary + 1 >= n { return Some(BoundaryOutOfRange(boundary, n)); }
      var a := ratios[boundary] + delta;
      var b := ratios[boundary + 1] - delta;
      if a < FloorAt(floors, boundary) || b < FloorAt(floors, boundary + 1) { return Some(BelowMinSize); }
      ratios := ratios[boundary := a];
      ratios := ratios[boundary + 1 := b];
      root := WithRatios(root, path, ratios);
      return None;
    }

    /** `set_ratios`; a refused call leaves the tree alone. */
    method SetRatios(path: SplitPath, newRatios: seq<real>) returns (error: Option<RatioError>)
      modifies this
      ensures match Reset(old(root), path, newRatios)
              case Ok(after) => error == None && root == after
              case Err(e) => error == Some(e) && root == old(root)
    {
      var node := FindSplit(root, path);
      if node.None? || !node.value.Split? { return Some(NoSplit(path)); }
      var ratios := node.value.ratios;
      if |newRatios| != |ratios| { return Some(BoundaryOutOfRange(|newRatios|, |ratios|)); }
      var sum := 0.0;
      for i := 0 to |newRatios|
        invariant sum == Sum(newRatios, i)
      {
        sum := sum + newRatios[i];
      }
      if sum <= EPSILON { return Some(BelowMinSize); }
      root := WithRatios(root, path, Scaled(newRatios));
      return None;
    }
  }

  // ---- One step -----------------------------------------------------------------------------------

  lemma {:induction false} SumUpdate(ratios: seq<real>, n: nat, i: nat, x: real)
    requires n <= |ratios| && i < |ratios|
    ensures Sum(ratios[i := x], n) == Sum(ratios, n) + if i < n then x - ratios[i] else 0.0
  {
    if n > 0 {
      SumUpdate(ratios, n - 1, i, x);
    }
  }

  lemma ShiftedTotal(ratios: seq<real>, boundary: nat, delta: real)
    requires boundary + 1 < |ratios|
    ensures Total(Shifted(ratios, boundary, delta)) == Total(ratios)
  {
    var half := ratios[boundary := ratios[boundary] + delta];
    SumUpdate(ratios, |ratios|, boundary, ratios[boundary] + delta);
    SumUpdate(half, |ratios|, boundary + 1, ratios[boundary + 1] - delta);
  }

  /** A request to move a seam or to overwrite the ratios of a split. */
  datatype Change =
    | Adjust(path: SplitPath, boundary: nat, delta: real, floors: seq<real>)
    | Overwrite(path: SplitPath, ratios: seq<real>)

  /** A refused request changes nothing. */
  function Changed(root: LayoutNode, c: Change): LayoutNode {
    var r := match c
      case Adjust(path, boundary, delta, floors) => Adjusted(root, path, boundary, delta, floors)
      case Overwrite(path, ratios) => Reset(root, path, ratios);
    match r
    case Ok(after) => after
    case Err(_) => root
  }

  lemma ChangedKeeps(root: LayoutNode, c: Change, other: SplitPath)
    requires Normal(root)
    ensures Normal(Changed(root, c)) && SameShape(root, Changed(root, c))
    ensures other != c.path ==> RatiosAt(Changed(root, c), other) == RatiosAt(root, other)
  {
    SameShapeReflexive(root);
    var found := RatiosAt(root, c.path);
    if found.Some? && Changed(root, c) != root {
      var ratios := match c
        case Adjust(path, boundary, delta, floors) => Shifted(found.value, boundary, delta)
        case Overwrite(path, r) => Scaled(r);
      RatioCount(root, c.path);
      match c {
        case Adjust(path, boundary, delta, floors) => ShiftedTotal(found.value, boundary, delta);
        case Overwrite(path, r) => ScaledTotal(r);
      }
      WithRatiosShape(root, c.path, ratios);
      WithRatiosNormal(root, c.path, ratios);
      RatiosAtWith(root, c.path, ratios, other);
    }
  }

  // ---- Any run ------------------------------------------------------------------------------------

  function AfterChanges(root: LayoutNode, changes: seq<Change>, n: nat): LayoutNode
    requires n <= |changes|
  {
    if n == 0 then root else Changed(AfterChanges(root, changes, n - 1), changes[n - 1])
  }

  /**
   * Main result. Over any run of adjustments and overwrites, accepted or refused, the
   * ratios of every split sum to 1, the shape of the tree stays the same, and a
   * split that no request names keeps its ratios.
   */
  lemma {:induction false} RunKeeps(root: LayoutNode, changes: seq<Change>, n: nat, other: SplitPath)
    requires Normal(root) && n <= |changes|
    ensures Normal(AfterChanges(root, changes, n)) && SameShape(root, AfterChanges(root, changes, n))
    ensures (forall i :: 0 <= i < n ==> changes[i].path != other) ==>
              RatiosAt(AfterChanges(root, changes, n), other) == RatiosAt(root, other)
  {
    if n == 0 {
      SameShapeReflexive(root);
    } else {
      RunKeeps(root, changes, n - 1, other);
      var before := AfterChanges(root, changes, n - 1);
      ChangedKeeps(before, changes[n - 1], other);
      SameShapeTransitive(root, before, AfterChanges(root, changes, n));
    }
  }

  lemma {:induction false} ShiftedSum(ratios: seq<real>, boundary: nat, delta: real, n: nat)
    requires boundary + 1 < |ratios| && n <= |ratios|
    ensures Sum(Shifted(ratios, boundary, delta), n) == Sum(ratios, n) + if n == boundary + 1 then delta else 0.0
  {
    if n > 0 {
      ShiftedSum(ratios, boundary, delta, n - 1);
    }
  }

  /** A neighbour of a seam is large enough: it has its floor, or none and is not negative. */
  predicate LargeEnough(ratio: real, floors: seq<real>, i: nat) {
    if i < |floors| then ratio >= floors[i] else ratio >= 0.0
  }

  /** An adjustment is accepted if and only if the seam is there and both neighbours stay large enough. */
  lemma AdjustAcceptedIff(root: LayoutNode, path: SplitPath, boundary: nat, delta: real, floors: seq<real>)
    ensures Adjusted(root, path, boundary, delta, floors).Ok?
            <==> && RatiosAt(root, path).Some?
                 && var ratios := RatiosAt(root, path).value;
                 && boundary + 1 < |ratios|
                 && LargeEnough(ratios[boundary] + delta, floors, boundary)
                 && LargeEnough(ratios[boundary + 1] - delta, floors, boundary + 1)
  {
  }

  /**
   * An accepted adjustment moves one seam by `delta` towards the end and no other: the ratios up
   * to it grow by `delta` in all, the ratio before it grows, the one behind it shrinks.
   */
  lemma AdjustMovesSeam(root: LayoutNode, path: SplitPath, boundary: nat, delta: real, floors: seq<real>)
    requires Adjusted(root, path, boundary, delta, floors).Ok?
    ensures var was := RatiosAt(root, path);
            var now := RatiosAt(Adjusted(root, path, boundary, delta, floors).value, path);
            && was.Some? && now.Some? && |now.value| == |was.value| && boundary + 1 < |was.value|
            && (forall n :: 0 <= n <= |was.value| ==>
                  Sum(now.value, n) == Sum(was.value, n) + if n == boundary + 1 then delta else 0.0)
            && now.value[boundary] == was.value[boundary] + delta
            && now.value[boundary + 1] == was.value[boundary + 1] - delta
  {
    var was := RatiosAt(root, path).value;
    RatiosAtWith(root, path, Shifted(was, boundary, delta), path);
    forall n | 0 <= n <= |was|
      ensures Sum(Shifted(was, boundary, delta), n) == Sum(was, n) + if n == boundary + 1 then delta else 0.0
    {
      ShiftedSum(was, boundary, delta, n);
    }
  }

  /** An accepted overwrite sets the ratios in the proportions given. */
  lemma OverwriteScales(root: LayoutNode, path: SplitPath, newRatios: seq<real>)
    requires Reset(root, path, newRatios).Ok?
    ensures var now := RatiosAt(Reset(root, path, newRatios).value, path);
            && now.Some? && |now.value| == |newRatios|
            && forall i :: 0 <= i < |newRatios| ==> now.value[i] * Total(newRatios) == newRatios[i]
  {
    RatiosAtWith(root, path, Scaled(newRatios), path);
    forall i | 0 <= i < |newRatios| ensures Scaled(newRatios)[i] * Total(newRatios) == newRatios[i] {
    }
  }

  lemma ShiftedBack(ratios: seq<real>, boundary: nat, delta: real)
    requires boundary + 1 < |ratios|
    ensures Shifted(Shifted(ratios, boundary, delta), boundary, -delta) == ratios
  {
  }

  /**
   * After an accepted adjustment, the opposite one is accepted if and only if the
   * original ratios met the floors, and it then restores the tree.
   */
  lemma AdjustBackIff(root: LayoutNode, path: SplitPath, boundary: nat, delta: real, floors: seq<real>)
    requires Adjusted(root, path, boundary, delta, floors).Ok?
    ensures var after := Adjusted(root, path, boundary, delta, floors).value;
            Adjusted(after, path, boundary, -delta, floors)
            == if AboveFloors(RatiosAt(root, path).value, boundary, floors) then Ok(root) else Err(BelowMinSize)
  {
    var ratios := RatiosAt(root, path).value;
    var moved := Shifted(ratios, boundary, delta);
    RatiosAtWith(root, path, moved, path);
    ShiftedBack(ratios, boundary, delta);
    WithRatiosTwice(root, path, moved, ratios);
    WithOwnRatios(root, path);
  }

  /** Dragging from a baseline: overwriting with the ratios a split has had restores them, whatever happened to it. */
  lemma OverwriteRestores(root: LayoutNode, path: SplitPath, changes: seq<Change>)
    requires Normal(root) && RatiosAt(root, path).Some?
    requires forall i :: 0 <= i < |changes| ==> changes[i].path == path
    ensures Reset(AfterChanges(root, changes, |changes|), path, RatiosAt(root, path).value) == Ok(root)
  {
    var ratios := RatiosAt(root, path).value;
    RatioCount(root, path);
    ScaledTotal(ratios);
    OnlyThatSplit(root, path, changes, |changes|);
    var last := RatiosAt(AfterChanges(root, changes, |changes|), path).value;
    WithRatiosTwice(root, path, last, ratios);
    WithOwnRatios(root, path);
  }

  /** Changes to one split differ from the tree in the ratios of that split only. */
  lemma {:induction false} OnlyThatSplit(root: LayoutNode, path: SplitPath, changes: seq<Change>, n: nat)
    requires Normal(root) && RatiosAt(root, path).Some? && n <= |changes|
    requires forall i :: 0 <= i < |changes| ==> changes[i].path == path
    ensures var after := AfterChanges(root, changes, n);
            RatiosAt(after, path).Some?
            && |RatiosAt(after, path).value| == |RatiosAt(root, path).value|
            && after == WithRatios(root, path, RatiosAt(after, path).value)
  {
    if n == 0 {
      WithOwnRatios(root, path);
    } else {
      OnlyThatSplit(root, path, changes, n - 1);
      var before, after := AfterChanges(root, changes, n - 1), AfterChanges(root, changes, n);
      var old0 := RatiosAt(before, path).value;
      if after != before {
        var c := changes[n - 1];
        var ratios := match c
          case Adjust(_, boundary, delta, floors) => Shifted(old0, boundary, delta)
          case Overwrite(_, r) => Scaled(r);
        RatiosAtWith(before, path, ratios, path);
        WithRatiosTwice(root, path, old0, ratios);
      }
    }
  }
}
