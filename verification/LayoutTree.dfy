/** The layout tree: splits, tab groups and leaves, and where a path leads in it. */
module LayoutTrees {
  import opened Prelude

  type PaneId = nat

  datatype Direction = Horizontal | Vertical

  datatype LayoutNode =
    | Split(direction: Direction, ratios: seq<real>, children: seq<LayoutNode>)
    | Tabs(members: seq<PaneId>, active: nat)
    | Leaf(id: PaneId)

  /** The indexes of the children to follow from the root. */
  type SplitPath = seq<nat>

  // ---- Ratios ---------------------------------------------------------------------------------

  /** `f32::EPSILON`. */
  const EPSILON: real := 1.0 / 8388608.0

  function Sum(ratios: seq<real>, n: nat): real
    requires n <= |ratios|
  {
    if n == 0 then 0.0 else Sum(ratios, n - 1) + ratios[n - 1]
  }

  function Total(ratios: seq<real>): real {
    Sum(ratios, |ratios|)
  }

  /** Every ratio divided by their sum. */
  function Scaled(ratios: seq<real>): (r: seq<real>)
    requires Total(ratios) != 0.0
    ensures |r| == |ratios|
  {
    seq(|ratios|, i requires 0 <= i < |ratios| => ratios[i] / Total(ratios))
  }

  lemma {:induction false} SumScaled(ratios: seq<real>, n: nat)
    requires n <= |ratios| && Total(ratios) != 0.0
    ensures Sum(Scaled(ratios), n) == Sum(ratios, n) / Total(ratios)
  {
    if n > 0 {
      SumScaled(ratios, n - 1);
      assert Scaled(ratios)[n - 1] == ratios[n - 1] / Total(ratios);
    }
  }

  /** Scaling makes the sum 1, and changes nothing when it already is. */
  lemma ScaledTotal(ratios: seq<real>)
    requires Total(ratios) != 0.0
    ensures Total(Scaled(ratios)) == 1.0
    ensures Total(ratios) == 1.0 ==> Scaled(ratios) == ratios
  {
    SumScaled(ratios, |ratios|);
    OverItself(Total(ratios));
  }

  lemma OverItself(x: real)
    requires x != 0.0
    ensures x / x == 1.0
  {
  }

  /** Every split has one ratio for each child, and its ratios sum to 1. */
  predicate Normal(node: LayoutNode) {
    node.Split? ==>
      |node.ratios| == |node.children| && Total(node.ratios) == 1.0
      && forall i :: 0 <= i < |node.children| ==> Normal(node.children[i])
  }

  /** `LayoutNode::split`; the preconditions are its assertions. */
  method NewSplit(direction: Direction, ratios: seq<real>, children: seq<LayoutNode>) returns (node: LayoutNode)
    requires children != [] && |ratios| == |children| && Total(ratios) > EPSILON
    requires forall i :: 0 <= i < |children| ==> Normal(children[i])
    ensures Normal(node)
    ensures node.Split? && node.direction == direction && node.children == children
    ensures forall i :: 0 <= i < |ratios| ==> node.ratios[i] * Total(ratios) == ratios[i]
  {
    var sum := 0.0;
    for i := 0 to |ratios|
      invariant sum == Sum(ratios, i)
    {
      sum := sum + ratios[i];
    }
    ScaledTotal(ratios);
    node := Split(direction, seq(|ratios|, i requires 0 <= i < |ratios| => ratios[i] / sum), children);
    assert node.ratios == Scaled(ratios);
  }

  // ---- Pane ids -----------------------------------------------------------------------------------

  /** The ids of a node's leaves and tab members, in tree order. */
  function Ids(node: LayoutNode): seq<PaneId>
    decreases node, 0
  {
    match node
    case Leaf(id) => [id]
    case Tabs(members, _) => members
    case Split(_, _, children) => IdsUpTo(children, |children|)
  }

  function IdsUpTo(children: seq<LayoutNode>, n: nat): seq<PaneId>
    requires n <= |children|
    decreases children, n
  {
    if n == 0 then [] else IdsUpTo(children, n - 1) + Ids(children[n - 1])
  }

  /** Inserting the first `n` ids into `seen`, until one is already there. */
  function InsertAll(ids: seq<PaneId>, n: nat, seen: set<PaneId>): Result<set<PaneId>, PaneId>
    requires n <= |ids|
  {
    if n == 0 then Ok(seen) else
      match InsertAll(ids, n - 1, seen)
      case Err(id) => Err(id)
      case Ok(s) => if ids[n - 1] in s then Err(ids[n - 1]) else Ok(s + {ids[n - 1]})
  }

  lemma {:induction false} InsertAppend(a: seq<PaneId>, b: seq<PaneId>, n: nat, seen: set<PaneId>)
    requires n <= |b|
    ensures InsertAll(a + b, |a| + n, seen) ==
            match InsertAll(a, |a|, seen)
            case Ok(s) => InsertAll(b, n, s)
            case Err(id) => Err(id)
  {
    if n == 0 {
      InsertPrefix(a, b, |a|, seen);
    } else {
      InsertAppend(a, b, n - 1, seen);
    }
  }

  lemma {:induction false} InsertPrefix(a: seq<PaneId>, b: seq<PaneId>, n: nat, seen: set<PaneId>)
    requires n <= |a|
    ensures InsertAll(a + b, n, seen) == InsertAll(a, n, seen)
  {
    if n > 0 {
      InsertPrefix(a, b, n - 1, seen);
    }
  }

  function Checked(node: LayoutNode, seen: set<PaneId>): Result<set<PaneId>, PaneId> {
    InsertAll(Ids(node), |Ids(node)|, seen)
  }

  /** `check_unique`. */
  method CheckUnique(node: LayoutNode, seen: set<PaneId>) returns (r: Result<set<PaneId>, PaneId>)
    ensures r == Checked(node, seen)
    decreases node
  {
    match node {
      case Leaf(id) =>
        assert InsertAll([id], 0, seen) == Ok(seen);
        if id in seen { return Err(id); }
        return Ok(seen + {id});
      case Tabs(members, _) =>
        var s := seen;
        for i := 0 to |members|
          invariant InsertAll(members, i, seen) == Ok(s)
        {
          if members[i] in s {
            InsertStops(members, i + 1, |members|, seen);
            return Err(members[i]);
          }
          s := s + {members[i]};
        }
        return Ok(s);
      case Split(_, _, children) =>
        var s := seen;
        for i := 0 to |children|
          invariant InsertAll(IdsUpTo(children, i), |IdsUpTo(children, i)|, seen) == Ok(s)
        {
          var next := CheckUnique(children[i], s);
          InsertAppend(IdsUpTo(children, i), Ids(children[i]), |Ids(children[i])|, seen);
          if next.Err? {
            LaterChildrenDoNotMatter(children, i + 1, |children|, seen);
            return next;
          }
          s := next.value;
        }
        return Ok(s);
    }
  }

  lemma {:induction false} InsertStops(ids: seq<PaneId>, n: nat, m: nat, seen: set<PaneId>)
    requires n <= m <= |ids| && InsertAll(ids, n, seen).Err?
    ensures InsertAll(ids, m, seen) == InsertAll(ids, n, seen)
  {
    if n < m {
      InsertStops(ids, n, m - 1, seen);
    }
  }

  lemma {:induction false} LaterChildrenDoNotMatter(children: seq<LayoutNode>, n: nat, m: nat, seen: set<PaneId>)
    requires n <= m <= |children|
    requires InsertAll(IdsUpTo(children, n), |IdsUpTo(children, n)|, seen).Err?
    ensures InsertAll(IdsUpTo(children, m), |IdsUpTo(children, m)|, seen)
         == InsertAll(IdsUpTo(children, n), |IdsUpTo(children, n)|, seen)
  {
    if n < m {
      LaterChildrenDoNotMatter(children, n, m - 1, seen);
      InsertAppend(IdsUpTo(children, m - 1), Ids(children[m - 1]), |Ids(children[m - 1])|, seen);
    }
  }

  /** The first id that is there already stands at `k`. */
  ghost predicate FirstRepeat(ids: seq<PaneId>, k: nat) {
    k < |ids| && Distinct(ids[..k]) && ids[k] in ids[..k]
  }

  lemma {:induction false} InsertMeaning(ids: seq<PaneId>, n: nat) returns (k: nat)
    requires n <= |ids|
    ensures InsertAll(ids, n, {}).Ok? ==>
              Distinct(ids[..n]) && InsertAll(ids, n, {}).value == (set id | id in ids[..n])
    ensures InsertAll(ids, n, {}).Err? ==>
              k < n && FirstRepeat(ids, k) && InsertAll(ids, n, {}).error == ids[k]
  {
    k := 0;
    if n > 0 {
      k := InsertMeaning(ids, n - 1);
      if InsertAll(ids, n - 1, {}).Ok? {
        assert ids[..n] == ids[..n - 1] + [ids[n - 1]];
        DistinctSnoc(ids[..n - 1], ids[n - 1]);
        if InsertAll(ids, n, {}).Err? {
          k := n - 1;
        }
      }
    }
  }

  /**
   * `LayoutTree::new` accepts a tree if and only if no pane id occurs twice; otherwise it
   * names the first id that repeats an earlier one.
   */
  lemma UniqueIff(root: LayoutNode)
    ensures Checked(root, {}).Ok? <==> Distinct(Ids(root))
    ensures Checked(root, {}).Err? ==>
              exists k: nat :: FirstRepeat(Ids(root), k) && Ids(root)[k] == Checked(root, {}).error
  {
    var ids := Ids(root);
    var k := InsertMeaning(ids, |ids|);
    assert ids[..|ids|] == ids;
    if Checked(root, {}).Err? {
      var i :| 0 <= i < k && ids[..k][i] == ids[k];
      assert ids[i] == ids[k];
    }
  }

  // ---- Following a path ---------------------------------------------------------------------------

  /** The node a path leads to; not necessarily a split. */
  function NodeAt(node: LayoutNode, path: SplitPath): Option<LayoutNode>
    decreases |path|
  {
    if path == [] then Some(node)
    else if node.Split? && path[0] < |node.children| then NodeAt(node.children[path[0]], path[1..])
    else None
  }

  /** `find_split`: a cursor moves down one child at a time. */
  method FindSplit(root: LayoutNode, path: SplitPath) returns (found: Option<LayoutNode>)
    ensures found == NodeAt(root, path)
  {
    var cursor := root;
    var i := 0;
    while i < |path|
      invariant 0 <= i <= |path|
      invariant NodeAt(cursor, path[i..]) == NodeAt(root, path)
    {
      var rest := path[i..];
      assert rest[0] == path[i] && rest[1..] == path[i + 1..];
      if !cursor.Split? || path[i] >= |cursor.children| {
        return None;
      }
      cursor := cursor.children[path[i]];
      i := i + 1;
    }
    return Some(cursor);
  }

  /** `ratios_at`. */
  function RatiosAt(root: LayoutNode, path: SplitPath): Option<seq<real>> {
    match NodeAt(root, path)
    case Some(node) => if node.Split? then Some(node.ratios) else None
    case None => None
  }

  lemma {:induction false} NodeAtAppend(node: LayoutNode, path: SplitPath, i: nat)
    requires NodeAt(node, path).Some? && NodeAt(node, path).value.Split?
    requires i < |NodeAt(node, path).value.children|
    ensures NodeAt(node, path + [i]) == Some(NodeAt(node, path).value.children[i])
    decreases |path|
  {
    if path == [] {
      assert NodeAt(node.children[i], []) == Some(node.children[i]);
      assert ([] + [i])[1..] == [];
    } else {
      NodeAtAppend(node.children[path[0]], path[1..], i);
      assert (path + [i])[1..] == path[1..] + [i];
    }
  }
}
