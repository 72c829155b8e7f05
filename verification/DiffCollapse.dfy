/** Shutting and opening every directory at once. */
module DiffCollapse {
  import opened DiffParser
  import opened DiffTree
  import opened DiffTreeToggle
  import opened DiffTreeBuild
  import opened DiffRebuild

  /** `collapse_recursive`: shuts an open directory and goes on below it; a shut one is left as it is. */
  function Collapse(n: Node): Node
    decreases Size(n), 0
  {
    match n
    case File(_, _, _, _) => n
    case Dir(name, expanded, children) => if expanded then Dir(name, false, CollapseEach(children)) else n
  }

  function CollapseEach(ns: seq<Node>): seq<Node>
    decreases SizeAll(ns), 1
  {
    if ns == [] then [] else [Collapse(ns[0])] + CollapseEach(ns[1..])
  }

  /** `expand_recursive`: opens every directory. */
  function Expand(n: Node): Node
    decreases Size(n), 0
  {
    match n
    case File(_, _, _, _) => n
    case Dir(name, _, children) => Dir(name, true, ExpandEach(children))
  }

  function ExpandEach(ns: seq<Node>): seq<Node>
    decreases SizeAll(ns), 1
  {
    if ns == [] then [] else [Expand(ns[0])] + ExpandEach(ns[1..])
  }

  // ---- The tree stays a tree of the diff --------------------------------------------------

  lemma {:induction false} CollapseKeeps(n: Node, depth: nat, prefix: string)
    ensures Collapse(n).Dir? == n.Dir? && Collapse(n).name == n.name
    ensures LeafRows(Collapse(n), depth, prefix) == LeafRows(n, depth, prefix)
    ensures WellFormed(n) ==> WellFormed(Collapse(n))
    decreases Size(n), 0
  {
    if n.Dir? && n.expanded {
      CollapseEachKeeps(n.children, ChildDepth(n.name, depth), PathId(prefix, n.name));
    }
  }

  lemma {:induction false} CollapseEachKeeps(ns: seq<Node>, depth: nat, prefix: string)
    ensures LeafRowsAll(CollapseEach(ns), depth, prefix) == LeafRowsAll(ns, depth, prefix)
    ensures DirNames(CollapseEach(ns)) == DirNames(ns)
    ensures WellFormedAll(ns) ==> WellFormedAll(CollapseEach(ns))
    decreases SizeAll(ns), 1
  {
    if ns != [] {
      CollapseKeeps(ns[0], depth, prefix);
      CollapseEachKeeps(ns[1..], depth, prefix);
      assert CollapseEach(ns)[1..] == CollapseEach(ns[1..]);
    }
  }

  lemma {:induction false} ExpandKeeps(n: Node, depth: nat, prefix: string)
    ensures Expand(n).Dir? == n.Dir? && Expand(n).name == n.name && AllExpanded(Expand(n))
    ensures LeafRows(Expand(n), depth, prefix) == LeafRows(n, depth, prefix)
    ensures WellFormed(n) ==> WellFormed(Expand(n))
    decreases Size(n), 0
  {
    if n.Dir? {
      ExpandEachKeeps(n.children, ChildDepth(n.name, depth), PathId(prefix, n.name));
    }
  }

  lemma {:induction false} ExpandEachKeeps(ns: seq<Node>, depth: nat, prefix: string)
    ensures LeafRowsAll(ExpandEach(ns), depth, prefix) == LeafRowsAll(ns, depth, prefix)
    ensures DirNames(ExpandEach(ns)) == DirNames(ns) && AllExpandedAll(ExpandEach(ns))
    ensures WellFormedAll(ns) ==> WellFormedAll(ExpandEach(ns))
    decreases SizeAll(ns), 1
  {
    if ns != [] {
      ExpandKeeps(ns[0], depth, prefix);
      ExpandEachKeeps(ns[1..], depth, prefix);
      assert ExpandEach(ns)[1..] == ExpandEach(ns[1..]);
    }
  }

  /** Both leave it a tree of the same diff. */
  lemma CollapseKeepsTree(st: State, root: Node)
    requires TreeOf(st, root)
    ensures TreeOf(st, Collapse(root))
  {
    CollapseKeeps(root, 0, "");
  }

  /** After `expand_all` the list shows every file of the diff exactly once, whatever was shut. */
  lemma ExpandShowsEveryFile(st: State, root: Node)
    requires TreeOf(st, root)
    ensures TreeOf(st, Expand(root))
    ensures FileRows(Flatten(Expand(root), 0, "")) == multiset(RowsFor(st.files, st.counts))
  {
    ExpandKeeps(root, 0, "");
    FlattenShowsAllFiles(Expand(root), 0, "");
  }

  // ---- What `collapse_all` leaves open --------------------------------------------------------

  predicate AllShut(n: Node)
    decreases Size(n), 0
  {
    n.Dir? ==> !n.expanded && EachShut(n.children)
  }

  predicate EachShut(ns: seq<Node>)
    decreases SizeAll(ns), 1
  {
    ns != [] ==> AllShut(ns[0]) && EachShut(ns[1..])
  }

  /** No open directory lies below a shut one. */
  predicate OpenFromTop(n: Node)
    decreases Size(n), 0
  {
    n.Dir? ==> if n.expanded then EachOpenFromTop(n.children) else EachShut(n.children)
  }

  predicate EachOpenFromTop(ns: seq<Node>)
    decreases SizeAll(ns), 1
  {
    ns != [] ==> OpenFromTop(ns[0]) && EachOpenFromTop(ns[1..])
  }

  /** `collapse_all` shuts every directory if and only if no open one lies below a shut one. */
  lemma {:induction false} CollapseShutsAllIff(n: Node)
    ensures AllShut(Collapse(n)) <==> OpenFromTop(n)
    decreases Size(n), 0
  {
    if n.Dir? && n.expanded {
      CollapseShutsEachIff(n.children);
    }
  }

  lemma {:induction false} CollapseShutsEachIff(ns: seq<Node>)
    ensures EachShut(CollapseEach(ns)) <==> EachOpenFromTop(ns)
    decreases SizeAll(ns), 1
  {
    if ns != [] {
      CollapseShutsAllIff(ns[0]);
      CollapseShutsEachIff(ns[1..]);
      assert CollapseEach(ns)[1..] == CollapseEach(ns[1..]);
    }
  }

  /** A run of toggles. */
  function Toggled(root: Node, ids: seq<string>): Node {
    if ids == [] then root else Toggle(Toggled(root, ids[..|ids| - 1]), ids[|ids| - 1], "").0
  }

  lemma {:induction false} ToggledKeepsRoot(root: Node, ids: seq<string>)
    requires root.Dir? && root.name == ROOT && ROOT !in ids
    ensures Toggled(root, ids).Dir? && Toggled(root, ids).name == ROOT
    ensures Toggled(root, ids).expanded == root.expanded
  {
    if ids != [] {
      var init, last := ids[..|ids| - 1], ids[|ids| - 1];
      assert last in ids && ROOT !in init;
      ToggledKeepsRoot(root, init);
    }
  }

  /**
   * The first `collapse_all` also shuts the root, which shows its children all the same, and
   * after that `collapse_all` does nothing: whatever directories are toggled in
   * between, it leaves the tree as it is.
   */
  lemma LaterCollapseDoesNothing(root: Node, ids: seq<string>)
    requires root.Dir? && root.name == ROOT && ROOT !in ids
    ensures Collapse(Toggled(Collapse(root), ids)) == Toggled(Collapse(root), ids)
  {
    CollapseKeeps(root, 0, "");
    ToggledKeepsRoot(Collapse(root), ids);
  }

  /** No row is the root's, so no run of toggles on visible rows opens it again. */
  lemma NoRowIsTheRoot(st: State, root: Node, i: nat)
    requires TreeOf(st, root) && i < |Flatten(root, 0, "")|
    ensures Flatten(root, 0, "")[i].pathId != ROOT
  {
    RowIdsStartAtRoot(root, i);
  }

  /** A directory opened again after a `collapse_all` survives the next one. */
  lemma ReopenedStaysOpen(st: State, root: Node, i: nat)
    requires TreeOf(st, root) && i < |Flatten(Collapse(root), 0, "")| && Flatten(Collapse(root), 0, "")[i].isDir
    requires !Flatten(Collapse(root), 0, "")[i].expanded
    ensures var shut := Collapse(root);
            var reopened := Toggle(shut, Flatten(shut, 0, "")[i].pathId, "").0;
            var rows := Flatten(Collapse(reopened), 0, "");
            i < |rows| && rows[i].isDir && rows[i].expanded
  {
    var shut := Collapse(root);
    var id := Flatten(shut, 0, "")[i].pathId;
    CollapseKeepsTree(st, root);
    NoRowIsTheRoot(st, shut, i);
    var c := ToggleChangesOneBlock(shut, i);
    assert Opened(c)[i] == c.row.(expanded := true) && Shut(c)[i] == c.row.(expanded := false);
    assert [id][..0] == [] && Toggled(shut, [id]) == Toggle(shut, id, "").0;
    LaterCollapseDoesNothing(root, [id]);
  }
}
