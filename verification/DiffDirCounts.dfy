/** Copying directory totals into the flattened list with an explicit stack. */
module DiffDirCounts {
  import opened Prelude
  import opened DiffLines
  import opened DiffTree
  import opened DiffTreeToggle
  import opened DiffTreeBuild

  // ---- The stack walk --------------------------------------------------------------

  /** Index of the first directory row with that id, or the length. */
  function FindRow(flat: seq<FlatRow>, id: string): (i: nat)
    ensures i <= |flat|
    ensures i < |flat| ==> flat[i].isDir && flat[i].pathId == id
    ensures forall j :: 0 <= j < i ==> !(flat[j].isDir && flat[j].pathId == id)
  {
    if flat == [] || (flat[0].isDir && flat[0].pathId == id) then 0 else 1 + FindRow(flat[1..], id)
  }

  /** The first directory row with that id gets the totals of `n`. */
  function SetCounts(flat: seq<FlatRow>, id: string, n: Node): (out: seq<FlatRow>)
    ensures |out| == |flat|
  {
    var i := FindRow(flat, id);
    if i < |flat| then flat[i := WithTotals(flat[i], Some(n))] else flat
  }

  function WithTotals(row: FlatRow, n: Option<Node>): FlatRow {
    if row.isDir && n.Some? then row.(adds := Total(New, n.value), dels := Total(Old, n.value)) else row
  }

  /** The walk as a recursion: a directory before its children, children in order. */
  function ApplyCounts(n: Node, prefix: string, flat: seq<FlatRow>): (out: seq<FlatRow>)
    ensures |out| == |flat|
    decreases Size(n), 0
  {
    match n
    case File(_, _, _, _) => flat
    case Dir(name, _, children) =>
      ApplyAll(children, PathId(prefix, name), SetCounts(flat, PathId(prefix, name), n))
  }

  function ApplyAll(ns: seq<Node>, prefix: string, flat: seq<FlatRow>): (out: seq<FlatRow>)
    ensures |out| == |flat|
    decreases SizeAll(ns), 1
  {
    if ns == [] then flat else ApplyAll(ns[1..], prefix, ApplyCounts(ns[0], prefix, flat))
  }

  datatype Frame = Frame(node: Node, prefix: string)

  function StackSize(stack: seq<Frame>): nat {
    if stack == [] then 0 else StackSize(stack[..|stack| - 1]) + Size(stack[|stack| - 1].node)
  }

  /** What remains to be done when `stack` is pending, its last frame first. */
  function ApplyStack(stack: seq<Frame>, flat: seq<FlatRow>): seq<FlatRow> {
    if stack == [] then flat else
      var top := stack[|stack| - 1];
      ApplyStack(stack[..|stack| - 1], ApplyCounts(top.node, top.prefix, flat))
  }

  function Reversed(ns: seq<Node>, prefix: string): seq<Frame> {
    if ns == [] then [] else Reversed(ns[1..], prefix) + [Frame(ns[0], prefix)]
  }

  lemma {:induction false} ApplyReversed(stack: seq<Frame>, ns: seq<Node>, prefix: string, flat: seq<FlatRow>)
    ensures ApplyStack(stack + Reversed(ns, prefix), flat) == ApplyStack(stack, ApplyAll(ns, prefix, flat))
    ensures StackSize(stack + Reversed(ns, prefix)) == StackSize(stack) + SizeAll(ns)
  {
    if ns == [] {
      assert stack + Reversed(ns, prefix) == stack;
    } else {
      var pushed := stack + Reversed(ns, prefix);
      assert pushed[..|pushed| - 1] == stack + Reversed(ns[1..], prefix);
      ApplyReversed(stack, ns[1..], prefix, ApplyCounts(ns[0], prefix, flat));
    }
  }

  /** `copy_dir_counts_to_flat`. */
  method CopyDirCountsToFlat(root: Node, flat: seq<FlatRow>) returns (out: seq<FlatRow>)
    ensures out == ApplyCounts(root, "", flat)
  {
    out := flat;
    var stack := [Frame(root, "")];
    assert stack[..0] == [];
    while stack != []
      invariant ApplyStack(stack, out) == ApplyCounts(root, "", flat)
      decreases StackSize(stack)
    {
      var top := stack[|stack| - 1];
      stack := stack[..|stack| - 1];
      if top.node.Dir? {
        var id := PathId(top.prefix, top.node.name);
        out := SetCounts(out, id, top.node);
        ghost var base := stack;
        var i := |top.node.children|;
        while i > 0
          invariant 0 <= i <= |top.node.children|
          invariant stack == base + Reversed(top.node.children[i..], id)
        {
          i := i - 1;
          assert top.node.children[i..][1..] == top.node.children[i + 1..];
          stack := stack + [Frame(top.node.children[i], id)];
        }
        assert top.node.children[0..] == top.node.children;
        ApplyReversed(base, top.node.children, id, out);
      }
    }
  }

  // ---- Which row gets which total --------------------------------------------------------

  ghost predicate UniqueDirIds(rows: seq<FlatRow>) {
    forall i, j :: 0 <= i < j < |rows| && rows[i].isDir && rows[j].isDir ==> rows[i].pathId != rows[j].pathId
  }

  /** The directory with that id; the last one visited, should there be several. */
  function Lookup(n: Node, prefix: string, id: string): Option<Node>
    decreases Size(n), 0
  {
    match n
    case File(_, _, _, _) => None
    case Dir(name, _, children) =>
      var below := LookupAll(children, PathId(prefix, name), id);
      if below.Some? then below
      else if PathId(prefix, name) == id then Some(n) else None
  }

  function LookupAll(ns: seq<Node>, prefix: string, id: string): Option<Node>
    decreases SizeAll(ns), 1
  {
    if ns == [] then None else
      var later := LookupAll(ns[1..], prefix, id);
      if later.Some? then later else Lookup(ns[0], prefix, id)
  }

  lemma SetCountsAt(flat: seq<FlatRow>, id: string, n: Node, i: nat)
    requires UniqueDirIds(flat) && i < |flat|
    ensures SetCounts(flat, id, n)[i] == WithTotals(flat[i], if flat[i].pathId == id then Some(n) else None)
    ensures UniqueDirIds(SetCounts(flat, id, n))
  {
    var k := FindRow(flat, id);
    if flat[i].isDir && flat[i].pathId == id {
      assert k <= i;
    }
  }

  lemma {:induction false} ApplyCountsAt(n: Node, prefix: string, flat: seq<FlatRow>, i: nat)
    requires UniqueDirIds(flat) && i < |flat|
    ensures ApplyCounts(n, prefix, flat)[i] == WithTotals(flat[i], Lookup(n, prefix, flat[i].pathId))
    ensures UniqueDirIds(ApplyCounts(n, prefix, flat))
    decreases Size(n), 0
  {
    if n.Dir? {
      var id := PathId(prefix, n.name);
      SetCountsAt(flat, id, n, i);
      ApplyAllAt(n.children, id, SetCounts(flat, id, n), i);
    }
  }

  lemma {:induction false} ApplyAllAt(ns: seq<Node>, prefix: string, flat: seq<FlatRow>, i: nat)
    requires UniqueDirIds(flat) && i < |flat|
    ensures ApplyAll(ns, prefix, flat)[i] == WithTotals(flat[i], LookupAll(ns, prefix, flat[i].pathId))
    ensures UniqueDirIds(ApplyAll(ns, prefix, flat))
    decreases SizeAll(ns), 1
  {
    if ns != [] {
      ApplyCountsAt(ns[0], prefix, flat, i);
      ApplyAllAt(ns[1..], prefix, ApplyCounts(ns[0], prefix, flat), i);
    }
  }

  // ---- Ids of visible directories are unique ------------------------------------------------

  lemma UniqueConcat(a: seq<FlatRow>, b: seq<FlatRow>)
    requires UniqueDirIds(a) && UniqueDirIds(b)
    requires forall r, s :: r in a && s in b && r.isDir && s.isDir ==> r.pathId != s.pathId
    ensures UniqueDirIds(a + b)
  {
    var all := a + b;
    forall i, j | 0 <= i < j < |all| && all[i].isDir && all[j].isDir
      ensures all[i].pathId != all[j].pathId
    {
      if i < |a| <= j {
        assert all[i] in a && all[j] in b;
      }
    }
  }

  lemma {:induction false} FlattenUnique(n: Node, depth: nat, prefix: string)
    requires WellFormed(n) && PathId(prefix, n.name) != ""
    ensures UniqueDirIds(Flatten(n, depth, prefix))
    decreases Size(n), 0
  {
    if n.Dir? {
      var id := PathId(prefix, n.name);
      var sorted := Sort(n.children);
      SortSize(n.children);
      SortWellFormed(n.children);
      FlattenAllUnique(sorted, ChildDepth(n.name, depth), id);
      FlattenAllIds(sorted, ChildDepth(n.name, depth), id);
      UniqueConcat(if n.name != ROOT then [DirRow(n, depth, prefix)] else [],
                   if n.name == ROOT || n.expanded then FlattenAll(sorted, ChildDepth(n.name, depth), id) else []);
    }
  }

  lemma {:induction false} FlattenAllUnique(ns: seq<Node>, depth: nat, prefix: string)
    requires WellFormedAll(ns) && prefix != ""
    ensures UniqueDirIds(FlattenAll(ns, depth, prefix))
    decreases SizeAll(ns), 1
  {
    if ns != [] {
      var first, rest := Flatten(ns[0], depth, prefix), FlattenAll(ns[1..], depth, prefix);
      FlattenUnique(ns[0], depth, prefix);
      FlattenAllUnique(ns[1..], depth, prefix);
      forall r, s | r in first && s in rest && r.isDir && s.isDir ensures r.pathId != s.pathId {
        FirstApartFromRest(ns, depth, prefix, r, s);
      }
      UniqueConcat(first, rest);
    }
  }

  lemma FirstApartFromRest(ns: seq<Node>, depth: nat, prefix: string, r: FlatRow, s: FlatRow)
    requires WellFormedAll(ns) && prefix != "" && ns != []
    requires r in Flatten(ns[0], depth, prefix) && r.isDir
    requires s in FlattenAll(ns[1..], depth, prefix) && s.isDir
    ensures r.pathId != s.pathId
  {
    FlattenIds(ns[0], depth, prefix);
    var i :| 0 <= i < |Flatten(ns[0], depth, prefix)| && Flatten(ns[0], depth, prefix)[i] == r;
    DirRowsInDirs(ns[0], depth, prefix, i);
    var rest := FlattenAll(ns[1..], depth, prefix);
    var j :| 0 <= j < |rest| && rest[j] == s;
    var owner := OwnerAmong(ns[1..], depth, prefix, j);
    if r.pathId == s.pathId {
      OwnerUnique(prefix, ns[0].name, owner, r.pathId);
    }
  }

  // ---- A directory's total is the sum over the files below it ---------------------------------

  function AmountBelow(side: Side, row: FlatRow, id: string): nat {
    if row.isDir || !Under(row.pathId, id) then 0 else Amount(side, row.adds, row.dels)
  }

  /** Sum over the file rows of the list that lie below `id`. */
  function SumBelow(side: Side, rows: seq<FlatRow>, id: string): nat {
    if rows == [] then 0 else AmountBelow(side, rows[0], id) + SumBelow(side, rows[1..], id)
  }

  lemma SumBelowCons(side: Side, row: FlatRow, rest: seq<FlatRow>, id: string)
    ensures SumBelow(side, [row] + rest, id) == AmountBelow(side, row, id) + SumBelow(side, rest, id)
  {
    assert ([row] + rest)[1..] == rest;
  }

  lemma {:induction false} SumBelowConcat(side: Side, a: seq<FlatRow>, b: seq<FlatRow>, id: string)
    ensures SumBelow(side, a + b, id) == SumBelow(side, a, id) + SumBelow(side, b, id)
  {
    if a == [] {
      assert a + b == b;
    } else {
      assert a + b == [a[0]] + (a[1..] + b);
      SumBelowCons(side, a[0], a[1..] + b, id);
      SumBelowConcat(side, a[1..], b, id);
    }
  }

  lemma {:induction false} SumBelowNone(side: Side, rows: seq<FlatRow>, id: string)
    requires NoneUnder(rows, id)
    ensures SumBelow(side, rows, id) == 0
  {
    if rows != [] {
      SumBelowNone(side, rows[1..], id);
    }
  }

  /** When the whole list lies below `id` the sum is the tree's total. */
  lemma {:induction false} SumIsTotal(side: Side, n: Node, depth: nat, prefix: string, id: string)
    requires AllExpanded(n) && AllUnder(Flatten(n, depth, prefix), id)
    ensures SumBelow(side, Flatten(n, depth, prefix), id) == Total(side, n)
    decreases Size(n), 0
  {
    match n
    case File(_, _, _, _) =>
      SumBelowCons(side, FileRow(n, depth, prefix), [], id);
    case Dir(name, _, children) =>
      SortSize(children);
      SortExpanded(children);
      BelowAllUnder(n, depth, prefix, id);
      HeadCountsNothing(side, n, depth, prefix, id);
      SumIsTotalAll(side, Sort(children), ChildDepth(name, depth), PathId(prefix, name), id);
      TotalSorted(side, children);
  }

  lemma AllUnderParts(a: seq<FlatRow>, b: seq<FlatRow>, id: string)
    requires AllUnder(a + b, id)
    ensures AllUnder(a, id) && AllUnder(b, id)
  {
    AllUnderIff(a + b, id);
    AllUnderIff(a, id);
    AllUnderIff(b, id);
  }

  lemma BelowAllUnder(n: Node, depth: nat, prefix: string, id: string)
    requires n.Dir? && n.expanded && AllUnder(Flatten(n, depth, prefix), id)
    ensures AllUnder(RowsBelow(n, depth, prefix), id)
  {
    AllUnderParts(if n.name != ROOT then [DirRow(n, depth, prefix)] else [], RowsBelow(n, depth, prefix), id);
  }

  /** A directory's own row adds nothing to a sum over the rows of its subtree. */
  lemma HeadCountsNothing(side: Side, n: Node, depth: nat, prefix: string, id: string)
    requires n.Dir? && (n.expanded || n.name == ROOT)
    ensures SumBelow(side, Flatten(n, depth, prefix), id) == SumBelow(side, RowsBelow(n, depth, prefix), id)
  {
    var below := RowsBelow(n, depth, prefix);
    if n.name != ROOT {
      SumBelowCons(side, DirRow(n, depth, prefix), below, id);
      assert Flatten(n, depth, prefix) == [DirRow(n, depth, prefix)] + below;
    } else {
      assert Flatten(n, depth, prefix) == [] + below;
      EmptyPrefix(below);
    }
  }

  lemma {:induction false} SumIsTotalAll(side: Side, ns: seq<Node>, depth: nat, prefix: string, id: string)
    requires AllExpandedAll(ns) && AllUnder(FlattenAll(ns, depth, prefix), id)
    ensures SumBelow(side, FlattenAll(ns, depth, prefix), id) == TotalAll(side, ns)
    decreases SizeAll(ns), 1
  {
    if ns != [] {
      var first, rest := Flatten(ns[0], depth, prefix), FlattenAll(ns[1..], depth, prefix);
      AllUnderParts(first, rest, id);
      SumIsTotal(side, ns[0], depth, prefix, id);
      SumIsTotalAll(side, ns[1..], depth, prefix, id);
      SumBelowConcat(side, first, rest, id);
    }
  }

  lemma {:induction false} TotalSorted(side: Side, ns: seq<Node>)
    ensures TotalAll(side, Sort(ns)) == TotalAll(side, ns)
  {
    if ns != [] {
      TotalSorted(side, ns[1..]);
      TotalInserted(side, ns[0], Sort(ns[1..]));
    }
  }

  lemma {:induction false} TotalInserted(side: Side, n: Node, sorted: seq<Node>)
    ensures TotalAll(side, InsertSorted(n, sorted)) == Total(side, n) + TotalAll(side, sorted)
  {
    if sorted != [] && Before(sorted[0], n) {
      TotalInserted(side, n, sorted[1..]);
    }
  }

  // ---- Lookups follow ownership -----------------------------------------------------------------

  lemma {:induction false} LookupMisses(n: Node, prefix: string, id: string)
    requires PathId(prefix, n.name) != "" && (n.Dir? ==> !Owns(prefix, n.name, id))
    ensures Lookup(n, prefix, id) == None
    decreases Size(n), 0
  {
    if n.Dir? {
      LookupAllMisses(n.children, PathId(prefix, n.name), id);
    }
  }

  lemma {:induction false} LookupAllMisses(ns: seq<Node>, prefix: string, id: string)
    requires prefix != "" && !Under(id, prefix)
    ensures LookupAll(ns, prefix, id) == None
    decreases SizeAll(ns), 1
  {
    if ns != [] {
      if Owns(prefix, ns[0].name, id) {
        OwnsUnder(prefix, ns[0].name, id);
      }
      LookupMisses(ns[0], prefix, id);
      LookupAllMisses(ns[1..], prefix, id);
    }
  }

  lemma {:induction false} OwnedElsewhere(ns: seq<Node>, prefix: string, id: string, owner: string)
    requires WellFormedAll(ns) && prefix != "" && NoSlash(owner)
    requires Owns(prefix, owner, id) && owner !in DirNames(ns)
    ensures LookupAll(ns, prefix, id) == None
  {
    if ns != [] {
      if ns[0].Dir? && Owns(prefix, ns[0].name, id) {
        OwnerUnique(prefix, ns[0].name, owner, id);
      }
      LookupMisses(ns[0], prefix, id);
      OwnedElsewhere(ns[1..], prefix, id, owner);
    }
  }

  lemma {:induction false} NameAmong(ns: seq<Node>, m: Node)
    requires m in ns && m.Dir?
    ensures m.name in DirNames(ns)
  {
    if m != ns[0] {
      NameAmong(ns[1..], m);
    }
  }

  /** Among siblings only the owner of an id is asked for its total. */
  lemma {:induction false} LookupOfOwner(ns: seq<Node>, prefix: string, id: string, m: Node)
    requires WellFormedAll(ns) && prefix != ""
    requires m in ns && m.Dir? && NoSlash(m.name) && Owns(prefix, m.name, id)
    ensures LookupAll(ns, prefix, id) == Lookup(m, prefix, id)
  {
    if m in ns[1..] {
      NameAmong(ns[1..], m);
      LookupOfOwner(ns[1..], prefix, id, m);
      if ns[0].Dir? && Owns(prefix, ns[0].name, id) {
        OwnerUnique(prefix, ns[0].name, m.name, id);
      }
      LookupMisses(ns[0], prefix, id);
    } else {
      assert m == ns[0];
      OwnedElsewhere(ns[1..], prefix, id, m.name);
    }
  }

  lemma {:induction false} SortMember(ns: seq<Node>, m: Node)
    requires m in Sort(ns)
    ensures m in ns
  {
    if ns != [] {
      InsertSortedMember(ns[0], Sort(ns[1..]), m);
      if m != ns[0] {
        SortMember(ns[1..], m);
      }
    }
  }

  lemma {:induction false} InsertSortedMember(n: Node, sorted: seq<Node>, m: Node)
    requires m in InsertSorted(n, sorted)
    ensures m == n || m in sorted
  {
    if sorted != [] && Before(sorted[0], n) && m != sorted[0] {
      InsertSortedMember(n, sorted[1..], m);
    }
  }

  /** Row `i` is a directory of the tree whose totals are the sums over the file rows below it. */
  ghost predicate RowTotalled(found: Option<Node>, rows: seq<FlatRow>, id: string) {
    && found.Some?
    && Total(Old, found.value) == SumBelow(Old, rows, id)
    && Total(New, found.value) == SumBelow(New, rows, id)
  }

  /** In a fresh tree every visible directory row is found, with the sums over the files below it. */
  lemma {:induction false} RowTotal(n: Node, depth: nat, prefix: string, i: nat)
    requires Fresh(n) && PathId(prefix, n.name) != ""
    requires i < |Flatten(n, depth, prefix)| && Flatten(n, depth, prefix)[i].isDir
    ensures var rows := Flatten(n, depth, prefix);
            RowTotalled(Lookup(n, prefix, rows[i].pathId), rows, rows[i].pathId)
    decreases Size(n), 0
  {
    var id, d := PathId(prefix, n.name), ChildDepth(n.name, depth);
    if n.name != ROOT && i == 0 {
      SelfTotal(n, depth, prefix);
    } else {
      var below := RowsBelow(n, depth, prefix);
      var j := if n.name == ROOT then i else i - 1;
      var target := below[j].pathId;
      assert Flatten(n, depth, prefix)[i] == below[j];
      SortSize(n.children);
      SortWellFormed(n.children);
      SortExpanded(n.children);
      var m := RowTotalAll(Sort(n.children), d, id, j);
      SortMember(n.children, m);
      LookupOfOwner(n.children, id, target, m);
      HeadCountsNothing(Old, n, depth, prefix, target);
      HeadCountsNothing(New, n, depth, prefix, target);
    }
  }

  lemma SelfTotal(n: Node, depth: nat, prefix: string)
    requires n.Dir? && n.name != ROOT && n.expanded && AllExpandedAll(n.children)
    requires PathId(prefix, n.name) != ""
    ensures var id := PathId(prefix, n.name);
            RowTotalled(Lookup(n, prefix, id), Flatten(n, depth, prefix), id)
  {
    var id := PathId(prefix, n.name);
    LookupAllMisses(n.children, id, id);
    SelfSum(Old, n, depth, prefix);
    SelfSum(New, n, depth, prefix);
  }

  lemma SelfSum(side: Side, n: Node, depth: nat, prefix: string)
    requires n.Dir? && n.name != ROOT && n.expanded && AllExpandedAll(n.children)
    requires PathId(prefix, n.name) != ""
    ensures SumBelow(side, Flatten(n, depth, prefix), PathId(prefix, n.name)) == Total(side, n)
  {
    var id, d := PathId(prefix, n.name), ChildDepth(n.name, depth);
    SortExpanded(n.children);
    FlattenAllIds(Sort(n.children), d, id);
    AllUnderIff(RowsBelow(n, depth, prefix), id);
    SumIsTotalAll(side, Sort(n.children), d, id, id);
    TotalSorted(side, n.children);
    HeadCountsNothing(side, n, depth, prefix, id);
  }

  lemma {:induction false} RowTotalAll(ns: seq<Node>, depth: nat, prefix: string, i: nat) returns (m: Node)
    requires FreshAll(ns) && prefix != ""
    requires i < |FlattenAll(ns, depth, prefix)| && FlattenAll(ns, depth, prefix)[i].isDir
    ensures m in ns && m.Dir? && NoSlash(m.name)
    ensures Owns(prefix, m.name, FlattenAll(ns, depth, prefix)[i].pathId)
    ensures var rows := FlattenAll(ns, depth, prefix);
            RowTotalled(Lookup(m, prefix, rows[i].pathId), rows, rows[i].pathId)
    decreases SizeAll(ns), 1
  {
    var first, rest := Flatten(ns[0], depth, prefix), FlattenAll(ns[1..], depth, prefix);
    if i < |first| {
      m := ns[0];
      DirRowsInDirs(m, depth, prefix, i);
      FlattenIds(m, depth, prefix);
      assert first[i] in first;
      RowTotal(m, depth, prefix, i);
      SiblingsApart(ns[1..], depth, prefix, m.name, first[i].pathId);
      SumOfFirst(first, rest, first[i].pathId);
    } else {
      var j := i - |first|;
      m := RowTotalAll(ns[1..], depth, prefix, j);
      RestToggleMisses(ns, depth, prefix, j, rest[j].pathId);
      SumOfRest(first, rest, rest[j].pathId);
    }
  }

  lemma SumOfFirst(first: seq<FlatRow>, rest: seq<FlatRow>, id: string)
    requires NoneUnder(rest, id)
    ensures SumBelow(Old, first + rest, id) == SumBelow(Old, first, id)
    ensures SumBelow(New, first + rest, id) == SumBelow(New, first, id)
  {
    SumBelowConcat(Old, first, rest, id);
    SumBelowConcat(New, first, rest, id);
    SumBelowNone(Old, rest, id);
    SumBelowNone(New, rest, id);
  }

  lemma SumOfRest(first: seq<FlatRow>, rest: seq<FlatRow>, id: string)
    requires NoneUnder(first, id)
    ensures SumBelow(Old, first + rest, id) == SumBelow(Old, rest, id)
    ensures SumBelow(New, first + rest, id) == SumBelow(New, rest, id)
  {
    SumBelowConcat(Old, first, rest, id);
    SumBelowConcat(New, first, rest, id);
    SumBelowNone(Old, first, id);
    SumBelowNone(New, first, id);
  }

  // ---- Main result ------------------------------------------------------------------------------

  /** The copy touches only the counts of directory rows. */
  predicate SameButDirCounts(a: FlatRow, b: FlatRow) {
    a == b || (a.isDir && b.isDir && a.(adds := 0, dels := 0) == b.(adds := 0, dels := 0))
  }

  lemma {:induction false} SumBelowUnchanged(side: Side, out: seq<FlatRow>, flat: seq<FlatRow>, id: string)
    requires |out| == |flat|
    requires forall i :: 0 <= i < |flat| ==> SameButDirCounts(out[i], flat[i])
    ensures SumBelow(side, out, id) == SumBelow(side, flat, id)
  {
    if out != [] {
      SumBelowUnchanged(side, out[1..], flat[1..], id);
      assert SameButDirCounts(out[0], flat[0]);
    }
  }

  /**
   * For any fresh tree rooted at "root": after the copy, every directory row of
   * the list carries the sums of the counts of the file rows below it, and
   * nothing but the counts of directory rows has changed.
   */
  lemma DirectoryRowsSumTheirFiles(root: Node, i: nat)
    requires Fresh(root) && root.Dir? && root.name == ROOT
    requires i < |Flatten(root, 0, "")|
    ensures var flat := Flatten(root, 0, "");
            var out := ApplyCounts(root, "", flat);
            && SameButDirCounts(out[i], flat[i])
            && (flat[i].isDir ==>
                  && out[i].dels == SumBelow(Old, out, out[i].pathId)
                  && out[i].adds == SumBelow(New, out, out[i].pathId))
  {
    var flat := Flatten(root, 0, "");
    var out := ApplyCounts(root, "", flat);
    FlattenUnique(root, 0, "");
    forall j | 0 <= j < |flat| ensures SameButDirCounts(out[j], flat[j]) {
      ApplyCountsAt(root, "", flat, j);
    }
    ApplyCountsAt(root, "", flat, i);
    SumBelowUnchanged(Old, out, flat, flat[i].pathId);
    SumBelowUnchanged(New, out, flat, flat[i].pathId);
    if flat[i].isDir {
      RowTotal(root, 0, "", i);
    }
  }
}
