/** Toggling a directory: what happens to the tree and to the flattened list. */
module DiffTreeToggle {
  import opened Text
  import opened DiffTree

  // ---- Well-formed trees -----------------------------------------------------------

  predicate NoSlash(name: string) {
    '/' !in name && '\\' !in name
  }

  function DirNames(ns: seq<Node>): set<string> {
    if ns == [] then {} else (if ns[0].Dir? then {ns[0].name} else {}) + DirNames(ns[1..])
  }

  /** No name holds a slash and sibling directories have distinct names. */
  predicate WellFormed(n: Node)
    decreases Size(n), 0
  {
    NoSlash(n.name) && (n.Dir? ==> WellFormedAll(n.children))
  }

  predicate WellFormedAll(ns: seq<Node>)
    decreases SizeAll(ns), 1
  {
    ns != [] ==>
      && WellFormed(ns[0])
      && (ns[0].Dir? ==> ns[0].name !in DirNames(ns[1..]))
      && WellFormedAll(ns[1..])
  }

  lemma {:induction false} InsertSortedWellFormed(n: Node, sorted: seq<Node>)
    requires WellFormed(n) && WellFormedAll(sorted)
    requires n.Dir? ==> n.name !in DirNames(sorted)
    ensures WellFormedAll(InsertSorted(n, sorted))
    ensures DirNames(InsertSorted(n, sorted)) == DirNames(sorted) + if n.Dir? then {n.name} else {}
  {
    if sorted != [] && Before(sorted[0], n) {
      InsertSortedWellFormed(n, sorted[1..]);
    }
  }

  lemma {:induction false} SortWellFormed(ns: seq<Node>)
    requires WellFormedAll(ns)
    ensures WellFormedAll(Sort(ns)) && DirNames(Sort(ns)) == DirNames(ns)
  {
    if ns != [] {
      SortWellFormed(ns[1..]);
      InsertSortedWellFormed(ns[0], Sort(ns[1..]));
    }
  }

  // ---- Path ids ----------------------------------------------------------------------

  /** `id` lies strictly below `dir`. */
  predicate Under(id: string, dir: string) {
    dir + "/" <= id
  }

  /** `id` is the child `name` of `prefix`, or lies below it. */
  predicate Owns(prefix: string, name: string, id: string) {
    id == PathId(prefix, name) || Under(id, PathId(prefix, name))
  }

  lemma UnderTransitive(a: string, b: string, c: string)
    requires Under(a, b) && Under(b, c)
    ensures Under(a, c)
  {
    assert a[..|c| + 1] == b[..|c| + 1];
  }

  lemma OwnsUnder(prefix: string, name: string, id: string)
    requires prefix != "" && Owns(prefix, name, id)
    ensures Under(id, prefix)
  {
    var child := PathId(prefix, name);
    assert Under(child, prefix);
    if id != child {
      UnderTransitive(id, child, prefix);
    }
  }

  /** A path id determines which sibling name owns it. */
  lemma OwnerUnique(prefix: string, a: string, b: string, id: string)
    requires prefix != "" && NoSlash(a) && NoSlash(b)
    requires Owns(prefix, a, id) && Owns(prefix, b, id)
    ensures a == b
  {
    OwnsUnder(prefix, a, id);
    var tail := id[|prefix| + 1..];
    OwnerTail(prefix, a, id);
    OwnerTail(prefix, b, id);
    FindUnique(tail, {'/'}, |a|);
    FindUnique(tail, {'/'}, |b|);
  }

  lemma OwnerTail(prefix: string, a: string, id: string)
    requires prefix != "" && NoSlash(a) && Owns(prefix, a, id)
    requires |id| > |prefix|
    ensures var tail := id[|prefix| + 1..];
            && a <= tail
            && (|a| < |tail| ==> tail[|a|] == '/')
            && forall j :: 0 <= j < |a| ==> tail[j] != '/'
  {
    var tail := id[|prefix| + 1..];
    var child := PathId(prefix, a);
    assert child[|prefix| + 1..] == a;
    assert tail[..|a|] == id[..|child|][|prefix| + 1..];
    assert tail[..|a|] == a;
    if id != child {
      assert id[|child|] == (child + "/")[|child|];
    }
  }

  /** An id below a child of `prefix` is owned by the child that owns what is above it. */
  lemma OwnsBelow(prefix: string, name: string, above: string, id: string)
    requires Owns(prefix, name, above) && Under(id, above)
    ensures Owns(prefix, name, id)
  {
    if above != PathId(prefix, name) {
      UnderTransitive(id, above, PathId(prefix, name));
    }
  }

  // ---- Ids of flattened rows -----------------------------------------------------------

  lemma {:induction false} FlattenIds(n: Node, depth: nat, prefix: string)
    requires PathId(prefix, n.name) != ""
    ensures forall r :: r in Flatten(n, depth, prefix) ==> Owns(prefix, n.name, r.pathId)
    decreases Size(n), 0
  {
    if n.Dir? {
      SortSize(n.children);
      FlattenAllIds(Sort(n.children), ChildDepth(n.name, depth), PathId(prefix, n.name));
    }
  }

  lemma {:induction false} FlattenAllIds(ns: seq<Node>, depth: nat, prefix: string)
    requires prefix != ""
    ensures forall r :: r in FlattenAll(ns, depth, prefix) ==> Under(r.pathId, prefix)
    decreases SizeAll(ns), 1
  {
    if ns != [] {
      FlattenIds(ns[0], depth, prefix);
      FlattenAllIds(ns[1..], depth, prefix);
      forall r | r in Flatten(ns[0], depth, prefix) ensures Under(r.pathId, prefix) {
        OwnsUnder(prefix, ns[0].name, r.pathId);
      }
    }
  }

  // ---- Toggling touches one subtree ------------------------------------------------------

  lemma {:induction false} ToggleMisses(n: Node, target: string, prefix: string)
    requires PathId(prefix, n.name) != "" && (n.Dir? ==> !Owns(prefix, n.name, target))
    ensures Toggle(n, target, prefix) == (n, false)
    decreases Size(n), 0
  {
    if n.Dir? {
      ToggleFirstMisses(n.children, target, PathId(prefix, n.name));
    }
  }

  lemma {:induction false} ToggleFirstMisses(ns: seq<Node>, target: string, prefix: string)
    requires prefix != "" && !Under(target, prefix)
    ensures ToggleFirst(ns, target, prefix) == (ns, false)
    decreases SizeAll(ns), 1
  {
    if ns != [] {
      if Owns(prefix, ns[0].name, target) {
        OwnsUnder(prefix, ns[0].name, target);
      }
      ToggleMisses(ns[0], target, prefix);
      ToggleFirstMisses(ns[1..], target, prefix);
      assert [ns[0]] + ns[1..] == ns;
    }
  }

  /** Every child toggled on its own; with distinct names at most one of them changes. */
  function MapToggle(ns: seq<Node>, target: string, prefix: string): seq<Node> {
    if ns == [] then [] else
      [Toggle(ns[0], target, prefix).0] + MapToggle(ns[1..], target, prefix)
  }

  lemma {:induction false} MapToggleMisses(ns: seq<Node>, target: string, prefix: string, owner: string)
    requires WellFormedAll(ns) && prefix != "" && NoSlash(owner)
    requires Owns(prefix, owner, target) && owner !in DirNames(ns)
    ensures MapToggle(ns, target, prefix) == ns
    ensures !ToggleFirst(ns, target, prefix).1
  {
    if ns != [] {
      if ns[0].Dir? && Owns(prefix, ns[0].name, target) {
        OwnerUnique(prefix, ns[0].name, owner, target);
      }
      ToggleMisses(ns[0], target, prefix);
      MapToggleMisses(ns[1..], target, prefix, owner);
    }
  }

  lemma {:induction false} ToggleFirstIsMap(ns: seq<Node>, target: string, prefix: string)
    requires WellFormedAll(ns) && prefix != ""
    ensures ToggleFirst(ns, target, prefix).0 == MapToggle(ns, target, prefix)
  {
    if ns != [] {
      ToggleFirstIsMap(ns[1..], target, prefix);
      if Toggle(ns[0], target, prefix).1 {
        if !Owns(prefix, ns[0].name, target) {
          ToggleMisses(ns[0], target, prefix);
        }
        MapToggleMisses(ns[1..], target, prefix, ns[0].name);
      } else {
        ToggleUnfound(ns[0], target, prefix);
      }
    }
  }

  lemma {:induction false} ToggleUnfound(n: Node, target: string, prefix: string)
    requires !Toggle(n, target, prefix).1
    ensures Toggle(n, target, prefix).0 == n
    decreases Size(n), 0
  {
    if n.Dir? {
      ToggleFirstUnfound(n.children, target, PathId(prefix, n.name));
    }
  }

  lemma {:induction false} ToggleFirstUnfound(ns: seq<Node>, target: string, prefix: string)
    requires !ToggleFirst(ns, target, prefix).1
    ensures ToggleFirst(ns, target, prefix).0 == ns
    decreases SizeAll(ns), 1
  {
    if ns != [] {
      ToggleFirstUnfound(ns[1..], target, prefix);
    }
  }

  lemma ToggleKeepsKey(n: Node, target: string, prefix: string)
    ensures Toggle(n, target, prefix).0.Dir? == n.Dir?
    ensures Toggle(n, target, prefix).0.name == n.name
  {
  }

  lemma {:induction false} InsertSortedMap(n: Node, sorted: seq<Node>, target: string, prefix: string)
    ensures InsertSorted(Toggle(n, target, prefix).0, MapToggle(sorted, target, prefix))
         == MapToggle(InsertSorted(n, sorted), target, prefix)
  {
    ToggleKeepsKey(n, target, prefix);
    if sorted != [] {
      ToggleKeepsKey(sorted[0], target, prefix);
      if Before(sorted[0], n) {
        InsertSortedMap(n, sorted[1..], target, prefix);
      }
    }
  }

  /** Toggling does not disturb the order of siblings. */
  lemma {:induction false} SortMap(ns: seq<Node>, target: string, prefix: string)
    ensures Sort(MapToggle(ns, target, prefix)) == MapToggle(Sort(ns), target, prefix)
  {
    if ns != [] {
      SortMap(ns[1..], target, prefix);
      InsertSortedMap(ns[0], Sort(ns[1..]), target, prefix);
    }
  }

  // ---- The flattened list after a toggle ---------------------------------------------------

  predicate AllUnder(rows: seq<FlatRow>, id: string) {
    rows != [] ==> Under(rows[0].pathId, id) && AllUnder(rows[1..], id)
  }

  predicate NoneUnder(rows: seq<FlatRow>, id: string) {
    rows != [] ==> !Under(rows[0].pathId, id) && NoneUnder(rows[1..], id)
  }

  lemma {:induction false} AllUnderIff(rows: seq<FlatRow>, id: string)
    ensures AllUnder(rows, id) <==> forall r :: r in rows ==> Under(r.pathId, id)
  {
    if rows != [] {
      AllUnderIff(rows[1..], id);
    }
  }

  lemma {:induction false} NoneUnderIff(rows: seq<FlatRow>, id: string)
    ensures NoneUnder(rows, id) <==> forall r :: r in rows ==> !Under(r.pathId, id)
  {
    if rows != [] {
      NoneUnderIff(rows[1..], id);
    }
  }

  lemma NoneUnderConcat(a: seq<FlatRow>, b: seq<FlatRow>, id: string)
    requires NoneUnder(a, id) && NoneUnder(b, id)
    ensures NoneUnder(a + b, id)
  {
    NoneUnderIff(a, id);
    NoneUnderIff(b, id);
    NoneUnderIff(a + b, id);
  }

  /** A list cut around one directory row: what is before it, the rows below it, the rest. */
  datatype Cut = Cut(pre: seq<FlatRow>, row: FlatRow, block: seq<FlatRow>, post: seq<FlatRow>)

  /** The list with the row's directory open. */
  function Opened(c: Cut): seq<FlatRow> {
    c.pre + [c.row.(expanded := true)] + c.block + c.post
  }

  /** The list with it shut: the arrow flips and the block right after the row is gone. */
  function Shut(c: Cut): seq<FlatRow> {
    c.pre + [c.row.(expanded := false)] + c.post
  }

  /** The block is exactly the rows below the directory. */
  predicate Exact(c: Cut) {
    && c.row.isDir
    && NoneUnder(c.pre, c.row.pathId)
    && AllUnder(c.block, c.row.pathId)
    && NoneUnder(c.post, c.row.pathId)
  }

  /** The two lists are the open and the shut form of one cut. */
  predicate Flips(rows: seq<FlatRow>, toggled: seq<FlatRow>, c: Cut) {
    && Exact(c)
    && ((rows == Opened(c) && toggled == Shut(c)) || (rows == Shut(c) && toggled == Opened(c)))
  }

  function Widen(a: seq<FlatRow>, c: Cut, b: seq<FlatRow>): Cut {
    Cut(a + c.pre, c.row, c.block, c.post + b)
  }

  lemma WidenLists(a: seq<FlatRow>, c: Cut, b: seq<FlatRow>)
    ensures Opened(Widen(a, c, b)) == a + Opened(c) + b
    ensures Shut(Widen(a, c, b)) == a + Shut(c) + b
  {
  }

  lemma FlipsWithin(a: seq<FlatRow>, rows: seq<FlatRow>, toggled: seq<FlatRow>, b: seq<FlatRow>, c: Cut)
    requires Flips(rows, toggled, c)
    requires NoneUnder(a, c.row.pathId) && NoneUnder(b, c.row.pathId)
    ensures Flips(a + rows + b, a + toggled + b, Widen(a, c, b))
  {
    WidenLists(a, c, b);
    NoneUnderConcat(a, c.pre, c.row.pathId);
    NoneUnderConcat(c.post, b, c.row.pathId);
  }

  /** Nothing lies below an id within a single name. */
  lemma ChildNotUnder(prefix: string, name: string, owner: string, id: string)
    requires prefix != "" && Owns(prefix, owner, id)
    ensures Under(PathId(prefix, name), id) ==> !NoSlash(name)
  {
    var child := PathId(prefix, name);
    if Under(child, id) {
      assert |PathId(prefix, owner)| <= |id|;
      assert (id + "/")[|id|] == '/';
      assert child[|id|] == name[|id| - |prefix| - 1];
    }
  }

  /** A row of one sibling lies below a row of another only if both are the same directory. */
  lemma SiblingRowsApart(n: Node, depth: nat, prefix: string, owner: string, id: string)
    requires WellFormed(n) && prefix != "" && NoSlash(owner) && Owns(prefix, owner, id)
    ensures forall r :: r in Flatten(n, depth, prefix) && Under(r.pathId, id) ==> n.Dir? && n.name == owner
  {
    FlattenIds(n, depth, prefix);
    forall r | r in Flatten(n, depth, prefix) && Under(r.pathId, id)
      ensures n.Dir? && n.name == owner
    {
      OwnsBelow(prefix, owner, id, r.pathId);
      OwnerUnique(prefix, n.name, owner, r.pathId);
      ChildNotUnder(prefix, n.name, owner, id);
    }
  }

  lemma {:induction false} SiblingsApart(ns: seq<Node>, depth: nat, prefix: string, owner: string, id: string)
    requires WellFormedAll(ns) && prefix != "" && NoSlash(owner) && Owns(prefix, owner, id)
    requires owner !in DirNames(ns)
    ensures NoneUnder(FlattenAll(ns, depth, prefix), id)
  {
    if ns != [] {
      SiblingRowsApart(ns[0], depth, prefix, owner, id);
      NoneUnderIff(Flatten(ns[0], depth, prefix), id);
      SiblingsApart(ns[1..], depth, prefix, owner, id);
      NoneUnderConcat(Flatten(ns[0], depth, prefix), FlattenAll(ns[1..], depth, prefix), id);
    }
  }

  /** The rows of a directory other than its own. */
  function RowsBelow(n: Node, depth: nat, prefix: string): seq<FlatRow>
    requires n.Dir?
  {
    FlattenAll(Sort(n.children), ChildDepth(n.name, depth), PathId(prefix, n.name))
  }

  /** A row of a directory is its own or one of those below it. */
  lemma RowOf(n: Node, depth: nat, prefix: string, k: nat)
    requires n.Dir? && k < |Flatten(n, depth, prefix)|
    ensures var off := if n.name == ROOT then 0 else 1;
            if k < off then Flatten(n, depth, prefix)[k] == DirRow(n, depth, prefix)
            else k - off < |RowsBelow(n, depth, prefix)|
                 && Flatten(n, depth, prefix)[k] == RowsBelow(n, depth, prefix)[k - off]
  {
  }

  lemma ToggleSelf(n: Node, depth: nat, prefix: string) returns (c: Cut)
    requires n.Dir? && n.name != ROOT && PathId(prefix, n.name) != ""
    ensures Flips(Flatten(n, depth, prefix), Flatten(n.(expanded := !n.expanded), depth, prefix), c)
    ensures c.pre == [] && c.row.pathId == PathId(prefix, n.name)
  {
    var sub := RowsBelow(n, depth, prefix);
    FlattenAllIds(Sort(n.children), ChildDepth(n.name, depth), PathId(prefix, n.name));
    AllUnderIff(sub, PathId(prefix, n.name));
    c := Cut([], DirRow(n, depth, prefix), sub, []);
    assert Opened(c) == [c.row.(expanded := true)] + sub;
    assert Shut(c) == [c.row.(expanded := false)];
  }

  /** Whatever happens below a directory shows in its own rows when it is open. */
  lemma FlipsBelow(n: Node, m: Node, depth: nat, prefix: string, below: Cut) returns (c: Cut)
    requires n.Dir? && m.Dir? && m == n.(children := m.children)
    requires n.name == ROOT || n.expanded
    requires Flips(RowsBelow(n, depth, prefix), RowsBelow(m, depth, prefix), below)
    requires Under(below.row.pathId, PathId(prefix, n.name))
    ensures Flips(Flatten(n, depth, prefix), Flatten(m, depth, prefix), c)
    ensures c.row == below.row && |c.pre| == |below.pre| + if n.name == ROOT then 0 else 1
  {
    var head := if n.name != ROOT then [DirRow(n, depth, prefix)] else [];
    var sub, sub' := RowsBelow(n, depth, prefix), RowsBelow(m, depth, prefix);
    FlipsWithin(head, sub, sub', [], below);
    assert head + sub + [] == head + sub && head + sub' + [] == head + sub';
    c := Widen(head, below, []);
  }

  lemma {:induction false} ToggleRow(n: Node, depth: nat, prefix: string, i: nat) returns (c: Cut)
    requires WellFormed(n) && PathId(prefix, n.name) != ""
    requires i < |Flatten(n, depth, prefix)| && Flatten(n, depth, prefix)[i].isDir
    ensures Flips(Flatten(n, depth, prefix), Flatten(Toggle(n, c.row.pathId, prefix).0, depth, prefix), c)
    ensures |c.pre| == i && c.row.pathId == Flatten(n, depth, prefix)[i].pathId
    decreases Size(n), 0
  {
    var id := PathId(prefix, n.name);
    if n.name != ROOT && i == 0 {
      c := ToggleSelf(n, depth, prefix);
    } else {
      var sub := RowsBelow(n, depth, prefix);
      var j := if n.name == ROOT then i else i - 1;
      var target := sub[j].pathId;
      assert Flatten(n, depth, prefix)[i] == sub[j];
      SortSize(n.children);
      SortWellFormed(n.children);
      FlattenAllIds(Sort(n.children), ChildDepth(n.name, depth), id);
      c := ToggleRowAll(Sort(n.children), ChildDepth(n.name, depth), id, j);
      ToggleFirstIsMap(n.children, target, id);
      SortMap(n.children, target, id);
      c := FlipsBelow(n, Toggle(n, target, prefix).0, depth, prefix, c);
    }
  }

  lemma {:induction false} ToggleRowAll(ns: seq<Node>, depth: nat, prefix: string, i: nat) returns (c: Cut)
    requires WellFormedAll(ns) && prefix != ""
    requires i < |FlattenAll(ns, depth, prefix)| && FlattenAll(ns, depth, prefix)[i].isDir
    ensures Flips(FlattenAll(ns, depth, prefix),
                  FlattenAll(MapToggle(ns, c.row.pathId, prefix), depth, prefix), c)
    ensures |c.pre| == i && c.row.pathId == FlattenAll(ns, depth, prefix)[i].pathId
    decreases SizeAll(ns), 1
  {
    var first, rest := Flatten(ns[0], depth, prefix), FlattenAll(ns[1..], depth, prefix);
    if i < |first| {
      var inner := ToggleRow(ns[0], depth, prefix, i);
      DirRowsInDirs(ns[0], depth, prefix, i);
      FlattenIds(ns[0], depth, prefix);
      assert first[i] in first;
      c := FlipsInFirst(ns, depth, prefix, inner);
    } else {
      var j := i - |first|;
      assert FlattenAll(ns, depth, prefix)[i] == rest[j];
      var inner := ToggleRowAll(ns[1..], depth, prefix, j);
      RestToggleMisses(ns, depth, prefix, j, inner.row.pathId);
      c := FlipsInRest(ns, depth, prefix, inner);
    }
  }

  lemma FlipsInFirst(ns: seq<Node>, depth: nat, prefix: string, inner: Cut) returns (c: Cut)
    requires WellFormedAll(ns) && prefix != "" && ns != [] && ns[0].Dir?
    requires Flips(Flatten(ns[0], depth, prefix),
                   Flatten(Toggle(ns[0], inner.row.pathId, prefix).0, depth, prefix), inner)
    requires Owns(prefix, ns[0].name, inner.row.pathId)
    ensures Flips(FlattenAll(ns, depth, prefix),
                  FlattenAll(MapToggle(ns, inner.row.pathId, prefix), depth, prefix), c)
    ensures c.pre == inner.pre && c.row == inner.row
  {
    var target := inner.row.pathId;
    var rest := FlattenAll(ns[1..], depth, prefix);
    MapToggleMisses(ns[1..], target, prefix, ns[0].name);
    SiblingsApart(ns[1..], depth, prefix, ns[0].name, target);
    MapToggleFlatten(ns, target, depth, prefix);
    c := Suffixed(Flatten(ns[0], depth, prefix),
                  Flatten(Toggle(ns[0], target, prefix).0, depth, prefix), rest, inner);
  }

  lemma EmptyPrefix<T>(s: seq<T>)
    ensures [] + s == s
  {
  }

  lemma Suffixed(rows: seq<FlatRow>, toggled: seq<FlatRow>, b: seq<FlatRow>, c: Cut) returns (wide: Cut)
    requires Flips(rows, toggled, c) && NoneUnder(b, c.row.pathId)
    ensures Flips(rows + b, toggled + b, wide) && wide.pre == c.pre && wide.row == c.row
  {
    FlipsWithin([], rows, toggled, b, c);
    wide := Widen([], c, b);
    EmptyPrefix(rows);
    EmptyPrefix(toggled);
    EmptyPrefix(c.pre);
  }

  lemma Prefixed(a: seq<FlatRow>, rows: seq<FlatRow>, toggled: seq<FlatRow>, c: Cut) returns (wide: Cut)
    requires Flips(rows, toggled, c) && NoneUnder(a, c.row.pathId)
    ensures Flips(a + rows, a + toggled, wide) && wide.pre == a + c.pre && wide.row == c.row
  {
    FlipsWithin(a, rows, toggled, [], c);
    wide := Widen(a, c, []);
    assert a + rows + [] == a + rows && a + toggled + [] == a + toggled;
  }

  lemma FlipsInRest(ns: seq<Node>, depth: nat, prefix: string, inner: Cut) returns (c: Cut)
    requires ns != []
    requires Flips(FlattenAll(ns[1..], depth, prefix),
                   FlattenAll(MapToggle(ns[1..], inner.row.pathId, prefix), depth, prefix), inner)
    requires Toggle(ns[0], inner.row.pathId, prefix).0 == ns[0]
    requires NoneUnder(Flatten(ns[0], depth, prefix), inner.row.pathId)
    ensures Flips(FlattenAll(ns, depth, prefix),
                  FlattenAll(MapToggle(ns, inner.row.pathId, prefix), depth, prefix), c)
    ensures c.pre == Flatten(ns[0], depth, prefix) + inner.pre && c.row == inner.row
  {
    var target := inner.row.pathId;
    MapToggleFlatten(ns, target, depth, prefix);
    c := Prefixed(Flatten(ns[0], depth, prefix), FlattenAll(ns[1..], depth, prefix),
                  FlattenAll(MapToggle(ns[1..], target, prefix), depth, prefix), inner);
  }

  lemma RestToggleMisses(ns: seq<Node>, depth: nat, prefix: string, j: nat, target: string)
    requires WellFormedAll(ns) && prefix != "" && ns != []
    requires j < |FlattenAll(ns[1..], depth, prefix)| && FlattenAll(ns[1..], depth, prefix)[j].isDir
    requires target == FlattenAll(ns[1..], depth, prefix)[j].pathId
    ensures Toggle(ns[0], target, prefix) == (ns[0], false)
    ensures NoneUnder(Flatten(ns[0], depth, prefix), target)
  {
    NoneUnderIff(Flatten(ns[0], depth, prefix), target);
    var owner := OwnerAmong(ns[1..], depth, prefix, j);
    if ns[0].Dir? && Owns(prefix, ns[0].name, target) {
      OwnerUnique(prefix, ns[0].name, owner, target);
    }
    ToggleMisses(ns[0], target, prefix);
    SiblingRowsApart(ns[0], depth, prefix, owner, target);
  }

  lemma MapToggleFlatten(ns: seq<Node>, target: string, depth: nat, prefix: string)
    requires ns != []
    ensures FlattenAll(MapToggle(ns, target, prefix), depth, prefix)
         == Flatten(Toggle(ns[0], target, prefix).0, depth, prefix)
          + FlattenAll(MapToggle(ns[1..], target, prefix), depth, prefix)
  {
    var m := MapToggle(ns, target, prefix);
    assert m[1..] == MapToggle(ns[1..], target, prefix);
  }

  lemma DirRowsInDirs(n: Node, depth: nat, prefix: string, i: nat)
    requires i < |Flatten(n, depth, prefix)| && Flatten(n, depth, prefix)[i].isDir
    ensures n.Dir?
  {
  }

  /** The sibling directory a directory row belongs to. */
  lemma {:induction false} OwnerAmong(ns: seq<Node>, depth: nat, prefix: string, i: nat) returns (owner: string)
    requires WellFormedAll(ns) && prefix != ""
    requires i < |FlattenAll(ns, depth, prefix)| && FlattenAll(ns, depth, prefix)[i].isDir
    ensures NoSlash(owner) && owner in DirNames(ns)
    ensures Owns(prefix, owner, FlattenAll(ns, depth, prefix)[i].pathId)
  {
    var first := Flatten(ns[0], depth, prefix);
    if i < |first| {
      DirRowsInDirs(ns[0], depth, prefix, i);
      FlattenIds(ns[0], depth, prefix);
      assert first[i] in first;
      owner := ns[0].name;
    } else {
      owner := OwnerAmong(ns[1..], depth, prefix, i - |first|);
    }
  }

  // ---- Main results --------------------------------------------------------------------------

  /**
   * For any well-formed tree rooted at "root" and any visible directory row: the
   * toggle finds its directory, flips that row, inserts or removes exactly the
   * contiguous block of rows below it, and leaves every other row as it was.
   */
  lemma ToggleChangesOneBlock(root: Node, i: nat) returns (c: Cut)
    requires WellFormed(root) && root.name == ROOT
    requires i < |Flatten(root, 0, "")| && Flatten(root, 0, "")[i].isDir
    ensures var rows := Flatten(root, 0, "");
            var (toggled, found) := Toggle(root, rows[i].pathId, "");
            found && Flips(rows, Flatten(toggled, 0, ""), c)
    ensures |c.pre| == i && c.row.pathId == Flatten(root, 0, "")[i].pathId
  {
    c := ToggleRow(root, 0, "", i);
    var (toggled, found) := Toggle(root, c.row.pathId, "");
    FlipsChanges(Flatten(root, 0, ""), Flatten(toggled, 0, ""), c);
    if !found {
      ToggleUnfound(root, c.row.pathId, "");
    }
  }

  lemma FlipsChanges(rows: seq<FlatRow>, toggled: seq<FlatRow>, c: Cut)
    requires Flips(rows, toggled, c)
    ensures toggled != rows
  {
    assert Opened(c)[|c.pre|].expanded && !Shut(c)[|c.pre|].expanded;
  }

  /** Toggling the same id twice restores any tree, and with it the flattened list. */
  lemma {:induction false} ToggleTwice(n: Node, target: string, prefix: string)
    ensures Toggle(Toggle(n, target, prefix).0, target, prefix) == (n, Toggle(n, target, prefix).1)
    decreases Size(n), 0
  {
    if n.Dir? && PathId(prefix, n.name) != target {
      ToggleFirstTwice(n.children, target, PathId(prefix, n.name));
    }
  }

  lemma {:induction false} ToggleFirstTwice(ns: seq<Node>, target: string, prefix: string)
    ensures ToggleFirst(ToggleFirst(ns, target, prefix).0, target, prefix)
         == (ns, ToggleFirst(ns, target, prefix).1)
    decreases SizeAll(ns), 1
  {
    if ns != [] {
      ToggleTwice(ns[0], target, prefix);
      ToggleFirstTwice(ns[1..], target, prefix);
      if Toggle(ns[0], target, prefix).1 {
        ToggleFirstCons(Toggle(ns[0], target, prefix).0, ns[1..], target, prefix);
      } else {
        ToggleUnfound(ns[0], target, prefix);
        ToggleFirstCons(ns[0], ToggleFirst(ns[1..], target, prefix).0, target, prefix);
      }
      assert [ns[0]] + ns[1..] == ns;
    }
  }

  lemma ToggleFirstCons(n: Node, rest: seq<Node>, target: string, prefix: string)
    ensures var (m, found) := Toggle(n, target, prefix);
            var (later, foundLater) := ToggleFirst(rest, target, prefix);
            ToggleFirst([n] + rest, target, prefix)
              == if found then ([m] + rest, true) else ([n] + later, foundLater)
  {
    assert ([n] + rest)[1..] == rest;
  }

  /** A toggle keeps the tree well-formed, so the results above hold along any run of toggles. */
  lemma {:induction false} ToggleWellFormed(n: Node, target: string, prefix: string)
    requires WellFormed(n)
    ensures WellFormed(Toggle(n, target, prefix).0)
    decreases Size(n), 0
  {
    if n.Dir? {
      ToggleFirstWellFormed(n.children, target, PathId(prefix, n.name));
    }
  }

  lemma {:induction false} ToggleFirstWellFormed(ns: seq<Node>, target: string, prefix: string)
    requires WellFormedAll(ns)
    ensures WellFormedAll(ToggleFirst(ns, target, prefix).0)
    ensures DirNames(ToggleFirst(ns, target, prefix).0) == DirNames(ns)
    decreases SizeAll(ns), 1
  {
    if ns != [] {
      ToggleWellFormed(ns[0], target, prefix);
      ToggleKeepsKey(ns[0], target, prefix);
      ToggleFirstWellFormed(ns[1..], target, prefix);
      var after := ToggleFirst(ns, target, prefix).0;
      assert after[1..] == if Toggle(ns[0], target, prefix).1 then ns[1..]
                           else ToggleFirst(ns[1..], target, prefix).0;
    }
  }
}
