/** The directory rows of the file tree, and the order of its rows. */
module DiffFolders {
  import opened Prelude
  import opened Text
  import opened DiffParser
  import opened DiffTree
  import opened DiffTreeToggle
  import opened DiffTreeBuild

  // ---- Which directory rows there are ----------------------------------------------------------

  /** The row of an open directory; one called "root" has none. */
  function OpenRow(name: string, depth: nat, prefix: string): set<FlatRow> {
    if name == ROOT then {} else {FlatRow(name, depth, true, true, None, PathId(prefix, name), 0, 0)}
  }

  /** The rows of all directories of a tree, were they all open. */
  function Folders(n: Node, depth: nat, prefix: string): set<FlatRow>
    decreases Size(n), 0
  {
    match n
    case File(_, _, _, _) => {}
    case Dir(name, _, children) =>
      OpenRow(name, depth, prefix) + FoldersAll(children, ChildDepth(name, depth), PathId(prefix, name))
  }

  function FoldersAll(ns: seq<Node>, depth: nat, prefix: string): set<FlatRow>
    decreases SizeAll(ns), 1
  {
    if ns == [] then {} else Folders(ns[0], depth, prefix) + FoldersAll(ns[1..], depth, prefix)
  }

  lemma {:induction false} InsertSortedFolders(n: Node, sorted: seq<Node>, depth: nat, prefix: string)
    ensures FoldersAll(InsertSorted(n, sorted), depth, prefix)
         == Folders(n, depth, prefix) + FoldersAll(sorted, depth, prefix)
  {
    if sorted != [] && Before(sorted[0], n) {
      InsertSortedFolders(n, sorted[1..], depth, prefix);
    }
  }

  lemma {:induction false} SortFolders(ns: seq<Node>, depth: nat, prefix: string)
    ensures FoldersAll(Sort(ns), depth, prefix) == FoldersAll(ns, depth, prefix)
  {
    if ns != [] {
      SortFolders(ns[1..], depth, prefix);
      InsertSortedFolders(ns[0], Sort(ns[1..]), depth, prefix);
    }
  }

  /** With every directory open, the directory rows of the list are the tree's. */
  lemma {:induction false} FlattenShowsFolders(n: Node, depth: nat, prefix: string, r: FlatRow)
    requires AllExpanded(n)
    ensures r.isDir && r in Flatten(n, depth, prefix) <==> r in Folders(n, depth, prefix)
    decreases Size(n), 0
  {
    if n.Dir? {
      SortSize(n.children);
      SortExpanded(n.children);
      FlattenAllShowsFolders(Sort(n.children), ChildDepth(n.name, depth), PathId(prefix, n.name), r);
      SortFolders(n.children, ChildDepth(n.name, depth), PathId(prefix, n.name));
    }
  }

  lemma {:induction false} FlattenAllShowsFolders(ns: seq<Node>, depth: nat, prefix: string, r: FlatRow)
    requires AllExpandedAll(ns)
    ensures r.isDir && r in FlattenAll(ns, depth, prefix) <==> r in FoldersAll(ns, depth, prefix)
    decreases SizeAll(ns), 1
  {
    if ns != [] {
      FlattenShowsFolders(ns[0], depth, prefix, r);
      FlattenAllShowsFolders(ns[1..], depth, prefix, r);
    }
  }

  /** The rows of the directories of one path. */
  function PathFolders(parts: seq<string>, depth: nat, prefix: string): set<FlatRow>
    decreases |parts|
  {
    if |parts| <= 1 then {} else
      OpenRow(parts[0], depth, prefix)
      + PathFolders(parts[1..], ChildDepth(parts[0], depth), PathId(prefix, parts[0]))
  }

  lemma {:induction false} FoldersAppend(ns: seq<Node>, m: Node, depth: nat, prefix: string)
    ensures FoldersAll(ns + [m], depth, prefix) == FoldersAll(ns, depth, prefix) + Folders(m, depth, prefix)
  {
    if ns == [] {
      assert ns + [m] == [m] && [m][1..] == [];
    } else {
      assert (ns + [m])[1..] == ns[1..] + [m];
      FoldersAppend(ns[1..], m, depth, prefix);
    }
  }

  lemma {:induction false} FoldersUpdate(ns: seq<Node>, i: nat, m: Node, more: set<FlatRow>, depth: nat, prefix: string)
    requires i < |ns| && Folders(m, depth, prefix) == Folders(ns[i], depth, prefix) + more
    ensures FoldersAll(ns[i := m], depth, prefix) == FoldersAll(ns, depth, prefix) + more
  {
    var ms := ns[i := m];
    if i == 0 {
      assert ms[1..] == ns[1..];
    } else {
      assert ms[1..] == ns[1..][i - 1 := m];
      FoldersUpdate(ns[1..], i - 1, m, more, depth, prefix);
    }
  }

  /** Inserting a file adds the rows of the directories of its path and no others. */
  lemma {:induction false} InsertAddsFolders(
      n: Node, parts: seq<string>, e: FileEntry, adds: nat, dels: nat, depth: nat, prefix: string)
    requires n.Dir? && parts != []
    ensures Folders(Insert(n, parts, e, adds, dels), depth, prefix)
         == Folders(n, depth, prefix) + PathFolders(parts, ChildDepth(n.name, depth), PathId(prefix, n.name))
    decreases |parts|
  {
    var d, p := ChildDepth(n.name, depth), PathId(prefix, n.name);
    if |parts| == 1 {
      FoldersAppend(n.children, File(parts[0], e, adds, dels), d, p);
    } else {
      var i := FindDir(n.children, parts[0]);
      var more := PathFolders(parts[1..], ChildDepth(parts[0], d), PathId(p, parts[0]));
      if i < |n.children| {
        InsertAddsFolders(n.children[i], parts[1..], e, adds, dels, d, p);
        FoldersUpdate(n.children, i, Insert(n.children[i], parts[1..], e, adds, dels), more, d, p);
        OwnRowListed(n.children, i, d, p);
      } else {
        var dir := Dir(parts[0], true, []);
        InsertAddsFolders(dir, parts[1..], e, adds, dels, d, p);
        FoldersAppend(n.children, Insert(dir, parts[1..], e, adds, dels), d, p);
      }
    }
  }

  /** The row of a child directory is among those of the children. */
  lemma {:induction false} OwnRowListed(ns: seq<Node>, i: nat, depth: nat, prefix: string)
    requires i < |ns| && ns[i].Dir?
    ensures OpenRow(ns[i].name, depth, prefix) <= FoldersAll(ns, depth, prefix)
  {
    if i > 0 {
      OwnRowListed(ns[1..], i - 1, depth, prefix);
    }
  }

  /** The row of the directory made of the first `j` parts of a path. */
  function FolderRow(parts: seq<string>, j: nat): FlatRow
    requires 0 < j <= |parts|
  {
    FlatRow(parts[j - 1], FolderDepth(parts, j), true, true, None, ROOT + "/" + Join(parts[..j], "/"), 0, 0)
  }

  /** How many of the directories above it come after the last one called "root". */
  function FolderDepth(parts: seq<string>, j: nat): (d: nat)
    requires 0 < j <= |parts|
    ensures ROOT !in parts[..j - 1] ==> d == j - 1
  {
    if j == 1 || parts[j - 2] == ROOT then 0 else
      assert ROOT !in parts[..j - 1] ==> ROOT !in parts[..j - 2];
      1 + FolderDepth(parts, j - 1)
  }

  lemma {:induction false} JoinSnoc(parts: seq<string>, last: string)
    requires parts != []
    ensures Join(parts + [last], "/") == Join(parts, "/") + "/" + last
  {
    var all := parts + [last];
    if |parts| == 1 {
      assert all == [parts[0], last] && all[1..] == [last];
    } else {
      assert all[1..] == parts[1..] + [last];
      JoinSnoc(parts[1..], last);
    }
  }

  /** The row is that of the directory of the first `j` parts. */
  predicate FolderAt(parts: seq<string>, j: nat, r: FlatRow)
    requires 0 < j <= |parts|
  {
    parts[j - 1] != ROOT && r == FolderRow(parts, j)
  }

  /** The row is of a directory of the path, of more than `k` parts. */
  predicate FolderAfter(parts: seq<string>, k: nat, r: FlatRow) {
    exists j :: k < j < |parts| && FolderAt(parts, j, r)
  }

  lemma FolderNext(parts: seq<string>, k: nat, r: FlatRow)
    requires k + 1 < |parts|
    ensures FolderAfter(parts, k, r) <==> FolderAt(parts, k + 1, r) || FolderAfter(parts, k + 1, r)
  {
  }

  /** The row of the next directory of a path. */
  lemma NextRow(parts: seq<string>, k: nat, r: FlatRow)
    requires 0 < k < |parts|
    ensures var prefix := ROOT + "/" + Join(parts[..k], "/");
            && PathId(prefix, parts[k]) == ROOT + "/" + Join(parts[..k + 1], "/")
            && FolderDepth(parts, k + 1) == ChildDepth(parts[k - 1], FolderDepth(parts, k))
            && (r in OpenRow(parts[k], FolderDepth(parts, k + 1), prefix) <==> FolderAt(parts, k + 1, r))
  {
    assert parts[..k + 1] == parts[..k] + [parts[k]];
    JoinSnoc(parts[..k], parts[k]);
  }

  /** The directories below the first `k` parts of a path. */
  lemma {:induction false} PathFoldersFrom(parts: seq<string>, k: nat, r: FlatRow)
    requires 0 < k <= |parts|
    ensures r in PathFolders(parts[k..], ChildDepth(parts[k - 1], FolderDepth(parts, k)),
                             ROOT + "/" + Join(parts[..k], "/"))
            <==> FolderAfter(parts, k, r)
    decreases |parts| - k
  {
    if k + 1 < |parts| {
      assert parts[k..][1..] == parts[k + 1..];
      NextRow(parts, k, r);
      PathFoldersFrom(parts, k + 1, r);
      FolderNext(parts, k, r);
    }
  }

  lemma PathFoldersIff(parts: seq<string>, r: FlatRow)
    requires parts != []
    ensures r in PathFolders(parts, 0, ROOT) <==> FolderAfter(parts, 0, r)
  {
    if |parts| > 1 {
      PathFoldersFrom(parts, 1, r);
      assert parts[..1] == [parts[0]] && Join([parts[0]], "/") == parts[0];
      FolderNext(parts, 0, r);
    }
  }

  /** The row is of a directory that some listed file lies in. */
  predicate FolderOf(files: seq<FileEntry>, r: FlatRow) {
    exists i :: 0 <= i < |files| && FolderAfter(Parts(files[i].path), 0, r)
  }

  lemma FolderOfSnoc(init: seq<FileEntry>, e: FileEntry, r: FlatRow)
    ensures FolderOf(init + [e], r) <==> FolderOf(init, r) || FolderAfter(Parts(e.path), 0, r)
  {
    var files := init + [e];
    if FolderAfter(Parts(e.path), 0, r) {
      assert FolderAfter(Parts(files[|init|].path), 0, r);
    }
    if FolderOf(init, r) {
      var i :| 0 <= i < |init| && FolderAfter(Parts(init[i].path), 0, r);
      assert FolderAfter(Parts(files[i].path), 0, r);
    }
  }

  lemma {:induction false} BuildTreeFolders(files: seq<FileEntry>, counts: map<string, Counts>, r: FlatRow)
    ensures r in Folders(BuildTree(files, counts), 0, "") <==> FolderOf(files, r)
  {
    if files != [] {
      var init, e := files[..|files| - 1], files[|files| - 1];
      var c := CountsFor(counts, e.path);
      BuildTreeFolders(init, counts, r);
      BuildTreeFresh(init, counts);
      InsertAddsFolders(BuildTree(init, counts), Parts(e.path), e, c.adds, c.dels, 0, "");
      PathFoldersIff(Parts(e.path), r);
      assert files == init + [e];
      FolderOfSnoc(init, e, r);
    }
  }

  /**
   * Main result on directories. A new tree's list has a directory row for exactly the directories
   * of the listed paths, but for those called "root": with its name, its id, and
   * indented once for each directory it lies in (from the last "root" on).
   */
  lemma DirectoryRowsIff(files: seq<FileEntry>, counts: map<string, Counts>, r: FlatRow)
    ensures r.isDir && r in Flatten(BuildTree(files, counts), 0, "")
            <==> FolderOf(files, r)
  {
    BuildTreeFresh(files, counts);
    FlattenShowsFolders(BuildTree(files, counts), 0, "", r);
    BuildTreeFolders(files, counts, r);
  }

  // ---- The order of siblings --------------------------------------------------------------------------

  /** `a` may stand before `b`: directories first, then by name. */
  predicate MayPrecede(a: FlatRow, b: FlatRow) {
    (a.isDir || !b.isDir) && (a.isDir == b.isDir ==> !StrLess(b.name, a.name))
  }

  lemma {:induction false} SortedPairs(ns: seq<Node>, i: nat, j: nat)
    requires Ordered(ns) && i < j < |ns|
    ensures !Before(ns[j], ns[i])
  {
    assert InOrderAt(ns, j - 1);
    if i < j - 1 {
      SortedPairs(ns, i, j - 1);
      NotBeforeTransitive(ns[i], ns[j - 1], ns[j]);
    }
  }

  lemma NotBeforeTransitive(a: Node, b: Node, c: Node)
    requires !Before(b, a) && !Before(c, b)
    ensures !Before(c, a)
  {
    if a.Dir? == b.Dir? == c.Dir? && StrLess(c.name, a.name) {
      StrLessTotal(b.name, c.name);
      StrLessTotal(a.name, b.name);
      StrLessTotal(a.name, c.name);
      if b.name != c.name {
        if a.name != b.name {
          StrLessTransitive(a.name, b.name, c.name);
        }
      }
    }
  }

  /** The row lies directly in the directory with the id `p`. */
  predicate LiesIn(r: FlatRow, p: string) {
    r.pathId == p + "/" + r.name
  }

  lemma {:induction false} FlattenNames(n: Node, depth: nat, prefix: string)
    requires WellFormed(n)
    ensures forall r :: r in Flatten(n, depth, prefix) ==> NoSlash(r.name)
    decreases Size(n), 0
  {
    if n.Dir? {
      SortSize(n.children);
      SortWellFormed(n.children);
      FlattenAllNames(Sort(n.children), ChildDepth(n.name, depth), PathId(prefix, n.name));
    }
  }

  lemma {:induction false} FlattenAllNames(ns: seq<Node>, depth: nat, prefix: string)
    requires WellFormedAll(ns)
    ensures forall r :: r in FlattenAll(ns, depth, prefix) ==> NoSlash(r.name)
    decreases SizeAll(ns), 1
  {
    if ns != [] {
      FlattenNames(ns[0], depth, prefix);
      FlattenAllNames(ns[1..], depth, prefix);
    }
  }

  lemma NoSlashBehind(p: string, name: string)
    requires NoSlash(name)
    ensures forall k :: |p| < k < |p + "/" + name| ==> (p + "/" + name)[k] != '/'
  {
    forall k | |p| < k < |p + "/" + name| ensures (p + "/" + name)[k] != '/' {
      assert (p + "/" + name)[k] == name[k - |p| - 1];
    }
  }

  /** What lies below a directory lies in it or in something below it. */
  lemma ParentBelow(p: string, name: string, id: string, dir: string)
    requires NoSlash(name) && id == p + "/" + name && Under(id, dir)
    ensures |dir| <= |p| && (p == dir || Under(p, dir))
  {
    NoSlashBehind(p, name);
    assert id[|dir|] == (dir + "/")[|dir|] == '/';
    if |dir| == |p| {
      assert p == id[..|p|] == dir;
    } else {
      assert p[..|dir| + 1] == id[..|dir| + 1];
    }
  }

  /** A row of a child that lies directly in the parent is the child's own. */
  lemma OwnRow(n: Node, depth: nat, prefix: string, r: FlatRow)
    requires WellFormed(n) && prefix != "" && r in Flatten(n, depth, prefix) && NoSlash(r.name) && LiesIn(r, prefix)
    ensures r.name == n.name && r.isDir == n.Dir?
  {
    FlattenIds(n, depth, prefix);
    OwnerUnique(prefix, r.name, n.name, r.pathId);
    if n.Dir? {
      FlattenAllIds(Sort(n.children), ChildDepth(n.name, depth), PathId(prefix, n.name));
    }
  }

  /** A row of a child that lies deeper lies in that child's directory. */
  lemma DeeperRow(n: Node, depth: nat, prefix: string, r: FlatRow, p: string)
    requires WellFormed(n) && prefix != "" && r in Flatten(n, depth, prefix) && NoSlash(r.name)
    requires LiesIn(r, p) && p != prefix
    ensures n.Dir? && Owns(prefix, n.name, p)
  {
    FlattenIds(n, depth, prefix);
    if r.pathId == PathId(prefix, n.name) {
      LastSlash(p, r.name, prefix, n.name);
    } else {
      ParentBelow(p, r.name, r.pathId, PathId(prefix, n.name));
    }
  }

  lemma LastSlash(p: string, a: string, q: string, b: string)
    requires NoSlash(a) && NoSlash(b) && p + "/" + a == q + "/" + b
    ensures p == q
  {
    var id := p + "/" + a;
    NoSlashBehind(p, a);
    NoSlashBehind(q, b);
    assert id[|p|] == '/' && id[|q|] == (q + "/" + b)[|q|] == '/';
    assert p == id[..|p|] && q == (q + "/" + b)[..|q|];
  }

  /** Rows of two siblings that lie in one directory stand in the siblings' order. */
  lemma AcrossSiblings(n: Node, m: Node, depth: nat, prefix: string, r: FlatRow, s: FlatRow, p: string)
    requires WellFormed(n) && WellFormed(m) && prefix != "" && !Before(m, n)
    requires n.Dir? && m.Dir? ==> n.name != m.name
    requires r in Flatten(n, depth, prefix) && s in Flatten(m, depth, prefix) && LiesIn(r, p) && LiesIn(s, p)
    ensures MayPrecede(r, s)
  {
    FlattenNames(n, depth, prefix);
    FlattenNames(m, depth, prefix);
    if p == prefix {
      OwnRow(n, depth, prefix, r);
      OwnRow(m, depth, prefix, s);
    } else {
      DeeperRow(n, depth, prefix, r, p);
      DeeperRow(m, depth, prefix, s, p);
      OwnerUnique(prefix, n.name, m.name, p);
    }
  }

  lemma {:induction false} RowSource(ns: seq<Node>, depth: nat, prefix: string, j: nat) returns (b: nat)
    requires j < |FlattenAll(ns, depth, prefix)|
    ensures b < |ns| && FlattenAll(ns, depth, prefix)[j] in Flatten(ns[b], depth, prefix)
  {
    var first := Flatten(ns[0], depth, prefix);
    if j < |first| {
      b := 0;
    } else {
      var c := RowSource(ns[1..], depth, prefix, j - |first|);
      b := c + 1;
    }
  }

  lemma {:induction false} WellFormedMember(ns: seq<Node>, b: nat)
    requires WellFormedAll(ns) && b < |ns|
    ensures WellFormed(ns[b]) && (ns[b].Dir? ==> ns[b].name in DirNames(ns))
  {
    if b > 0 {
      WellFormedMember(ns[1..], b - 1);
    }
  }

  /** What lies below a directory does not lie beside it. */
  lemma BelowIsNotBeside(n: Node, depth: nat, prefix: string, r: FlatRow, p: string)
    requires WellFormed(n) && n.Dir? && PathId(prefix, n.name) != "" && r in RowsBelow(n, depth, prefix)
    requires LiesIn(DirRow(n, depth, prefix), p)
    ensures !LiesIn(r, p)
  {
    var id, d, sorted := PathId(prefix, n.name), ChildDepth(n.name, depth), Sort(n.children);
    SortWellFormed(n.children);
    FlattenAllIds(sorted, d, id);
    FlattenAllNames(sorted, d, id);
    if LiesIn(r, p) {
      ParentBelow(p, r.name, r.pathId, id);
    }
  }

  lemma {:induction false} OrderIn(n: Node, depth: nat, prefix: string, i: nat, j: nat, p: string)
    requires WellFormed(n) && (n.name == ROOT || prefix != "")
    requires i < j < |Flatten(n, depth, prefix)|
    requires LiesIn(Flatten(n, depth, prefix)[i], p) && LiesIn(Flatten(n, depth, prefix)[j], p)
    ensures MayPrecede(Flatten(n, depth, prefix)[i], Flatten(n, depth, prefix)[j])
    decreases Size(n), 0
  {
    var off := if n.name == ROOT then 0 else 1;
    RowOf(n, depth, prefix, i);
    RowOf(n, depth, prefix, j);
    if i < off {
      var r := RowsBelow(n, depth, prefix)[j - off];
      assert r in RowsBelow(n, depth, prefix);
      BelowIsNotBeside(n, depth, prefix, r, p);
    } else {
      SortSize(n.children);
      SortWellFormed(n.children);
      SortOrdered(n.children);
      OrderAmong(Sort(n.children), ChildDepth(n.name, depth), PathId(prefix, n.name), i - off, j - off, p);
    }
  }

  lemma {:induction false} OrderAmong(ns: seq<Node>, depth: nat, prefix: string, i: nat, j: nat, p: string)
    requires WellFormedAll(ns) && Ordered(ns) && prefix != ""
    requires i < j < |FlattenAll(ns, depth, prefix)|
    requires LiesIn(FlattenAll(ns, depth, prefix)[i], p) && LiesIn(FlattenAll(ns, depth, prefix)[j], p)
    ensures MayPrecede(FlattenAll(ns, depth, prefix)[i], FlattenAll(ns, depth, prefix)[j])
    decreases SizeAll(ns), 1
  {
    var first, rest := Flatten(ns[0], depth, prefix), FlattenAll(ns[1..], depth, prefix);
    if j < |first| {
      OrderIn(ns[0], depth, prefix, i, j, p);
    } else if i >= |first| {
      OrderedTail(ns);
      OrderAmong(ns[1..], depth, prefix, i - |first|, j - |first|, p);
    } else {
      var b := RowSource(ns[1..], depth, prefix, j - |first|);
      WellFormedMember(ns[1..], b);
      SortedPairs(ns, 0, b + 1);
      assert first[i] in first;
      AcrossSiblings(ns[0], ns[1..][b], depth, prefix, first[i], rest[j - |first|], p);
    }
  }

  lemma OrderedTail(ns: seq<Node>)
    requires Ordered(ns) && ns != []
    ensures Ordered(ns[1..])
  {
    forall i | 0 <= i < |ns[1..]| - 1 ensures InOrderAt(ns[1..], i) {
      assert InOrderAt(ns, i + 1);
    }
  }

  /**
   * Main result on order. In the list of any tree, whatever is open: of two rows in one directory, a
   * directory comes before a file, and of the same kind the lesser name first.
   */
  lemma SiblingsInOrder(root: Node, i: nat, j: nat, p: string)
    requires WellFormed(root) && root.Dir? && root.name == ROOT && i < j < |Flatten(root, 0, "")|
    requires LiesIn(Flatten(root, 0, "")[i], p) && LiesIn(Flatten(root, 0, "")[j], p)
    ensures MayPrecede(Flatten(root, 0, "")[i], Flatten(root, 0, "")[j])
  {
    OrderIn(root, 0, "", i, j, p);
  }

  /** Every row lies in the directory its id is cut at. */
  lemma {:induction false} RowsLie(n: Node, depth: nat, prefix: string)
    requires n.name == ROOT || prefix != ""
    requires prefix == "" ==> n.Dir?
    ensures forall r :: r in Flatten(n, depth, prefix) ==> exists p :: LiesIn(r, p)
    decreases Size(n), 0
  {
    if n.Dir? {
      SortSize(n.children);
      AllRowsLie(Sort(n.children), ChildDepth(n.name, depth), PathId(prefix, n.name));
    }
    forall r | r in Flatten(n, depth, prefix) ensures exists p :: LiesIn(r, p) {
      if r.pathId == PathId(prefix, n.name) && r.name == n.name && prefix != "" {
        assert LiesIn(r, prefix);
      }
    }
  }

  lemma {:induction false} AllRowsLie(ns: seq<Node>, depth: nat, prefix: string)
    requires prefix != ""
    ensures forall r :: r in FlattenAll(ns, depth, prefix) ==> exists p :: LiesIn(r, p)
    decreases SizeAll(ns), 1
  {
    if ns != [] {
      RowsLie(ns[0], depth, prefix);
      AllRowsLie(ns[1..], depth, prefix);
    }
  }

  /** Of a directory row and a file row with one id the directory's comes first. */
  lemma DirBeforeFile(root: Node, i: nat, j: nat)
    requires WellFormed(root) && root.Dir? && root.name == ROOT
    requires i < |Flatten(root, 0, "")| && j < |Flatten(root, 0, "")|
    requires Flatten(root, 0, "")[i].isDir && !Flatten(root, 0, "")[j].isDir
    requires Flatten(root, 0, "")[i].pathId == Flatten(root, 0, "")[j].pathId
    ensures i < j
  {
    var r, s := Flatten(root, 0, "")[i], Flatten(root, 0, "")[j];
    RowsLie(root, 0, "");
    FlattenNames(root, 0, "");
    assert r in Flatten(root, 0, "") && s in Flatten(root, 0, "");
    var p :| LiesIn(r, p);
    var q :| LiesIn(s, q);
    LastSlash(p, r.name, q, s.name);
    if j < i {
      SiblingsInOrder(root, j, i, p);
    }
  }
}
