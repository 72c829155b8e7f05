/** Building the tree from the detected files: no file is lost, doubled or misplaced. */
module DiffTreeBuild {
  import opened Prelude
  import opened Text
  import opened DiffLines
  import opened DiffParser
  import opened DiffTree
  import opened DiffTreeToggle

  const EMPTY_ROOT := Dir(ROOT, true, [])

  function InsertFile(root: Node, e: FileEntry, counts: map<string, Counts>): Node {
    var c := CountsFor(counts, e.path);
    Insert(root, Parts(e.path), e, c.adds, c.dels)
  }

  function BuildTree(files: seq<FileEntry>, counts: map<string, Counts>): Node {
    if files == [] then EMPTY_ROOT
    else InsertFile(BuildTree(files[..|files| - 1], counts), files[|files| - 1], counts)
  }

  method BuildTreeLoop(files: seq<FileEntry>, counts: map<string, Counts>) returns (root: Node)
    ensures root == BuildTree(files, counts)
  {
    root := EMPTY_ROOT;
    for i := 0 to |files|
      invariant root == BuildTree(files[..i], counts)
    {
      assert files[..i + 1][..i] == files[..i];
      root := InsertFile(root, files[i], counts);
    }
    assert files[..|files|] == files;
  }

  // ---- Insertion keeps the tree well-formed and open -------------------------------------

  predicate AllExpanded(n: Node)
    decreases Size(n), 0
  {
    n.Dir? ==> n.expanded && AllExpandedAll(n.children)
  }

  predicate AllExpandedAll(ns: seq<Node>)
    decreases SizeAll(ns), 1
  {
    ns != [] ==> AllExpanded(ns[0]) && AllExpandedAll(ns[1..])
  }

  /** Well-formed and open, the state of the tree while it is built. */
  predicate Fresh(n: Node) {
    WellFormed(n) && AllExpanded(n)
  }

  predicate FreshAll(ns: seq<Node>) {
    WellFormedAll(ns) && AllExpandedAll(ns)
  }

  lemma {:induction false} FreshAppend(ns: seq<Node>, m: Node)
    requires FreshAll(ns) && Fresh(m)
    requires m.Dir? ==> m.name !in DirNames(ns)
    ensures FreshAll(ns + [m])
    ensures DirNames(ns + [m]) == DirNames(ns) + if m.Dir? then {m.name} else {}
  {
    if ns != [] {
      FreshAppend(ns[1..], m);
      assert (ns + [m])[1..] == ns[1..] + [m];
    }
  }

  lemma {:induction false} FreshUpdate(ns: seq<Node>, i: nat, m: Node)
    requires i < |ns| && FreshAll(ns) && Fresh(m)
    requires m.Dir? == ns[i].Dir? && m.name == ns[i].name
    ensures FreshAll(ns[i := m]) && DirNames(ns[i := m]) == DirNames(ns)
  {
    if i > 0 {
      FreshUpdate(ns[1..], i - 1, m);
      assert ns[i := m][1..] == ns[1..][i - 1 := m];
    } else {
      assert ns[0 := m][1..] == ns[1..];
    }
  }

  lemma {:induction false} FreshMember(ns: seq<Node>, i: nat)
    requires i < |ns| && FreshAll(ns)
    ensures Fresh(ns[i])
  {
    if i > 0 {
      FreshMember(ns[1..], i - 1);
    }
  }

  lemma {:induction false} DirNamesFound(ns: seq<Node>, name: string)
    ensures name in DirNames(ns) <==> FindDir(ns, name) < |ns|
  {
    if ns != [] {
      DirNamesFound(ns[1..], name);
    }
  }

  lemma {:induction false} InsertFresh(n: Node, parts: seq<string>, e: FileEntry, adds: nat, dels: nat)
    requires Fresh(n) && forall p :: p in parts ==> NoSlash(p)
    ensures Fresh(Insert(n, parts, e, adds, dels))
    ensures Insert(n, parts, e, adds, dels).name == n.name
    ensures Insert(n, parts, e, adds, dels).Dir? == n.Dir?
    decreases |parts|
  {
    if n.Dir? && |parts| == 1 {
      assert NoSlash(parts[0]);
      FreshAppend(n.children, File(parts[0], e, adds, dels));
    } else if n.Dir? && |parts| > 1 {
      var i := FindDir(n.children, parts[0]);
      assert NoSlash(parts[0]);
      if i < |n.children| {
        FreshMember(n.children, i);
        InsertFresh(n.children[i], parts[1..], e, adds, dels);
        FreshUpdate(n.children, i, Insert(n.children[i], parts[1..], e, adds, dels));
      } else {
        DirNamesFound(n.children, parts[0]);
        var dir := Dir(parts[0], true, []);
        assert Fresh(dir);
        InsertFresh(dir, parts[1..], e, adds, dels);
        FreshAppend(n.children, Insert(dir, parts[1..], e, adds, dels));
      }
    }
  }

  lemma PartsHaveNoSlash(path: string)
    ensures forall p :: p in Parts(path) ==> NoSlash(p)
  {
    forall p | p in Parts(path) ensures NoSlash(p) {
      assert forall c :: c in p ==> c !in SLASHES;
      assert '/' in SLASHES && '\\' in SLASHES;
    }
  }

  /**
   * After construction, for any files and counts: sibling directories have
   * distinct names, no name holds a slash, and every directory is open.
   */
  lemma {:induction false} BuildTreeFresh(files: seq<FileEntry>, counts: map<string, Counts>)
    ensures Fresh(BuildTree(files, counts))
    ensures BuildTree(files, counts).Dir? && BuildTree(files, counts).name == ROOT
  {
    if files != [] {
      var e := files[|files| - 1];
      var c := CountsFor(counts, e.path);
      BuildTreeFresh(files[..|files| - 1], counts);
      PartsHaveNoSlash(e.path);
      InsertFresh(BuildTree(files[..|files| - 1], counts), Parts(e.path), e, c.adds, c.dels);
    }
  }

  // ---- The files of a tree -----------------------------------------------------------------

  /** The rows of all files below a node, open or not. */
  function LeafRows(n: Node, depth: nat, prefix: string): multiset<FlatRow>
    decreases Size(n), 0
  {
    match n
    case File(_, _, _, _) => multiset{FileRow(n, depth, prefix)}
    case Dir(name, _, children) => LeafRowsAll(children, ChildDepth(name, depth), PathId(prefix, name))
  }

  function LeafRowsAll(ns: seq<Node>, depth: nat, prefix: string): multiset<FlatRow>
    decreases SizeAll(ns), 1
  {
    if ns == [] then multiset{} else LeafRows(ns[0], depth, prefix) + LeafRowsAll(ns[1..], depth, prefix)
  }

  function FileRowBag(row: FlatRow): multiset<FlatRow> {
    if row.isDir then multiset{} else multiset{row}
  }

  /** The file rows of a list. */
  function FileRows(rows: seq<FlatRow>): multiset<FlatRow> {
    if rows == [] then multiset{} else FileRowBag(rows[0]) + FileRows(rows[1..])
  }

  lemma FileRowsCons(row: FlatRow, rest: seq<FlatRow>)
    ensures FileRows([row] + rest) == FileRowBag(row) + FileRows(rest)
  {
    assert ([row] + rest)[1..] == rest;
  }

  lemma {:induction false} FileRowsConcat(a: seq<FlatRow>, b: seq<FlatRow>)
    ensures FileRows(a + b) == FileRows(a) + FileRows(b)
  {
    if a == [] {
      assert a + b == b;
    } else {
      var bag := FileRowBag(a[0]);
      calc {
        FileRows(a + b);
        { assert a + b == [a[0]] + (a[1..] + b); }
        FileRows([a[0]] + (a[1..] + b));
        { FileRowsCons(a[0], a[1..] + b); }
        bag + FileRows(a[1..] + b);
        { FileRowsConcat(a[1..], b); }
        bag + (FileRows(a[1..]) + FileRows(b));
        { BagAssociative(bag, FileRows(a[1..]), FileRows(b)); }
        FileRows(a) + FileRows(b);
      }
    }
  }

  lemma BagAssociative<T>(a: multiset<T>, b: multiset<T>, c: multiset<T>)
    ensures a + (b + c) == (a + b) + c
  {
  }

  lemma {:induction false} LeafRowsSorted(ns: seq<Node>, depth: nat, prefix: string)
    ensures LeafRowsAll(Sort(ns), depth, prefix) == LeafRowsAll(ns, depth, prefix)
  {
    if ns != [] {
      LeafRowsSorted(ns[1..], depth, prefix);
      LeafRowsInserted(ns[0], Sort(ns[1..]), depth, prefix);
    }
  }

  lemma {:induction false} LeafRowsInserted(n: Node, sorted: seq<Node>, depth: nat, prefix: string)
    ensures LeafRowsAll(InsertSorted(n, sorted), depth, prefix)
         == LeafRows(n, depth, prefix) + LeafRowsAll(sorted, depth, prefix)
  {
    if sorted != [] && Before(sorted[0], n) {
      LeafRowsInserted(n, sorted[1..], depth, prefix);
    }
  }

  lemma {:induction false} SortExpanded(ns: seq<Node>)
    requires AllExpandedAll(ns)
    ensures AllExpandedAll(Sort(ns))
  {
    if ns != [] {
      SortExpanded(ns[1..]);
      InsertExpanded(ns[0], Sort(ns[1..]));
    }
  }

  lemma {:induction false} InsertExpanded(n: Node, sorted: seq<Node>)
    requires AllExpanded(n) && AllExpandedAll(sorted)
    ensures AllExpandedAll(InsertSorted(n, sorted))
  {
    if sorted != [] && Before(sorted[0], n) {
      InsertExpanded(n, sorted[1..]);
    }
  }

  /** With every directory open the list shows every file of the tree exactly once. */
  lemma {:induction false} FlattenShowsAllFiles(n: Node, depth: nat, prefix: string)
    requires AllExpanded(n)
    ensures FileRows(Flatten(n, depth, prefix)) == LeafRows(n, depth, prefix)
    decreases Size(n), 0
  {
    if n.Dir? {
      var d, p := ChildDepth(n.name, depth), PathId(prefix, n.name);
      SortSize(n.children);
      SortExpanded(n.children);
      FlattenAllShowsAllFiles(Sort(n.children), d, p);
      LeafRowsSorted(n.children, d, p);
      FileRowsConcat(if n.name != ROOT then [DirRow(n, depth, prefix)] else [],
                     FlattenAll(Sort(n.children), d, p));
    }
  }

  lemma {:induction false} FlattenAllShowsAllFiles(ns: seq<Node>, depth: nat, prefix: string)
    requires AllExpandedAll(ns)
    ensures FileRows(FlattenAll(ns, depth, prefix)) == LeafRowsAll(ns, depth, prefix)
    decreases SizeAll(ns), 1
  {
    if ns != [] {
      FlattenShowsAllFiles(ns[0], depth, prefix);
      FlattenAllShowsAllFiles(ns[1..], depth, prefix);
      FileRowsConcat(Flatten(ns[0], depth, prefix), FlattenAll(ns[1..], depth, prefix));
    }
  }

  // ---- Insertion adds exactly one file -----------------------------------------------------

  /** The row of a file placed under the directories of its path. */
  function RowAt(depth: nat, prefix: string, parts: seq<string>, e: FileEntry, adds: nat, dels: nat): FlatRow
    requires parts != []
    decreases |parts|
  {
    if |parts| == 1 then
      FlatRow(parts[0], depth, false, false, Some(e), PathId(prefix, parts[0]), adds, dels)
    else
      RowAt(ChildDepth(parts[0], depth), PathId(prefix, parts[0]), parts[1..], e, adds, dels)
  }

  function FilePaths(n: Node): set<string>
    decreases Size(n), 0
  {
    match n
    case File(_, e, _, _) => {e.path}
    case Dir(_, _, children) => FilePathsAll(children)
  }

  function FilePathsAll(ns: seq<Node>): set<string>
    decreases SizeAll(ns), 1
  {
    if ns == [] then {} else FilePaths(ns[0]) + FilePathsAll(ns[1..])
  }

  lemma {:induction false} FilePathsMember(ns: seq<Node>, i: nat)
    requires i < |ns|
    ensures FilePaths(ns[i]) <= FilePathsAll(ns)
  {
    if i > 0 {
      FilePathsMember(ns[1..], i - 1);
    }
  }

  /** `m` holds one file more than `n`: the one of `row`. */
  ghost predicate Gains(n: Node, m: Node, depth: nat, prefix: string, row: FlatRow)
    requires row.entry.Some?
  {
    && LeafRows(m, depth, prefix) == LeafRows(n, depth, prefix) + multiset{row}
    && FilePaths(m) == FilePaths(n) + {row.entry.value.path}
    && Total(Old, m) == Total(Old, n) + row.dels
    && Total(New, m) == Total(New, n) + row.adds
  }

  ghost predicate GainsAll(ns: seq<Node>, ms: seq<Node>, depth: nat, prefix: string, row: FlatRow)
    requires row.entry.Some?
  {
    && LeafRowsAll(ms, depth, prefix) == LeafRowsAll(ns, depth, prefix) + multiset{row}
    && FilePathsAll(ms) == FilePathsAll(ns) + {row.entry.value.path}
    && TotalAll(Old, ms) == TotalAll(Old, ns) + row.dels
    && TotalAll(New, ms) == TotalAll(New, ns) + row.adds
  }

  /** A new child that holds one file. */
  lemma {:induction false} AppendOne(ns: seq<Node>, m: Node, depth: nat, prefix: string, row: FlatRow)
    requires row.entry.Some?
    requires LeafRows(m, depth, prefix) == multiset{row}
    requires FilePaths(m) == {row.entry.value.path}
    requires Total(Old, m) == row.dels && Total(New, m) == row.adds
    ensures GainsAll(ns, ns + [m], depth, prefix, row)
  {
    if ns == [] {
      assert ns + [m] == [m];
    } else {
      AppendOne(ns[1..], m, depth, prefix, row);
      assert (ns + [m])[1..] == ns[1..] + [m];
    }
  }

  /** What one child gains, the list of children gains. */
  lemma {:induction false} UpdateOne(ns: seq<Node>, i: nat, m: Node, depth: nat, prefix: string, row: FlatRow)
    requires i < |ns| && row.entry.Some? && Gains(ns[i], m, depth, prefix, row)
    ensures GainsAll(ns, ns[i := m], depth, prefix, row)
  {
    var ms := ns[i := m];
    if i > 0 {
      UpdateOne(ns[1..], i - 1, m, depth, prefix, row);
      assert ms[0] == ns[0] && ms[1..] == ns[1..][i - 1 := m];
      BagAssociative(LeafRows(ns[0], depth, prefix), LeafRowsAll(ns[1..], depth, prefix), multiset{row});
    } else {
      assert ms[0] == m && ms[1..] == ns[1..];
      BagExchange(LeafRows(ns[0], depth, prefix), multiset{row}, LeafRowsAll(ns[1..], depth, prefix));
    }
  }

  lemma BagExchange<T>(a: multiset<T>, b: multiset<T>, c: multiset<T>)
    ensures (a + b) + c == (a + c) + b
  {
  }

  lemma {:induction false} HasFileInPaths(ns: seq<Node>, path: string)
    requires HasFile(ns, path)
    ensures path in FilePathsAll(ns)
  {
    var i :| 0 <= i < |ns| && ns[i].File? && ns[i].entry.path == path;
    FilePathsMember(ns, i);
  }

  lemma {:induction false} RowAtCounts(
      depth: nat, prefix: string, parts: seq<string>, e: FileEntry, adds: nat, dels: nat)
    requires parts != []
    ensures RowAt(depth, prefix, parts, e, adds, dels).adds == adds
    ensures RowAt(depth, prefix, parts, e, adds, dels).dels == dels
    ensures RowAt(depth, prefix, parts, e, adds, dels).entry == Some(e)
    decreases |parts|
  {
    if |parts| > 1 {
      RowAtCounts(ChildDepth(parts[0], depth), PathId(prefix, parts[0]), parts[1..], e, adds, dels);
    }
  }

  /** What the children gain, the directory gains. */
  lemma DirGains(n: Node, ms: seq<Node>, depth: nat, prefix: string, row: FlatRow)
    requires n.Dir? && row.entry.Some?
    requires GainsAll(n.children, ms, ChildDepth(n.name, depth), PathId(prefix, n.name), row)
    ensures Gains(n, n.(children := ms), depth, prefix, row)
  {
  }

  /** Inserting a file whose path is new adds exactly its row, under its directories. */
  lemma {:induction false} InsertAddsOne(
      n: Node, parts: seq<string>, e: FileEntry, adds: nat, dels: nat, depth: nat, prefix: string)
    requires n.Dir? && parts != [] && e.path !in FilePaths(n)
    ensures var row := RowAt(ChildDepth(n.name, depth), PathId(prefix, n.name), parts, e, adds, dels);
            && row.entry == Some(e)
            && Gains(n, Insert(n, parts, e, adds, dels), depth, prefix, row)
    decreases |parts|
  {
    var d, p := ChildDepth(n.name, depth), PathId(prefix, n.name);
    var row := RowAt(d, p, parts, e, adds, dels);
    RowAtCounts(d, p, parts, e, adds, dels);
    if |parts| == 1 {
      if HasFile(n.children, e.path) {
        HasFileInPaths(n.children, e.path);
      }
      var file := File(parts[0], e, adds, dels);
      AppendOne(n.children, file, d, p, row);
      DirGains(n, n.children + [file], depth, prefix, row);
    } else {
      var i := FindDir(n.children, parts[0]);
      if i < |n.children| {
        FilePathsMember(n.children, i);
        InsertAddsOne(n.children[i], parts[1..], e, adds, dels, d, p);
        var m := Insert(n.children[i], parts[1..], e, adds, dels);
        UpdateOne(n.children, i, m, d, p, row);
        DirGains(n, n.children[i := m], depth, prefix, row);
      } else {
        var dir := Dir(parts[0], true, []);
        InsertAddsOne(dir, parts[1..], e, adds, dels, d, p);
        var m := Insert(dir, parts[1..], e, adds, dels);
        EmptyDirGains(dir, m, d, p, row);
        AppendOne(n.children, m, d, p, row);
        DirGains(n, n.children + [m], depth, prefix, row);
      }
    }
  }

  lemma EmptyDirGains(dir: Node, m: Node, depth: nat, prefix: string, row: FlatRow)
    requires dir.Dir? && dir.children == [] && row.entry.Some?
    requires Gains(dir, m, depth, prefix, row)
    ensures LeafRows(m, depth, prefix) == multiset{row}
    ensures FilePaths(m) == {row.entry.value.path}
    ensures Total(Old, m) == row.dels && Total(New, m) == row.adds
  {
    assert LeafRows(dir, depth, prefix) == multiset{};
    assert FilePaths(dir) == {} && Total(Old, dir) == 0 && Total(New, dir) == 0;
  }

  // ---- Main results ------------------------------------------------------------------------

  /** The row a listed file should have. */
  function RowFor(e: FileEntry, counts: map<string, Counts>): FlatRow {
    var c := CountsFor(counts, e.path);
    RowAt(0, ROOT, Parts(e.path), e, c.adds, c.dels)
  }

  function RowsFor(files: seq<FileEntry>, counts: map<string, Counts>): seq<FlatRow> {
    if files == [] then [] else
      RowsFor(files[..|files| - 1], counts) + [RowFor(files[|files| - 1], counts)]
  }

  function SumCounts(side: Side, files: seq<FileEntry>, counts: map<string, Counts>): nat {
    if files == [] then 0 else
      var c := CountsFor(counts, files[|files| - 1].path);
      SumCounts(side, files[..|files| - 1], counts) + Amount(side, c.adds, c.dels)
  }

  function PathSet(files: seq<FileEntry>): set<string> {
    if files == [] then {} else PathSet(files[..|files| - 1]) + {files[|files| - 1].path}
  }

  lemma {:induction false} PathSetIff(files: seq<FileEntry>)
    ensures forall p :: p in PathSet(files) <==> p in Paths(files)
  {
    if files != [] {
      var init := files[..|files| - 1];
      PathSetIff(init);
      assert Paths(files) == Paths(init) + [files[|files| - 1].path];
    }
  }

  ghost predicate Contains(root: Node, files: seq<FileEntry>, counts: map<string, Counts>) {
    && LeafRows(root, 0, "") == multiset(RowsFor(files, counts))
    && FilePaths(root) == PathSet(files)
    && Total(Old, root) == SumCounts(Old, files, counts)
    && Total(New, root) == SumCounts(New, files, counts)
  }

  /** The last file adds its row to the tree of the others. */
  lemma LastFileGains(files: seq<FileEntry>, counts: map<string, Counts>)
    requires files != [] && files[|files| - 1].path !in FilePaths(BuildTree(files[..|files| - 1], counts))
    ensures var e := files[|files| - 1];
            && RowFor(e, counts).entry == Some(e)
            && RowFor(e, counts).adds == CountsFor(counts, e.path).adds
            && RowFor(e, counts).dels == CountsFor(counts, e.path).dels
            && Gains(BuildTree(files[..|files| - 1], counts), BuildTree(files, counts), 0, "", RowFor(e, counts))
  {
    var init, e := files[..|files| - 1], files[|files| - 1];
    var c := CountsFor(counts, e.path);
    BuildTreeFresh(init, counts);
    InsertAddsOne(BuildTree(init, counts), Parts(e.path), e, c.adds, c.dels, 0, "");
    RowAtCounts(0, ROOT, Parts(e.path), e, c.adds, c.dels);
  }

  lemma DistinctInit(files: seq<FileEntry>)
    requires Distinct(Paths(files)) && files != []
    ensures Distinct(Paths(files[..|files| - 1])) && files[|files| - 1].path !in Paths(files[..|files| - 1])
  {
    var init, e := files[..|files| - 1], files[|files| - 1];
    assert Paths(files) == Paths(init) + [e.path];
    DistinctSnoc(Paths(init), e.path);
  }

  lemma {:induction false} BuildTreePaths(files: seq<FileEntry>, counts: map<string, Counts>)
    requires Distinct(Paths(files))
    ensures FilePaths(BuildTree(files, counts)) == PathSet(files)
    ensures files != [] ==> files[|files| - 1].path !in FilePaths(BuildTree(files[..|files| - 1], counts))
  {
    if files != [] {
      var init := files[..|files| - 1];
      DistinctInit(files);
      BuildTreePaths(init, counts);
      PathSetIff(init);
      LastFileGains(files, counts);
    }
  }

  lemma {:induction false} BuildTreeRows(files: seq<FileEntry>, counts: map<string, Counts>)
    requires Distinct(Paths(files))
    ensures LeafRows(BuildTree(files, counts), 0, "") == multiset(RowsFor(files, counts))
  {
    if files != [] {
      DistinctInit(files);
      BuildTreeRows(files[..|files| - 1], counts);
      BuildTreePaths(files, counts);
      LastFileGains(files, counts);
    }
  }

  lemma {:induction false} BuildTreeTotals(side: Side, files: seq<FileEntry>, counts: map<string, Counts>)
    requires Distinct(Paths(files))
    ensures Total(side, BuildTree(files, counts)) == SumCounts(side, files, counts)
  {
    if files != [] {
      DistinctInit(files);
      BuildTreeTotals(side, files[..|files| - 1], counts);
      BuildTreePaths(files, counts);
      LastFileGains(files, counts);
    }
  }

  /** The tree of files with distinct paths holds exactly these, with their counts. */
  lemma BuildTreeContents(files: seq<FileEntry>, counts: map<string, Counts>)
    requires Distinct(Paths(files))
    ensures Contains(BuildTree(files, counts), files, counts)
  {
    BuildTreeRows(files, counts);
    BuildTreePaths(files, counts);
    BuildTreeTotals(Old, files, counts);
    BuildTreeTotals(New, files, counts);
  }

  /**
   * For any files with distinct paths: the file rows of the flattened tree are a
   * permutation of the files' rows. None is lost, none doubled, and each sits
   * under the directories of its own path with its own counts.
   */
  lemma FileRowsArePermutation(files: seq<FileEntry>, counts: map<string, Counts>)
    requires Distinct(Paths(files))
    ensures FileRows(Flatten(BuildTree(files, counts), 0, "")) == multiset(RowsFor(files, counts))
  {
    BuildTreeContents(files, counts);
    BuildTreeFresh(files, counts);
    FlattenShowsAllFiles(BuildTree(files, counts), 0, "");
  }

  lemma {:induction false} RowAtId(
      depth: nat, prefix: string, parts: seq<string>, e: FileEntry, adds: nat, dels: nat)
    requires parts != [] && prefix != ""
    ensures RowAt(depth, prefix, parts, e, adds, dels).pathId == prefix + "/" + Join(parts, "/")
    ensures RowAt(depth, prefix, parts, e, adds, dels).name == parts[|parts| - 1]
    ensures ROOT !in parts[..|parts| - 1] ==>
              RowAt(depth, prefix, parts, e, adds, dels).depth == depth + |parts| - 1
    decreases |parts|
  {
    if |parts| > 1 {
      RowAtId(ChildDepth(parts[0], depth), PathId(prefix, parts[0]), parts[1..], e, adds, dels);
      assert parts[..|parts| - 1] == [parts[0]] + parts[1..][..|parts| - 2];
    }
  }

  /**
   * The row of a file: its id is "root/" and its path with every backslash turned
   * into a slash, its name the last part, and it is indented once per directory
   * unless one of them is itself called "root".
   */
  lemma RowForFile(e: FileEntry, counts: map<string, Counts>)
    ensures var row := RowFor(e, counts);
            var parts := Parts(e.path);
            && row.pathId == ROOT + "/" + Replace(e.path, SLASHES, '/')
            && row.name == parts[|parts| - 1]
            && row.entry == Some(e) && !row.isDir
            && row.adds == CountsFor(counts, e.path).adds
            && row.dels == CountsFor(counts, e.path).dels
            && (ROOT !in parts[..|parts| - 1] ==> row.depth == |parts| - 1)
  {
    var c := CountsFor(counts, e.path);
    IdOfPath(e.path);
    RowAtAll(Parts(e.path), e, c.adds, c.dels);
  }

  lemma IdOfPath(path: string)
    ensures Join(Parts(path), "/") == Replace(path, SLASHES, '/')
  {
    JoinSplit(path, SLASHES, '/');
  }

  /** Everything about the row of a file under the root. */
  lemma RowAtAll(parts: seq<string>, e: FileEntry, adds: nat, dels: nat)
    requires parts != []
    ensures var row := RowAt(0, ROOT, parts, e, adds, dels);
            && row.pathId == ROOT + "/" + Join(parts, "/") && row.name == parts[|parts| - 1]
            && row.entry == Some(e) && !row.isDir && row.adds == adds && row.dels == dels
            && (ROOT !in parts[..|parts| - 1] ==> row.depth == |parts| - 1)
  {
    RowAtId(0, ROOT, parts, e, adds, dels);
    RowAtCounts(0, ROOT, parts, e, adds, dels);
    RowAtIsFile(0, ROOT, parts, e, adds, dels);
  }

  lemma {:induction false} RowAtIsFile(
      depth: nat, prefix: string, parts: seq<string>, e: FileEntry, adds: nat, dels: nat)
    requires parts != []
    ensures !RowAt(depth, prefix, parts, e, adds, dels).isDir
    decreases |parts|
  {
    if |parts| > 1 {
      RowAtIsFile(ChildDepth(parts[0], depth), PathId(prefix, parts[0]), parts[1..], e, adds, dels);
    }
  }
}
