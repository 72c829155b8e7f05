/** Flattening the tree anew: which row stays selected, and which counts survive. */
module DiffRebuild {
  import opened Prelude
  import opened Text
  import opened DiffLines
  import opened DiffParser
  import opened DiffParserProofs
  import opened DiffTree
  import opened DiffTreeToggle
  import opened DiffTreeBuild
  import opened DiffFolders
  import opened DiffDirCounts

  // ---- Finding the selected row again ---------------------------------------------------

  /** First row with that file path or that id, or the length. */
  function FindSelected(rows: seq<FlatRow>, key: string): (i: nat)
    ensures i <= |rows|
    ensures i < |rows| ==> Matches(rows[i], key)
    ensures forall j :: 0 <= j < i ==> !Matches(rows[j], key)
  {
    if rows == [] || Matches(rows[0], key) then 0 else 1 + FindSelected(rows[1..], key)
  }

  predicate Matches(row: FlatRow, key: string) {
    (row.entry.Some? && row.entry.value.path == key) || row.pathId == key
  }

  function SelectedRow(visible: seq<FlatRow>, selected: nat): Option<FlatRow> {
    if selected < |visible| then Some(visible[selected]) else None
  }

  /** Where the row that was selected is found again: by its file path, else by its id. */
  function Reselected(visible: seq<FlatRow>, was: Option<FlatRow>): (pos: Option<nat>)
    ensures pos.Some? ==> pos.value < |visible|
  {
    if was.None? then None else
      var i := FindSelected(visible, if was.value.entry.Some? then was.value.entry.value.path
                                     else was.value.pathId);
      if i < |visible| then Some(i) else None
  }

  // ---- Trees of a diff -----------------------------------------------------------------

  /** The tree holds the files of the parse, whatever is open or shut. */
  ghost predicate TreeOf(st: State, root: Node) {
    && WellFormed(root) && root.Dir? && root.name == ROOT
    && LeafRows(root, 0, "") == multiset(RowsFor(st.files, st.counts))
  }

  lemma NewTree(raw: string)
    ensures TreeOf(ParseText(raw), BuildTree(ParseText(raw).files, ParseText(raw).counts))
  {
    var st := ParseText(raw);
    FileListIsFaithful(raw);
    BuildTreeFresh(st.files, st.counts);
    BuildTreeContents(st.files, st.counts);
  }

  lemma {:induction false} ToggleLeafRows(n: Node, target: string, at: string, depth: nat, prefix: string)
    ensures LeafRows(Toggle(n, target, at).0, depth, prefix) == LeafRows(n, depth, prefix)
    decreases Size(n), 0
  {
    if n.Dir? {
      ToggleFirstLeafRows(n.children, target, PathId(at, n.name), ChildDepth(n.name, depth), PathId(prefix, n.name));
    }
  }

  lemma {:induction false} ToggleFirstLeafRows(ns: seq<Node>, target: string, at: string, depth: nat, prefix: string)
    ensures LeafRowsAll(ToggleFirst(ns, target, at).0, depth, prefix) == LeafRowsAll(ns, depth, prefix)
    decreases SizeAll(ns), 1
  {
    if ns != [] {
      ToggleLeafRows(ns[0], target, at, depth, prefix);
      ToggleFirstLeafRows(ns[1..], target, at, depth, prefix);
      var after := ToggleFirst(ns, target, at).0;
      assert after[1..] == if Toggle(ns[0], target, at).1 then ns[1..] else ToggleFirst(ns[1..], target, at).0;
      if !Toggle(ns[0], target, at).1 {
        ToggleUnfound(ns[0], target, at);
      }
    }
  }

  /** A toggle leaves it a tree of the same diff. */
  lemma ToggleKeepsTree(st: State, root: Node, target: string)
    requires TreeOf(st, root)
    ensures TreeOf(st, Toggle(root, target, "").0)
  {
    ToggleWellFormed(root, target, "");
    ToggleKeepsKey(root, target, "");
    ToggleLeafRows(root, target, "", 0, "");
  }

  // ---- Each file has at most one row -------------------------------------------------------

  lemma {:induction false} ShownFilesAreLeaves(n: Node, depth: nat, prefix: string)
    ensures FileRows(Flatten(n, depth, prefix)) <= LeafRows(n, depth, prefix)
    decreases Size(n), 0
  {
    if n.Dir? {
      var d, p := ChildDepth(n.name, depth), PathId(prefix, n.name);
      var head := if n.name != ROOT then [DirRow(n, depth, prefix)] else [];
      var shown := if n.name == ROOT || n.expanded then FlattenAll(Sort(n.children), d, p) else [];
      SortSize(n.children);
      ShownFilesAreLeavesAll(Sort(n.children), d, p);
      LeafRowsSorted(n.children, d, p);
      FileRowsConcat(head, shown);
    }
  }

  lemma {:induction false} ShownFilesAreLeavesAll(ns: seq<Node>, depth: nat, prefix: string)
    ensures FileRows(FlattenAll(ns, depth, prefix)) <= LeafRowsAll(ns, depth, prefix)
    decreases SizeAll(ns), 1
  {
    if ns != [] {
      ShownFilesAreLeaves(ns[0], depth, prefix);
      ShownFilesAreLeavesAll(ns[1..], depth, prefix);
      FileRowsConcat(Flatten(ns[0], depth, prefix), FlattenAll(ns[1..], depth, prefix));
    }
  }

  /** No two file rows show the same path. */
  ghost predicate OneRowPerFile(rows: seq<FlatRow>) {
    forall i, j :: 0 <= i < j < |rows| && rows[i].entry.Some? && rows[j].entry.Some? ==>
      rows[i].entry.value.path != rows[j].entry.value.path
  }

  /** Directory rows carry no file and file rows do. */
  predicate ProperRow(row: FlatRow) {
    row.isDir <==> row.entry.None?
  }

  lemma {:induction false} FlattenProper(n: Node, depth: nat, prefix: string)
    ensures forall r :: r in Flatten(n, depth, prefix) ==> ProperRow(r)
    decreases Size(n), 0
  {
    if n.Dir? {
      SortSize(n.children);
      FlattenAllProper(Sort(n.children), ChildDepth(n.name, depth), PathId(prefix, n.name));
    }
  }

  lemma {:induction false} FlattenAllProper(ns: seq<Node>, depth: nat, prefix: string)
    ensures forall r :: r in FlattenAll(ns, depth, prefix) ==> ProperRow(r)
    decreases SizeAll(ns), 1
  {
    if ns != [] {
      FlattenProper(ns[0], depth, prefix);
      FlattenAllProper(ns[1..], depth, prefix);
    }
  }

  lemma {:induction false} FileRowIn(rows: seq<FlatRow>, i: nat)
    requires i < |rows| && !rows[i].isDir
    ensures rows[i] in FileRows(rows)
  {
    if i > 0 {
      FileRowIn(rows[1..], i - 1);
    }
  }

  lemma {:induction false} FileRowTwice(rows: seq<FlatRow>, i: nat, j: nat)
    requires i < j < |rows| && !rows[i].isDir && rows[i] == rows[j]
    ensures FileRows(rows)[rows[i]] >= 2
  {
    if i > 0 {
      FileRowTwice(rows[1..], i - 1, j - 1);
    } else {
      FileRowIn(rows[1..], j - 1);
    }
  }

  lemma {:induction false} RowsForAt(files: seq<FileEntry>, counts: map<string, Counts>, i: nat)
    requires i < |files|
    ensures |RowsFor(files, counts)| == |files| && RowsFor(files, counts)[i] == RowFor(files[i], counts)
    ensures RowFor(files[i], counts).entry == Some(files[i])
  {
    RowForFile(files[i], counts);
    if i < |files| - 1 {
      RowsForAt(files[..|files| - 1], counts, i);
    } else if |files| > 1 {
      RowsForAt(files[..|files| - 1], counts, 0);
    }
  }

  lemma RowsForDistinct(files: seq<FileEntry>, counts: map<string, Counts>)
    requires Distinct(Paths(files))
    ensures Distinct(RowsFor(files, counts))
  {
    if files != [] {
      RowsForAt(files, counts, 0);
    }
    forall i, j | 0 <= i < j < |RowsFor(files, counts)| ensures RowsFor(files, counts)[i] != RowsFor(files, counts)[j] {
      RowsForAt(files, counts, i);
      RowsForAt(files, counts, j);
      assert Paths(files)[i] != Paths(files)[j];
    }
  }

  /** The row of a leaf is the row of a listed file. */
  lemma LeafIsListed(st: State, root: Node, row: FlatRow) returns (i: nat)
    requires TreeOf(st, root) && row in LeafRows(root, 0, "")
    ensures i < |st.files| && row == RowFor(st.files[i], st.counts) && row.entry == Some(st.files[i])
  {
    var rows := RowsFor(st.files, st.counts);
    assert row in multiset(rows);
    var k :| 0 <= k < |rows| && rows[k] == row;
    if st.files != [] {
      RowsForAt(st.files, st.counts, 0);
    }
    i := k;
    RowsForAt(st.files, st.counts, i);
  }

  /** Every tree of a diff text lists a file at most once. */
  lemma TreeListsFilesOnce(raw: string, root: Node)
    requires TreeOf(ParseText(raw), root)
    ensures OneRowPerFile(Flatten(root, 0, ""))
  {
    var st := ParseText(raw);
    var rows := Flatten(root, 0, "");
    FileListIsFaithful(raw);
    RowsForDistinct(st.files, st.counts);
    ShownFilesAreLeaves(root, 0, "");
    FlattenProper(root, 0, "");
    forall i, j | 0 <= i < j < |rows| && rows[i].entry.Some? && rows[j].entry.Some?
      ensures rows[i].entry.value.path != rows[j].entry.value.path
    {
      assert ProperRow(rows[i]) && ProperRow(rows[j]);
      FileRowIn(rows, i);
      FileRowIn(rows, j);
      var a := LeafIsListed(st, root, rows[i]);
      var b := LeafIsListed(st, root, rows[j]);
      if a == b {
        FileRowTwice(rows, i, j);
        AtMostOnce(RowsFor(st.files, st.counts), rows[i]);
      } else {
        assert Paths(st.files)[a] != Paths(st.files)[b];
      }
    }
  }

  // ---- The row that is selected afterwards -------------------------------------------------------

  /** The same directory, or the same file. */
  predicate SameRow(a: FlatRow, b: FlatRow) {
    a.isDir == b.isDir && a.pathId == b.pathId && a.entry == b.entry
  }

  /** The row carries the key of `was` in the other role: its path is a directory's id, or its id a file's path. */
  predicate CarriesKey(row: FlatRow, was: FlatRow) {
    if was.entry.Some? then row.pathId == was.entry.value.path
    else row.entry.Some? && row.entry.value.path == was.pathId
  }

  predicate NoneCarries(rows: seq<FlatRow>, was: FlatRow, n: nat)
    requires n <= |rows|
  {
    forall j :: 0 <= j < n ==> !CarriesKey(rows[j], was)
  }

  /** `rows` behaves as the flattened list of a tree of some diff. */
  ghost predicate ProperRows(rows: seq<FlatRow>) {
    && OneRowPerFile(rows) && UniqueDirIds(rows)
    && (forall i :: 0 <= i < |rows| ==> ProperRow(rows[i]))
    && (forall i, j :: 0 <= i < |rows| && 0 <= j < |rows| && DirAndFile(rows[i], rows[j]) ==> i < j)
  }

  /** A directory and a file that share one id. */
  predicate DirAndFile(a: FlatRow, b: FlatRow) {
    a.isDir && !b.isDir && a.pathId == b.pathId
  }

  lemma TreeRowsAreProper(raw: string, root: Node)
    requires TreeOf(ParseText(raw), root)
    ensures ProperRows(Flatten(root, 0, ""))
  {
    var rows := Flatten(root, 0, "");
    TreeListsFilesOnce(raw, root);
    FlattenUnique(root, 0, "");
    FlattenProper(root, 0, "");
    forall i | 0 <= i < |rows| ensures ProperRow(rows[i]) {
      assert rows[i] in rows;
    }
    forall i, j | 0 <= i < |rows| && 0 <= j < |rows| && DirAndFile(rows[i], rows[j]) ensures i < j {
      DirBeforeFile(root, i, j);
    }
  }

  /** A row ahead of the selected one that the search stops at carries the key in its other role. */
  lemma EarlierMatchCarries(rows: seq<FlatRow>, was: FlatRow, t: nat, p: nat)
    requires ProperRows(rows) && p < t < |rows| && SameRow(rows[t], was)
    ensures Matches(rows[p], if was.entry.Some? then was.entry.value.path else was.pathId) <==> CarriesKey(rows[p], was)
    ensures !SameRow(rows[p], was)
  {
    assert ProperRow(rows[p]) && ProperRow(rows[t]);
  }

  /**
   * Main result on the selection. For a selected row that is still listed, at `t`: the search
   * stops at it or before it, and the row it stops at is the same directory or file if
   * and only if no row before `t` carries its key in the other role.
   */
  lemma ReselectedIff(rows: seq<FlatRow>, was: FlatRow, t: nat)
    requires ProperRows(rows) && t < |rows| && SameRow(rows[t], was)
    ensures Reselected(rows, Some(was)).Some? && Reselected(rows, Some(was)).value <= t
    ensures SameRow(rows[Reselected(rows, Some(was)).value], was) <==> NoneCarries(rows, was, t)
    ensures Reselected(rows, Some(was)) == Some(t) <==> NoneCarries(rows, was, t)
  {
    var key := if was.entry.Some? then was.entry.value.path else was.pathId;
    var p := FindSelected(rows, key);
    assert Matches(rows[t], key);
    if p < t {
      EarlierMatchCarries(rows, was, t, p);
    } else {
      forall j | 0 <= j < t ensures !CarriesKey(rows[j], was) {
        EarlierMatchCarries(rows, was, t, j);
      }
    }
  }

  /** A listed file lies in a top-level directory called "root". */
  predicate RootFolder(files: seq<FileEntry>) {
    exists i :: 0 <= i < |files| && ROOT + "/" <= files[i].path
  }

  /** Without a top-level directory "root" in the diff the selection always stays. */
  lemma StaysWithoutRootFolder(raw: string, root: Node, was: FlatRow, t: nat)
    requires TreeOf(ParseText(raw), root) && !RootFolder(ParseText(raw).files)
    requires t < |Flatten(root, 0, "")| && SameRow(Flatten(root, 0, "")[t], was)
    ensures Reselected(Flatten(root, 0, ""), Some(was)) == Some(t)
  {
    var rows, st := Flatten(root, 0, ""), ParseText(raw);
    TreeRowsAreProper(raw, root);
    ReselectedIff(rows, was, t);
    forall j | 0 <= j < t ensures !CarriesKey(rows[j], was) {
      assert ProperRow(rows[j]) && ProperRow(rows[t]);
      RowIdsStartAtRoot(root, j);
      RowIdsStartAtRoot(root, t);
      if rows[j].entry.Some? {
        var a := ShownFileIsListed(st, root, j);
      }
      if rows[t].entry.Some? {
        var b := ShownFileIsListed(st, root, t);
      }
    }
  }

  lemma RowIdsStartAtRoot(root: Node, i: nat)
    requires root.Dir? && root.name == ROOT && i < |Flatten(root, 0, "")|
    ensures ROOT + "/" <= Flatten(root, 0, "")[i].pathId
  {
    SortSize(root.children);
    FlattenAllIds(Sort(root.children), 0, ROOT);
    assert Flatten(root, 0, "") == [] + FlattenAll(Sort(root.children), 0, ROOT);
    assert Flatten(root, 0, "")[i] in FlattenAll(Sort(root.children), 0, ROOT);
  }

  lemma ShownFileIsListed(st: State, root: Node, i: nat) returns (a: nat)
    requires TreeOf(st, root) && i < |Flatten(root, 0, "")| && Flatten(root, 0, "")[i].entry.Some?
    ensures a < |st.files| && Flatten(root, 0, "")[i].entry == Some(st.files[a])
  {
    var rows := Flatten(root, 0, "");
    FlattenProper(root, 0, "");
    assert rows[i] in rows && ProperRow(rows[i]);
    FileRowIn(rows, i);
    ShownFilesAreLeaves(root, 0, "");
    a := LeafIsListed(st, root, rows[i]);
  }

  // ---- A diff in which the selection moves -------------------------------------------------------

  lemma TwoParts(a: string, b: string)
    requires (forall c :: c in a ==> c !in SLASHES) && (forall c :: c in b ==> c !in SLASHES)
    ensures Parts(a + "/" + b) == [a, b]
  {
    var s := a + "/" + b;
    FindUnique(s, SLASHES, |a|);
    FindUnique(b, SLASHES, |b|);
    assert s[..|a|] == a && s[|a| + 1..] == b;
    assert Split(b, SLASHES) == [b];
    assert Split(s, SLASHES) == [a] + Split(b, SLASHES);
  }

  /** The tree of one file in the folder "root" and one in another top-level folder. */
  function TwoFolders(folder: string, inRoot: Node, inFolder: Node): Node {
    Dir(ROOT, true, [Dir(ROOT, true, [inRoot]), Dir(folder, true, [inFolder])])
  }

  lemma InsertNewFolder(n: Node, parts: seq<string>, e: FileEntry, adds: nat, dels: nat)
    requires n.Dir? && |parts| == 2 && forall m :: m in n.children ==> m.name != parts[0]
    ensures Insert(n, parts, e, adds, dels)
         == n.(children := n.children + [Dir(parts[0], true, [File(parts[1], e, adds, dels)])])
  {
    var dir, last := Dir(parts[0], true, []), parts[1..];
    AppendEmpty([File(parts[1], e, adds, dels)]);
    assert Insert(dir, last, e, adds, dels) == dir.(children := [File(parts[1], e, adds, dels)]);
    assert FindDir(n.children, parts[0]) == |n.children|;
  }

  lemma BuildSnoc(files: seq<FileEntry>, e: FileEntry, counts: map<string, Counts>)
    ensures BuildTree(files + [e], counts) == InsertFile(BuildTree(files, counts), e, counts)
  {
    assert (files + [e])[..|files + [e]| - 1] == files;
  }

  lemma BuildTwo(folder: string, a: FileEntry, x: string, b: FileEntry, y: string, counts: map<string, Counts>)
    requires Parts(a.path) == [ROOT, x] && Parts(b.path) == [folder, y] && folder != ROOT
    ensures BuildTree([a, b], counts) == TwoFolders(folder,
              File(x, a, CountsFor(counts, a.path).adds, CountsFor(counts, a.path).dels),
              File(y, b, CountsFor(counts, b.path).adds, CountsFor(counts, b.path).dels))
  {
    var c, d := CountsFor(counts, a.path), CountsFor(counts, b.path);
    BuildSnoc([], a, counts);
    BuildSnoc([a], b, counts);
    assert [] + [a] == [a] && [a] + [b] == [a, b];
    InsertNewFolder(EMPTY_ROOT, Parts(a.path), a, c.adds, c.dels);
    InsertNewFolder(BuildTree([a], counts), Parts(b.path), b, d.adds, d.dels);
  }

  lemma FlattenOne(m: Node, depth: nat, prefix: string)
    ensures Sort([m]) == [m] && FlattenAll([m], depth, prefix) == Flatten(m, depth, prefix)
  {
    AppendEmpty(Flatten(m, depth, prefix));
  }

  lemma SortTwo(a: Node, b: Node)
    requires !Before(b, a)
    ensures Sort([a, b]) == [a, b]
  {
    FlattenOne(b, 0, "");
    assert [a, b][1..] == [b];
    assert Sort([a, b]) == InsertSorted(a, [b]);
  }

  /** The folder "root" has no row of its own, so its file comes first. */
  lemma TwoFoldersRows(folder: string, a: Node, b: Node)
    requires a.File? && b.File? && folder != ROOT && StrLess(ROOT, folder)
    ensures var rows := Flatten(TwoFolders(folder, a, b), 0, "");
            && |rows| == 3
            && !rows[0].isDir && rows[0].entry == Some(a.entry)
            && rows[1].isDir && rows[1].entry == None && rows[1].pathId == ROOT + "/" + folder
            && !rows[2].isDir && rows[2].entry == Some(b.entry)
  {
    var inner, other := Dir(ROOT, true, [a]), Dir(folder, true, [b]);
    StrLessTotal(ROOT, folder);
    SortTwo(inner, other);
    FlattenOne(a, 0, ROOT + "/" + ROOT);
    FlattenOne(b, 1, ROOT + "/" + folder);
    FlattenOne(other, 0, ROOT);
    assert [inner, other][1..] == [other];
    assert Flatten(inner, 0, ROOT) == [FileRow(a, 0, ROOT + "/" + ROOT)];
    assert Flatten(other, 0, ROOT)
        == [DirRow(other, 0, ROOT)] + [FileRow(b, 1, ROOT + "/" + folder)];
    assert Flatten(TwoFolders(folder, a, b), 0, "")
        == [] + ([FileRow(a, 0, ROOT + "/" + ROOT)]
                 + ([DirRow(other, 0, ROOT)] + [FileRow(b, 1, ROOT + "/" + folder)]));
  }

  /** The diff touches "root/src" and "src/a.rs", in this order. */
  predicate TouchesBoth(files: seq<FileEntry>) {
    |files| == 2 && files[0].path == "root/src" && files[1].path == "src/a.rs"
  }

  function FileNode(name: string, e: FileEntry, counts: map<string, Counts>): Node {
    File(name, e, CountsFor(counts, e.path).adds, CountsFor(counts, e.path).dels)
  }

  lemma TwoFilesTree(files: seq<FileEntry>, counts: map<string, Counts>)
    requires TouchesBoth(files)
    ensures BuildTree(files, counts)
         == TwoFolders("src", FileNode("src", files[0], counts), FileNode("a.rs", files[1], counts))
  {
    TwoParts(ROOT, "src");
    TwoParts("src", "a.rs");
    assert ROOT + "/" + "src" == "root/src" && "src" + "/" + "a.rs" == "src/a.rs";
    assert files == [files[0], files[1]];
    BuildTwo("src", files[0], "src", files[1], "a.rs", counts);
  }

  /** The rows of its tree: the file "root/src", the directory "src", the file "src/a.rs". */
  lemma TwoFilesRows(files: seq<FileEntry>, counts: map<string, Counts>)
    requires TouchesBoth(files)
    ensures var rows := Flatten(BuildTree(files, counts), 0, "");
            && |rows| == 3
            && !rows[0].isDir && rows[0].entry == Some(files[0])
            && rows[1].isDir && rows[1].entry == None && rows[1].pathId == ROOT + "/" + "src" == "root/src"
            && !rows[2].isDir && rows[2].entry == Some(files[1])
  {
    TwoFilesTree(files, counts);
    StrLessFirst(ROOT, "src");
    TwoFoldersRows("src", FileNode("src", files[0], counts), FileNode("a.rs", files[1], counts));
    assert ROOT + "/" + "src" == "root/src";
  }

  lemma StrLessFirst(a: string, b: string)
    requires a != "" && b != "" && a[0] < b[0]
    ensures StrLess(a, b)
  {
  }

  /** Selecting the directory "src", row 1, and flattening anew selects row 0, a file. */
  lemma SelectionMovesToFile(files: seq<FileEntry>, counts: map<string, Counts>)
    requires TouchesBoth(files)
    ensures var rows := Flatten(BuildTree(files, counts), 0, "");
            && |rows| == 3 && rows[1].isDir && !rows[0].isDir
            && Reselected(rows, SelectedRow(rows, 1)) == Some(0)
  {
    TwoFilesRows(files, counts);
    FirstRowMatches(Flatten(BuildTree(files, counts), 0, ""), 1);
  }

  lemma FirstRowMatches(rows: seq<FlatRow>, i: nat)
    requires i < |rows| && rows[i].entry == None && Matches(rows[0], rows[i].pathId)
    ensures Reselected(rows, SelectedRow(rows, i)) == Some(0)
  {
  }

  // ---- Toggling the selected directory ------------------------------------------------------------

  /**
   * Main result on toggling. After toggling the directory of row `i` and flattening anew the
   * selection is still `i` if and only if no file listed before it has the
   * directory's id as its path.
   */
  lemma ToggleKeepsSelectionIff(raw: string, root: Node, i: nat, was: FlatRow)
    requires TreeOf(ParseText(raw), root)
    requires i < |Flatten(root, 0, "")| && Flatten(root, 0, "")[i].isDir && SameRow(Flatten(root, 0, "")[i], was)
    ensures var rows := Flatten(root, 0, "");
            var toggled := Flatten(Toggle(root, was.pathId, "").0, 0, "");
            Reselected(toggled, Some(was)) == Some(i) <==> NoneCarries(rows, was, i)
  {
    var rows := Flatten(root, 0, "");
    var after := Toggle(root, was.pathId, "").0;
    var toggled := Flatten(after, 0, "");
    var c := ToggleChangesOneBlock(root, i);
    FlipKeepsRowsBefore(rows, toggled, c);
    ToggleKeepsTree(ParseText(raw), root, was.pathId);
    TreeRowsAreProper(raw, after);
    FlattenProper(root, 0, "");
    assert rows[i] in rows && ProperRow(rows[i]);
    ReselectedIff(toggled, was, i);
    assert NoneCarries(rows, was, i) <==> NoneCarries(toggled, was, i) by {
      forall j | 0 <= j < i ensures rows[j] == toggled[j] {
      }
    }
  }

  /** Before the toggled row nothing changes, and the row itself only shows another arrow. */
  lemma FlipKeepsRowsBefore(rows: seq<FlatRow>, toggled: seq<FlatRow>, c: Cut)
    requires Flips(rows, toggled, c)
    ensures |c.pre| < |rows| && |c.pre| < |toggled|
    ensures forall j :: 0 <= j < |c.pre| ==> rows[j] == toggled[j]
    ensures SameRow(rows[|c.pre|], toggled[|c.pre|])
  {
    var k := |c.pre|;
    assert Opened(c)[k] == c.row.(expanded := true) && Shut(c)[k] == c.row.(expanded := false);
    forall j | 0 <= j < k ensures Opened(c)[j] == c.pre[j] && Shut(c)[j] == c.pre[j] {
    }
  }
}
