/** Directory counts after a rebuild: they read 0, and when that is still their total. */
module DiffStaleCounts {
  import opened Prelude
  import opened Text
  import opened DiffLines
  import opened DiffParser
  import opened DiffParserProofs
  import opened DiffTree
  import opened DiffTreeToggle
  import opened DiffTreeBuild
  import opened DiffDirCounts
  import opened DiffTotals
  import opened DiffRebuild

  // ---- The flattened list carries no directory counts -------------------------------------

  predicate Uncounted(row: FlatRow) {
    row.isDir ==> row.adds == 0 && row.dels == 0
  }

  lemma {:induction false} FlattenUncounted(n: Node, depth: nat, prefix: string)
    ensures forall r :: r in Flatten(n, depth, prefix) ==> Uncounted(r)
    decreases Size(n), 0
  {
    if n.Dir? {
      SortSize(n.children);
      FlattenAllUncounted(Sort(n.children), ChildDepth(n.name, depth), PathId(prefix, n.name));
    }
  }

  lemma {:induction false} FlattenAllUncounted(ns: seq<Node>, depth: nat, prefix: string)
    ensures forall r :: r in FlattenAll(ns, depth, prefix) ==> Uncounted(r)
    decreases SizeAll(ns), 1
  {
    if ns != [] {
      FlattenUncounted(ns[0], depth, prefix);
      FlattenAllUncounted(ns[1..], depth, prefix);
    }
  }

  // ---- Every visible directory is found -----------------------------------------------------

  lemma {:induction false} VisibleFound(n: Node, depth: nat, prefix: string, i: nat)
    requires WellFormed(n) && PathId(prefix, n.name) != ""
    requires i < |Flatten(n, depth, prefix)| && Flatten(n, depth, prefix)[i].isDir
    ensures Lookup(n, prefix, Flatten(n, depth, prefix)[i].pathId).Some?
    decreases Size(n), 0
  {
    var id := PathId(prefix, n.name);
    if n.name == ROOT || i > 0 {
      var below := RowsBelow(n, depth, prefix);
      var j := if n.name == ROOT then i else i - 1;
      assert Flatten(n, depth, prefix)[i] == below[j];
      SortSize(n.children);
      SortWellFormed(n.children);
      var m := VisibleFoundAll(Sort(n.children), ChildDepth(n.name, depth), id, j);
      SortMember(n.children, m);
      LookupOfOwner(n.children, id, below[j].pathId, m);
    }
  }

  lemma {:induction false} VisibleFoundAll(ns: seq<Node>, depth: nat, prefix: string, i: nat) returns (m: Node)
    requires WellFormedAll(ns) && prefix != ""
    requires i < |FlattenAll(ns, depth, prefix)| && FlattenAll(ns, depth, prefix)[i].isDir
    ensures m in ns && m.Dir? && NoSlash(m.name)
    ensures Owns(prefix, m.name, FlattenAll(ns, depth, prefix)[i].pathId)
    ensures Lookup(m, prefix, FlattenAll(ns, depth, prefix)[i].pathId).Some?
    decreases SizeAll(ns), 1
  {
    var first := Flatten(ns[0], depth, prefix);
    if i < |first| {
      m := ns[0];
      DirRowsInDirs(m, depth, prefix, i);
      FlattenIds(m, depth, prefix);
      assert first[i] in first;
      VisibleFound(m, depth, prefix, i);
    } else {
      m := VisibleFoundAll(ns[1..], depth, prefix, i - |first|);
    }
  }

  // ---- A total is 0 when nothing below has changed --------------------------------------------

  function RowAmount(side: Side, row: FlatRow): nat {
    Amount(side, row.adds, row.dels)
  }

  predicate Quiet(side: Side, rows: multiset<FlatRow>) {
    forall r :: r in rows ==> RowAmount(side, r) == 0
  }

  predicate QuietBelow(side: Side, rows: multiset<FlatRow>, id: string) {
    forall r :: r in rows && Under(r.pathId, id) ==> RowAmount(side, r) == 0
  }

  lemma {:induction false} TotalZeroIff(side: Side, n: Node, depth: nat, prefix: string)
    ensures Total(side, n) == 0 <==> Quiet(side, LeafRows(n, depth, prefix))
    decreases Size(n), 0
  {
    match n
    case File(_, _, _, _) =>
      assert FileRow(n, depth, prefix) in LeafRows(n, depth, prefix);
    case Dir(name, _, children) =>
      TotalZeroIffAll(side, children, ChildDepth(name, depth), PathId(prefix, name));
  }

  lemma {:induction false} TotalZeroIffAll(side: Side, ns: seq<Node>, depth: nat, prefix: string)
    ensures TotalAll(side, ns) == 0 <==> Quiet(side, LeafRowsAll(ns, depth, prefix))
    decreases SizeAll(ns), 1
  {
    if ns != [] {
      TotalZeroIff(side, ns[0], depth, prefix);
      TotalZeroIffAll(side, ns[1..], depth, prefix);
      QuietUnion(side, LeafRows(ns[0], depth, prefix), LeafRowsAll(ns[1..], depth, prefix));
    }
  }

  lemma QuietUnion(side: Side, a: multiset<FlatRow>, b: multiset<FlatRow>)
    ensures Quiet(side, a + b) <==> Quiet(side, a) && Quiet(side, b)
  {
    if Quiet(side, a + b) {
      forall r | r in a || r in b ensures RowAmount(side, r) == 0 {
        assert r in a + b;
      }
    }
  }

  lemma QuietBelowUnion(side: Side, a: multiset<FlatRow>, b: multiset<FlatRow>, id: string)
    ensures QuietBelow(side, a + b, id) <==> QuietBelow(side, a, id) && QuietBelow(side, b, id)
  {
    if QuietBelow(side, a + b, id) {
      forall r | (r in a || r in b) && Under(r.pathId, id) ensures RowAmount(side, r) == 0 {
        assert r in a + b;
      }
    }
  }

  lemma {:induction false} LeafIds(n: Node, depth: nat, prefix: string)
    requires PathId(prefix, n.name) != ""
    ensures forall r :: r in LeafRows(n, depth, prefix) ==> Owns(prefix, n.name, r.pathId)
    decreases Size(n), 0
  {
    if n.Dir? {
      LeafIdsAll(n.children, ChildDepth(n.name, depth), PathId(prefix, n.name));
    }
  }

  lemma {:induction false} LeafIdsAll(ns: seq<Node>, depth: nat, prefix: string)
    requires prefix != ""
    ensures forall r :: r in LeafRowsAll(ns, depth, prefix) ==> Under(r.pathId, prefix)
    decreases SizeAll(ns), 1
  {
    if ns != [] {
      LeafIds(ns[0], depth, prefix);
      LeafIdsAll(ns[1..], depth, prefix);
      forall r | r in LeafRows(ns[0], depth, prefix) ensures Under(r.pathId, prefix) {
        OwnsUnder(prefix, ns[0].name, r.pathId);
      }
    }
  }

  /** A file of one sibling lies below an id of another only if both are the same directory. */
  lemma SiblingLeavesApart(n: Node, depth: nat, prefix: string, owner: string, id: string)
    requires WellFormed(n) && prefix != "" && NoSlash(owner) && Owns(prefix, owner, id)
    ensures forall r :: r in LeafRows(n, depth, prefix) && Under(r.pathId, id) ==> n.Dir? && n.name == owner
  {
    LeafIds(n, depth, prefix);
    forall r | r in LeafRows(n, depth, prefix) && Under(r.pathId, id) ensures n.Dir? && n.name == owner {
      OwnsBelow(prefix, owner, id, r.pathId);
      OwnerUnique(prefix, n.name, owner, r.pathId);
      ChildNotUnder(prefix, n.name, owner, id);
    }
  }

  lemma {:induction false} LeavesApart(
      side: Side, ns: seq<Node>, depth: nat, prefix: string, owner: string, id: string)
    requires WellFormedAll(ns) && prefix != "" && NoSlash(owner) && Owns(prefix, owner, id)
    requires owner !in DirNames(ns)
    ensures QuietBelow(side, LeafRowsAll(ns, depth, prefix), id)
  {
    if ns != [] {
      SiblingLeavesApart(ns[0], depth, prefix, owner, id);
      LeavesApart(side, ns[1..], depth, prefix, owner, id);
      QuietBelowUnion(side, LeafRows(ns[0], depth, prefix), LeafRowsAll(ns[1..], depth, prefix), id);
    }
  }

  /** The total of the directory with an id is 0 exactly when no file below it has changed. */
  lemma {:induction false} LookupQuiet(side: Side, n: Node, depth: nat, prefix: string, id: string)
    requires WellFormed(n) && PathId(prefix, n.name) != "" && Lookup(n, prefix, id).Some?
    ensures Owns(prefix, n.name, id) && n.Dir?
    ensures Total(side, Lookup(n, prefix, id).value) == 0 <==> QuietBelow(side, LeafRows(n, depth, prefix), id)
    decreases Size(n), 0
  {
    var p, d := PathId(prefix, n.name), ChildDepth(n.name, depth);
    if LookupAll(n.children, p, id).Some? {
      var owner := LookupQuietAll(side, n.children, d, p, id);
      OwnsUnder(p, owner, id);
    } else {
      TotalZeroIff(side, n, depth, prefix);
      LeafIdsAll(n.children, d, p);
    }
  }

  lemma {:induction false} LookupQuietAll(side: Side, ns: seq<Node>, depth: nat, prefix: string, id: string)
    returns (owner: string)
    requires WellFormedAll(ns) && prefix != "" && LookupAll(ns, prefix, id).Some?
    ensures NoSlash(owner) && owner in DirNames(ns) && Owns(prefix, owner, id)
    ensures Total(side, LookupAll(ns, prefix, id).value) == 0
            <==> QuietBelow(side, LeafRowsAll(ns, depth, prefix), id)
    decreases SizeAll(ns), 1
  {
    if LookupAll(ns[1..], prefix, id).Some? {
      owner := LookupQuietAll(side, ns[1..], depth, prefix, id);
      SiblingLeavesApart(ns[0], depth, prefix, owner, id);
    } else {
      LookupQuiet(side, ns[0], depth, prefix, id);
      owner := ns[0].name;
      LeavesApart(side, ns[1..], depth, prefix, owner, id);
    }
    QuietBelowUnion(side, LeafRows(ns[0], depth, prefix), LeafRowsAll(ns[1..], depth, prefix), id);
  }

  // ---- Changed lines below a directory -----------------------------------------------------------

  /** The id of a file's row. */
  function FileId(path: string): string {
    ROOT + "/" + Replace(path, SLASHES, '/')
  }

  /** The file's row would be below the directory with that id. */
  predicate LiesBelow(f: string, id: string) {
    Under(FileId(f), id)
  }

  /** Line `i` changes that side of a listed file below the directory. */
  predicate ChangesBelow(side: Side, st: State, i: nat, id: string)
    requires i < |st.lines|
  {
    && st.lines[i].kind == ChangeKind(side)
    && st.lines[i].file in Paths(st.files)
    && LiesBelow(st.lines[i].file, id)
  }

  ghost predicate ChangedBelow(side: Side, st: State, id: string) {
    exists i :: 0 <= i < |st.lines| && ChangesBelow(side, st, i, id)
  }

  ghost predicate HasLine(lines: seq<DiffLine>, kind: LineKind, f: string) {
    exists i :: 0 <= i < |lines| && lines[i].kind == kind && lines[i].file == f
  }

  lemma {:induction false} CountZeroIff(lines: seq<DiffLine>, kind: LineKind, f: string)
    ensures CountLines(lines, kind, {f}) == 0 <==> !HasLine(lines, kind, f)
  {
    if lines != [] {
      var init, l := lines[..|lines| - 1], lines[|lines| - 1];
      CountZeroIff(init, kind, f);
      assert HasLine(lines, kind, f) <==> HasLine(init, kind, f) || (l.kind == kind && l.file == f) by {
        if HasLine(init, kind, f) {
          var i :| 0 <= i < |init| && init[i].kind == kind && init[i].file == f;
          assert lines[i] == init[i];
        }
      }
    }
  }

  /** The row of a listed file carries an amount exactly when it has a changed line. */
  lemma ListedAmount(side: Side, st: State, i: nat)
    requires CountsInv(st) && i < |st.files|
    ensures var row := RowFor(st.files[i], st.counts);
            && row.pathId == FileId(st.files[i].path)
            && (RowAmount(side, row) == 0 <==> !HasLine(st.lines, ChangeKind(side), st.files[i].path))
  {
    var path := st.files[i].path;
    RowForFile(st.files[i], st.counts);
    assert CountsFor(st.counts, path) == ChangesOf(st.lines, path);
    CountZeroIff(st.lines, ChangeKind(side), path);
  }

  lemma QuietIffUnchanged(side: Side, st: State, root: Node, id: string)
    requires TreeOf(st, root) && CountsInv(st)
    ensures QuietBelow(side, LeafRows(root, 0, ""), id) <==> !ChangedBelow(side, st, id)
  {
    var leaves := LeafRows(root, 0, "");
    if QuietBelow(side, leaves, id) {
      forall i | 0 <= i < |st.lines| ensures !ChangesBelow(side, st, i, id) {
        if ChangesBelow(side, st, i, id) {
          var k :| 0 <= k < |Paths(st.files)| && Paths(st.files)[k] == st.lines[i].file;
          ListedAmount(side, st, k);
          RowsForAt(st.files, st.counts, k);
          assert RowFor(st.files[k], st.counts) in leaves;
          assert HasLine(st.lines, ChangeKind(side), st.files[k].path);
        }
      }
    } else {
      var r :| r in leaves && Under(r.pathId, id) && RowAmount(side, r) != 0;
      var k := LeafIsListed(st, root, r);
      ListedAmount(side, st, k);
      var kind := ChangeKind(side);
      var i :| 0 <= i < |st.lines| && st.lines[i].kind == kind && st.lines[i].file == st.files[k].path;
      assert Paths(st.files)[k] == st.files[k].path;
      assert ChangesBelow(side, st, i, id);
    }
  }

  // ---- Main results ----------------------------------------------------------------------------------

  /**
   * Main result on counts after a rebuild. For any diff text and any tree of it, whatever was
   * toggled: every directory row reads 0 on both sides, its directory is found, and on a
   * side that 0 is the directory's total if and only if no line of a file
   * below it changes that side.
   */
  lemma RebuiltCountIff(raw: string, root: Node, side: Side, i: nat)
    requires TreeOf(ParseText(raw), root)
    requires i < |Flatten(root, 0, "")| && Flatten(root, 0, "")[i].isDir
    ensures var row := Flatten(root, 0, "")[i];
            var dir := Lookup(root, "", row.pathId);
            && row.adds == 0 && row.dels == 0 && dir.Some?
            && (RowAmount(side, row) == Total(side, dir.value)
                <==> !ChangedBelow(side, ParseText(raw), row.pathId))
  {
    var rows := Flatten(root, 0, "");
    var st := ParseText(raw);
    FlattenUncounted(root, 0, "");
    assert rows[i] in rows && Uncounted(rows[i]);
    VisibleFound(root, 0, "", i);
    LookupQuiet(side, root, 0, "", rows[i].pathId);
    RunCounts(Lines(StripAnsi(raw, false)));
    QuietIffUnchanged(side, st, root, rows[i].pathId);
  }

  lemma OnlyChild(m: Node, prefix: string, id: string)
    ensures LookupAll([m], prefix, id) == Lookup(m, prefix, id)
    ensures TotalAll(Old, [m]) == Total(Old, m) && TotalAll(New, [m]) == Total(New, m)
  {
    assert [m][1..] == [];
  }

  lemma TwoFoldersLookup(folder: string, a: Node, b: Node)
    requires a.File? && b.File? && folder != ROOT
    ensures var root := TwoFolders(folder, a, b);
            Lookup(root, "", ROOT + "/" + folder) == Some(Dir(folder, true, [b]))
    ensures Total(New, Dir(folder, true, [b])) == b.adds && Total(Old, Dir(folder, true, [b])) == b.dels
  {
    var inner, other := Dir(ROOT, true, [a]), Dir(folder, true, [b]);
    var id := ROOT + "/" + folder;
    OnlyChild(b, id, id);
    OnlyChild(other, ROOT, id);
    assert [inner, other][1..] == [other];
    assert Lookup(other, ROOT, id) == Some(other);
    assert LookupAll([inner, other], ROOT, id) == Some(other);
  }

  /** One directory row before and after the copy. */
  lemma CopiedRow(root: Node, i: nat, dir: Node)
    requires Fresh(root) && root.Dir? && root.name == ROOT
    requires i < |Flatten(root, 0, "")| && Flatten(root, 0, "")[i].isDir
    requires Lookup(root, "", Flatten(root, 0, "")[i].pathId) == Some(dir)
    ensures var rebuilt := Flatten(root, 0, "");
            var shown := ApplyCounts(root, "", rebuilt);
            && shown[i].dels == Total(Old, dir) && shown[i].adds == Total(New, dir)
            && rebuilt[i].dels == 0 && rebuilt[i].adds == 0
  {
    var rebuilt := Flatten(root, 0, "");
    FlattenUnique(root, 0, "");
    ApplyCountsAt(root, "", rebuilt, i);
    FlattenUncounted(root, 0, "");
    assert rebuilt[i] in rebuilt && Uncounted(rebuilt[i]);
  }

  lemma FolderRow(root: Node, folder: string, a: Node, b: Node)
    requires root == TwoFolders(folder, a, b) && a.File? && b.File? && folder != ROOT && Fresh(root)
    requires |Flatten(root, 0, "")| == 3
    requires Flatten(root, 0, "")[1].isDir && Flatten(root, 0, "")[1].pathId == ROOT + "/" + folder
    ensures var rebuilt := Flatten(root, 0, "");
            var shown := ApplyCounts(root, "", rebuilt);
            && shown[1].dels == b.dels && shown[1].adds == b.adds
            && rebuilt[1].dels == 0 && rebuilt[1].adds == 0
  {
    TwoFoldersLookup(folder, a, b);
    CopiedRow(root, 1, Dir(folder, true, [b]));
  }

  /**
   * In a diff of "root/src" and "src/a.rs" the directory "src", row 1, first shows the
   * changes of "src/a.rs"; after a rebuild it shows 0, whatever they are.
   */
  lemma CountsAreLost(files: seq<FileEntry>, counts: map<string, Counts>)
    requires TouchesBoth(files)
    ensures var rebuilt := Flatten(BuildTree(files, counts), 0, "");
            var shown := ApplyCounts(BuildTree(files, counts), "", rebuilt);
            && |rebuilt| == 3 && rebuilt[1].isDir
            && shown[1].dels == CountsFor(counts, files[1].path).dels
            && shown[1].adds == CountsFor(counts, files[1].path).adds
            && rebuilt[1].dels == 0 && rebuilt[1].adds == 0
  {
    TwoFilesTree(files, counts);
    TwoFilesRows(files, counts);
    BuildTreeFresh(files, counts);
    FolderRow(BuildTree(files, counts), "src",
              FileNode("src", files[0], counts), FileNode("a.rs", files[1], counts));
  }
}
