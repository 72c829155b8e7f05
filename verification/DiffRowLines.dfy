/** Which lines the selected row of the file tree shows. */
module DiffRowLines {
  import opened Text
  import opened DiffLines
  import opened DiffParser
  import opened DiffParserProofs
  import opened CommentRanges
  import opened DiffTree
  import opened DiffTreeToggle
  import opened DiffTreeBuild
  import opened DiffRebuild
  import opened DiffStaleCounts

  // ---- Which lines a selected row shows ------------------------------------------------

  /** The selected row's path relative to the root. */
  function RelPath(row: FlatRow): string {
    if row.pathId == ROOT then "" else StripPrefix(row.pathId, ROOT + "/")
  }

  /** How the code tells a directory's files by their paths. */
  predicate StartsWithDir(f: string, rel: string) {
    rel + "/" <= f || rel + "\\" <= f || f == rel
  }

  /** The files whose lines are shown: all, one, or those below a directory. */
  function FileFilter(visible: seq<FlatRow>, selected: nat): string -> bool
    requires visible == [] || selected < |visible|
  {
    if visible == [] || RelPath(visible[selected]) == "" then (f: string) => true
    else
      var rel := RelPath(visible[selected]);
      if visible[selected].isDir then
        (f: string) => StartsWithDir(f, rel)
      else (f: string) => f == rel
  }

  lemma {:induction false} KeepAll(lines: seq<DiffLine>, keep: string -> bool, n: nat)
    requires n <= |lines| && forall f :: keep(f)
    ensures KeepFirst(lines, keep, n) == lines[..n]
  {
    if n > 0 {
      KeepAll(lines, keep, n - 1);
    }
  }

  lemma {:induction false} KeepMembers(lines: seq<DiffLine>, keep: string -> bool, n: nat)
    requires n <= |lines|
    ensures forall l :: l in KeepFirst(lines, keep, n) ==> keep(l.file)
    ensures forall l :: l in KeepFirst(lines, keep, n) ==> exists i :: 0 <= i < n && lines[i] == l
    ensures forall i :: 0 <= i < n && keep(lines[i].file) ==> lines[i] in KeepFirst(lines, keep, n)
  {
    if n > 0 {
      KeepMembers(lines, keep, n - 1);
    }
  }

  lemma {:induction false} KeepSame(lines: seq<DiffLine>, p: string -> bool, q: string -> bool, n: nat)
    requires n <= |lines| && forall i :: 0 <= i < n ==> p(lines[i].file) == q(lines[i].file)
    ensures KeepFirst(lines, p, n) == KeepFirst(lines, q, n)
  {
    if n > 0 {
      KeepSame(lines, p, q, n - 1);
    }
  }

  /** Two filters show the same lines exactly when they agree on every line's file. */
  lemma KeepSameIff(lines: seq<DiffLine>, p: string -> bool, q: string -> bool)
    ensures KeepFiles(lines, p) == KeepFiles(lines, q)
            <==> forall i :: 0 <= i < |lines| ==> p(lines[i].file) == q(lines[i].file)
  {
    if KeepFiles(lines, p) == KeepFiles(lines, q) {
      KeepMembers(lines, p, |lines|);
      KeepMembers(lines, q, |lines|);
    } else if forall i :: 0 <= i < |lines| ==> p(lines[i].file) == q(lines[i].file) {
      KeepSame(lines, p, q, |lines|);
    }
  }

  /**
   * Selecting the row of a listed file (with a non-empty path) shows exactly that
   * file's lines if and only if its path holds no backslash: the row's id is
   * rebuilt with forward slashes and then compared with the path as written.
   */
  lemma FileRowShowsItsFile(raw: string, i: nat)
    requires i < |ParseText(raw).files| && ParseText(raw).files[i].path != ""
    ensures var st := ParseText(raw);
            var path := st.files[i].path;
            KeepFiles(st.lines, FileFilter([RowFor(st.files[i], st.counts)], 0))
              == KeepFiles(st.lines, (f: string) => f == path)
            <==> '\\' !in path
  {
    var st := ParseText(raw);
    var e := st.files[i];
    var row := RowFor(e, st.counts);
    var keep := FileFilter([row], 0);
    var own := (f: string) => f == e.path;
    RowForFile(e, st.counts);
    var rel := Replace(e.path, SLASHES, '/');
    assert row.pathId == (ROOT + "/") + rel && RelPath(row) == rel;
    KeepSameIff(st.lines, keep, own);
    if '\\' !in e.path {
      assert rel == e.path;
    } else {
      var k :| 0 <= k < |e.path| && e.path[k] == '\\';
      assert rel[k] == '/';
      FileListIsFaithful(raw);
      assert PointsAtFirstLine(e, st.lines);
      assert own(st.lines[e.lineIdx].file) && !keep(st.lines[e.lineIdx].file);
    }
  }

  // ---- Directory rows ----------------------------------------------------------------------

  /** The ids of visible rows hold no backslash. */
  lemma {:induction false} FlattenPlain(n: Node, depth: nat, prefix: string)
    requires WellFormed(n) && '\\' !in prefix
    ensures forall r :: r in Flatten(n, depth, prefix) ==> '\\' !in r.pathId
    decreases Size(n), 0
  {
    if n.Dir? {
      SortSize(n.children);
      SortWellFormed(n.children);
      FlattenAllPlain(Sort(n.children), ChildDepth(n.name, depth), PathId(prefix, n.name));
    }
  }

  lemma {:induction false} FlattenAllPlain(ns: seq<Node>, depth: nat, prefix: string)
    requires WellFormedAll(ns) && '\\' !in prefix
    ensures forall r :: r in FlattenAll(ns, depth, prefix) ==> '\\' !in r.pathId
    decreases SizeAll(ns), 1
  {
    if ns != [] {
      FlattenPlain(ns[0], depth, prefix);
      FlattenAllPlain(ns[1..], depth, prefix);
    }
  }

  /** The files below the directory of a row: those whose id lies below its id. */
  function FilesBelow(id: string): string -> bool {
    (f: string) => LiesBelow(f, id)
  }

  /** The file's path with forward slashes lies below the directory's. */
  predicate BelowDir(f: string, rel: string) {
    rel + "/" <= Replace(f, SLASHES, '/')
  }

  lemma UnderRootIff(f: string, id: string, rel: string)
    requires id == ROOT + "/" + rel
    ensures LiesBelow(f, id) <==> BelowDir(f, rel)
  {
    var r := Replace(f, SLASHES, '/');
    assert FileId(f) == (ROOT + "/") + r && id + "/" == (ROOT + "/") + (rel + "/");
    if Under(FileId(f), id) {
      assert (rel + "/") == (id + "/")[5..] && r[..|rel| + 1] == FileId(f)[5..5 + |rel| + 1];
    }
  }

  /** The comparison with the path as written is right unless the path is the directory's or spells it otherwise. */
  predicate SpelledOut(f: string, rel: string) {
    f != rel && (BelowDir(f, rel) ==> rel <= f)
  }

  lemma StartsWithDirIff(f: string, rel: string)
    requires '\\' !in rel
    ensures StartsWithDir(f, rel) == BelowDir(f, rel) <==> SpelledOut(f, rel)
  {
    var r, n := Replace(f, SLASHES, '/'), |rel|;
    if |f| > n {
      assert rel + "/" <= f <==> rel <= f && f[n] == '/' by { SnocPrefix(rel, '/', f); }
      assert rel + "\\" <= f <==> rel <= f && f[n] == '\\' by { SnocPrefix(rel, '\\', f); }
      assert rel + "/" <= r <==> rel <= r && r[n] == '/' by { SnocPrefix(rel, '/', r); }
      if rel <= f {
        forall j | 0 <= j < n ensures r[j] == rel[j] {
          assert f[j] == rel[j] && rel[j] in rel;
        }
      }
    }
  }

  lemma SnocPrefix(s: string, c: char, t: string)
    requires |t| > |s|
    ensures s + [c] <= t <==> s <= t && t[|s|] == c
  {
    if s + [c] <= t {
      assert t[..|s|] == (s + [c])[..|s|] && t[|s|] == (s + [c])[|s|];
    }
  }

  /** A directory with an empty name at the top shows every line; else the spellings decide. */
  ghost predicate ShowsItsFiles(st: State, rel: string) {
    if rel == "" then forall i :: 0 <= i < |st.lines| ==> BelowDir(st.lines[i].file, "")
    else forall f :: f in Paths(st.files) ==> SpelledOut(f, rel)
  }

  /** Every line belongs to a listed file or to none, and every listed file has a line. */
  lemma AgreeOnLinesIff(st: State, rel: string)
    requires rel != ""
    requires forall i :: 0 <= i < |st.lines| ==> Known(st.files, st.lines[i].file)
    requires forall k :: 0 <= k < |st.files| ==> PointsAtFirstLine(st.files[k], st.lines)
    ensures (forall i :: 0 <= i < |st.lines| ==> SpelledOut(st.lines[i].file, rel)) <==> ShowsItsFiles(st, rel)
  {
    assert SpelledOut("", rel);
    if forall i :: 0 <= i < |st.lines| ==> SpelledOut(st.lines[i].file, rel) {
      forall f | f in Paths(st.files) ensures SpelledOut(f, rel) {
        var k :| 0 <= k < |Paths(st.files)| && Paths(st.files)[k] == f;
        assert PointsAtFirstLine(st.files[k], st.lines);
        assert SpelledOut(st.lines[st.files[k].lineIdx].file, rel);
      }
    }
  }

  /** What the two filters say of one file. */
  lemma FiltersAt(rows: seq<FlatRow>, i: nat, rel: string, f: string)
    requires i < |rows| && rows[i].isDir && rows[i].pathId == ROOT + "/" + rel
    ensures RelPath(rows[i]) == rel
    ensures FileFilter(rows, i)(f) == (rel == "" || StartsWithDir(f, rel))
    ensures FilesBelow(rows[i].pathId)(f) == BelowDir(f, rel)
  {
    assert rows[i].pathId == (ROOT + "/") + rel;
    UnderRootIff(f, rows[i].pathId, rel);
  }

  lemma FiltersAgreeIff(st: State, keep: string -> bool, below: string -> bool, rel: string)
    requires '\\' !in rel
    requires forall i :: 0 <= i < |st.lines| ==>
               keep(st.lines[i].file) == (rel == "" || StartsWithDir(st.lines[i].file, rel))
    requires forall i :: 0 <= i < |st.lines| ==> below(st.lines[i].file) == BelowDir(st.lines[i].file, rel)
    requires forall i :: 0 <= i < |st.lines| ==> Known(st.files, st.lines[i].file)
    requires forall k :: 0 <= k < |st.files| ==> PointsAtFirstLine(st.files[k], st.lines)
    ensures KeepFiles(st.lines, keep) == KeepFiles(st.lines, below) <==> ShowsItsFiles(st, rel)
  {
    KeepSameIff(st.lines, keep, below);
    if rel != "" {
      forall i | 0 <= i < |st.lines|
        ensures keep(st.lines[i].file) == below(st.lines[i].file) <==> SpelledOut(st.lines[i].file, rel)
      {
        StartsWithDirIff(st.lines[i].file, rel);
      }
      AgreeOnLinesIff(st, rel);
    }
  }

  lemma DirFilterIff(st: State, rows: seq<FlatRow>, i: nat)
    requires i < |rows| && rows[i].isDir && ROOT + "/" <= rows[i].pathId && '\\' !in rows[i].pathId
    requires forall j :: 0 <= j < |st.lines| ==> Known(st.files, st.lines[j].file)
    requires forall k :: 0 <= k < |st.files| ==> PointsAtFirstLine(st.files[k], st.lines)
    ensures KeepFiles(st.lines, FileFilter(rows, i)) == KeepFiles(st.lines, FilesBelow(rows[i].pathId))
            <==> ShowsItsFiles(st, RelPath(rows[i]))
  {
    var rel := rows[i].pathId[5..];
    assert rows[i].pathId == ROOT + "/" + rel && '\\' !in rel;
    FiltersAt(rows, i, rel, "");
    var keep, below := FileFilter(rows, i), FilesBelow(rows[i].pathId);
    forall j | 0 <= j < |st.lines|
      ensures keep(st.lines[j].file) == (rel == "" || StartsWithDir(st.lines[j].file, rel))
      ensures below(st.lines[j].file) == BelowDir(st.lines[j].file, rel)
    {
      FiltersAt(rows, i, rel, st.lines[j].file);
    }
    FiltersAgreeIff(st, keep, below, rel);
  }

  /**
   * Selecting a directory's row shows exactly the lines of the listed files below it if and
   * only if no listed file has the directory's own path and every file below it spells
   * the directory's path with forward slashes.
   */
  lemma DirRowShowsItsFiles(raw: string, root: Node, i: nat)
    requires TreeOf(ParseText(raw), root)
    requires i < |Flatten(root, 0, "")| && Flatten(root, 0, "")[i].isDir
    ensures var rows, st := Flatten(root, 0, ""), ParseText(raw);
            KeepFiles(st.lines, FileFilter(rows, i)) == KeepFiles(st.lines, FilesBelow(rows[i].pathId))
            <==> ShowsItsFiles(st, RelPath(rows[i]))
  {
    var rows, st := Flatten(root, 0, ""), ParseText(raw);
    RowIdsStartAtRoot(root, i);
    FlattenPlain(root, 0, "");
    FileListIsFaithful(raw);
    assert rows[i] in rows;
    DirFilterIff(st, rows, i);
  }
}
