/** The tree's totals against the changed lines of the diff. */
module DiffTotals {
  import opened Prelude
  import opened Text
  import opened DiffLines
  import opened DiffParser
  import opened DiffParserProofs
  import opened DiffTree
  import opened DiffTreeBuild

  // ---- Counting lines by file ---------------------------------------------------------

  function CountKind(lines: seq<DiffLine>, kind: LineKind): nat {
    if lines == [] then 0 else
      CountKind(lines[..|lines| - 1], kind) + if lines[|lines| - 1].kind == kind then 1 else 0
  }

  ghost predicate AllIn(lines: seq<DiffLine>, kind: LineKind, files: set<string>) {
    forall i :: 0 <= i < |lines| && lines[i].kind == kind ==> lines[i].file in files
  }

  /** All lines of a kind are counted exactly when each belongs to a file of the set. */
  lemma {:induction false} CountLinesAll(lines: seq<DiffLine>, kind: LineKind, files: set<string>)
    ensures CountLines(lines, kind, files) <= CountKind(lines, kind)
    ensures CountLines(lines, kind, files) == CountKind(lines, kind) <==> AllIn(lines, kind, files)
  {
    if lines != [] {
      var init, l := lines[..|lines| - 1], lines[|lines| - 1];
      CountLinesAll(init, kind, files);
      assert AllIn(lines, kind, files) <==> AllIn(init, kind, files) && (l.kind == kind ==> l.file in files);
    }
  }

  lemma {:induction false} CountLinesDisjoint(lines: seq<DiffLine>, kind: LineKind, files: set<string>, f: string)
    requires f !in files
    ensures CountLines(lines, kind, files + {f}) == CountLines(lines, kind, files) + CountLines(lines, kind, {f})
  {
    if lines != [] {
      CountLinesDisjoint(lines[..|lines| - 1], kind, files, f);
    }
  }

  lemma {:induction false} CountLinesEmpty(lines: seq<DiffLine>, kind: LineKind)
    ensures CountLines(lines, kind, {}) == 0
  {
    if lines != [] {
      CountLinesEmpty(lines[..|lines| - 1], kind);
    }
  }

  /** The kind of line that changes a side: deletions the old one, additions the new one. */
  function ChangeKind(side: Side): LineKind {
    if side.Old? then Deletion else Addition
  }

  lemma {:induction false} SumCountsIsLines(side: Side, st: State, files: seq<FileEntry>)
    requires CountsInv(st) && Distinct(Paths(files))
    ensures SumCounts(side, files, st.counts) == CountLines(st.lines, ChangeKind(side), PathSet(files))
  {
    if files == [] {
      CountLinesEmpty(st.lines, ChangeKind(side));
    } else {
      var init, path := files[..|files| - 1], files[|files| - 1].path;
      assert Paths(files) == Paths(init) + [path];
      DistinctSnoc(Paths(init), path);
      PathSetIff(init);
      SumCountsIsLines(side, st, init);
      CountLinesDisjoint(st.lines, ChangeKind(side), PathSet(init), path);
      assert CountsFor(st.counts, path) == ChangesOf(st.lines, path);
    }
  }

  // ---- Counting from the first file on --------------------------------------------------

  lemma {:induction false} CountKindConcat(a: seq<DiffLine>, b: seq<DiffLine>, kind: LineKind)
    ensures CountKind(a + b, kind) == CountKind(a, kind) + CountKind(b, kind)
  {
    if b == [] {
      assert a + b == a;
    } else {
      assert (a + b)[..|a + b| - 1] == a + b[..|b| - 1];
      CountKindConcat(a, b[..|b| - 1], kind);
    }
  }

  lemma {:induction false} CountLinesConcat(a: seq<DiffLine>, b: seq<DiffLine>, kind: LineKind, files: set<string>)
    ensures CountLines(a + b, kind, files) == CountLines(a, kind, files) + CountLines(b, kind, files)
  {
    if b == [] {
      assert a + b == a;
    } else {
      assert (a + b)[..|a + b| - 1] == a + b[..|b| - 1];
      CountLinesConcat(a, b[..|b| - 1], kind, files);
    }
  }

  lemma {:induction false} CountLinesOutside(lines: seq<DiffLine>, kind: LineKind, files: set<string>)
    requires forall i :: 0 <= i < |lines| ==> lines[i].file !in files
    ensures CountLines(lines, kind, files) == 0
  {
    if lines != [] {
      CountLinesOutside(lines[..|lines| - 1], kind, files);
    }
  }

  /** The lines from the first listed file on. */
  function FromFirstFile(st: State): seq<DiffLine> {
    if st.files == [] || st.files[0].lineIdx > |st.lines| then [] else st.lines[st.files[0].lineIdx..]
  }

  lemma CountedLines(st: State, kind: LineKind)
    requires StartsAtFirstFile(st)
    ensures CountLines(st.lines, kind, PathSet(st.files))
         == CountKind(if "" in Paths(st.files) then st.lines else FromFirstFile(st), kind)
  {
    var set0 := PathSet(st.files);
    PathSetIff(st.files);
    CountLinesAll(st.lines, kind, set0);
    if "" in Paths(st.files) {
      assert AllIn(st.lines, kind, set0);
    } else if st.files == [] {
      assert set0 == {};
      CountLinesEmpty(st.lines, kind);
    } else {
      var cut := st.files[0].lineIdx;
      var early, late := st.lines[..cut], st.lines[cut..];
      assert st.lines == early + late;
      CountLinesConcat(early, late, kind, set0);
      CountLinesOutside(early, kind, set0);
      CountLinesAll(late, kind, set0);
      assert AllIn(late, kind, set0) by {
        forall i | 0 <= i < |late| ensures late[i].file in set0 {
          assert late[i] == st.lines[cut + i];
        }
      }
    }
  }

  lemma TreeTotals(raw: string, side: Side)
    ensures var st := ParseText(raw);
            Total(side, BuildTree(st.files, st.counts)) == CountLines(st.lines, ChangeKind(side), PathSet(st.files))
  {
    var lines := Lines(StripAnsi(raw, false));
    var st := ParseText(raw);
    RunFiles(lines);
    RunCounts(lines);
    BuildTreeContents(st.files, st.counts);
    SumCountsIsLines(side, st, st.files);
  }

  // ---- Lines of the text and lines of the parse -------------------------------------------

  /** Every line of the text becomes one line of its kind. */
  lemma {:induction false} RunKinds(lines: seq<string>)
    ensures |Run(lines).lines| == |lines|
    ensures forall i :: 0 <= i < |lines| ==>
              Run(lines).lines[i].kind == KindOf(lines[i]) && Run(lines).lines[i].content == lines[i]
  {
    if lines != [] {
      var st, line := Run(lines[..|lines| - 1]), lines[|lines| - 1];
      RunKinds(lines[..|lines| - 1]);
      DetectChanges(st, line);
      ClassifyAppends(Detect(st, line), line, KindOf(line));
      forall i | 0 <= i < |lines|
        ensures Run(lines).lines[i].kind == KindOf(lines[i]) && Run(lines).lines[i].content == lines[i]
      {
        if i < |lines| - 1 {
          assert Run(lines).lines[i] == st.lines[i];
        }
      }
    }
  }

  /** The first `i` lines list a file exactly when the first file was found among them. */
  lemma {:induction false} ListedBefore(lines: seq<string>, i: nat)
    requires i <= |lines|
    ensures Run(lines[..i]).files != []
            <==> Run(lines).files != [] && Run(lines).files[0].lineIdx < i
    decreases |lines|
  {
    RunStarts(lines);
    RunKinds(lines);
    if i == |lines| {
      assert lines[..i] == lines;
    } else {
      var init, line := lines[..|lines| - 1], lines[|lines| - 1];
      assert init[..i] == lines[..i];
      ListedBefore(init, i);
      RunStarts(init);
      RunKinds(init);
      DetectDetected(Run(init), line);
      StartsStep(Run(init), Detect(Run(init), line), line, KindOf(line));
      ClassifyAppends(Detect(Run(init), line), line, KindOf(line));
    }
  }

  // ---- Main results -------------------------------------------------------------------------

  /** The tree's totals are the numbers of deleted and of added lines. */
  predicate CountsEveryChange(root: Node, lines: seq<DiffLine>) {
    && Total(Old, root) == CountKind(lines, Deletion)
    && Total(New, root) == CountKind(lines, Addition)
  }

  /**
   * Main result on totals. For any diff text: the tree's total on a side is the number of
   * changed lines from the first listed file on; what precedes it is missed. (A header
   * may name the empty path; then the lines before it count as that file's.)
   */
  lemma TotalsCountFromFirstFile(raw: string, side: Side)
    ensures var st := ParseText(raw);
            Total(side, BuildTree(st.files, st.counts))
            == CountKind(if "" in Paths(st.files) then st.lines else FromFirstFile(st), ChangeKind(side))
  {
    TreeTotals(raw, side);
    RunStarts(Lines(StripAnsi(raw, false)));
    CountedLines(ParseText(raw), ChangeKind(side));
  }

  predicate IsChange(kind: LineKind) {
    kind.Addition? || kind.Deletion?
  }

  /** No added or deleted line stands where the lines before it have not named a file. */
  predicate NoChangeBeforeFirstFile(lines: seq<string>) {
    forall i :: 0 <= i < |lines| && IsChange(KindOf(lines[i])) ==> Run(lines[..i]).files != []
  }

  lemma OrphansAreEarly(lines: seq<string>)
    ensures var st := Run(lines);
            NoChangeBeforeFirstFile(lines) || "" in Paths(st.files)
            <==> AllIn(st.lines, Deletion, PathSet(st.files)) && AllIn(st.lines, Addition, PathSet(st.files))
  {
    var st := Run(lines);
    RunStarts(lines);
    RunKinds(lines);
    PathSetIff(st.files);
    forall i | 0 <= i < |lines|
      ensures st.lines[i].file in PathSet(st.files)
              <==> Run(lines[..i]).files != [] || "" in Paths(st.files) || (st.files != [] && st.files[0].lineIdx == i)
    {
      ListedBefore(lines, i);
      if st.files == [] {
        assert Paths(st.files) == [];
      }
    }
    if st.files != [] {
      FirstFileIsMeta(lines);
    }
  }

  /** The line that introduces the first file is no change. */
  lemma FirstFileIsMeta(lines: seq<string>)
    requires Run(lines).files != []
    ensures Run(lines).files[0].lineIdx < |lines| && KindOf(lines[Run(lines).files[0].lineIdx]).Meta?
  {
    RunFiles(lines);
    RunKinds(lines);
    assert PointsAtFirstLine(Run(lines).files[0], Run(lines).lines);
  }

  /**
   * For any diff text: the totals are the numbers of Deletion and Addition lines if and only
   * if no changed line of the text comes before a line that names a file, or some
   * header names the empty path.
   */
  lemma TotalsCountEveryChange(raw: string)
    ensures var lines := Lines(StripAnsi(raw, false));
            var st := ParseText(raw);
            CountsEveryChange(BuildTree(st.files, st.counts), st.lines)
            <==> NoChangeBeforeFirstFile(lines) || "" in Paths(st.files)
  {
    var st := ParseText(raw);
    TreeTotals(raw, Old);
    TreeTotals(raw, New);
    CountLinesAll(st.lines, Deletion, PathSet(st.files));
    CountLinesAll(st.lines, Addition, PathSet(st.files));
    OrphansAreEarly(Lines(StripAnsi(raw, false)));
  }

  /** In particular they agree whenever the first line of the diff already names a file. */
  lemma TotalsWhenFirstLineNamesFile(raw: string)
    requires var lines := Lines(StripAnsi(raw, false)); lines != [] && Run(lines[..1]).files != []
    ensures var st := ParseText(raw);
            CountsEveryChange(BuildTree(st.files, st.counts), st.lines)
  {
    var lines := Lines(StripAnsi(raw, false));
    forall i | 0 <= i < |lines| && IsChange(KindOf(lines[i])) ensures Run(lines[..i]).files != [] {
      ListedBefore(lines, 1);
      ListedBefore(lines, i);
      FirstFileIsMeta(lines);
    }
    TotalsCountEveryChange(raw);
  }
}
