/** What every prefix of a parse keeps: numbering, the file list, the change counts. */
module DiffParserProofs {
  import opened Prelude
  import opened Text
  import opened DiffLines
  import opened DiffParser

  // ---- What one iteration changes ------------------------------------------------

  /**
   * Detection leaves lines, counters and counts alone. It lists at most one new
   * file, the one it makes current, and only on a line that will be a Meta line.
   */
  lemma DetectChanges(st: State, line: string)
    ensures var d := Detect(st, line);
            && d.lines == st.lines && d.oldNum == st.oldNum && d.newNum == st.newNum
            && d.counts == st.counts
            && |st.files| <= |d.files| <= |st.files| + 1
            && (forall i :: 0 <= i < |st.files| ==>
                  d.files[i].path == st.files[i].path && d.files[i].lineIdx == st.files[i].lineIdx)
            && (|d.files| > |st.files| ==>
                  && KindOf(line).Meta?
                  && d.file !in Paths(st.files)
                  && d.files[|st.files|].path == d.file
                  && d.files[|st.files|].lineIdx == |st.lines|)
            && (d.file == st.file
                || (KindOf(line).Meta? && exists i :: 0 <= i < |d.files| && d.files[i].path == d.file))
  {
    var (s, detected) := Header(st, line);
    HeaderChanges(st, line);
    if detected.Some? {
      var path := detected.value;
      var i := FindFile(s.files, path);
      var r := Register(s, path);
      assert s.files == st.files;
      assert r.files[i].path == path;
    }
  }

  lemma HeaderChanges(st: State, line: string)
    ensures var (s, detected) := Header(st, line);
            && s.lines == st.lines && s.oldNum == st.oldNum && s.newNum == st.newNum
            && s.counts == st.counts
            && (detected.Some? ==> KindOf(line).Meta? && s.files == st.files && s.file == st.file)
            && (s.files == st.files
                || (&& s.files == st.files + [FileEntry(s.file, st.renameFrom, false, false, |st.lines|)]
                    && s.file !in Paths(st.files) && KindOf(line).Meta?))
            && (s.file == st.file
                || (KindOf(line).Meta? && exists i :: 0 <= i < |s.files| && s.files[i].path == s.file))
  {
    var (s, detected) := Header(st, line);
    if !(DIFF_GIT <= line) && !("rename from " <= line) && "rename to " <= line {
      var i := FindFile(s.files, s.file);
      if s.files != st.files {
        assert s.files[|st.files|].path == s.file;
      }
    }
  }

  /** Classification appends exactly one line, of the line's kind, for the current file. */
  lemma ClassifyAppends(st: State, line: string, kind: LineKind)
    ensures var c := ClassifyAs(st, line, kind);
            && c.files == st.files && c.file == st.file
            && |c.lines| == |st.lines| + 1
            && c.lines == st.lines + [c.lines[|st.lines|]]
            && c.lines[|st.lines|].content == line
            && c.lines[|st.lines|].kind == kind
            && c.lines[|st.lines|].file == st.file
  {
  }

  /**
   * When the marker of a hunk line is read as such: a deleted line whose text
   * starts with "-- " (an SQL or Lua comment) and an added line whose text starts
   * with "++ " are taken for file headers; every other one, and every context
   * line, is classified by its marker.
   */
  lemma MarkerIsReadUnlessItLooksLikeAHeader(text: string)
    ensures KindOf("-" + text) == Deletion <==> !("-- " <= text)
    ensures KindOf("+" + text) == Addition <==> !("++ " <= text)
    ensures KindOf(" " + text) == Normal
  {
    MarkedLine('-', text, "--- ");
    MarkedLine('+', text, "+++ ");
    var d, a, n := "-" + text, "+" + text, " " + text;
    assert d[0] == '-' && a[0] == '+' && n[0] == ' ';
  }

  lemma MarkedLine(marker: char, text: string, header: string)
    requires header != "" && header[0] == marker
    ensures header <= [marker] + text <==> header[1..] <= text
  {
    assert ([marker] + text)[1..] == text;
    if header[1..] <= text {
      assert header == [marker] + header[1..];
    }
  }

  // ---- Line numbers ----------------------------------------------------------------

  ghost predicate NumbersInv(st: State) {
    && st.oldNum == Counter(Old, st.lines, |st.lines|)
    && st.newNum == Counter(New, st.lines, |st.lines|)
    && WellNumbered(st.lines)
  }

  lemma NumberedAtPrefix(lines: seq<DiffLine>, l: DiffLine, i: nat)
    requires i < |lines| && NumberedAt(lines, i)
    ensures NumberedAt(lines + [l], i)
  {
    CounterOfPrefix(Old, lines, [l], i);
    CounterOfPrefix(New, lines, [l], i);
  }

  lemma NumberedAtEnd(lines: seq<DiffLine>, l: DiffLine)
    requires l.oldNum == if Consumes(Old, l.kind) then Counter(Old, lines, |lines|) else None
    requires l.newNum == if Consumes(New, l.kind) then Counter(New, lines, |lines|) else None
    ensures NumberedAt(lines + [l], |lines|)
  {
    CounterOfPrefix(Old, lines, [l], |lines|);
    CounterOfPrefix(New, lines, [l], |lines|);
    assert (lines + [l])[|lines|] == l;
  }

  lemma NumberedAtSnoc(lines: seq<DiffLine>, l: DiffLine, i: nat)
    requires i <= |lines| && (i < |lines| ==> NumberedAt(lines, i))
    requires l.oldNum == if Consumes(Old, l.kind) then Counter(Old, lines, |lines|) else None
    requires l.newNum == if Consumes(New, l.kind) then Counter(New, lines, |lines|) else None
    ensures NumberedAt(lines + [l], i)
  {
    if i < |lines| {
      NumberedAtPrefix(lines, l, i);
    } else {
      NumberedAtEnd(lines, l);
    }
  }

  lemma WellNumberedSnoc(lines: seq<DiffLine>, l: DiffLine)
    requires WellNumbered(lines)
    requires l.oldNum == if Consumes(Old, l.kind) then Counter(Old, lines, |lines|) else None
    requires l.newNum == if Consumes(New, l.kind) then Counter(New, lines, |lines|) else None
    ensures WellNumbered(lines + [l])
  {
    forall i | 0 <= i < |lines + [l]| ensures NumberedAt(lines + [l], i) {
      NumberedAtSnoc(lines, l, i);
    }
  }

  lemma ClassifyAdvances(st: State, line: string, kind: LineKind)
    ensures var c := ClassifyAs(st, line, kind);
            && |c.lines| == |st.lines| + 1
            && c.lines == st.lines + [c.lines[|st.lines|]]
            && var l := c.lines[|st.lines|];
            && c.oldNum == Advance(Old, st.oldNum, l)
            && c.newNum == Advance(New, st.newNum, l)
            && l.oldNum == (if Consumes(Old, kind) then st.oldNum else None)
            && l.newNum == (if Consumes(New, kind) then st.newNum else None)
            && l.kind == kind
  {
  }

  lemma ClassifyNumbers(st: State, line: string, kind: LineKind)
    requires NumbersInv(st)
    ensures NumbersInv(ClassifyAs(st, line, kind))
  {
    ClassifyAdvances(st, line, kind);
    var l := ClassifyAs(st, line, kind).lines[|st.lines|];
    CounterSnoc(Old, st.lines, l);
    CounterSnoc(New, st.lines, l);
    WellNumberedSnoc(st.lines, l);
  }

  lemma {:induction false} RunNumbers(lines: seq<string>)
    ensures NumbersInv(Run(lines))
  {
    if lines != [] {
      var st := Run(lines[..|lines| - 1]);
      var line := lines[|lines| - 1];
      RunNumbers(lines[..|lines| - 1]);
      DetectChanges(st, line);
      ClassifyNumbers(Detect(st, line), line, KindOf(line));
    }
  }

  /**
   * Main result on line numbers. In the parse of any text, let `h` be the last
   * hunk header or "diff --git" line before line `i`. Line `i` carries, on each
   * side it takes a number on, the header's start plus the number of lines since
   * that took one (in u32 arithmetic), and no number when `h` gives no start.
   */
  lemma LineNumbersMeanWhatTheySay(raw: string, side: Side, h: nat, i: nat)
    requires h < i < |ParseText(raw).lines|
    requires IsReset(ParseText(raw).lines[h])
    requires forall j :: h < j < i ==> !IsReset(ParseText(raw).lines[j])
    ensures var lines := ParseText(raw).lines;
            Num(side, lines[i]) ==
            if Consumes(side, lines[i].kind)
            then Running(ResetTo(side, lines[h]), CountConsumed(side, lines, h + 1, i))
            else None
  {
    RunNumbers(Lines(StripAnsi(raw, false)));
    HunkNumber(side, ParseText(raw).lines, h, i);
  }

  /** And before the first hunk header or "diff --git" line nothing is numbered. */
  lemma NoNumbersBeforeFirstHeader(raw: string, side: Side, i: nat)
    requires i < |ParseText(raw).lines|
    requires forall j :: 0 <= j < i ==> !IsReset(ParseText(raw).lines[j])
    ensures Num(side, ParseText(raw).lines[i]) == None
  {
    RunNumbers(Lines(StripAnsi(raw, false)));
    CounterBeforeAnyReset(side, ParseText(raw).lines, i);
    assert NumberedAt(ParseText(raw).lines, i);
  }

  // ---- Files -----------------------------------------------------------------------

  ghost predicate Known(files: seq<FileEntry>, path: string) {
    path == "" || path in Paths(files)
  }

  /** The entry points at a Meta line of its file, with no earlier line of that file. */
  ghost predicate PointsAtFirstLine(e: FileEntry, lines: seq<DiffLine>) {
    && e.lineIdx < |lines|
    && lines[e.lineIdx].kind.Meta?
    && lines[e.lineIdx].file == e.path
    && (e.path != "" ==> forall j :: 0 <= j < e.lineIdx ==> lines[j].file != e.path)
  }

  ghost predicate LinesInv(st: State) {
    && (forall i :: 0 <= i < |st.lines| ==> Known(st.files, st.lines[i].file))
    && (st.lines == [] ==> st.file == "")
    && (st.lines != [] ==> st.lines[|st.lines| - 1].file == st.file)
    && SwitchesAtMeta(st.lines)
  }

  ghost predicate FilesInv(st: State) {
    && Distinct(Paths(st.files))
    && Known(st.files, st.file)
    && LinesInv(st)
    && (forall i :: 0 <= i < |st.files| ==> PointsAtFirstLine(st.files[i], st.lines))
  }

  /** What `DetectChanges` says, as a relation between the states around detection. */
  ghost predicate Detected(st: State, d: State, kind: LineKind) {
    && d.lines == st.lines
    && |st.files| <= |d.files| <= |st.files| + 1
    && (forall i :: 0 <= i < |st.files| ==>
          d.files[i].path == st.files[i].path && d.files[i].lineIdx == st.files[i].lineIdx)
    && (|d.files| > |st.files| ==>
          && kind.Meta?
          && d.file !in Paths(st.files)
          && d.files[|st.files|].path == d.file
          && d.files[|st.files|].lineIdx == |st.lines|)
    && (d.file == st.file || (kind.Meta? && d.file in Paths(d.files)))
  }

  lemma DetectDetected(st: State, line: string)
    ensures Detected(st, Detect(st, line), KindOf(line))
  {
    DetectChanges(st, line);
    var d := Detect(st, line);
    if d.file != st.file {
      var i :| 0 <= i < |d.files| && d.files[i].path == d.file;
      assert Paths(d.files)[i] == d.file;
    }
  }

  lemma PathsGrow(st: State, d: State, kind: LineKind)
    requires Detected(st, d, kind)
    ensures Paths(d.files) ==
            if |d.files| == |st.files| then Paths(st.files) else Paths(st.files) + [d.file]
    ensures forall p :: Known(st.files, p) ==> Known(d.files, p)
  {
    assert Paths(d.files) ==
           if |d.files| == |st.files| then Paths(st.files) else Paths(st.files) + [d.file];
  }

  lemma StepDistinct(st: State, d: State, kind: LineKind)
    requires Detected(st, d, kind) && Distinct(Paths(st.files)) && Known(st.files, st.file)
    ensures Distinct(Paths(d.files)) && Known(d.files, d.file)
  {
    PathsGrow(st, d, kind);
    DistinctSnoc(Paths(st.files), d.file);
  }

  lemma StepLines(st: State, d: State, line: string, kind: LineKind)
    requires Detected(st, d, kind) && LinesInv(st) && Known(d.files, d.file)
    ensures LinesInv(ClassifyAs(d, line, kind))
  {
    var c := ClassifyAs(d, line, kind);
    ClassifyAppends(d, line, kind);
    PathsGrow(st, d, kind);
    forall i | 0 <= i < |c.lines| ensures Known(c.files, c.lines[i].file) {
      if i < |st.lines| {
        assert c.lines[i] == st.lines[i];
        assert Known(st.files, st.lines[i].file);
      }
    }
    forall i | 0 < i < |c.lines| ensures SameFileOrMeta(c.lines, i) {
      if i < |st.lines| {
        assert SameFileOrMeta(st.lines, i);
      }
    }
  }

  lemma StepTargets(st: State, d: State, line: string, kind: LineKind)
    requires Detected(st, d, kind) && LinesInv(st)
    requires forall i :: 0 <= i < |st.files| ==> PointsAtFirstLine(st.files[i], st.lines)
    ensures var c := ClassifyAs(d, line, kind);
            forall i :: 0 <= i < |c.files| ==> PointsAtFirstLine(c.files[i], c.lines)
  {
    var c := ClassifyAs(d, line, kind);
    ClassifyAppends(d, line, kind);
    forall i | 0 <= i < |c.files| ensures PointsAtFirstLine(c.files[i], c.lines) {
      if i < |st.files| {
        assert PointsAtFirstLine(st.files[i], st.lines);
      } else {
        forall j | 0 <= j < |st.lines| && d.file != "" ensures c.lines[j].file != d.file {
          assert c.lines[j] == st.lines[j];
          assert Known(st.files, st.lines[j].file);
        }
      }
    }
  }

  lemma StepFiles(st: State, line: string)
    requires FilesInv(st)
    ensures FilesInv(Step(st, line))
  {
    var d := Detect(st, line);
    var kind := KindOf(line);
    DetectDetected(st, line);
    StepDistinct(st, d, kind);
    StepLines(st, d, line, kind);
    StepTargets(st, d, line, kind);
    ClassifyAppends(d, line, kind);
  }

  lemma {:induction false} RunFiles(lines: seq<string>)
    ensures FilesInv(Run(lines))
  {
    if lines != [] {
      RunFiles(lines[..|lines| - 1]);
      StepFiles(Run(lines[..|lines| - 1]), lines[|lines| - 1]);
    }
  }

  // ---- Lines before the first file -----------------------------------------------------

  /** From the first listed file's Meta line on, every line belongs to a listed file. */
  ghost predicate StartsAtFirstFile(st: State) {
    && (st.files == [] ==> st.file == "" && forall i :: 0 <= i < |st.lines| ==> st.lines[i].file == "")
    && (st.files != [] ==>
          && st.file in Paths(st.files)
          && st.files[0].lineIdx < |st.lines|
          && (forall i :: 0 <= i < st.files[0].lineIdx ==> st.lines[i].file == "")
          && (forall i :: st.files[0].lineIdx <= i < |st.lines| ==> st.lines[i].file in Paths(st.files)))
  }

  lemma StartsStep(st: State, d: State, line: string, kind: LineKind)
    requires Detected(st, d, kind) && StartsAtFirstFile(st)
    ensures StartsAtFirstFile(ClassifyAs(d, line, kind))
    ensures st.files != [] ==> ClassifyAs(d, line, kind).files[0].lineIdx == st.files[0].lineIdx
    ensures |st.files| <= |ClassifyAs(d, line, kind).files|
  {
    var c := ClassifyAs(d, line, kind);
    ClassifyAppends(d, line, kind);
    PathsGrow(st, d, kind);
    if d.files != [] {
      assert d.file in Paths(d.files) by {
        if |d.files| > |st.files| {
          assert Paths(d.files)[|st.files|] == d.file;
        }
      }
      forall i | d.files[0].lineIdx <= i < |c.lines| ensures c.lines[i].file in Paths(c.files) {
        if i < |st.lines| {
          assert c.lines[i] == st.lines[i];
        }
      }
      forall i | 0 <= i < d.files[0].lineIdx ensures c.lines[i].file == "" {
        assert c.lines[i] == st.lines[i];
      }
    }
  }

  lemma {:induction false} RunStarts(lines: seq<string>)
    ensures StartsAtFirstFile(Run(lines))
  {
    if lines != [] {
      var st, line := Run(lines[..|lines| - 1]), lines[|lines| - 1];
      RunStarts(lines[..|lines| - 1]);
      DetectDetected(st, line);
      StartsStep(st, Detect(st, line), line, KindOf(line));
    }
  }

  /**
   * For any text: no file is listed twice, every line belongs to a listed file
   * or precedes them all, and each entry's jump target is the Meta line that
   * introduced the file, the first line of that file.
   */
  lemma FileListIsFaithful(raw: string)
    ensures var st := ParseText(raw);
            && Distinct(Paths(st.files))
            && (forall i :: 0 <= i < |st.lines| ==> Known(st.files, st.lines[i].file))
            && StartsAtFirstFile(st)
            && (forall i :: 0 <= i < |st.files| ==> PointsAtFirstLine(st.files[i], st.lines))
            && SwitchesAtMeta(st.lines)
  {
    RunFiles(Lines(StripAnsi(raw, false)));
    RunStarts(Lines(StripAnsi(raw, false)));
  }

  // ---- Change counts -----------------------------------------------------------------

  /** Lines of one kind that belong to a file of the set. */
  function CountLines(lines: seq<DiffLine>, kind: LineKind, files: set<string>): nat {
    if lines == [] then 0 else
      var l := lines[|lines| - 1];
      CountLines(lines[..|lines| - 1], kind, files)
      + if l.kind == kind && l.file in files then 1 else 0
  }

  lemma CountLinesSnoc(lines: seq<DiffLine>, l: DiffLine, kind: LineKind, files: set<string>)
    ensures CountLines(lines + [l], kind, files)
         == CountLines(lines, kind, files) + if l.kind == kind && l.file in files then 1 else 0
  {
    assert (lines + [l])[..|lines|] == lines;
  }

  function ChangesOf(lines: seq<DiffLine>, f: string): Counts {
    Counts(CountLines(lines, Deletion, {f}), CountLines(lines, Addition, {f}))
  }

  ghost predicate CountsInv(st: State) {
    forall f :: CountsFor(st.counts, f) == ChangesOf(st.lines, f)
  }

  lemma ClassifyCountsOf(st: State, line: string, kind: LineKind, f: string)
    requires CountsFor(st.counts, f) == ChangesOf(st.lines, f)
    ensures CountsFor(ClassifyAs(st, line, kind).counts, f) == ChangesOf(ClassifyAs(st, line, kind).lines, f)
  {
    var c := ClassifyAs(st, line, kind);
    ClassifyAppends(st, line, kind);
    CountLinesSnoc(st.lines, c.lines[|st.lines|], Deletion, {f});
    CountLinesSnoc(st.lines, c.lines[|st.lines|], Addition, {f});
  }

  /** The per-file change counts are the numbers of Deletion and Addition lines of that file. */
  lemma {:induction false} RunCounts(lines: seq<string>)
    ensures CountsInv(Run(lines))
  {
    if lines != [] {
      var st := Run(lines[..|lines| - 1]);
      var line := lines[|lines| - 1];
      RunCounts(lines[..|lines| - 1]);
      DetectChanges(st, line);
      var d := Detect(st, line);
      forall f ensures CountsFor(Run(lines).counts, f) == ChangesOf(Run(lines).lines, f) {
        ClassifyCountsOf(d, line, KindOf(line), f);
      }
    }
  }
}
