/** Reading back whole file sections: what a rendered diff lists, and who owns its lines. */
module DiffSections {
  import opened Prelude
  import opened Text
  import opened DiffLines
  import opened DiffParser
  import opened DiffParserProofs
  import opened DiffFileNames
  import opened DiffTotals

  // ---- Rendering a section ------------------------------------------------------------------

  datatype Change =
    | Modified
    | Created(mode: string)
    | Deleted(mode: string)
    | Renamed(from: string)

  /**
   * The section of one file: other header lines before and after those that tell the
   * change, the "---" and "+++" lines if there are any, and the hunks.
   */
  datatype Section = Section(
    path: string,
    change: Change,
    info: seq<string>,
    more: seq<string>,
    marked: bool,
    body: seq<string>)

  function OldPath(s: Section): string {
    if s.change.Renamed? then s.change.from else s.path
  }

  function ChangeLines(s: Section): seq<string> {
    match s.change
    case Modified => []
    case Created(mode) => ["new file mode " + mode]
    case Deleted(mode) => ["deleted file mode " + mode]
    case Renamed(from) => ["rename from " + from, "rename to " + s.path]
  }

  function MarkerLines(s: Section): seq<string> {
    if !s.marked then [] else
      [if s.change.Created? then NullLine(true, "") else MinusLine(OldPath(s), ""),
       if s.change.Deleted? then NullLine(false, "") else PlusLine(s.path, "")]
  }

  function Rendered(s: Section): seq<string> {
    [GitLine(OldPath(s), s.path, "")] + (s.info + (ChangeLines(s) + (s.more + (MarkerLines(s) + s.body))))
  }

  /** The line begins like none of those that tell a file's name or change. */
  predicate Quiet(line: string) {
    && !MayNameFile(line) && !("rename from " <= line)
    && !("new file mode " <= line) && !("deleted file mode " <= line)
  }

  predicate AllQuiet(lines: seq<string>) {
    forall i :: 0 <= i < |lines| ==> Quiet(lines[i])
  }

  /** The other lines tell nothing, and a rename changes the path. */
  predicate Plain(s: Section) {
    && AllQuiet(s.info) && AllQuiet(s.more) && AllQuiet(s.body)
    && (s.change.Renamed? ==> s.change.from != s.path)
  }

  /** The paths hold no white space. */
  predicate WordPaths(s: Section) {
    NoSpace(s.path) && NoSpace(OldPath(s))
  }

  /**
   * The entry of a section that begins at line `at`: where it came from when renamed; new or
   * deleted only if a "---" or "+++" line follows the line that says so.
   */
  function EntryOf(s: Section, at: nat): FileEntry {
    FileEntry(s.path, if s.change.Renamed? then Some(s.change.from) else None,
              s.change.Created? && s.marked, s.change.Deleted? && s.marked, at)
  }

  // ---- What reading a section keeps ------------------------------------------------------------

  function Merged(was: FileEntry, e: FileEntry): FileEntry {
    was.(oldPath := if e.oldPath.Some? then e.oldPath else was.oldPath,
         isNew := was.isNew || e.isNew, isDeleted := was.isDeleted || e.isDeleted)
  }

  /** The list with `e` at the end, or merged into the entry of its path. */
  ghost predicate ListedWith(before: seq<FileEntry>, after: seq<FileEntry>, e: FileEntry) {
    if e.path in Paths(before)
    then |after| == |before| && forall i :: 0 <= i < |before| ==> MergedAt(before, after, e, i)
    else after == before + [e]
  }

  predicate MergedAt(before: seq<FileEntry>, after: seq<FileEntry>, e: FileEntry, i: nat)
    requires i < |before| == |after|
  {
    after[i] == if before[i].path == e.path then Merged(before[i], e) else before[i]
  }

  lemma ListedPaths(before: seq<FileEntry>, after: seq<FileEntry>, e: FileEntry)
    requires ListedWith(before, after, e)
    ensures Paths(after) == if e.path in Paths(before) then Paths(before) else Paths(before) + [e.path]
    ensures e.path in Paths(after)
  {
    if e.path in Paths(before) {
      forall i | 0 <= i < |before| ensures Paths(after)[i] == Paths(before)[i] {
        assert MergedAt(before, after, e, i);
      }
      assert Paths(after) == Paths(before);
    } else {
      assert Paths(after)[|before|] == e.path;
    }
  }

  /** Listing a file a second time adds what the second time says. */
  lemma ListedTwice(a: seq<FileEntry>, b: seq<FileEntry>, c: seq<FileEntry>, e: FileEntry, f: FileEntry)
    requires Distinct(Paths(a)) && e.path == f.path && ListedWith(a, b, e) && ListedWith(b, c, f)
    ensures ListedWith(a, c, Merged(e, f))
  {
    ListedPaths(a, b, e);
    if e.path in Paths(a) {
      forall i | 0 <= i < |a| ensures MergedAt(a, c, Merged(e, f), i) {
        assert MergedAt(a, b, e, i) && MergedAt(b, c, f, i);
      }
    } else {
      forall i | 0 <= i < |a| ensures c[i] == a[i] {
        assert MergedAt(b, c, f, i) && Paths(a)[i] == a[i].path;
      }
      assert MergedAt(b, c, f, |a|);
      assert c == a + [Merged(e, f)];
    }
  }

  lemma ListedDistinct(before: seq<FileEntry>, after: seq<FileEntry>, e: FileEntry)
    requires ListedWith(before, after, e) && Distinct(Paths(before))
    ensures Distinct(Paths(after))
  {
    ListedPaths(before, after, e);
    DistinctSnoc(Paths(before), e.path);
  }

  lemma RegisterMerges(st: State, path: string)
    requires Distinct(Paths(st.files))
    ensures ListedWith(st.files, Register(st, path).files,
                       FileEntry(path, st.renameFrom, st.meta.Some? && st.meta.value.isNew,
                                 st.meta.Some? && st.meta.value.isDeleted, |st.lines|))
  {
    var i := FindFile(st.files, path);
    var e := FileEntry(path, st.renameFrom, st.meta.Some? && st.meta.value.isNew,
                       st.meta.Some? && st.meta.value.isDeleted, |st.lines|);
    if i < |st.files| {
      forall j | 0 <= j < |st.files| ensures MergedAt(st.files, Register(st, path).files, e, j) {
        if j != i {
          assert Paths(st.files)[j] != Paths(st.files)[i];
        }
      }
    }
  }

  /** So far inside the section: its lines are owned by its file, which is listed as `e`. */
  ghost predicate Inside(start: State, st: State, path: string, e: FileEntry) {
    && start.lines <= st.lines && |start.lines| < |st.lines|
    && (forall i :: |start.lines| <= i < |st.lines| ==> st.lines[i].file == path)
    && st.file == path && e.path == path
    && Distinct(Paths(start.files)) && ListedWith(start.files, st.files, e)
  }

  /** What the parser remembers of the header lines. */
  predicate Remembers(st: State, from: Option<string>, to: Option<string>, meta: Option<ChunkMeta>) {
    st.renameFrom == from && st.renameTo == to && st.meta == meta
  }

  predicate SameMemory(a: State, b: State) {
    Remembers(b, a.renameFrom, a.renameTo, a.meta)
  }

  lemma StepRemembers(st: State, line: string)
    ensures SameMemory(Detect(st, line), Step(st, line))
    ensures Header(st, line).1.None? ==> Detect(st, line) == Header(st, line).0
    ensures SameMemory(Header(st, line).0, Step(st, line))
  {
  }

  lemma StepInside(start: State, st: State, line: string, path: string, e: FileEntry)
    requires Inside(start, st, path, e)
    requires Detect(st, line).file == path && Detect(st, line).files == st.files
    ensures Inside(start, Step(st, line), path, e)
  {
    StepAppends(st, line);
  }

  /** A line that lists the section's file once more. */
  lemma StepListsAgain(start: State, st: State, line: string, path: string, e: FileEntry, f: FileEntry)
    requires Inside(start, st, path, e) && f.path == path
    requires Detect(st, line).file == path && ListedWith(st.files, Detect(st, line).files, f)
    ensures Inside(start, Step(st, line), path, Merged(e, f))
  {
    StepAppends(st, line);
    ListedTwice(start.files, st.files, Detect(st, line).files, e, f);
  }

  lemma {:induction false} QuietInside(start: State, st: State, lines: seq<string>, path: string, e: FileEntry)
    requires Inside(start, st, path, e) && AllQuiet(lines)
    ensures Inside(start, RunFrom(st, lines), path, e) && SameMemory(st, RunFrom(st, lines))
  {
    if lines != [] {
      var init, line := lines[..|lines| - 1], lines[|lines| - 1];
      QuietInside(start, st, init, path, e);
      var before := RunFrom(st, init);
      assert Quiet(line);
      assert Header(before, line) == (before, None);
      StepRemembers(before, line);
      StepInside(start, before, line, path, e);
    }
  }

  // ---- The lines of a section, in order -----------------------------------------------------------

  function Came(s: Section): Option<string> {
    if s.change.Renamed? then Some(s.change.from) else None
  }

  function Went(s: Section): Option<string> {
    if s.change.Renamed? then Some(s.path) else None
  }

  /** What the change lines leave behind. */
  function MetaOf(s: Section): Option<ChunkMeta> {
    match s.change
    case Modified => None
    case Created(_) => Some(ChunkMeta(None, None, true, false))
    case Deleted(_) => Some(ChunkMeta(None, None, false, true))
    case Renamed(from) => Some(ChunkMeta(Some(s.path), Some(from), false, false))
  }

  /** The entry as the "diff --git" line makes it. */
  function FirstEntry(s: Section, at: nat): FileEntry {
    FileEntry(s.path, Came(s), false, false, at)
  }

  lemma GitReads(start: State, s: Section)
    requires Plain(s) && WordPaths(s)
    ensures Header(start, GitLine(OldPath(s), s.path, ""))
         == (start.(meta := None, renameFrom := Came(s), renameTo := Went(s)), Some(s.path))
  {
    GitLineParts(OldPath(s), s.path, "");
    GitWords(OldPath(s), s.path, "");
  }

  /** A line that makes `path` the current file and lists it starts its section. */
  lemma StepStarts(start: State, line: string, path: string, e: FileEntry)
    requires Distinct(Paths(start.files)) && e.path == path
    requires Detect(start, line).file == path && ListedWith(start.files, Detect(start, line).files, e)
    ensures Inside(start, Step(start, line), path, e)
  {
    StepAppends(start, line);
  }

  lemma GitInside(start: State, s: Section)
    requires Plain(s) && WordPaths(s) && Distinct(Paths(start.files))
    ensures var st := Step(start, GitLine(OldPath(s), s.path, ""));
            Inside(start, st, s.path, FirstEntry(s, |start.lines|)) && Remembers(st, Came(s), Went(s), None)
  {
    var line := GitLine(OldPath(s), s.path, "");
    GitReads(start, s);
    RegisterMerges(Header(start, line).0, s.path);
    StepRemembers(start, line);
    StepStarts(start, line, s.path, FirstEntry(s, |start.lines|));
  }

  lemma WordIsTrimmed(p: string)
    requires NoSpace(p)
    ensures Trimmed(p)
  {
    if p != "" {
      assert p[0] in p && p[|p| - 1] in p;
    }
  }

  lemma RenameInside(start: State, st: State, s: Section, e: FileEntry)
    requires s.change.Renamed? && WordPaths(s)
    requires Inside(start, st, s.path, e) && Remembers(st, Came(s), Went(s), None)
    ensures var after := Step(Step(st, "rename from " + s.change.from), "rename to " + s.path);
            Inside(start, after, s.path, e) && Remembers(after, Came(s), Went(s), MetaOf(s))
  {
    var from, to := "rename from " + s.change.from, "rename to " + s.path;
    WordIsTrimmed(s.change.from);
    WordIsTrimmed(s.path);
    assert from[12..] == s.change.from && "rename from " <= from && from[0] == 'r';
    TrimIdempotent(s.change.from);
    assert Header(st, from) == (RenameFromHeader(st, s.change.from), None);
    StepRemembers(st, from);
    StepInside(start, st, from, s.path, e);
    var mid := Step(st, from);
    assert to[10..] == s.path && "rename to " <= to;
    TrimIdempotent(s.path);
    WhichBranch(mid, to);
    ListedPaths(start.files, mid.files, e);
    StepRemembers(mid, to);
    StepInside(start, mid, to, s.path, e);
  }

  lemma ChangeInside(start: State, st: State, s: Section, e: FileEntry)
    requires Plain(s) && WordPaths(s)
    requires Inside(start, st, s.path, e) && Remembers(st, Came(s), Went(s), None)
    ensures var after := RunFrom(st, ChangeLines(s));
            Inside(start, after, s.path, e) && Remembers(after, Came(s), Went(s), MetaOf(s))
  {
    match s.change
    case Modified =>
    case Created(mode) =>
      var line := "new file mode " + mode;
      RunFromOne(st, line);
      WhichBranch(st, line);
      StepRemembers(st, line);
      StepInside(start, st, line, s.path, e);
    case Deleted(mode) =>
      var line := "deleted file mode " + mode;
      RunFromOne(st, line);
      WhichBranch(st, line);
      StepRemembers(st, line);
      StepInside(start, st, line, s.path, e);
    case Renamed(from) =>
      RunFromTwo(st, "rename from " + from, "rename to " + s.path);
      RenameInside(start, st, s, e);
  }

  lemma RunFromTwo(st: State, a: string, b: string)
    ensures RunFrom(st, [a, b]) == Step(Step(st, a), b)
  {
    assert [a, b][..1] == [a];
    RunFromOne(st, a);
  }

  /** A "---" line: it lists the file again, unless it names none or the file renamed from. */
  lemma MinusInside(start: State, st: State, s: Section, e: FileEntry)
    requires WordPaths(s) && Plain(s) && s.marked
    requires Inside(start, st, s.path, e) && Remembers(st, Came(s), Went(s), MetaOf(s))
    ensures var after := Step(st, MarkerLines(s)[0]);
            && Remembers(after, Came(s), Went(s), MetaOf(s))
            && Inside(start, after, s.path,
                      if s.change.Deleted? then Merged(e, FileEntry(s.path, None, false, true, |st.lines|))
                      else if s.change.Modified? then Merged(e, FileEntry(s.path, None, false, false, |st.lines|))
                      else e)
  {
    var line := MarkerLines(s)[0];
    if s.change.Created? {
      DetectNull(st, true, "");
      NullWords(true, "");
      WhichBranch(st, line);
      StepRemembers(st, line);
      StepInside(start, st, line, s.path, e);
    } else {
      MinusWords(OldPath(s), "");
      WhichBranch(st, line);
      StepRemembers(st, line);
      if s.change.Renamed? {
        StepInside(start, st, line, s.path, e);
      } else {
        ListedPaths(start.files, st.files, e);
        ListedDistinct(start.files, st.files, e);
        RegisterMerges(st, s.path);
        StepListsAgain(start, st, line, s.path, e, FileEntry(s.path, None, false, s.change.Deleted?, |st.lines|));
      }
    }
  }

  /** A "+++" line lists the file again, unless it names none. */
  lemma PlusInside(start: State, st: State, s: Section, e: FileEntry)
    requires WordPaths(s) && Plain(s) && s.marked
    requires Inside(start, st, s.path, e) && Remembers(st, Came(s), Went(s), MetaOf(s))
    ensures Inside(start, Step(st, MarkerLines(s)[1]), s.path,
                   if s.change.Deleted? then e
                   else Merged(e, FileEntry(s.path, Came(s), s.change.Created?, false, |st.lines|)))
  {
    var line := MarkerLines(s)[1];
    if s.change.Deleted? {
      DetectNull(st, false, "");
      StepInside(start, st, line, s.path, e);
    } else {
      PlusWords(s.path, "");
      WhichBranch(st, line);
      var (h, detected) := Header(st, line);
      assert detected == Some(s.path) && h.files == st.files && h.lines == st.lines && h.renameFrom == Came(s);
      assert h.meta.Some? && h.meta.value.isNew == s.change.Created? && !h.meta.value.isDeleted;
      ListedDistinct(start.files, st.files, e);
      RegisterMerges(h, s.path);
      StepListsAgain(start, st, line, s.path, e, FileEntry(s.path, Came(s), s.change.Created?, false, |st.lines|));
    }
  }

  lemma MarkersInside(start: State, st: State, s: Section, at: nat)
    requires WordPaths(s) && Plain(s)
    requires Inside(start, st, s.path, FirstEntry(s, at)) && Remembers(st, Came(s), Went(s), MetaOf(s))
    ensures Inside(start, RunFrom(st, MarkerLines(s)), s.path, EntryOf(s, at))
  {
    if s.marked {
      var e := FirstEntry(s, at);
      RunFromTwo(st, MarkerLines(s)[0], MarkerLines(s)[1]);
      assert MarkerLines(s) == [MarkerLines(s)[0], MarkerLines(s)[1]];
      MinusInside(start, st, s, e);
      var mid := Step(st, MarkerLines(s)[0]);
      var f := if s.change.Deleted? then Merged(e, FileEntry(s.path, None, false, true, |st.lines|))
               else if s.change.Modified? then Merged(e, FileEntry(s.path, None, false, false, |st.lines|))
               else e;
      PlusInside(start, mid, s, f);
    }
  }

  /** Reading a section from any state whose files are distinct. */
  lemma SectionInside(start: State, s: Section)
    requires Plain(s) && WordPaths(s) && Distinct(Paths(start.files))
    ensures Inside(start, RunFrom(start, Rendered(s)), s.path, EntryOf(s, |start.lines|))
  {
    var git := [GitLine(OldPath(s), s.path, "")];
    var e := FirstEntry(s, |start.lines|);
    RunFromOne(start, git[0]);
    GitInside(start, s);
    var a := RunFrom(start, git);
    QuietInside(start, a, s.info, s.path, e);
    var b := RunFrom(a, s.info);
    ChangeInside(start, b, s, e);
    var c := RunFrom(b, ChangeLines(s));
    QuietInside(start, c, s.more, s.path, e);
    var d := RunFrom(c, s.more);
    MarkersInside(start, d, s, |start.lines|);
    var m := RunFrom(d, MarkerLines(s));
    QuietInside(start, m, s.body, s.path, EntryOf(s, |start.lines|));
    RunFromConcat(start, git, s.info + (ChangeLines(s) + (s.more + (MarkerLines(s) + s.body))));
    RunFromConcat(a, s.info, ChangeLines(s) + (s.more + (MarkerLines(s) + s.body)));
    RunFromConcat(b, ChangeLines(s), s.more + (MarkerLines(s) + s.body));
    RunFromConcat(c, s.more, MarkerLines(s) + s.body);
    RunFromConcat(d, MarkerLines(s), s.body);
  }

  // ---- Main results -----------------------------------------------------------------------------------

  /**
   * Main result on one section. Wherever it stands in whatever text: all its lines belong to its
   * file, and reading it lists that file, with where it was renamed from, and as new
   * or deleted only if a "---" or "+++" line follows the line that says so.
   */
  lemma SectionIsRead(raw: string, before: seq<string>, s: Section, after: seq<string>)
    requires TextLines(raw) == before + Rendered(s) + after && Plain(s) && WordPaths(s)
    ensures forall i :: |before| <= i < |before| + |Rendered(s)| ==> Owned(raw, i, s.path)
    ensures ListedWith(Run(before).files, Run(before + Rendered(s)).files, EntryOf(s, |before|))
  {
    var start, out, end := Run(before), Run(before + Rendered(s)), ParseText(raw);
    RunFiles(before);
    RunShape(before);
    RunShape(before + Rendered(s));
    RunConcat(before, Rendered(s));
    SectionInside(start, s);
    RunConcat(before + Rendered(s), after);
    RunFromExtends(out, after);
    ListedPaths(start.files, out.files, EntryOf(s, |before|));
    ExtendsPaths(out, end, s.path);
    forall i | |before| <= i < |before| + |Rendered(s)| ensures Owned(raw, i, s.path) {
      assert end.lines[i] == out.lines[i];
    }
  }

  function RenderedAll(sections: seq<Section>): seq<string> {
    if sections == [] then [] else
      RenderedAll(sections[..|sections| - 1]) + Rendered(sections[|sections| - 1])
  }

  function EntriesOf(sections: seq<Section>): seq<FileEntry> {
    if sections == [] then [] else
      var init := sections[..|sections| - 1];
      EntriesOf(init) + [EntryOf(sections[|sections| - 1], |RenderedAll(init)|)]
  }

  function SectionPaths(sections: seq<Section>): (paths: seq<string>)
    ensures |paths| == |sections|
  {
    seq(|sections|, i requires 0 <= i < |sections| => sections[i].path)
  }

  lemma {:induction false} EntryPaths(sections: seq<Section>)
    ensures Paths(EntriesOf(sections)) == SectionPaths(sections)
  {
    if sections != [] {
      var init, s := sections[..|sections| - 1], sections[|sections| - 1];
      EntryPaths(init);
      assert SectionPaths(sections) == SectionPaths(init) + [s.path];
      assert Paths(EntriesOf(sections)) == Paths(EntriesOf(init)) + [s.path];
    }
  }

  ghost predicate Readable(sections: seq<Section>) {
    && Distinct(SectionPaths(sections))
    && forall i :: 0 <= i < |sections| ==> Plain(sections[i]) && WordPaths(sections[i])
  }

  /** A diff of sections for different files lists exactly these files, in their order. */
  lemma {:induction false} DiffListsItsSections(sections: seq<Section>)
    requires Readable(sections)
    ensures Run(RenderedAll(sections)).files == EntriesOf(sections)
  {
    if sections != [] {
      var init, s := sections[..|sections| - 1], sections[|sections| - 1];
      var before := RenderedAll(init);
      assert SectionPaths(sections) == SectionPaths(init) + [s.path];
      DistinctSnoc(SectionPaths(init), s.path);
      DiffListsItsSections(init);
      EntryPaths(init);
      RunFiles(before);
      RunShape(before);
      RunConcat(before, Rendered(s));
      SectionInside(Run(before), s);
    }
  }

  // ---- The counts of a section ------------------------------------------------------------------------

  /** How many lines of the text are of a kind. */
  function CountText(lines: seq<string>, kind: LineKind): nat {
    if lines == [] then 0 else
      CountText(lines[..|lines| - 1], kind) + if KindOf(lines[|lines| - 1]) == kind then 1 else 0
  }

  lemma {:induction false} SegmentKinds(st: State, lines: seq<string>, kind: LineKind)
    ensures |RunFrom(st, lines).lines| == |st.lines| + |lines| && st.lines <= RunFrom(st, lines).lines
    ensures CountKind(RunFrom(st, lines).lines[|st.lines|..], kind) == CountText(lines, kind)
  {
    RunFromExtends(st, lines);
    if lines != [] {
      var before, line := RunFrom(st, lines[..|lines| - 1]), lines[|lines| - 1];
      SegmentKinds(st, lines[..|lines| - 1], kind);
      DetectChanges(before, line);
      ClassifyAppends(Detect(before, line), line, KindOf(line));
      var out := RunFrom(st, lines).lines;
      assert out[|st.lines|..] == before.lines[|st.lines|..] + [out[|before.lines|]];
      CountKindSnoc(before.lines[|st.lines|..], out[|before.lines|], kind);
    }
  }

  lemma CountKindSnoc(lines: seq<DiffLine>, l: DiffLine, kind: LineKind)
    ensures CountKind(lines + [l], kind) == CountKind(lines, kind) + if l.kind == kind then 1 else 0
  {
    assert (lines + [l])[..|lines|] == lines;
  }

  /** Every line so far belongs to one of the sections' files. */
  ghost predicate LinesOwned(sections: seq<Section>) {
    forall l :: l in Run(RenderedAll(sections)).lines ==> l.file in SectionPaths(sections)
  }

  /** The lines a section adds, all of its file. */
  lemma Segment(start: State, s: Section) returns (segment: seq<DiffLine>)
    requires Plain(s) && WordPaths(s) && Distinct(Paths(start.files))
    ensures RunFrom(start, Rendered(s)).lines == start.lines + segment
    ensures forall i :: 0 <= i < |segment| ==> segment[i].file == s.path
    ensures CountKind(segment, Addition) == CountText(Rendered(s), Addition)
    ensures CountKind(segment, Deletion) == CountText(Rendered(s), Deletion)
  {
    SectionInside(start, s);
    SegmentKinds(start, Rendered(s), Addition);
    SegmentKinds(start, Rendered(s), Deletion);
    segment := RunFrom(start, Rendered(s)).lines[|start.lines|..];
  }

  lemma ReadableInit(sections: seq<Section>)
    requires Readable(sections) && sections != []
    ensures var init, s := sections[..|sections| - 1], sections[|sections| - 1];
            && Readable(init) && Plain(s) && WordPaths(s) && s.path !in SectionPaths(init)
            && SectionPaths(sections) == SectionPaths(init) + [s.path]
  {
    var init, s := sections[..|sections| - 1], sections[|sections| - 1];
    assert SectionPaths(sections) == SectionPaths(init) + [s.path];
    DistinctSnoc(SectionPaths(init), s.path);
  }

  lemma LastSegment(sections: seq<Section>) returns (segment: seq<DiffLine>)
    requires Readable(sections) && sections != []
    ensures var init, s := sections[..|sections| - 1], sections[|sections| - 1];
            && Run(RenderedAll(sections)).lines == Run(RenderedAll(init)).lines + segment
            && (forall i :: 0 <= i < |segment| ==> segment[i].file == s.path)
            && CountKind(segment, Addition) == CountText(Rendered(s), Addition)
            && CountKind(segment, Deletion) == CountText(Rendered(s), Deletion)
  {
    var before, s := RenderedAll(sections[..|sections| - 1]), sections[|sections| - 1];
    ReadableInit(sections);
    RunFiles(before);
    RunConcat(before, Rendered(s));
    segment := Segment(Run(before), s);
  }

  lemma {:induction false} AllLinesOwned(sections: seq<Section>)
    requires Readable(sections)
    ensures LinesOwned(sections)
  {
    if sections != [] {
      var init := sections[..|sections| - 1];
      ReadableInit(sections);
      var segment := LastSegment(sections);
      AllLinesOwned(init);
    }
  }

  /** The changes of a file in a list of lines whose tail belongs to one file. */
  lemma ChangesOfTail(lines: seq<DiffLine>, segment: seq<DiffLine>, path: string, f: string)
    requires forall i :: 0 <= i < |segment| ==> segment[i].file == path
    ensures f != path ==> ChangesOf(lines + segment, f) == ChangesOf(lines, f)
    ensures f == path && (forall i :: 0 <= i < |lines| ==> lines[i].file != path) ==>
              ChangesOf(lines + segment, f) == Counts(CountKind(segment, Deletion), CountKind(segment, Addition))
  {
    CountLinesConcat(lines, segment, Deletion, {f});
    CountLinesConcat(lines, segment, Addition, {f});
    if f != path {
      CountLinesOutside(segment, Deletion, {f});
      CountLinesOutside(segment, Addition, {f});
    } else if forall i :: 0 <= i < |lines| ==> lines[i].file != path {
      CountLinesOutside(lines, Deletion, {f});
      CountLinesOutside(lines, Addition, {f});
      CountLinesAll(segment, Deletion, {f});
      CountLinesAll(segment, Addition, {f});
    }
  }

  /** The deleted and added lines of a section's text. */
  function TextChanges(s: Section): Counts {
    Counts(CountText(Rendered(s), Deletion), CountText(Rendered(s), Addition))
  }

  /** The changes of a file among the lines of the whole diff. */
  function DiffChanges(sections: seq<Section>, path: string): Counts {
    ChangesOf(Run(RenderedAll(sections)).lines, path)
  }

  lemma {:induction false} SectionChanges(sections: seq<Section>, k: nat)
    requires Readable(sections) && k < |sections|
    ensures DiffChanges(sections, sections[k].path) == TextChanges(sections[k])
  {
    var init := sections[..|sections| - 1];
    if k == |sections| - 1 {
      LastChanges(sections);
    } else {
      ReadableInit(sections);
      SectionChanges(init, k);
      StillChanges(sections, k);
    }
  }

  lemma StillChanges(sections: seq<Section>, k: nat)
    requires Readable(sections) && k < |sections| - 1
    requires DiffChanges(sections[..|sections| - 1], sections[k].path) == TextChanges(sections[k])
    ensures DiffChanges(sections, sections[k].path) == TextChanges(sections[k])
  {
    EarlierChanges(sections, k);
  }

  lemma EarlierChanges(sections: seq<Section>, k: nat)
    requires Readable(sections) && k < |sections| - 1
    ensures DiffChanges(sections, sections[k].path)
         == DiffChanges(sections[..|sections| - 1], sections[..|sections| - 1][k].path)
  {
    var init, s := sections[..|sections| - 1], sections[|sections| - 1];
    ReadableInit(sections);
    var segment := LastSegment(sections);
    assert SectionPaths(init)[k] == sections[k].path;
    ChangesOfTail(Run(RenderedAll(init)).lines, segment, s.path, sections[k].path);
  }

  lemma LastChanges(sections: seq<Section>)
    requires Readable(sections) && sections != []
    ensures DiffChanges(sections, sections[|sections| - 1].path) == TextChanges(sections[|sections| - 1])
  {
    var init, s := sections[..|sections| - 1], sections[|sections| - 1];
    ReadableInit(sections);
    var segment := LastSegment(sections);
    NotOwnedBefore(init, s.path);
    ChangesOfTail(Run(RenderedAll(init)).lines, segment, s.path, s.path);
  }

  lemma NotOwnedBefore(sections: seq<Section>, path: string)
    requires Readable(sections) && path !in SectionPaths(sections)
    ensures var lines := Run(RenderedAll(sections)).lines; forall i :: 0 <= i < |lines| ==> lines[i].file != path
  {
    var lines := Run(RenderedAll(sections)).lines;
    AllLinesOwned(sections);
    forall i | 0 <= i < |lines| ensures lines[i].file != path {
      assert lines[i] in lines;
    }
  }

  /** In such a diff a file's change counts are the numbers of added and deleted lines in its section. */
  lemma SectionCounts(sections: seq<Section>, k: nat)
    requires Readable(sections) && k < |sections|
    ensures CountsFor(Run(RenderedAll(sections)).counts, sections[k].path)
         == Counts(CountText(Rendered(sections[k]), Deletion), CountText(Rendered(sections[k]), Addition))
  {
    RunCounts(RenderedAll(sections));
    SectionChanges(sections, k);
  }

  // ---- The header lines change nothing ------------------------------------------------------------------

  /** git's other header lines, each with any text behind its words. */
  datatype Info =
    | Index(text: string)
    | Similarity(text: string)
    | OldMode(text: string)
    | NewMode(text: string)
    | CopyFrom(text: string)
    | CopyTo(text: string)
    | Binary(text: string)
    | Subproject(text: string)

  function InfoLine(i: Info): string {
    match i
    case Index(text) => "index " + text
    case Similarity(text) => "similarity index " + text
    case OldMode(text) => "old mode " + text
    case NewMode(text) => "new mode " + text
    case CopyFrom(text) => "copy from " + text
    case CopyTo(text) => "copy to " + text
    case Binary(text) => "Binary files " + text
    case Subproject(text) => "Subproject commit " + text
  }

  /** They name no file and are no lines of a hunk. */
  lemma InfoIsQuietMeta(i: Info)
    ensures Quiet(InfoLine(i)) && KindOf(InfoLine(i)).Meta?
  {
    var line := InfoLine(i);
    assert line[0] != 'd' && line[0] != 'r' && line[0] != '-' && line[0] != '+';
    assert i.NewMode? ==> line[4] == 'm';
    assert "new file mode "[4] == 'f';
  }

  ghost predicate IsInfo(line: string) {
    exists i :: line == InfoLine(i)
  }

  ghost predicate InfoOnly(lines: seq<string>) {
    forall i :: 0 <= i < |lines| ==> IsInfo(lines[i])
  }

  lemma HeaderLineIsMeta(s: Section, line: string)
    requires line == GitLine(OldPath(s), s.path, "") || line in ChangeLines(s) || line in MarkerLines(s)
    ensures KindOf(line).Meta?
  {
    GitLineParts(OldPath(s), s.path, "");
    if line in MarkerLines(s) {
      assert "--- " <= line || "+++ " <= line;
    } else if line in ChangeLines(s) {
      assert "new file mode " <= line || "deleted file mode " <= line || "rename from " <= line || "rename to " <= line;
    }
  }

  lemma {:induction false} CountTextConcat(a: seq<string>, b: seq<string>, kind: LineKind)
    ensures CountText(a + b, kind) == CountText(a, kind) + CountText(b, kind)
  {
    if b == [] {
      assert a + b == a;
    } else {
      assert (a + b)[..|a + b| - 1] == a + b[..|b| - 1];
      CountTextConcat(a, b[..|b| - 1], kind);
    }
  }

  lemma {:induction false} NoneOfKind(lines: seq<string>, kind: LineKind)
    requires kind != Meta && forall i :: 0 <= i < |lines| ==> KindOf(lines[i]).Meta?
    ensures CountText(lines, kind) == 0
  {
    if lines != [] {
      NoneOfKind(lines[..|lines| - 1], kind);
    }
  }

  /** With git's header lines only, the changes of a section are those of its hunks. */
  lemma OnlyTheBodyChanges(s: Section, side: Side)
    requires InfoOnly(s.info) && InfoOnly(s.more)
    ensures CountText(Rendered(s), ChangeKind(side)) == CountText(s.body, ChangeKind(side))
  {
    var kind := ChangeKind(side);
    var git, change, markers := [GitLine(OldPath(s), s.path, "")], ChangeLines(s), MarkerLines(s);
    forall i | 0 <= i < |s.info| ensures KindOf(s.info[i]).Meta? {
      assert IsInfo(s.info[i]);
      var info :| s.info[i] == InfoLine(info);
      InfoIsQuietMeta(info);
    }
    forall i | 0 <= i < |s.more| ensures KindOf(s.more[i]).Meta? {
      assert IsInfo(s.more[i]);
      var info :| s.more[i] == InfoLine(info);
      InfoIsQuietMeta(info);
    }
    forall line | line in git || line in change || line in markers ensures KindOf(line).Meta? {
      HeaderLineIsMeta(s, line);
    }
    NoneOfKind(git, kind);
    NoneOfKind(s.info, kind);
    NoneOfKind(change, kind);
    NoneOfKind(s.more, kind);
    NoneOfKind(markers, kind);
    CountTextConcat(markers, s.body, kind);
    CountTextConcat(s.more, markers + s.body, kind);
    CountTextConcat(change, s.more + (markers + s.body), kind);
    CountTextConcat(s.info, change + (s.more + (markers + s.body)), kind);
    CountTextConcat(git, s.info + (change + (s.more + (markers + s.body))), kind);
  }

  // ---- Numbering starts with a hunk ----------------------------------------------------------------------

  lemma {:induction false} NoCounterInHeader(side: Side, lines: seq<DiffLine>, h: nat, i: nat)
    requires h < i <= |lines| && lines[h].kind.Meta? && DIFF_GIT <= lines[h].content
    requires forall k :: h < k < i ==> !lines[k].kind.HunkHeader?
    ensures Counter(side, lines, i) == None
  {
    if i > h + 1 {
      NoCounterInHeader(side, lines, h, i - 1);
    }
  }

  /** From a "diff --git" line to the next hunk header no line is numbered, whatever came before. */
  lemma HeaderIsNotNumbered(raw: string, h: nat, i: nat)
    requires h < i < |TextLines(raw)| && DIFF_GIT <= TextLines(raw)[h]
    requires forall k :: h < k <= i ==> !KindOf(TextLines(raw)[k]).HunkHeader?
    ensures i < |ParseText(raw).lines|
    ensures ParseText(raw).lines[i].oldNum == None && ParseText(raw).lines[i].newNum == None
  {
    var text, lines := TextLines(raw), ParseText(raw).lines;
    RunKinds(text);
    RunNumbers(text);
    assert lines[h].kind == KindOf(text[h]) && lines[h].content == text[h];
    forall k | h < k < i ensures !lines[k].kind.HunkHeader? {
      assert lines[k].kind == KindOf(text[k]);
    }
    NoCounterInHeader(Old, lines, h, i);
    NoCounterInHeader(New, lines, h, i);
    assert NumberedAt(lines, i);
  }

  // ---- Paths with spaces --------------------------------------------------------------------------------

  lemma NoRenameLine(s: Section, line: string)
    requires Plain(s) && !s.change.Renamed? && line in Rendered(s)
    ensures !("rename to " <= line)
  {
    if line in ChangeLines(s) || line in MarkerLines(s) {
      assert line[0] == 'n' || line[0] == 'd' || line[0] == '-' || line[0] == '+';
    } else if line !in s.info && line !in s.more && line !in s.body {
      assert line == GitLine(OldPath(s), s.path, "") && line[0] == 'd';
    }
  }

  /**
   * The section of a file that was not renamed, on its own, lists exactly that file if and only
   * if its path holds no white space.
   */
  lemma SectionListsItsPathIff(s: Section)
    requires Plain(s) && !s.change.Renamed?
    ensures Paths(Run(Rendered(s)).files) == [s.path] <==> NoSpace(s.path)
  {
    var text := Rendered(s);
    if NoSpace(s.path) {
      RunIsRunFrom(text);
      SectionInside(INITIAL, s);
      ListedPaths([], Run(text).files, EntryOf(s, 0));
    } else if s.path in Paths(Run(text).files) {
      RunSpaced(text, |text|);
      assert text[..|text|] == text;
      assert RenameTarget(text, |text|, s.path);
      var i :| 0 <= i < |text| && "rename to " <= text[i] && Trim(text[i][10..]) == s.path;
      NoRenameLine(s, text[i]);
    }
  }
}
