/** The line-by-line diff parser behind `DiffView::new`. */
module DiffParser {
  import opened Prelude
  import opened Text
  import opened DiffLines

  datatype FileEntry = FileEntry(
    path: string,
    oldPath: Option<string>,
    isNew: bool,
    isDeleted: bool,
    lineIdx: nat)

  datatype ChunkMeta = ChunkMeta(
    newPath: Option<string>,
    oldPath: Option<string>,
    isNew: bool,
    isDeleted: bool)

  datatype Counts = Counts(dels: nat, adds: nat)

  /** The parser's local variables. */
  datatype State = State(
    lines: seq<DiffLine>,
    file: string,
    oldNum: Option<nat>,
    newNum: Option<nat>,
    files: seq<FileEntry>,
    counts: map<string, Counts>,
    renameFrom: Option<string>,
    renameTo: Option<string>,
    meta: Option<ChunkMeta>)

  const INITIAL := State([], "", None, None, [], map[], None, None, None)

  // ---- Escape sequences --------------------------------------------------------

  /** `strip_ansi_escapes`: drops ESC, an optional '[', and everything up to the next letter. */
  function StripAnsi(s: string, inEscape: bool): string
    decreases |s|
  {
    if s == "" then ""
    else if s[0] == '\U{001B}' then
      StripAnsi(if |s| > 1 && s[1] == '[' then s[2..] else s[1..], true)
    else if inEscape then
      StripAnsi(s[1..], !('a' <= s[0] <= 'z' || 'A' <= s[0] <= 'Z'))
    else
      [s[0]] + StripAnsi(s[1..], false)
  }

  lemma {:induction false} StripAnsiClean(s: string, inEscape: bool)
    ensures '\U{001B}' !in StripAnsi(s, inEscape)
    decreases |s|
  {
    if s == "" {
    } else if s[0] == '\U{001B}' {
      StripAnsiClean(if |s| > 1 && s[1] == '[' then s[2..] else s[1..], true);
    } else if inEscape {
      StripAnsiClean(s[1..], !('a' <= s[0] <= 'z' || 'A' <= s[0] <= 'Z'));
    } else {
      StripAnsiClean(s[1..], false);
    }
  }

  lemma {:induction false} StripAnsiKeepsPlain(s: string)
    requires '\U{001B}' !in s
    ensures StripAnsi(s, false) == s
  {
    if s != "" {
      assert s[0] in s;
      StripAnsiKeepsPlain(s[1..]);
      assert s == [s[0]] + s[1..];
    }
  }

  /** Colour codes are gone after one pass: a second pass changes nothing. */
  lemma StripAnsiIdempotent(s: string)
    ensures StripAnsi(StripAnsi(s, false), false) == StripAnsi(s, false)
  {
    StripAnsiClean(s, false);
    StripAnsiKeepsPlain(StripAnsi(s, false));
  }

  predicate IsLetter(c: char) {
    'a' <= c <= 'z' || 'A' <= c <= 'Z'
  }

  /** A text without ESC and the colour code behind it: ESC, '[', parameters, a letter. */
  datatype Piece = Piece(text: string, parameters: string, letter: char)

  predicate IsPiece(p: Piece) {
    && '\U{001B}' !in p.text && '\U{001B}' !in p.parameters
    && (forall c :: c in p.parameters ==> !IsLetter(c)) && IsLetter(p.letter)
  }

  function Coloured(pieces: seq<Piece>): string {
    if pieces == [] then "" else
      pieces[0].text + ("\U{001B}[" + (pieces[0].parameters + ([pieces[0].letter] + Coloured(pieces[1..]))))
  }

  function PlainText(pieces: seq<Piece>): string {
    if pieces == [] then "" else pieces[0].text + PlainText(pieces[1..])
  }

  lemma {:induction false} StripAnsiPlain(a: string, b: string)
    requires '\U{001B}' !in a
    ensures StripAnsi(a + b, false) == a + StripAnsi(b, false)
  {
    if a == "" {
      assert a + b == b;
    } else {
      assert (a + b)[0] == a[0] && a[0] in a && (a + b)[1..] == a[1..] + b;
      StripAnsiPlain(a[1..], b);
    }
  }

  lemma {:induction false} StripAnsiCode(parameters: string, letter: char, b: string)
    requires '\U{001B}' !in parameters && (forall c :: c in parameters ==> !IsLetter(c)) && IsLetter(letter)
    ensures StripAnsi(parameters + ([letter] + b), true) == StripAnsi(b, false)
  {
    var s := parameters + ([letter] + b);
    if parameters == "" {
      assert s[0] == letter && s[1..] == b;
    } else {
      assert s[0] == parameters[0] && s[0] in parameters && s[1..] == parameters[1..] + ([letter] + b);
      StripAnsiCode(parameters[1..], letter, b);
    }
  }

  /** From a coloured text exactly the colour codes are removed. */
  lemma {:induction false} ColoursVanish(pieces: seq<Piece>)
    requires forall i :: 0 <= i < |pieces| ==> IsPiece(pieces[i])
    ensures StripAnsi(Coloured(pieces), false) == PlainText(pieces)
  {
    if pieces != [] {
      var p, rest := pieces[0], Coloured(pieces[1..]);
      var code := p.parameters + ([p.letter] + rest);
      assert IsPiece(p);
      StripAnsiPlain(p.text, "\U{001B}[" + code);
      assert ("\U{001B}[" + code)[2..] == code;
      StripAnsiCode(p.parameters, p.letter, rest);
      ColoursVanish(pieces[1..]);
    }
  }

  // ---- File header detection -----------------------------------------------------

  function Paths(files: seq<FileEntry>): (paths: seq<string>)
    ensures |paths| == |files|
  {
    seq(|files|, i requires 0 <= i < |files| => files[i].path)
  }

  /** Index of the entry for `path`, or the length. */
  function FindFile(files: seq<FileEntry>, path: string): (i: nat)
    ensures i <= |files|
    ensures i < |files| ==> files[i].path == path
    ensures i == |files| <==> path !in Paths(files)
  {
    if files == [] then 0
    else if files[0].path == path then assert Paths(files)[0] == path; 0
    else
      assert Paths(files) == [files[0].path] + Paths(files[1..]);
      1 + FindFile(files[1..], path)
  }

  /** The words of a "diff --git" line: a rename is pending when the two paths differ. */
  function GitHeader(st: State, parts: seq<string>): (State, Option<string>) {
    var s := st.(meta := None, renameFrom := None, renameTo := None);
    if |parts| < 4 then (s, None) else
      var a := StripPrefix(parts[2], "a/");
      var b := StripPrefix(parts[3], "b/");
      (if a != b then s.(renameFrom := Some(a), renameTo := Some(b)) else s, Some(b))
  }

  function RenameFromHeader(st: State, from: string): State {
    var newPath := if st.meta.Some? && st.meta.value.newPath.Some? then st.meta.value.newPath else st.renameTo;
    st.(renameFrom := Some(from), meta := Some(ChunkMeta(newPath, Some(from), false, false)))
  }

  function RenameToHeader(st: State, to: string): State {
    var files := if to in Paths(st.files) then st.files
                 else st.files + [FileEntry(to, st.renameFrom, false, false, |st.lines|)];
    st.(renameTo := Some(to), file := to, files := files,
        meta := Some(ChunkMeta(Some(to), st.renameFrom, false, false)))
  }

  /** Whether the word behind "---" or "+++" is a path. */
  predicate NamesPath(parts: seq<string>) {
    |parts| >= 2 && parts[1] != "/dev/null" && parts[1] != ""
  }

  function MinusHeader(st: State, parts: seq<string>): (State, Option<string>) {
    if !NamesPath(parts) then (st, None) else
      var path := StripPrefix(parts[1], "a/");
      (st, if st.renameFrom != Some(path) then Some(path) else None)
  }

  function PlusHeader(st: State, parts: seq<string>): (State, Option<string>) {
    if !NamesPath(parts) then (st, None) else
      var path := StripPrefix(parts[1], "b/");
      var grow := st.meta.None? || st.meta.value.newPath.None?;
      (if !grow then st else
         st.(meta := Some(ChunkMeta(
           Some(path), st.renameFrom,
           st.meta.Some? && st.meta.value.isNew,
           st.meta.Some? && st.meta.value.isDeleted))),
       Some(path))
  }

  /** The header branch of one iteration; the second part is the file it detects. */
  function Header(st: State, line: string): (State, Option<string>) {
    if DIFF_GIT <= line then GitHeader(st, SplitWhitespace(line))
    else if "rename from " <= line then (RenameFromHeader(st, Trim(line[12..])), None)
    else if "rename to " <= line then (RenameToHeader(st, Trim(line[10..])), None)
    else if "new file mode " <= line then
      (st.(meta := Some(ChunkMeta(st.renameTo, None, true, false))), None)
    else if "deleted file mode " <= line then
      (st.(meta := Some(ChunkMeta(None, st.renameFrom, false, true))), None)
    else if "--- " <= line then MinusHeader(st, SplitWhitespace(line))
    else if "+++ " <= line then PlusHeader(st, SplitWhitespace(line))
    else (st, None)
  }

  /** A detected file becomes the current one and is listed once. */
  function Register(st: State, path: string): State {
    var isNew := st.meta.Some? && st.meta.value.isNew;
    var isDeleted := st.meta.Some? && st.meta.value.isDeleted;
    var i := FindFile(st.files, path);
    if i < |st.files| then
      var e := st.files[i];
      st.(file := path, files := st.files[i := e.(
        oldPath := if st.renameFrom.Some? then st.renameFrom else e.oldPath,
        isNew := e.isNew || isNew,
        isDeleted := e.isDeleted || isDeleted)])
    else
      st.(file := path,
          files := st.files + [FileEntry(path, st.renameFrom, isNew, isDeleted, |st.lines|)])
  }

  // ---- Line classification -------------------------------------------------------

  function KindOf(line: string): LineKind {
    if || DIFF_GIT <= line || "--- " <= line || "+++ " <= line || "index " <= line
       || "similarity index " <= line || "rename from " <= line || "rename to " <= line
       || "new file mode " <= line || "deleted file mode " <= line
       || "Binary files " <= line || "old mode " <= line || "new mode " <= line
       || "copy from " <= line || "copy to " <= line || "Subproject commit " <= line
    then Meta
    else if "@@ " <= line then HunkHeader
    else if "+" <= line then Addition
    else if "-" <= line then Deletion
    else Normal
  }

  function CountsFor(counts: map<string, Counts>, file: string): Counts {
    if file in counts then counts[file] else Counts(0, 0)
  }

  function Classify(st: State, line: string): State {
    ClassifyAs(st, line, KindOf(line))
  }

  function ClassifyAs(st: State, line: string, kind: LineKind): State {
    var file := st.file;
    match kind
    case Meta =>
      var s := st.(lines := st.lines + [DiffLine(line, kind, file, None, None)]);
      if DIFF_GIT <= line then s.(oldNum := None, newNum := None) else s
    case HunkHeader =>
      var h := ParseHunkHeader(line);
      st.(oldNum := if h.Some? then Some(h.value.0) else None,
          newNum := if h.Some? then Some(h.value.1) else None,
          lines := st.lines + [DiffLine(line, kind, file, None, None)])
    case Addition =>
      var c := CountsFor(st.counts, file);
      st.(lines := st.lines + [DiffLine(line, kind, file, None, st.newNum)],
          newNum := Bump(st.newNum),
          counts := st.counts[file := c.(adds := c.adds + 1)])
    case Deletion =>
      var c := CountsFor(st.counts, file);
      st.(lines := st.lines + [DiffLine(line, kind, file, st.oldNum, None)],
          oldNum := Bump(st.oldNum),
          counts := st.counts[file := c.(dels := c.dels + 1)])
    case Normal =>
      st.(lines := st.lines + [DiffLine(line, kind, file, st.oldNum, st.newNum)],
          oldNum := Bump(st.oldNum),
          newNum := Bump(st.newNum))
  }

  /** The header half of an iteration: detection, then registration of what it found. */
  function Detect(st: State, line: string): State {
    var (s, detected) := Header(st, line);
    if detected.Some? then Register(s, detected.value) else s
  }

  function Step(st: State, line: string): State {
    Classify(Detect(st, line), line)
  }

  function Run(lines: seq<string>): State {
    if lines == [] then INITIAL else Step(Run(lines[..|lines| - 1]), lines[|lines| - 1])
  }

  function ParseText(raw: string): State {
    Run(Lines(StripAnsi(raw, false)))
  }

  method Parse(raw: string) returns (st: State)
    ensures st == ParseText(raw)
  {
    var lines := Lines(StripAnsi(raw, false));
    st := INITIAL;
    for i := 0 to |lines|
      invariant st == Run(lines[..i])
    {
      assert lines[..i + 1][..i] == lines[..i];
      st := Step(st, lines[i]);
    }
    assert lines[..|lines|] == lines;
  }
}
