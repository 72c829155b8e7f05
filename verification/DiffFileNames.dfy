/** Which file each line of a diff text belongs to, read off the text. */
module DiffFileNames {
  import opened Prelude
  import opened Text
  import opened DiffLines
  import opened DiffParser
  import opened DiffParserProofs

  // ---- Continuing a parse -----------------------------------------------------------------

  function RunFrom(st: State, lines: seq<string>): State {
    if lines == [] then st else Step(RunFrom(st, lines[..|lines| - 1]), lines[|lines| - 1])
  }

  lemma {:induction false} RunIsRunFrom(lines: seq<string>)
    ensures Run(lines) == RunFrom(INITIAL, lines)
  {
    if lines != [] {
      RunIsRunFrom(lines[..|lines| - 1]);
    }
  }

  lemma {:induction false} RunFromConcat(st: State, a: seq<string>, b: seq<string>)
    ensures RunFrom(st, a + b) == RunFrom(RunFrom(st, a), b)
  {
    if b == [] {
      assert a + b == a;
    } else {
      assert (a + b)[..|a + b| - 1] == a + b[..|b| - 1];
      RunFromConcat(st, a, b[..|b| - 1]);
    }
  }

  lemma RunFromOne(st: State, line: string)
    ensures RunFrom(st, [line]) == Step(st, line)
  {
    assert [line][..0] == [] && RunFrom(st, []) == st;
  }

  lemma RunConcat(a: seq<string>, b: seq<string>)
    ensures Run(a + b) == RunFrom(Run(a), b)
  {
    RunIsRunFrom(a + b);
    RunIsRunFrom(a);
    RunFromConcat(INITIAL, a, b);
  }

  /** What was parsed stays: the lines, and the listed paths with their places. */
  ghost predicate Extends(st: State, out: State) {
    && st.lines <= out.lines
    && |st.files| <= |out.files|
    && (forall i :: 0 <= i < |st.files| ==> SamePlace(st, out, i))
    && forall i :: |st.files| <= i < |out.files| ==> out.files[i].lineIdx >= |st.lines|
  }

  predicate SamePlace(st: State, out: State, i: nat)
    requires i < |st.files| && i < |out.files|
  {
    out.files[i].path == st.files[i].path && out.files[i].lineIdx == st.files[i].lineIdx
  }

  lemma StepAppends(st: State, line: string)
    ensures |Step(st, line).lines| == |st.lines| + 1 && st.lines <= Step(st, line).lines
    ensures Step(st, line).lines[|st.lines|].file == Step(st, line).file == Detect(st, line).file
    ensures Step(st, line).files == Detect(st, line).files
  {
    DetectChanges(st, line);
    ClassifyAppends(Detect(st, line), line, KindOf(line));
  }

  lemma DetectedExtends(st: State, d: State, out: State, kind: LineKind)
    requires Detected(st, d, kind) && out.files == d.files && st.lines <= out.lines
    ensures Extends(st, out)
  {
    forall i | 0 <= i < |st.files| ensures SamePlace(st, out, i) {
      assert d.files[i].path == st.files[i].path && d.files[i].lineIdx == st.files[i].lineIdx;
    }
  }

  lemma StepExtends(st: State, line: string)
    ensures Extends(st, Step(st, line))
  {
    StepAppends(st, line);
    DetectDetected(st, line);
    DetectedExtends(st, Detect(st, line), Step(st, line), KindOf(line));
  }

  lemma ExtendsTransitive(a: State, b: State, c: State)
    requires Extends(a, b) && Extends(b, c)
    ensures Extends(a, c)
  {
    forall i | 0 <= i < |a.files| ensures SamePlace(a, c, i) {
      assert SamePlace(a, b, i) && SamePlace(b, c, i);
    }
    forall i | |a.files| <= i < |c.files| ensures c.files[i].lineIdx >= |a.lines| {
      if i < |b.files| {
        assert SamePlace(b, c, i);
      }
    }
  }

  lemma {:induction false} RunFromExtends(st: State, lines: seq<string>)
    ensures Extends(st, RunFrom(st, lines))
    ensures |RunFrom(st, lines).lines| == |st.lines| + |lines|
  {
    if lines == [] {
      forall i | 0 <= i < |st.files| ensures SamePlace(st, st, i) {
      }
    } else {
      var before := RunFrom(st, lines[..|lines| - 1]);
      RunFromExtends(st, lines[..|lines| - 1]);
      StepAppends(before, lines[|lines| - 1]);
      StepExtends(before, lines[|lines| - 1]);
      ExtendsTransitive(st, before, RunFrom(st, lines));
    }
  }

  lemma ExtendsPaths(st: State, out: State, p: string)
    requires Extends(st, out) && p in Paths(st.files)
    ensures p in Paths(out.files)
  {
    var i :| 0 <= i < |Paths(st.files)| && Paths(st.files)[i] == p;
    assert SamePlace(st, out, i) && Paths(out.files)[i] == p;
  }

  /** Every line of the text becomes a line, and the last one belongs to the current file. */
  lemma RunShape(text: seq<string>)
    ensures |Run(text).lines| == |text|
    ensures if text == [] then Run(text) == INITIAL else Run(text).lines[|text| - 1].file == Run(text).file
  {
    RunIsRunFrom(text);
    RunFromExtends(INITIAL, text);
    if text != [] {
      var init := text[..|text| - 1];
      RunIsRunFrom(init);
      RunFromExtends(INITIAL, init);
      StepAppends(Run(init), text[|text| - 1]);
    }
  }

  lemma PrefixExtends(text: seq<string>, n: nat)
    requires n <= |text|
    ensures Extends(Run(text[..n]), Run(text))
  {
    assert text == text[..n] + text[n..];
    ConcatExtends(text[..n], text[n..]);
  }

  lemma ConcatExtends(a: seq<string>, b: seq<string>)
    ensures Extends(Run(a), Run(a + b))
  {
    RunConcat(a, b);
    RunFromExtends(Run(a), b);
  }

  /** The parse of a text before its line `i`, and the step over the line. */
  lemma AtLine(text: seq<string>, i: nat) returns (st: State)
    requires i < |text|
    ensures st == Run(text[..i]) && |st.lines| == i
    ensures Extends(Step(st, text[i]), Run(text))
    ensures i < |Run(text).lines| && Run(text).lines[i].file == Detect(st, text[i]).file
    ensures if i == 0 then st == INITIAL else Run(text).lines[i - 1].file == st.file
  {
    st := Run(text[..i]);
    assert text[..i + 1][..i] == text[..i];
    PrefixExtends(text, i + 1);
    PrefixExtends(text, i);
    RunShape(text[..i]);
    StepAppends(st, text[i]);
  }

  // ---- The lines that name a file ---------------------------------------------------------------

  function GitLine(a: string, b: string, rest: string): string {
    "diff --git a/" + a + " b/" + b + rest
  }

  function MinusLine(path: string, rest: string): string {
    "--- a/" + path + rest
  }

  function PlusLine(path: string, rest: string): string {
    "+++ b/" + path + rest
  }

  /** Two words behind a four-letter marker. */
  lemma MarkerWords(marker: string, word: string, rest: string)
    requires IsWord(marker) && IsWord(word) && EndsWord(rest)
    ensures var parts := SplitWhitespace(marker + " " + (word + rest)); |parts| >= 2 && parts[1] == word
  {
    NextWord(marker, word + rest);
    SplitWord(word, rest);
  }

  lemma RegisterLists(st: State, path: string)
    ensures Register(st, path).file == path && path in Paths(Register(st, path).files)
  {
    var i := FindFile(st.files, path);
    assert Paths(Register(st, path).files)[i] == path;
  }

  /** What the first character says about the branch that reads a line. */
  lemma WhichBranch(st: State, line: string)
    ensures "--- " <= line ==> Header(st, line) == MinusHeader(st, SplitWhitespace(line))
    ensures "+++ " <= line ==> Header(st, line) == PlusHeader(st, SplitWhitespace(line))
    ensures "rename to " <= line ==> Header(st, line) == (RenameToHeader(st, Trim(line[10..])), None)
    ensures "new file mode " <= line ==>
              Header(st, line) == (st.(meta := Some(ChunkMeta(st.renameTo, None, true, false))), None)
    ensures "deleted file mode " <= line ==>
              Header(st, line) == (st.(meta := Some(ChunkMeta(None, st.renameFrom, false, true))), None)
  {
    if line != "" && DIFF_GIT <= line { assert line[0] == 'd' && line[1] == 'i'; }
    if line != "" && "deleted file mode " <= line { assert line[0] == 'd' && line[1] == 'e'; }
    if line != "" && "rename from " <= line { assert line[0] == 'r' && line[7] == 'f'; }
    if line != "" && "rename to " <= line { assert line[0] == 'r' && line[7] == 't'; }
    if line != "" && "new file mode " <= line { assert line[0] == 'n'; }
    if line != "" && "--- " <= line { assert line[0] == '-'; }
    if line != "" && "+++ " <= line { assert line[0] == '+'; }
  }

  lemma PlusWords(p: string, rest: string)
    requires NoSpace(p) && EndsWord(rest)
    ensures "+++ " <= PlusLine(p, rest)
    ensures var parts := SplitWhitespace(PlusLine(p, rest));
            NamesPath(parts) && StripPrefix(parts[1], "b/") == p
  {
    var word := "b/" + p;
    assert PlusLine(p, rest) == "+++" + " " + (word + rest);
    MarkerWords("+++", word, rest);
    assert word[0] == 'b' && word[2..] == p;
  }

  lemma MinusWords(p: string, rest: string)
    requires NoSpace(p) && EndsWord(rest)
    ensures "--- " <= MinusLine(p, rest)
    ensures var parts := SplitWhitespace(MinusLine(p, rest));
            NamesPath(parts) && StripPrefix(parts[1], "a/") == p
  {
    var word := "a/" + p;
    assert MinusLine(p, rest) == "---" + " " + (word + rest);
    MarkerWords("---", word, rest);
    assert word[0] == 'a' && word[2..] == p;
  }

  lemma DetectPlus(st: State, p: string, rest: string)
    requires NoSpace(p) && EndsWord(rest)
    ensures var d := Detect(st, PlusLine(p, rest)); d.file == p && p in Paths(d.files)
  {
    var line := PlusLine(p, rest);
    PlusWords(p, rest);
    WhichBranch(st, line);
    RegisterLists(Header(st, line).0, p);
  }

  lemma DetectMinus(st: State, p: string, rest: string)
    requires NoSpace(p) && EndsWord(rest)
    ensures var d := Detect(st, MinusLine(p, rest));
            if st.renameFrom == Some(p) then d == st else d.file == p && p in Paths(d.files)
  {
    MinusWords(p, rest);
    WhichBranch(st, MinusLine(p, rest));
    RegisterLists(st, p);
  }

  function NullLine(minus: bool, rest: string): string {
    (if minus then "--- " else "+++ ") + "/dev/null" + rest
  }

  lemma NullWords(minus: bool, rest: string)
    requires EndsWord(rest)
    ensures (if minus then "--- " else "+++ ") <= NullLine(minus, rest)
    ensures !NamesPath(SplitWhitespace(NullLine(minus, rest)))
  {
    var marker := if minus then "---" else "+++";
    assert NullLine(minus, rest) == marker + " " + ("/dev/null" + rest);
    MarkerWords(marker, "/dev/null", rest);
  }

  lemma DetectNull(st: State, minus: bool, rest: string)
    requires EndsWord(rest)
    ensures Detect(st, NullLine(minus, rest)) == st
  {
    NullWords(minus, rest);
    WhichBranch(st, NullLine(minus, rest));
  }

  lemma FourWords(v: string, w: string, x: string, y: string, rest: string)
    requires IsWord(v) && IsWord(w) && IsWord(x) && IsWord(y) && EndsWord(rest)
    ensures var parts := SplitWhitespace(v + " " + (w + " " + (x + " " + (y + rest))));
            |parts| >= 4 && parts[2] == x && parts[3] == y
  {
    var second := x + " " + (y + rest);
    var first := w + " " + second;
    NextWord(v, first);
    NextWord(w, second);
    TwoWords(x, y, rest);
    assert SplitWhitespace(v + " " + first) == [v] + ([w] + SplitWhitespace(second));
  }

  lemma TwoWords(x: string, y: string, rest: string)
    requires IsWord(x) && IsWord(y) && EndsWord(rest)
    ensures var parts := SplitWhitespace(x + " " + (y + rest)); |parts| >= 2 && parts[0] == x && parts[1] == y
  {
    NextWord(x, y + rest);
    SplitWord(y, rest);
  }

  lemma GitLineParts(a: string, b: string, rest: string)
    ensures GitLine(a, b, rest) == "diff" + " " + ("--git" + " " + ("a/" + a + " " + ("b/" + b + rest)))
    ensures DIFF_GIT <= GitLine(a, b, rest)
  {
    var tail := a + " " + ("b/" + b + rest);
    assert "diff" + " " + ("--git" + " " + ("a/" + tail)) == "diff --git a/" + tail;
    assert "a/" + a + " " + ("b/" + b + rest) == "a/" + tail;
    assert GitLine(a, b, rest) == "diff --git a/" + tail;
  }

  lemma GitWords(a: string, b: string, rest: string)
    requires NoSpace(a) && NoSpace(b) && EndsWord(rest)
    ensures var parts := SplitWhitespace(GitLine(a, b, rest));
            |parts| >= 4 && StripPrefix(parts[2], "a/") == a && StripPrefix(parts[3], "b/") == b
  {
    GitLineParts(a, b, rest);
    FourWords("diff", "--git", "a/" + a, "b/" + b, rest);
    assert ("a/" + a)[2..] == a && ("b/" + b)[2..] == b;
  }

  lemma DetectGit(st: State, a: string, b: string, rest: string)
    requires NoSpace(a) && NoSpace(b) && EndsWord(rest)
    ensures var d := Detect(st, GitLine(a, b, rest)); d.file == b && b in Paths(d.files)
    ensures Detect(st, GitLine(a, b, rest)).renameFrom == if a == b then None else Some(a)
  {
    var parts := SplitWhitespace(GitLine(a, b, rest));
    GitLineParts(a, b, rest);
    GitWords(a, b, rest);
    assert Header(st, GitLine(a, b, rest)) == GitHeader(st, parts);
    RegisterLists(GitHeader(st, parts).0, b);
  }

  lemma DetectRenameTo(st: State, q: string)
    requires Trimmed(q)
    ensures var d := Detect(st, "rename to " + q); d.file == q && q in Paths(d.files)
  {
    var line := "rename to " + q;
    WhichBranch(st, line);
    assert line[10..] == q && "rename to " <= line;
    TrimIdempotent(q);
    if q !in Paths(st.files) {
      assert Paths(Detect(st, line).files)[|st.files|] == q;
    }
  }

  // ---- The lines that name no file ----------------------------------------------------------------

  /** The line begins as one that may name a file. */
  predicate MayNameFile(line: string) {
    DIFF_GIT <= line || "rename to " <= line || "--- " <= line || "+++ " <= line
  }

  lemma DetectOther(st: State, line: string)
    requires !MayNameFile(line)
    ensures Detect(st, line).file == st.file && Detect(st, line).files == st.files
  {
  }

  /** The path a rename is pending from, read off the lines before line `i`. */
  function PendingFrom(text: seq<string>, i: nat): Option<string>
    requires i <= |text|
  {
    if i == 0 then None
    else if DIFF_GIT <= text[i - 1] then
      var parts := SplitWhitespace(text[i - 1]);
      if |parts| < 4 || StripPrefix(parts[2], "a/") == StripPrefix(parts[3], "b/") then None
      else Some(StripPrefix(parts[2], "a/"))
    else if "rename from " <= text[i - 1] then Some(Trim(text[i - 1][12..]))
    else PendingFrom(text, i - 1)
  }

  lemma StepRenameFrom(st: State, line: string)
    ensures Step(st, line).renameFrom == Header(st, line).0.renameFrom
  {
  }

  lemma HeaderRenameFrom(st: State, line: string)
    ensures Header(st, line).0.renameFrom ==
            if DIFF_GIT <= line then GitHeader(st, SplitWhitespace(line)).0.renameFrom
            else if "rename from " <= line then Some(Trim(line[12..]))
            else st.renameFrom
  {
  }

  lemma {:induction false} PendingIsRenameFrom(text: seq<string>, i: nat)
    requires i <= |text|
    ensures Run(text[..i]).renameFrom == PendingFrom(text, i)
  {
    if i > 0 {
      assert text[..i][..i - 1] == text[..i - 1];
      PendingIsRenameFrom(text, i - 1);
      StepRenameFrom(Run(text[..i - 1]), text[i - 1]);
      HeaderRenameFrom(Run(text[..i - 1]), text[i - 1]);
    }
  }

  // ---- Main results ----------------------------------------------------------------------------------

  function TextLines(raw: string): seq<string> {
    Lines(StripAnsi(raw, false))
  }

  /** Line `i` belongs to the listed file `path`. */
  ghost predicate Owned(raw: string, i: nat, path: string) {
    && i < |ParseText(raw).lines|
    && ParseText(raw).lines[i].file == path
    && path in Paths(ParseText(raw).files)
  }

  /** Line `i` belongs to the file of the line before it, and no listed file begins at it. */
  ghost predicate NamesNothing(raw: string, i: nat) {
    && i < |ParseText(raw).lines|
    && ParseText(raw).lines[i].file == (if i == 0 then "" else ParseText(raw).lines[i - 1].file)
    && forall k :: 0 <= k < |ParseText(raw).files| ==> ParseText(raw).files[k].lineIdx != i
  }

  lemma OwnedAt(raw: string, i: nat, path: string)
    requires i < |TextLines(raw)|
    requires var d := Detect(Run(TextLines(raw)[..i]), TextLines(raw)[i]); d.file == path && path in Paths(d.files)
    ensures Owned(raw, i, path)
  {
    var text := TextLines(raw);
    var st := AtLine(text, i);
    StepAppends(st, text[i]);
    StepExtends(st, text[i]);
    ExtendsPaths(Step(st, text[i]), Run(text), path);
  }

  /** "+++ b/p" makes p the current file. */
  lemma PlusNames(raw: string, i: nat, p: string, rest: string)
    requires i < |TextLines(raw)| && TextLines(raw)[i] == PlusLine(p, rest) && NoSpace(p) && EndsWord(rest)
    ensures Owned(raw, i, p)
  {
    DetectPlus(Run(TextLines(raw)[..i]), p, rest);
    OwnedAt(raw, i, p);
  }

  /** "diff --git a/p b/q" makes q the current file. */
  lemma GitNames(raw: string, i: nat, p: string, q: string, rest: string)
    requires i < |TextLines(raw)| && TextLines(raw)[i] == GitLine(p, q, rest)
    requires NoSpace(p) && NoSpace(q) && EndsWord(rest)
    ensures Owned(raw, i, q)
    ensures PendingFrom(TextLines(raw), i + 1) == if p == q then None else Some(p)
  {
    DetectGit(Run(TextLines(raw)[..i]), p, q, rest);
    OwnedAt(raw, i, q);
    GitLineParts(p, q, rest);
    GitWords(p, q, rest);
  }

  /** "rename to q" makes q the current file, spaces and all. */
  lemma RenameNames(raw: string, i: nat, q: string)
    requires i < |TextLines(raw)| && TextLines(raw)[i] == "rename to " + q && Trimmed(q)
    ensures Owned(raw, i, q)
  {
    DetectRenameTo(Run(TextLines(raw)[..i]), q);
    OwnedAt(raw, i, q);
  }

  lemma NamesNothingAt(raw: string, i: nat)
    requires i < |TextLines(raw)|
    requires var st := Run(TextLines(raw)[..i]);
             Detect(st, TextLines(raw)[i]).file == st.file && Detect(st, TextLines(raw)[i]).files == st.files
    ensures NamesNothing(raw, i)
  {
    var text := TextLines(raw);
    var st := AtLine(text, i);
    StepAppends(st, text[i]);
    StepExtends(st, text[i]);
    RunFiles(text[..i]);
    forall k | 0 <= k < |Run(text).files| ensures Run(text).files[k].lineIdx != i {
      if k < |st.files| {
        assert PointsAtFirstLine(st.files[k], st.lines);
        assert SamePlace(Step(st, text[i]), Run(text), k);
      }
    }
  }

  /** "--- a/p" makes p the current file, unless a rename from p is pending; then it changes nothing. */
  lemma MinusNames(raw: string, i: nat, p: string, rest: string)
    requires i < |TextLines(raw)| && TextLines(raw)[i] == MinusLine(p, rest) && NoSpace(p) && EndsWord(rest)
    ensures if PendingFrom(TextLines(raw), i) == Some(p) then NamesNothing(raw, i) else Owned(raw, i, p)
  {
    PendingIsRenameFrom(TextLines(raw), i);
    DetectMinus(Run(TextLines(raw)[..i]), p, rest);
    if PendingFrom(TextLines(raw), i) == Some(p) {
      NamesNothingAt(raw, i);
    } else {
      OwnedAt(raw, i, p);
    }
  }

  /** "/dev/null" in place of a path changes nothing. */
  lemma NullNamesNothing(raw: string, i: nat, minus: bool, rest: string)
    requires i < |TextLines(raw)| && TextLines(raw)[i] == NullLine(minus, rest) && EndsWord(rest)
    ensures NamesNothing(raw, i)
  {
    DetectNull(Run(TextLines(raw)[..i]), minus, rest);
    NamesNothingAt(raw, i);
  }

  /** Nor does any line that does not begin like one of the four kinds above. */
  lemma OthersNameNothing(raw: string, i: nat)
    requires i < |TextLines(raw)| && !MayNameFile(TextLines(raw)[i])
    ensures NamesNothing(raw, i)
  {
    DetectOther(Run(TextLines(raw)[..i]), TextLines(raw)[i]);
    NamesNothingAt(raw, i);
  }

  /** "rename from p" leaves a rename from p pending until the next such line or "diff --git". */
  lemma {:induction false} RenameFromPends(text: seq<string>, j: nat, i: nat, p: string)
    requires j < i <= |text| && text[j] == "rename from " + p && Trimmed(p)
    requires forall k :: j < k < i ==> !(DIFF_GIT <= text[k]) && !("rename from " <= text[k])
    ensures PendingFrom(text, i) == Some(p)
  {
    if i == j + 1 {
      assert text[j][0] == 'r' && text[j][12..] == p && "rename from " <= text[j];
      TrimIdempotent(p);
    } else {
      RenameFromPends(text, j, i - 1, p);
    }
  }

  // ---- Paths with spaces ---------------------------------------------------------------------------

  /** Some line among the first `n` is "rename to" that path. */
  ghost predicate RenameTarget(text: seq<string>, n: nat, p: string)
    requires n <= |text|
  {
    exists i :: 0 <= i < n && "rename to " <= text[i] && Trim(text[i][10..]) == p
  }

  /** Only a "rename to" line can put a path with white space on the list. */
  ghost predicate SpacedAreTargets(text: seq<string>, n: nat)
    requires n <= |text|
  {
    forall p :: p in Paths(Run(text[..n]).files) && !NoSpace(p) ==> RenameTarget(text, n, p)
  }

  lemma StripKeepsWord(w: string, prefix: string)
    requires NoSpace(w)
    ensures NoSpace(StripPrefix(w, prefix))
  {
    forall c | c in StripPrefix(w, prefix) ensures !IsWhitespace(c) {
      assert c in w;
    }
  }

  /** A detected path is a word. */
  lemma DetectedIsWord(st: State, line: string)
    requires Header(st, line).1.Some?
    ensures NoSpace(Header(st, line).1.value)
  {
    var parts := SplitWhitespace(line);
    SplitGivesWords(line);
    if |parts| >= 4 {
      assert parts[3] in parts;
      StripKeepsWord(parts[3], "b/");
    }
    if |parts| >= 2 {
      assert parts[1] in parts;
      StripKeepsWord(parts[1], "a/");
      StripKeepsWord(parts[1], "b/");
    }
  }

  /** What one line adds to the list. */
  lemma AddedPath(st: State, line: string, p: string)
    requires p in Paths(Step(st, line).files) && p !in Paths(st.files)
    ensures NoSpace(p) || ("rename to " <= line && Trim(line[10..]) == p)
  {
    var d := Detect(st, line);
    StepAppends(st, line);
    DetectDetected(st, line);
    PathsGrow(st, d, KindOf(line));
    assert p == d.file;
    var (s, detected) := Header(st, line);
    if detected.Some? {
      DetectedIsWord(st, line);
      RegisterLists(s, detected.value);
    } else if "rename to " <= line {
      WhichBranch(st, line);
    } else if !MayNameFile(line) {
      DetectOther(st, line);
    }
  }

  lemma {:induction false} RunSpaced(text: seq<string>, n: nat)
    requires n <= |text|
    ensures SpacedAreTargets(text, n)
  {
    if n > 0 {
      RunSpaced(text, n - 1);
      assert text[..n][..n - 1] == text[..n - 1];
      var st := Run(text[..n - 1]);
      forall p | p in Paths(Run(text[..n]).files) && !NoSpace(p) ensures RenameTarget(text, n, p) {
        if p in Paths(st.files) {
          assert RenameTarget(text, n - 1, p);
        } else {
          AddedPath(st, text[n - 1], p);
        }
      }
    }
  }

  /** For every text: a listed path holds white space only if a "rename to" line names it. */
  lemma SpacedPathIsRenameTarget(raw: string, p: string)
    requires p in Paths(ParseText(raw).files) && !NoSpace(p)
    ensures RenameTarget(TextLines(raw), |TextLines(raw)|, p)
  {
    var text := TextLines(raw);
    RunSpaced(text, |text|);
    assert text[..|text|] == text;
  }
}
