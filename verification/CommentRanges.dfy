/** The line range a review comment is attached to. */
module CommentRanges {
  import opened Prelude
  import opened DiffLines
  import opened SideBySide

  datatype CommentRange = CommentRange(
    file: string,
    lineNum: Option<nat>,
    oldLineNum: Option<nat>,
    endLineNum: Option<nat>,
    endOldLineNum: Option<nat>,
    lines: seq<DiffLine>)

  predicate HasNewNumber(l: DiffLine) {
    !l.kind.Deletion? && l.newNum.Some?
  }

  predicate IsNumberedDeletion(l: DiffLine) {
    l.kind.Deletion? && l.oldNum.Some?
  }

  predicate RightIsNumbered(r: Row) {
    r.right.Some? && r.right.value.newNum.Some?
  }

  predicate AnyNewNumber(sel: seq<DiffLine>) {
    exists i :: 0 <= i < |sel| && HasNewNumber(sel[i])
  }

  predicate AnyRightNumber(sel: seq<Row>) {
    exists i :: 0 <= i < |sel| && RightIsNumbered(sel[i])
  }

  /** From the first to the last of `lines`, numbered on one side only. */
  function Spanning(side: Side, lines: seq<DiffLine>): Option<CommentRange> {
    if lines == [] then None else
      var first, last := lines[0], lines[|lines| - 1];
      Some(if side.New?
           then CommentRange(first.file, first.newNum, None, last.newNum, None, lines)
           else CommentRange(first.file, None, first.oldNum, None, last.oldNum, lines))
  }

  function RangeOfLines(sel: seq<DiffLine>): Option<CommentRange> {
    if AnyNewNumber(sel)
    then Spanning(New, Filter(sel, HasNewNumber))
    else Spanning(Old, Filter(sel, IsNumberedDeletion))
  }

  /** A selection of two or more entries in the unified view. */
  function UnifiedRange(lines: seq<DiffLine>, lo: nat, hi: nat): Option<CommentRange>
    requires lo <= hi
  {
    if hi >= |lines| then None else RangeOfLines(lines[lo..hi + 1])
  }

  function RangeOfRows(sel: seq<Row>): Option<CommentRange> {
    if AnyRightNumber(sel) then Spanning(New, Cells(New, sel)) else Spanning(Old, Cells(Old, sel))
  }

  /** A selection of two or more rows in the side-by-side view. */
  function SplitRange(rows: seq<Row>, lo: nat, hi: nat): Option<CommentRange>
    requires lo <= hi
  {
    if hi >= |rows| then None else RangeOfRows(rows[lo..hi + 1])
  }

  /** The line under the cursor: the right one when it has a number, else the left one. */
  function CursorLine(
      lines: seq<DiffLine>, rows: seq<Row>, sideBySide: bool, cursor: nat): Option<DiffLine> {
    if !sideBySide then At(lines, cursor)
    else if cursor >= |rows| then None
    else
      var row := rows[cursor];
      if row.right.Some? && (row.right.value.newNum.Some? || row.left.None?) then row.right
      else row.left
  }

  function SingleLine(l: DiffLine): CommentRange {
    if l.kind.Deletion? then CommentRange(l.file, None, l.oldNum, None, None, [l])
    else CommentRange(l.file, l.newNum, None, None, None, [l])
  }

  /** `get_comment_range`. */
  function RangeOf(
      lines: seq<DiffLine>, rows: seq<Row>, sideBySide: bool,
      selection: Option<(nat, nat)>, cursor: nat): Option<CommentRange> {
    if selection.Some? && selection.value.0 != selection.value.1 then
      var (s, e) := selection.value;
      var lo, hi := if s < e then s else e, if s < e then e else s;
      if sideBySide then SplitRange(rows, lo, hi) else UnifiedRange(lines, lo, hi)
    else
      match CursorLine(lines, rows, sideBySide, cursor)
      case None => None
      case Some(l) => Some(SingleLine(l))
  }

  // ---- Consecutive lines of a view are consecutively numbered --------------------------

  /** The first `n` lines whose file is kept. */
  function KeepFirst(lines: seq<DiffLine>, keep: string -> bool, n: nat): seq<DiffLine>
    requires n <= |lines|
  {
    if n == 0 then [] else
      KeepFirst(lines, keep, n - 1) + if keep(lines[n - 1].file) then [lines[n - 1]] else []
  }

  /** The lines of a view: those whose file is kept. */
  function KeepFiles(lines: seq<DiffLine>, keep: string -> bool): seq<DiffLine> {
    KeepFirst(lines, keep, |lines|)
  }

  ghost predicate Follows(side: Side, a: DiffLine, b: DiffLine) {
    Num(side, b) == Bump(Num(side, a)) && b.file == a.file
  }

  /** Neighbouring body lines of a column are numbered without a gap and share their file. */
  ghost predicate Chained(side: Side, column: seq<DiffLine>) {
    forall i :: 0 < i < |column| ==> LinkedAt(side, column, i)
  }

  ghost predicate LinkedAt(side: Side, column: seq<DiffLine>, i: nat)
    requires 0 < i < |column|
  {
    IsBody(column[i - 1]) && IsBody(column[i]) ==> Follows(side, column[i - 1], column[i])
  }

  /** If the last line read is in view and the column ends in a body line, the counter is one past it. */
  ghost predicate CounterFollows(
      side: Side, counter: Option<nat>, last: Option<DiffLine>, keep: string -> bool, column: seq<DiffLine>) {
    last.Some? && keep(last.value.file) && column != [] && IsBody(column[|column| - 1]) ==>
      && counter == Bump(Num(side, column[|column| - 1]))
      && column[|column| - 1].file == last.value.file
  }

  lemma ChainedSnoc(side: Side, column: seq<DiffLine>, l: DiffLine)
    requires Chained(side, column)
    requires column != [] && IsBody(column[|column| - 1]) && IsBody(l)
             ==> Follows(side, column[|column| - 1], l)
    ensures Chained(side, column + [l])
  {
    var grown := column + [l];
    forall i | 0 < i < |grown| ensures LinkedAt(side, grown, i) {
      if i < |column| {
        assert LinkedAt(side, column, i);
      }
    }
  }

  /** One more line read: the column stays chained and the counter stays one past its end. */
  lemma ViewChainedStep(side: Side, counter: Option<nat>, last: Option<DiffLine>, l: DiffLine,
                        keep: string -> bool, column: seq<DiffLine>)
    requires last.Some? && l.file != last.value.file ==> l.kind.Meta?
    requires Num(side, l) == if Consumes(side, l.kind) then counter else None
    requires Chained(side, column) && (last.None? ==> column == [])
    requires CounterFollows(side, counter, last, keep, column)
    ensures var grown := column + if keep(l.file) && Shown(side, l.kind) then [l] else [];
            Chained(side, grown) && CounterFollows(side, Advance(side, counter, l), Some(l), keep, grown)
  {
    if keep(l.file) && Shown(side, l.kind) {
      ChainedSnoc(side, column, l);
    } else {
      assert column + [] == column;
    }
  }

  lemma ShownSnoc(side: Side, lines: seq<DiffLine>, l: DiffLine, kept: bool)
    ensures ShownLines(side, lines + if kept then [l] else [])
         == ShownLines(side, lines) + if kept && Shown(side, l.kind) then [l] else []
  {
    ShownConcat(side, lines, if kept then [l] else []);
  }

  function LastRead(lines: seq<DiffLine>, n: nat): Option<DiffLine>
    requires n <= |lines|
  {
    if n == 0 then None else Some(lines[n - 1])
  }

  /**
   * In any view of well-numbered lines, each column numbers neighbouring body
   * lines consecutively: leaving whole files out opens no gap, because the
   * current file only changes on Meta lines.
   */
  lemma {:induction false} ViewChained(side: Side, lines: seq<DiffLine>, keep: string -> bool, n: nat)
    requires WellNumbered(lines) && SwitchesAtMeta(lines) && n <= |lines|
    ensures Chained(side, ShownLines(side, KeepFirst(lines, keep, n)))
    ensures CounterFollows(side, Counter(side, lines, n), LastRead(lines, n), keep,
                           ShownLines(side, KeepFirst(lines, keep, n)))
    ensures n == 0 ==> ShownLines(side, KeepFirst(lines, keep, n)) == []
  {
    if n > 0 {
      var l := lines[n - 1];
      ViewChained(side, lines, keep, n - 1);
      assert NumberedAt(lines, n - 1) && (n > 1 ==> SameFileOrMeta(lines, n - 1));
      var before := KeepFirst(lines, keep, n - 1);
      ViewChainedStep(side, Counter(side, lines, n - 1), LastRead(lines, n - 1), l, keep,
                      ShownLines(side, before));
      ShownSnoc(side, before, l, keep(l.file));
    }
  }

  // ---- The comment range of a selection inside a hunk ------------------------------------

  predicate NumberedOn(side: Side, l: DiffLine) {
    Consumes(side, l.kind) && Num(side, l).Some? && Num(side, l).value < U32
  }

  /** A hunk-body line that carries exactly the numbers its kind calls for. */
  predicate InHunk(l: DiffLine) {
    && IsBody(l)
    && (if Consumes(Old, l.kind) then NumberedOn(Old, l) else l.oldNum.None?)
    && (if Consumes(New, l.kind) then NumberedOn(New, l) else l.newNum.None?)
  }

  /** `lines` is one stretch of one file on one side, numbered without a gap. */
  ghost predicate Gapless(side: Side, r: CommentRange) {
    && r.lines != []
    && (side.New? ==> r.oldLineNum.None? && r.endOldLineNum.None?)
    && (side.Old? ==> r.lineNum.None? && r.endLineNum.None?)
    && var start := if side.New? then r.lineNum else r.oldLineNum;
    && var end := if side.New? then r.endLineNum else r.endOldLineNum;
    && start.Some? && end.Some?
    && end.value == (start.value + |r.lines| - 1) % U32
    && CountsUp(side, r.file, r.lines, start.value, |r.lines|)
  }

  /** The first `n` lines belong to `file` and are numbered `start`, `start + 1`, ... */
  ghost predicate CountsUp(side: Side, file: string, lines: seq<DiffLine>, start: nat, n: nat)
    requires n <= |lines|
  {
    n > 0 ==>
      && lines[n - 1].file == file
      && Num(side, lines[n - 1]) == Some((start + n - 1) % U32)
      && CountsUp(side, file, lines, start, n - 1)
  }

  /** A gapless range that returns exactly `column`. */
  ghost predicate Covers(side: Side, r: Option<CommentRange>, column: seq<DiffLine>) {
    r.Some? && Gapless(side, r.value) && r.value.lines == column
  }

  /** A stretch of numbered lines of a chained column counts up from its first line. */
  lemma {:induction false} ChainedCounts(side: Side, column: seq<DiffLine>, n: nat)
    requires Chained(side, column) && 0 < n <= |column|
    requires forall i :: 0 <= i < |column| ==> NumberedOn(side, column[i])
    ensures NumberedOn(side, column[0])
    ensures CountsUp(side, column[0].file, column, Num(side, column[0]).value, n)
  {
    assert NumberedOn(side, column[0]);
    if n > 1 {
      ChainedCounts(side, column, n - 1);
      assert NumberedOn(side, column[n - 2]) && NumberedOn(side, column[n - 1]);
      assert LinkedAt(side, column, n - 1);
      NextNumber(Num(side, column[0]).value, n - 2);
    }
  }

  lemma NextNumber(start: nat, k: nat)
    ensures Bump(Some((start + k) % U32)) == Some((start + (k + 1)) % U32)
  {
  }

  lemma SpanningIsGapless(side: Side, column: seq<DiffLine>)
    requires Chained(side, column) && column != []
    requires forall i :: 0 <= i < |column| ==> NumberedOn(side, column[i])
    ensures Covers(side, Spanning(side, column), column)
  {
    ChainedCounts(side, column, |column|);
  }

  /** A slice of `lines` shows as a slice of each column. */
  lemma ShownSlice(side: Side, lines: seq<DiffLine>, lo: nat, hi: nat)
    requires lo <= hi <= |lines|
    requires Chained(side, ShownLines(side, lines))
    ensures Chained(side, ShownLines(side, lines[lo..hi]))
  {
    var a, b, c := lines[..lo], lines[lo..hi], lines[hi..];
    assert lines == a + (b + c);
    ShownConcat(side, a, b + c);
    ShownConcat(side, b, c);
    ChainedMiddle(side, ShownLines(side, a), ShownLines(side, b), ShownLines(side, c));
  }

  lemma ChainedMiddle(side: Side, a: seq<DiffLine>, b: seq<DiffLine>, c: seq<DiffLine>)
    requires Chained(side, a + (b + c))
    ensures Chained(side, b)
  {
    var all := a + (b + c);
    forall i | 0 < i < |b| ensures LinkedAt(side, b, i) {
      assert LinkedAt(side, all, |a| + i);
    }
  }

  lemma {:induction false} FilterIsShown(side: Side, lines: seq<DiffLine>, p: DiffLine -> bool)
    requires forall i :: 0 <= i < |lines| ==> (p(lines[i]) <==> Shown(side, lines[i].kind))
    ensures Filter(lines, p) == ShownLines(side, lines)
  {
    if lines != [] {
      FilterIsShown(side, lines[1..], p);
    }
  }

  /** Some selected line is shown on that side. */
  predicate AnyShown(side: Side, sel: seq<DiffLine>) {
    exists i :: 0 <= i < |sel| && Shown(side, sel[i].kind)
  }

  lemma {:induction false} ShownMembers(side: Side, lines: seq<DiffLine>)
    ensures forall l :: l in ShownLines(side, lines) ==> l in lines && Shown(side, l.kind)
    ensures AnyShown(side, lines) <==> ShownLines(side, lines) != []
  {
    if lines != [] {
      ShownMembers(side, lines[1..]);
      if i :| 0 <= i < |lines| && Shown(side, lines[i].kind) && i > 0 {
        assert lines[1..][i - 1] == lines[i];
      }
    }
  }

  /** The column of a selection that lies inside a hunk. */
  lemma HunkColumn(side: Side, sel: seq<DiffLine>, column: seq<DiffLine>)
    requires column == ShownLines(side, sel) && column != []
    requires Chained(side, column)
    requires forall i :: 0 <= i < |sel| ==> InHunk(sel[i])
    ensures Covers(side, Spanning(side, column), column)
  {
    ShownMembers(side, sel);
    forall k | 0 <= k < |column| ensures NumberedOn(side, column[k]) {
      assert column[k] in column;
      assert InHunk(column[k]);
    }
    SpanningIsGapless(side, column);
  }

  /** The side a comment goes to: the new file's if the selection shows any line of it. */
  function ChosenSide(newLines: seq<DiffLine>): Side {
    if newLines != [] then New else Old
  }

  lemma UnifiedPicks(sel: seq<DiffLine>, side: Side)
    requires sel != [] && forall i :: 0 <= i < |sel| ==> InHunk(sel[i])
    requires side == ChosenSide(ShownLines(New, sel))
    ensures ShownLines(side, sel) != []
    ensures RangeOfLines(sel) == Spanning(side, ShownLines(side, sel))
  {
    forall i | 0 <= i < |sel|
      ensures HasNewNumber(sel[i]) <==> Shown(New, sel[i].kind)
      ensures !Shown(New, sel[i].kind) ==> IsNumberedDeletion(sel[i]) && Shown(Old, sel[i].kind)
    {
      assert InHunk(sel[i]);
    }
    ShownMembers(New, sel);
    ShownMembers(Old, sel);
    if side.New? {
      FilterIsShown(New, sel, HasNewNumber);
    } else {
      assert Shown(Old, sel[0].kind);
      FilterIsShown(Old, sel, IsNumberedDeletion);
    }
  }

  /** The selected lines give a gapless range of the side they choose. */
  lemma SelectedLinesGapless(sel: seq<DiffLine>, side: Side, column: seq<DiffLine>)
    requires sel != [] && forall i :: 0 <= i < |sel| ==> InHunk(sel[i])
    requires side == ChosenSide(ShownLines(New, sel)) && column == ShownLines(side, sel)
    requires Chained(side, column)
    ensures Covers(side, RangeOfLines(sel), column)
  {
    UnifiedPicks(sel, side);
    HunkColumn(side, sel, column);
  }

  /**
   * Unified view. For any selection of two or more hunk-body lines of a view, the
   * comment range is gapless: on the new side, with all selected lines that are in
   * the new file, if there is one, else on the old side with all selected lines.
   */
  lemma UnifiedRangeIsGapless(lines: seq<DiffLine>, lo: nat, hi: nat)
    requires lo < hi < |lines|
    requires Chained(Old, ShownLines(Old, lines)) && Chained(New, ShownLines(New, lines))
    requires forall i :: lo <= i <= hi ==> InHunk(lines[i])
    ensures var sel := lines[lo..hi + 1];
            var side := ChosenSide(ShownLines(New, sel));
            Covers(side, UnifiedRange(lines, lo, hi), ShownLines(side, sel))
  {
    var sel := lines[lo..hi + 1];
    var side := ChosenSide(ShownLines(New, sel));
    ShownSlice(side, lines, lo, hi + 1);
    SelectedLinesGapless(sel, side, ShownLines(side, sel));
  }

  // ---- Side by side --------------------------------------------------------------------

  /** A row of a hunk body: context, or a pairing of changes, all numbered. */
  predicate RowInHunk(r: Row) {
    r.kind.Normal? && (r.left.Some? ==> InHunk(r.left.value)) && (r.right.Some? ==> InHunk(r.right.value))
  }

  lemma {:induction false} CellMembers(side: Side, rows: seq<Row>)
    ensures forall l :: l in Cells(side, rows) ==> exists i :: 0 <= i < |rows| && Cell(side, rows[i]) == Some(l)
    ensures (exists i :: 0 <= i < |rows| && Cell(side, rows[i]).Some?) <==> Cells(side, rows) != []
  {
    if rows != [] {
      CellMembers(side, rows[1..]);
      forall l | l in Cells(side, rows)
        ensures exists i :: 0 <= i < |rows| && Cell(side, rows[i]) == Some(l)
      {
        if Cell(side, rows[0]) != Some(l) {
          assert l in Cells(side, rows[1..]);
          var i :| 0 <= i < |rows[1..]| && Cell(side, rows[1..][i]) == Some(l);
          assert Cell(side, rows[i + 1]) == Some(l);
        }
      }
      if i :| 0 <= i < |rows| && Cell(side, rows[i]).Some? && i > 0 {
        assert rows[1..][i - 1] == rows[i];
      }
      if Cells(side, rows[1..]) != [] {
        var i :| 0 <= i < |rows[1..]| && Cell(side, rows[1..][i]).Some?;
        assert Cell(side, rows[i + 1]).Some?;
      }
    }
  }

  lemma CellsSlice(side: Side, rows: seq<Row>, lo: nat, hi: nat)
    requires lo <= hi <= |rows|
    requires Chained(side, Cells(side, rows))
    ensures Chained(side, Cells(side, rows[lo..hi]))
  {
    var a, b, c := rows[..lo], rows[lo..hi], rows[hi..];
    assert rows == a + (b + c);
    CellsConcat(side, a, b + c);
    CellsConcat(side, b, c);
    ChainedMiddle(side, Cells(side, a), Cells(side, b), Cells(side, c));
  }

  /** A row that shows what its kind calls for, inside a hunk. */
  predicate GoodRow(r: Row) {
    RowInHunk(r) && WellFormedRow(r)
  }

  predicate GoodRows(rows: seq<Row>) {
    forall i :: 0 <= i < |rows| ==> GoodRow(rows[i])
  }

  lemma RowsColumn(side: Side, sel: seq<Row>)
    requires Chained(side, Cells(side, sel)) && Cells(side, sel) != []
    requires GoodRows(sel)
    ensures Covers(side, Spanning(side, Cells(side, sel)), Cells(side, sel))
  {
    var column := Cells(side, sel);
    CellMembers(side, sel);
    forall k | 0 <= k < |column| ensures NumberedOn(side, column[k]) {
      assert column[k] in column;
      var j :| 0 <= j < |sel| && Cell(side, sel[j]) == Some(column[k]);
      assert GoodRow(sel[j]);
    }
    SpanningIsGapless(side, column);
  }

  lemma SplitPicks(sel: seq<Row>, side: Side)
    requires sel != [] && GoodRows(sel)
    requires side == ChosenSide(Cells(New, sel))
    ensures Cells(side, sel) != []
    ensures RangeOfRows(sel) == Spanning(side, Cells(side, sel))
  {
    forall i | 0 <= i < |sel|
      ensures RightIsNumbered(sel[i]) <==> Cell(New, sel[i]).Some?
      ensures Cell(New, sel[i]).Some? || Cell(Old, sel[i]).Some?
    {
      assert GoodRow(sel[i]);
    }
    CellMembers(New, sel);
    CellMembers(Old, sel);
    assert side.Old? ==> Cell(Old, sel[0]).Some?;
  }

  /** The selected rows give a gapless range of the side they choose. */
  lemma SelectedRowsGapless(sel: seq<Row>, side: Side, column: seq<DiffLine>)
    requires sel != [] && GoodRows(sel)
    requires side == ChosenSide(Cells(New, sel)) && column == Cells(side, sel)
    requires Chained(side, column)
    ensures Covers(side, RangeOfRows(sel), column)
  {
    SplitPicks(sel, side);
    RowsColumn(side, sel);
  }

  /**
   * Side-by-side view. For any selection of two or more hunk-body rows, the comment
   * range is gapless: on the new side, with every selected right cell, if there is
   * one, else on the old side with every selected left cell.
   */
  lemma SplitRangeIsGapless(rows: seq<Row>, lo: nat, hi: nat)
    requires lo < hi < |rows|
    requires Chained(Old, Cells(Old, rows)) && Chained(New, Cells(New, rows))
    requires forall i :: lo <= i <= hi ==> GoodRow(rows[i])
    ensures var sel := rows[lo..hi + 1];
            var side := ChosenSide(Cells(New, sel));
            Covers(side, SplitRange(rows, lo, hi), Cells(side, sel))
  {
    var sel := rows[lo..hi + 1];
    var side := ChosenSide(Cells(New, sel));
    forall i | 0 <= i < |sel| ensures GoodRow(sel[i]) {
      assert GoodRow(rows[lo + i]);
    }
    CellsSlice(side, rows, lo, hi + 1);
    SelectedRowsGapless(sel, side, Cells(side, sel));
  }
}
