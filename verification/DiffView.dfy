/** The diff view: the state behind the file tree, the line list and the review comment range. */
module DiffViews {
  import opened Prelude
  import opened Text
  import opened DiffLines
  import opened DiffParser
  import opened DiffParserProofs
  import opened SideBySide
  import opened CommentRanges
  import opened DiffTree
  import opened DiffTreeToggle
  import opened DiffTreeBuild
  import opened DiffDirCounts
  import opened DiffRebuild
  import opened DiffRowLines
  import opened DiffStaleCounts
  import opened DiffCollapse

  // ---- Selections inside a hunk ----------------------------------------------------------

  /** A context, added or deleted line that shows a line number. */
  predicate ShowsNumber(l: DiffLine) {
    IsBody(l) && (l.oldNum.Some? || l.newNum.Some?)
  }

  predicate RowShowsNumbers(r: Row) {
    r.kind.Normal? && (r.left.Some? ==> ShowsNumber(r.left.value)) && (r.right.Some? ==> ShowsNumber(r.right.value))
  }

  /** The two counters start and stop together, and stay in range. */
  lemma {:induction false} CountersAgree(lines: seq<DiffLine>, i: nat)
    requires i <= |lines|
    ensures Counter(Old, lines, i).Some? <==> Counter(New, lines, i).Some?
    ensures Counter(Old, lines, i).Some? ==> Counter(Old, lines, i).value < U32
    ensures Counter(New, lines, i).Some? ==> Counter(New, lines, i).value < U32
  {
    if i > 0 {
      CountersAgree(lines, i - 1);
      AdvanceAgrees(Counter(Old, lines, i - 1), Counter(New, lines, i - 1), lines[i - 1]);
    }
  }

  lemma AdvanceAgrees(o: Option<nat>, n: Option<nat>, l: DiffLine)
    requires o.Some? <==> n.Some?
    requires (o.Some? ==> o.value < U32) && (n.Some? ==> n.value < U32)
    ensures Advance(Old, o, l).Some? <==> Advance(New, n, l).Some?
    ensures Advance(Old, o, l).Some? ==> Advance(Old, o, l).value < U32
    ensures Advance(New, n, l).Some? ==> Advance(New, n, l).value < U32
  {
    HeaderStartBound(Old, l.content);
    HeaderStartBound(New, l.content);
  }

  lemma HeaderStartBound(side: Side, header: string)
    ensures HeaderStart(side, header).Some? ==> HeaderStart(side, header).value < U32
    ensures HeaderStart(Old, header).Some? <==> HeaderStart(New, header).Some?
  {
  }

  lemma ParsedLineInHunk(lines: seq<DiffLine>, i: nat)
    requires WellNumbered(lines) && i < |lines| && ShowsNumber(lines[i])
    ensures InHunk(lines[i])
  {
    CountersAgree(lines, i);
    assert NumberedAt(lines, i);
  }

  function Low(s: nat, e: nat): nat { if s < e then s else e }

  function High(s: nat, e: nat): nat { if s < e then e else s }

  /** Both columns number neighbouring body lines consecutively, within a u32. */
  ghost predicate SoundView(lines: seq<DiffLine>) {
    && Chained(Old, ShownLines(Old, lines))
    && Chained(New, ShownLines(New, lines))
    && forall l :: l in lines && ShowsNumber(l) ==> InHunk(l)
  }

  /** Whatever files of whatever diff text are shown, the view is sound. */
  lemma ParsedViewIsSound(raw: string, keep: string -> bool)
    ensures SoundView(KeepFiles(ParseText(raw).lines, keep))
  {
    var all := ParseText(raw).lines;
    RunNumbers(Lines(StripAnsi(raw, false)));
    FileListIsFaithful(raw);
    ViewChained(Old, all, keep, |all|);
    ViewChained(New, all, keep, |all|);
    ViewLinesInHunk(all, keep);
  }

  /**
   * Main result on comment ranges, unified view. For any sound view and any
   * selection of two or more lines that all show line numbers: the comment range is
   * gapless, on the new side with every selected line of the new file if there is
   * one, else on the old side with every selected line.
   */
  lemma UnifiedSelectionIsGapless(lines: seq<DiffLine>, rows: seq<Row>, s: nat, e: nat, cursor: nat)
    requires SoundView(lines)
    requires s != e && High(s, e) < |lines|
    requires forall i :: Low(s, e) <= i <= High(s, e) ==> ShowsNumber(lines[i])
    ensures var sel := lines[Low(s, e)..High(s, e) + 1];
            var side := ChosenSide(ShownLines(New, sel));
            Covers(side, RangeOf(lines, rows, false, Some((s, e)), cursor), ShownLines(side, sel))
  {
    var lo, hi := Low(s, e), High(s, e);
    forall i | lo <= i <= hi ensures InHunk(lines[i]) {
      assert lines[i] in lines;
    }
    UnifiedRangeIsGapless(lines, lo, hi);
    assert RangeOf(lines, rows, false, Some((s, e)), cursor) == UnifiedRange(lines, lo, hi);
  }

  /** The same for the side-by-side view, cell by cell. */
  lemma SplitSelectionIsGapless(lines: seq<DiffLine>, s: nat, e: nat, cursor: nat)
    requires SoundView(lines)
    requires s != e && High(s, e) < |Build(lines)|
    requires forall i :: Low(s, e) <= i <= High(s, e) ==> RowShowsNumbers(Build(lines)[i])
    ensures var sel := Build(lines)[Low(s, e)..High(s, e) + 1];
            var side := ChosenSide(Cells(New, sel));
            Covers(side, RangeOf(lines, Build(lines), true, Some((s, e)), cursor), Cells(side, sel))
  {
    RowsInHunk(lines, Low(s, e), High(s, e));
    ColumnsAreFaithful(Old, lines);
    ColumnsAreFaithful(New, lines);
    SplitSelection(lines, Build(lines), s, e, cursor);
  }

  lemma SplitSelection(lines: seq<DiffLine>, rows: seq<Row>, s: nat, e: nat, cursor: nat)
    requires s != e && High(s, e) < |rows|
    requires Chained(Old, Cells(Old, rows)) && Chained(New, Cells(New, rows))
    requires forall i :: Low(s, e) <= i <= High(s, e) ==> GoodRow(rows[i])
    ensures var sel := rows[Low(s, e)..High(s, e) + 1];
            var side := ChosenSide(Cells(New, sel));
            Covers(side, RangeOf(lines, rows, true, Some((s, e)), cursor), Cells(side, sel))
  {
    SplitRangeIsGapless(rows, Low(s, e), High(s, e));
    assert RangeOf(lines, rows, true, Some((s, e)), cursor) == SplitRange(rows, Low(s, e), High(s, e));
  }

  lemma ViewLinesInHunk(all: seq<DiffLine>, keep: string -> bool)
    requires WellNumbered(all)
    ensures forall l :: l in KeepFiles(all, keep) && ShowsNumber(l) ==> InHunk(l)
  {
    KeepMembers(all, keep, |all|);
    forall l | l in KeepFiles(all, keep) && ShowsNumber(l) ensures InHunk(l) {
      var i :| 0 <= i < |all| && all[i] == l;
      ParsedLineInHunk(all, i);
    }
  }

  lemma RowsInHunk(lines: seq<DiffLine>, lo: nat, hi: nat)
    requires forall l :: l in lines && ShowsNumber(l) ==> InHunk(l)
    requires lo < hi < |Build(lines)|
    requires forall i :: lo <= i <= hi ==> RowShowsNumbers(Build(lines)[i])
    ensures forall i :: lo <= i <= hi ==> GoodRow(Build(lines)[i])
  {
    var rows := Build(lines);
    RowsAreTight(lines);
    ColumnsAreFaithful(Old, lines);
    ColumnsAreFaithful(New, lines);
    ShownMembers(Old, lines);
    ShownMembers(New, lines);
    forall i | lo <= i <= hi ensures GoodRow(rows[i]) {
      assert RowShowsNumbers(rows[i]) && WellFormedRow(rows[i]);
      if rows[i].left.Some? {
        CellAmong(Old, rows, i);
      }
      if rows[i].right.Some? {
        CellAmong(New, rows, i);
      }
    }
  }

  lemma {:induction false} CellAmong(side: Side, rows: seq<Row>, i: nat)
    requires i < |rows| && Cell(side, rows[i]).Some?
    ensures Cell(side, rows[i]).value in Cells(side, rows)
  {
    if i > 0 {
      CellAmong(side, rows[1..], i - 1);
    }
  }

  // ---- A new view lists every file ------------------------------------------------------

  lemma {:induction false} FileRowsUnchanged(out: seq<FlatRow>, flat: seq<FlatRow>)
    requires |out| == |flat|
    requires forall i :: 0 <= i < |flat| ==> SameButDirCounts(out[i], flat[i])
    ensures FileRows(out) == FileRows(flat)
  {
    if out != [] {
      assert SameButDirCounts(out[0], flat[0]);
      FileRowsUnchanged(out[1..], flat[1..]);
    }
  }

  /**
   * For any text: the file rows a new view shows are a permutation of the rows of the
   * files found in it, and its tree has distinct sibling directories.
   */
  lemma NewViewListsEveryFile(raw: string)
    ensures var st := ParseText(raw);
            var root := BuildTree(st.files, st.counts);
            && WellFormed(root)
            && FileRows(ApplyCounts(root, "", Flatten(root, 0, ""))) == multiset(RowsFor(st.files, st.counts))
  {
    var st := ParseText(raw);
    var root := BuildTree(st.files, st.counts);
    var flat := Flatten(root, 0, "");
    FileListIsFaithful(raw);
    BuildTreeFresh(st.files, st.counts);
    FileRowsArePermutation(st.files, st.counts);
    forall i | 0 <= i < |flat| ensures SameButDirCounts(ApplyCounts(root, "", flat)[i], flat[i]) {
      DirectoryRowsSumTheirFiles(root, i);
    }
    FileRowsUnchanged(ApplyCounts(root, "", flat), flat);
  }

  // ---- The view object --------------------------------------------------------------------

  /** `hunks` lists, in order, exactly the entries that are hunk headers. */
  ghost predicate ListsHunks(hunks: seq<nat>, kinds: seq<LineKind>) {
    && (forall k :: 0 <= k < |hunks| ==> hunks[k] < |kinds|)
    && (forall k, m :: 0 <= k < m < |hunks| ==> hunks[k] < hunks[m])
    && (forall i :: 0 <= i < |kinds| ==> (i in hunks <==> kinds[i].HunkHeader?))
  }

  function LineKinds(lines: seq<DiffLine>): (kinds: seq<LineKind>)
    ensures |kinds| == |lines|
  {
    seq(|lines|, i requires 0 <= i < |lines| => lines[i].kind)
  }

  function RowKinds(rows: seq<Row>): (kinds: seq<LineKind>)
    ensures |kinds| == |rows|
  {
    seq(|rows|, i requires 0 <= i < |rows| => rows[i].kind)
  }

  method CollectHunks(kinds: seq<LineKind>) returns (hunks: seq<nat>)
    ensures ListsHunks(hunks, kinds)
  {
    hunks := [];
    for i := 0 to |kinds|
      invariant forall k :: 0 <= k < |hunks| ==> hunks[k] < i
      invariant forall k, m :: 0 <= k < m < |hunks| ==> hunks[k] < hunks[m]
      invariant forall j :: 0 <= j < i ==> (j in hunks <==> kinds[j].HunkHeader?)
    {
      if kinds[i].HunkHeader? {
        hunks := hunks + [i];
      }
    }
  }

  /** Parsing, tree, totals and flattened list of a new view. */
  method Prepare(raw: string) returns (lines: seq<DiffLine>, root: Node, visible: seq<FlatRow>)
    ensures lines == ParseText(raw).lines
    ensures root == BuildTree(ParseText(raw).files, ParseText(raw).counts)
    ensures TreeOf(ParseText(raw), root)
    ensures visible == ApplyCounts(root, "", Flatten(root, 0, ""))
  {
    var st := Parse(raw);
    lines := st.lines;
    root := BuildTreeLoop(st.files, st.counts);
    NewTree(raw);
    visible := CopyDirCountsToFlat(root, Flatten(root, 0, ""));
  }

  /** The cursor after the list shrank to `length` entries. */
  function Clamp(cursor: nat, length: nat): (c: nat)
    ensures cursor < length ==> c == cursor
    ensures cursor >= length ==> c == if length > 0 then length - 1 else 0
  {
    if cursor >= length then (if length > 0 then length - 1 else 0) else cursor
  }

  /** Wherever the selected row is still listed, the selection is there unless its key leads elsewhere. */
  ghost predicate FollowsIff(visible: seq<FlatRow>, selected: nat, was: FlatRow) {
    forall t :: 0 <= t < |visible| && SameRow(visible[t], was) ==> (selected == t <==> NoneCarries(visible, was, t))
  }

  /** The list flattened anew and where the selection lands in it. */
  method Rebuilt(ghost raw: string, root: Node, before: seq<FlatRow>, selected: nat)
    returns (visible: seq<FlatRow>, pos: Option<nat>)
    requires TreeOf(ParseText(raw), root)
    ensures visible == Flatten(root, 0, "")
    ensures pos == Reselected(visible, SelectedRow(before, selected))
    ensures pos.Some? ==> pos.value < |visible|
    ensures selected < |before| ==> FollowsIff(visible, pos.GetOr(0), before[selected])
  {
    visible := Flatten(root, 0, "");
    pos := Reselected(visible, SelectedRow(before, selected));
    TreeRowsAreProper(raw, root);
    if selected < |before| {
      forall t | 0 <= t < |visible| && SameRow(visible[t], before[selected])
        ensures pos.GetOr(0) == t <==> NoneCarries(visible, before[selected], t)
      {
        ReselectedIff(visible, before[selected], t);
      }
    }
  }

  function EntryKinds(lines: seq<DiffLine>, rows: seq<Row>, sideBySide: bool): seq<LineKind> {
    if sideBySide then RowKinds(rows) else LineKinds(lines)
  }

  /** What `update_active_lines` computes. */
  method ActiveLines(allLines: seq<DiffLine>, visible: seq<FlatRow>, selected: nat, sideBySide: bool, cursor: nat)
    returns (lines: seq<DiffLine>, rows: seq<Row>, newCursor: nat, hunks: seq<nat>)
    requires visible == [] || selected < |visible|
    ensures lines == KeepFiles(allLines, FileFilter(visible, selected))
    ensures rows == Build(lines)
    ensures newCursor == Clamp(cursor, |EntryKinds(lines, rows, sideBySide)|)
    ensures ListsHunks(hunks, EntryKinds(lines, rows, sideBySide))
  {
    if visible == [] || RelPath(visible[selected]) == "" {
      lines := allLines;
      KeepAll(allLines, FileFilter(visible, selected), |allLines|);
    } else {
      lines := KeepFiles(allLines, FileFilter(visible, selected));
    }
    rows := BuildSideBySideLines(lines);
    var activeLength := if sideBySide then |rows| else |lines|;
    newCursor := Clamp(cursor, activeLength);
    hunks := CollectHunks(EntryKinds(lines, rows, sideBySide));
  }

  class DiffView {
    const raw: string
    var allLines: seq<DiffLine>
    var lines: seq<DiffLine>
    var rows: seq<Row>
    var root: Node
    var visible: seq<FlatRow>
    var selected: nat
    var cursor: nat
    var hunks: seq<nat>
    var scrollOffset: nat
    var fileTreeScrollOffset: nat
    var sideBySide: bool
    var selectionStart: Option<nat>
    var selectionEnd: Option<nat>

    /** The parsed part of the state, which no operation on the view disturbs. */
    ghost predicate Parsed()
      reads this
    {
      && allLines == ParseText(raw).lines
      && TreeOf(ParseText(raw), root)
      && (visible == [] || selected < |visible|)
    }

    function Kinds(): seq<LineKind>
      reads this
    {
      EntryKinds(lines, rows, sideBySide)
    }

    /** The derived part agrees with the selected row and the view mode. */
    ghost predicate Derived()
      reads this
      requires visible == [] || selected < |visible|
    {
      && lines == KeepFiles(allLines, FileFilter(visible, selected))
      && rows == Build(lines)
      && cursor == Clamp(cursor, |Kinds()|)
      && ListsHunks(hunks, Kinds())
    }

    ghost predicate Valid()
      reads this
    {
      Parsed() && Derived()
    }

    /** `DiffView::new`. */
    constructor (raw: string)
      ensures Valid()
      ensures this.raw == raw && root == BuildTree(ParseText(raw).files, ParseText(raw).counts)
      ensures visible == ApplyCounts(root, "", Flatten(root, 0, ""))
      ensures selected == 0 && cursor == 0 && !sideBySide
      ensures selectionStart == None && selectionEnd == None
    {
      var parsed, tree, flat := Prepare(raw);
      this.raw := raw;
      allLines, root, visible, selected := parsed, tree, flat, 0;
      var shown, paired, at, headers := ActiveLines(parsed, flat, 0, false, 0);
      lines, rows, cursor, hunks := shown, paired, at, headers;
      scrollOffset, fileTreeScrollOffset := 0, 0;
      sideBySide, selectionStart, selectionEnd := false, None, None;
    }

    /** `update_active_lines`: lines, rows, cursor and hunks follow the selected row. */
    method UpdateActiveLines()
      requires visible == [] || selected < |visible|
      modifies this`lines, this`rows, this`cursor, this`hunks
      ensures Derived()
      ensures cursor == Clamp(old(cursor), |Kinds()|)
    {
      lines, rows, cursor, hunks := ActiveLines(allLines, visible, selected, sideBySide, cursor);
    }

    /** The selection and both scroll positions stay, or all go to the top. */
    predicate StaysOrResets(pos: Option<nat>, scroll: nat, treeScroll: nat)
      reads this
    {
      match pos
      case Some(at) => selected == at && scrollOffset == scroll && fileTreeScrollOffset == treeScroll
      case None => selected == 0 && cursor == 0 && scrollOffset == 0 && fileTreeScrollOffset == 0
    }

    /**
     * `rebuild_visible_nodes`: the list is flattened anew from the tree, without directory
     * counts. A selected row that is still listed stays selected if and only if
     * no row before it carries its key in the other role; a key found nowhere resets
     * the selection and both scroll positions.
     */
    method RebuildVisibleNodes()
      requires Parsed()
      modifies this`visible, this`selected, this`lines, this`rows, this`cursor, this`hunks,
               this`scrollOffset, this`fileTreeScrollOffset
      ensures Valid()
      ensures visible == Flatten(root, 0, "") && forall r :: r in visible ==> Uncounted(r)
      ensures old(selected < |visible|) ==> FollowsIff(visible, selected, old(visible[selected]))
      ensures StaysOrResets(Reselected(visible, SelectedRow(old(visible), old(selected))),
                            old(scrollOffset), old(fileTreeScrollOffset))
    {
      var rebuilt, pos := Rebuilt(raw, root, visible, selected);
      FlattenUncounted(root, 0, "");
      Show(rebuilt, pos);
    }

    /** `collapse_all`. */
    method CollapseAll()
      requires Parsed()
      modifies this`root, this`visible, this`selected, this`lines, this`rows, this`cursor, this`hunks,
               this`scrollOffset, this`fileTreeScrollOffset
      ensures Valid()
      ensures root == Collapse(old(root)) && visible == Flatten(root, 0, "")
      ensures old(selected < |visible|) ==> FollowsIff(visible, selected, old(visible[selected]))
    {
      CollapseKeepsTree(ParseText(raw), root);
      root := Collapse(root);
      RebuildVisibleNodes();
    }

    /** `expand_all`: every file of the diff is listed exactly once. */
    method ExpandAll()
      requires Parsed()
      modifies this`root, this`visible, this`selected, this`lines, this`rows, this`cursor, this`hunks,
               this`scrollOffset, this`fileTreeScrollOffset
      ensures Valid()
      ensures root == Expand(old(root)) && visible == Flatten(root, 0, "")
      ensures FileRows(visible) == multiset(RowsFor(ParseText(raw).files, ParseText(raw).counts))
      ensures old(selected < |visible|) ==> FollowsIff(visible, selected, old(visible[selected]))
    {
      ExpandShowsEveryFile(ParseText(raw), root);
      root := Expand(root);
      RebuildVisibleNodes();
    }

    /** A new list of rows, with the selection at `pos` or else everything at the top. */
    method Show(rebuilt: seq<FlatRow>, pos: Option<nat>)
      requires Parsed() && (pos.Some? ==> pos.value < |rebuilt|)
      modifies this`visible, this`selected, this`lines, this`rows, this`cursor, this`hunks,
               this`scrollOffset, this`fileTreeScrollOffset
      ensures Valid() && visible == rebuilt && selected == pos.GetOr(0)
      ensures StaysOrResets(pos, old(scrollOffset), old(fileTreeScrollOffset))
    {
      visible := rebuilt;
      match pos {
        case Some(at) => selected := at;
        case None => selected, fileTreeScrollOffset, cursor, scrollOffset := 0, 0, 0, 0;
      }
      UpdateActiveLines();
    }

    /** `get_comment_range`. */
    function GetCommentRange(): Option<CommentRange>
      reads this
    {
      RangeOf(lines, rows, sideBySide,
              if selectionStart.Some? && selectionEnd.Some?
              then Some((selectionStart.value, selectionEnd.value)) else None,
              cursor)
    }
  }

  /** A selection of two or more entries that all show line numbers. */
  predicate NumberedSelection(v: DiffView)
    reads v
  {
    && v.selectionStart.Some? && v.selectionEnd.Some? && v.selectionStart != v.selectionEnd
    && var s, e := v.selectionStart.value, v.selectionEnd.value;
    if v.sideBySide
    then High(s, e) < |v.rows| && forall i :: Low(s, e) <= i <= High(s, e) ==> RowShowsNumbers(v.rows[i])
    else High(s, e) < |v.lines| && forall i :: Low(s, e) <= i <= High(s, e) ==> ShowsNumber(v.lines[i])
  }

  /** In any valid view, in either mode, such a selection has a gapless comment range. */
  lemma ViewCommentRangeIsGapless(v: DiffView)
    requires v.Valid() && NumberedSelection(v)
    ensures v.GetCommentRange().Some?
    ensures Gapless(New, v.GetCommentRange().value) || Gapless(Old, v.GetCommentRange().value)
  {
    ParsedViewIsSound(v.raw, FileFilter(v.visible, v.selected));
    if v.sideBySide {
      SplitSelectionIsGapless(v.lines, v.selectionStart.value, v.selectionEnd.value, v.cursor);
    } else {
      UnifiedSelectionIsGapless(v.lines, v.rows, v.selectionStart.value, v.selectionEnd.value, v.cursor);
    }
  }

  // ---- The line under the cursor -------------------------------------------------------------

  /** No selection, or one of a single entry. */
  predicate NoSelection(v: DiffView)
    reads v
  {
    v.selectionStart.None? || v.selectionEnd.None? || v.selectionStart == v.selectionEnd
  }

  /** The range is of one line: its file, its new number, or for a deletion its old one, and no end. */
  predicate OnLine(r: CommentRange, l: DiffLine) {
    && r.lines == [l] && r.file == l.file
    && r.endLineNum == None && r.endOldLineNum == None
    && r.lineNum == (if l.kind.Deletion? then None else l.newNum)
    && r.oldLineNum == (if l.kind.Deletion? then l.oldNum else None)
  }

  /** The entry is a line, or a row, that shows line numbers. */
  predicate NumberedEntry(v: DiffView, i: nat)
    reads v
  {
    if v.sideBySide then i < |v.rows| && RowShowsNumbers(v.rows[i]) else i < |v.lines| && ShowsNumber(v.lines[i])
  }

  /**
   * In any valid view without a selection the comment range is there unless the view is empty, and
   * is that of the line under the cursor; in the paired view that is the right cell when
   * it has a number or stands alone, else the left one. A numbered entry gives a number.
   */
  lemma CursorRangeIsItsLine(v: DiffView)
    requires v.Valid() && NoSelection(v)
    ensures v.GetCommentRange().Some? <==> v.Kinds() != []
    ensures v.Kinds() != [] && !v.sideBySide ==>
              v.cursor < |v.lines| && OnLine(v.GetCommentRange().value, v.lines[v.cursor])
    ensures v.Kinds() != [] && v.sideBySide ==>
              && v.cursor < |v.rows|
              && var row := v.rows[v.cursor];
              if row.right.Some? && (row.right.value.newNum.Some? || row.left.None?)
              then OnLine(v.GetCommentRange().value, row.right.value)
              else row.left.Some? && OnLine(v.GetCommentRange().value, row.left.value)
    ensures NumberedEntry(v, v.cursor) ==>
              var r := v.GetCommentRange().value; r.lineNum.Some? <==> r.oldLineNum.None?
  {
    ParsedViewIsSound(v.raw, FileFilter(v.visible, v.selected));
    RowsAreTight(v.lines);
    if v.sideBySide && v.rows != [] {
      assert WellFormedRow(v.rows[v.cursor]);
      if NumberedEntry(v, v.cursor) {
        CursorRowInHunk(v);
      }
    } else if !v.sideBySide && v.lines != [] {
      assert v.lines[v.cursor] in v.lines;
    }
  }

  lemma CursorRowInHunk(v: DiffView)
    requires v.Valid() && v.sideBySide && NumberedEntry(v, v.cursor)
    ensures var row := v.rows[v.cursor];
            (row.left.Some? ==> InHunk(row.left.value)) && (row.right.Some? ==> InHunk(row.right.value))
  {
    var row := v.rows[v.cursor];
    ParsedViewIsSound(v.raw, FileFilter(v.visible, v.selected));
    ColumnsAreFaithful(Old, v.lines);
    ColumnsAreFaithful(New, v.lines);
    ShownMembers(Old, v.lines);
    ShownMembers(New, v.lines);
    RowsAreTight(v.lines);
    if row.left.Some? {
      CellAmong(Old, v.rows, v.cursor);
    }
    if row.right.Some? {
      CellAmong(New, v.rows, v.cursor);
    }
  }
}
