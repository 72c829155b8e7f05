/** Reading back a hunk: which rendered hunks come out of the parser as they went in. */
module DiffHunks {
  import opened Prelude
  import opened Text
  import opened DiffLines
  import opened DiffParser
  import opened DiffParserProofs
  import opened DiffTotals

  // ---- Rendering a hunk ------------------------------------------------------------------

  datatype Item =
    | Context(text: string)
    | Removed(text: string)
    | Added(text: string)
    | NoNewline

  /** A start line and the number of lines, which may be left out. */
  datatype Span = Span(start: nat, count: Option<nat>)

  const NO_NEWLINE := "\\ No newline at end of file"

  function Rendered(item: Item): string {
    match item
    case Context(text) => " " + text
    case Removed(text) => "-" + text
    case Added(text) => "+" + text
    case NoNewline => NO_NEWLINE
  }

  function RenderedAll(items: seq<Item>): (lines: seq<string>)
    ensures |lines| == |items|
    ensures forall i :: 0 <= i < |items| ==> lines[i] == Rendered(items[i])
  {
    seq(|items|, i requires 0 <= i < |items| => Rendered(items[i]))
  }

  function RenderedSpan(s: Span): string {
    match s.count
    case None => Decimal(s.start)
    case Some(c) => Decimal(s.start) + ("," + Decimal(c))
  }

  /** "@@ -<old> +<new> @@" and the section heading behind it. */
  function RenderedHeader(was: Span, now: Span, heading: string): string {
    "@@" + " " + (("-" + RenderedSpan(was)) + " " + (("+" + RenderedSpan(now)) + " " + ("@@" + heading)))
  }

  // ---- The header reads back ------------------------------------------------------------------

  lemma SpanIsWord(s: Span, marker: char)
    requires !IsWhitespace(marker)
    ensures IsWord([marker] + RenderedSpan(s))
  {
    forall c | c in RenderedSpan(s) ensures !IsWhitespace(c) {
    }
  }

  /** The number in front of the comma. */
  lemma SpanStart(s: Span)
    requires s.start < U32
    ensures ParseUnsigned(Split(RenderedSpan(s), {','})[0], U32 - 1) == Some(s.start)
  {
    var t, d := RenderedSpan(s), Decimal(s.start);
    forall j | 0 <= j < |d| ensures t[j] !in {','} {
      assert d[j] in d && t[j] == d[j];
    }
    FindUnique(t, {','}, |d|);
    assert t[..|d|] == d;
    ParseDecimal(s.start, U32 - 1);
  }

  /** For any spans and heading the parser reads the two start numbers. */
  lemma HeaderReadsBack(was: Span, now: Span, heading: string)
    requires was.start < U32 && now.start < U32
    ensures ParseHunkHeader(RenderedHeader(was, now, heading)) == Some((was.start, now.start))
    ensures KindOf(RenderedHeader(was, now, heading)).HunkHeader?
  {
    var o, n := "-" + RenderedSpan(was), "+" + RenderedSpan(now);
    var header := RenderedHeader(was, now, heading);
    SpanIsWord(was, '-');
    SpanIsWord(now, '+');
    NextWord(n, "@@" + heading);
    NextWord(o, n + " " + ("@@" + heading));
    NextWord("@@", o + " " + (n + " " + ("@@" + heading)));
    assert SplitWhitespace(header) == ["@@"] + ([o] + ([n] + SplitWhitespace("@@" + heading)));
    HeaderWords(header, was, now);
    StartsHunk(header, o + " " + (n + " " + ("@@" + heading)));
  }

  lemma HeaderWords(header: string, was: Span, now: Span)
    requires was.start < U32 && now.start < U32
    requires |SplitWhitespace(header)| >= 3
    requires SplitWhitespace(header)[1] == "-" + RenderedSpan(was)
    requires SplitWhitespace(header)[2] == "+" + RenderedSpan(now)
    ensures ParseHunkHeader(header) == Some((was.start, now.start))
  {
    var parts := SplitWhitespace(header);
    assert parts[1][1..] == RenderedSpan(was) && parts[2][1..] == RenderedSpan(now);
    SpanStart(was);
    SpanStart(now);
  }

  lemma StartsHunk(header: string, rest: string)
    requires header == "@@" + " " + rest
    ensures KindOf(header).HunkHeader?
  {
    assert header[0] == '@';
    assert "@@ " <= header by {
      assert header == "@@ " + rest;
    }
  }

  // ---- What the lines of a hunk stand for --------------------------------------------------------

  /** The item takes a line of that side's file. */
  predicate TakesLine(side: Side, item: Item) {
    item.Context? || (if side.Old? then item.Removed? else item.Added?)
  }

  /** Lines of that side's file among the first `n` items. */
  function LinesBefore(side: Side, items: seq<Item>, n: nat): (c: nat)
    requires n <= |items|
    ensures c <= n
  {
    if n == 0 then 0 else LinesBefore(side, items, n - 1) + if TakesLine(side, items[n - 1]) then 1 else 0
  }

  function MarkersBefore(items: seq<Item>, n: nat): (c: nat)
    requires n <= |items|
    ensures c == 0 <==> forall i :: 0 <= i < n ==> !items[i].NoNewline?
  {
    if n == 0 then 0 else MarkersBefore(items, n - 1) + if items[n - 1].NoNewline? then 1 else 0
  }

  function ItemKind(item: Item): LineKind {
    match item
    case Context(_) => Normal
    case Removed(_) => Deletion
    case Added(_) => Addition
    case NoNewline => Normal
  }

  /** The true number of an item in a file whose hunk starts at `start`. */
  function TrueNumber(side: Side, start: nat, items: seq<Item>, i: nat): Option<nat>
    requires i < |items|
  {
    if TakesLine(side, items[i]) then Some(start + LinesBefore(side, items, i)) else None
  }

  /** Line `first + i` has the kind of item `i`. */
  predicate ReadAt(lines: seq<DiffLine>, first: nat, items: seq<Item>, i: nat)
    requires i < |items| && first + i < |lines|
  {
    lines[first + i].kind == ItemKind(items[i])
  }

  predicate AllRead(lines: seq<DiffLine>, first: nat, items: seq<Item>) {
    first + |items| <= |lines| && forall i :: 0 <= i < |items| ==> ReadAt(lines, first, items, i)
  }

  /** Line `first + i` has the kind of item `i` and its true numbers. */
  predicate RecoveredAt(lines: seq<DiffLine>, first: nat, was: Span, now: Span, items: seq<Item>, i: nat)
    requires i < |items| && first + i < |lines|
  {
    && ReadAt(lines, first, items, i)
    && lines[first + i].oldNum == TrueNumber(Old, was.start, items, i)
    && lines[first + i].newNum == TrueNumber(New, now.start, items, i)
  }

  /** The text behind the marker makes the line look like a file header. */
  predicate LooksLikeHeader(item: Item) {
    match item
    case Removed(text) => "-- " <= text
    case Added(text) => "++ " <= text
    case _ => false
  }

  /** No marker for a missing newline comes before a line of the file. */
  predicate MarkersLast(items: seq<Item>) {
    forall i, j :: 0 <= i < j < |items| && items[i].NoNewline? ==> items[j].NoNewline?
  }

  lemma ItemIsReadIff(item: Item)
    ensures KindOf(Rendered(item)) == ItemKind(item) <==> !LooksLikeHeader(item)
  {
    match item
    case Context(text) => MarkerIsReadUnlessItLooksLikeAHeader(text);
    case Removed(text) => MarkerIsReadUnlessItLooksLikeAHeader(text);
    case Added(text) => MarkerIsReadUnlessItLooksLikeAHeader(text);
    case NoNewline => assert NO_NEWLINE[0] == '\\';
  }

  lemma {:induction false} CountInHunk(side: Side, lines: seq<DiffLine>, first: nat, items: seq<Item>, i: nat)
    requires i <= |items| && AllRead(lines, first, items)
    ensures CountConsumed(side, lines, first, first + i) == LinesBefore(side, items, i) + MarkersBefore(items, i)
  {
    if i > 0 {
      CountInHunk(side, lines, first, items, i - 1);
      assert ReadAt(lines, first, items, i - 1);
    }
  }

  /** The number an item is given: markers before it are counted as lines of the file. */
  function GivenNumber(side: Side, start: nat, items: seq<Item>, i: nat): Option<nat>
    requires i < |items|
  {
    TrueNumber(side, start + MarkersBefore(items, i), items, i)
  }

  lemma GivenIsTrueIff(was: Span, now: Span, items: seq<Item>, i: nat)
    requires i < |items| && !items[i].NoNewline?
    ensures && GivenNumber(Old, was.start, items, i) == TrueNumber(Old, was.start, items, i)
            && GivenNumber(New, now.start, items, i) == TrueNumber(New, now.start, items, i)
            <==> MarkersBefore(items, i) == 0
  {
  }

  // ---- Main results ------------------------------------------------------------------------------------

  /** With every item read, its number is too high by the number of markers before it. */
  lemma NumberInHunk(side: Side, lines: seq<DiffLine>, h: nat, start: nat, items: seq<Item>, i: nat)
    requires WellNumbered(lines) && AllRead(lines, h + 1, items)
    requires lines[h].kind.HunkHeader? && ResetTo(side, lines[h]) == Some(start)
    requires i < |items| && !items[i].NoNewline?
    requires start + LinesBefore(side, items, i) + MarkersBefore(items, i) < U32
    ensures Num(side, lines[h + 1 + i]) == GivenNumber(side, start, items, i)
  {
    forall k | h < k < h + 1 + i ensures !IsReset(lines[k]) {
      assert ReadAt(lines, h + 1, items, k - h - 1);
    }
    HunkNumber(side, lines, h, h + 1 + i);
    CountInHunk(side, lines, h + 1, items, i);
    assert ReadAt(lines, h + 1, items, i);
  }

  lemma MarkersLastIff(items: seq<Item>)
    ensures MarkersLast(items)
            <==> forall i :: 0 <= i < |items| && !items[i].NoNewline? ==> MarkersBefore(items, i) == 0
  {
    if forall i :: 0 <= i < |items| && !items[i].NoNewline? ==> MarkersBefore(items, i) == 0 {
      forall i, j | 0 <= i < j < |items| && items[i].NoNewline? ensures items[j].NoNewline? {
        assert MarkersBefore(items, j) != 0;
      }
    }
  }

  /** When every item is read as what it is, an item has its true numbers exactly if no marker precedes it. */
  lemma ItemRecoveredIff(lines: seq<DiffLine>, h: nat, was: Span, now: Span, items: seq<Item>, i: nat)
    requires WellNumbered(lines) && AllRead(lines, h + 1, items)
    requires lines[h].kind.HunkHeader?
    requires ResetTo(Old, lines[h]) == Some(was.start) && ResetTo(New, lines[h]) == Some(now.start)
    requires was.start + |items| < U32 && now.start + |items| < U32
    requires i < |items| && !items[i].NoNewline?
    ensures RecoveredAt(lines, h + 1, was, now, items, i) <==> MarkersBefore(items, i) == 0
  {
    assert ReadAt(lines, h + 1, items, i);
    LinesAndMarkers(Old, items, i);
    LinesAndMarkers(New, items, i);
    NumberInHunk(Old, lines, h, was.start, items, i);
    NumberInHunk(New, lines, h, now.start, items, i);
    GivenIsTrueIff(was, now, items, i);
  }

  lemma {:induction false} LinesAndMarkers(side: Side, items: seq<Item>, n: nat)
    requires n <= |items|
    ensures LinesBefore(side, items, n) + MarkersBefore(items, n) <= n
  {
    if n > 0 {
      LinesAndMarkers(side, items, n - 1);
    }
  }

  /** Where the hunk stands among the lines of a diff text. */
  predicate HoldsHunk(text: seq<string>, h: nat, was: Span, now: Span, heading: string, items: seq<Item>) {
    && h + 1 + |items| <= |text|
    && text[h] == RenderedHeader(was, now, heading)
    && forall k :: 0 <= k < |items| ==> text[h + 1 + k] == Rendered(items[k])
  }

  /**
   * Main result on hunks. For any diff text that holds the rendering of a hunk, wherever it
   * stands: every line of the hunk comes out with its kind and its true numbers in
   * the two files if and only if no removed text begins with "-- ", no added
   * text with "++ ", and no marker for a missing newline precedes another line.
   */
  lemma HunkRecoveredIff(raw: string, h: nat, was: Span, now: Span, heading: string, items: seq<Item>)
    requires HoldsHunk(Lines(StripAnsi(raw, false)), h, was, now, heading, items)
    requires was.start + |items| < U32 && now.start + |items| < U32
    ensures var lines := ParseText(raw).lines;
            && h + 1 + |items| <= |lines|
            && ((forall i :: 0 <= i < |items| && !items[i].NoNewline? ==>
                   RecoveredAt(lines, h + 1, was, now, items, i))
                <==> (forall i :: 0 <= i < |items| ==> !LooksLikeHeader(items[i])) && MarkersLast(items))
  {
    var text := Lines(StripAnsi(raw, false));
    var lines := ParseText(raw).lines;
    HunkLines(raw, h, was, now, heading, items);
    MarkersLastIff(items);
    if forall i :: 0 <= i < |items| ==> !LooksLikeHeader(items[i]) {
      forall i | 0 <= i < |items| && !items[i].NoNewline?
        ensures RecoveredAt(lines, h + 1, was, now, items, i) <==> MarkersBefore(items, i) == 0
      {
        ItemRecoveredIff(lines, h, was, now, items, i);
      }
    }
  }

  lemma HunkLines(raw: string, h: nat, was: Span, now: Span, heading: string, items: seq<Item>)
    requires HoldsHunk(Lines(StripAnsi(raw, false)), h, was, now, heading, items)
    requires was.start < U32 && now.start < U32
    ensures var lines := ParseText(raw).lines;
            && WellNumbered(lines) && h + 1 + |items| <= |lines|
            && lines[h].kind.HunkHeader?
            && ResetTo(Old, lines[h]) == Some(was.start) && ResetTo(New, lines[h]) == Some(now.start)
            && forall k :: 0 <= k < |items| ==> (ReadAt(lines, h + 1, items, k) <==> !LooksLikeHeader(items[k]))
  {
    var text := Lines(StripAnsi(raw, false));
    var lines := ParseText(raw).lines;
    RunKinds(text);
    RunNumbers(text);
    HeaderReadsBack(was, now, heading);
    assert lines[h].kind == KindOf(text[h]);
    forall k | 0 <= k < |items|
      ensures ReadAt(lines, h + 1, items, k) <==> !LooksLikeHeader(items[k])
    {
      assert lines[h + 1 + k].kind == KindOf(text[h + 1 + k]);
      ItemIsReadIff(items[k]);
    }
  }

  lemma RemovedThenMarker(items: seq<Item>, start: nat)
    requires |items| >= 3 && items[0].Removed? && items[1].NoNewline? && items[2].Added?
    ensures LinesBefore(New, items, 2) == 0 && MarkersBefore(items, 2) == 1
    ensures TrueNumber(New, start, items, 2) == Some(start)
    ensures GivenNumber(New, start, items, 2) == Some(start + 1)
  {
    assert LinesBefore(New, items, 1) == 0;
    assert MarkersBefore(items, 1) == 0;
  }

  lemma NumberAfterMarker(lines: seq<DiffLine>, h: nat, start: nat, items: seq<Item>)
    requires WellNumbered(lines) && AllRead(lines, h + 1, items)
    requires lines[h].kind.HunkHeader? && ResetTo(New, lines[h]) == Some(start) && start < U32 - 1
    requires |items| >= 3 && items[0].Removed? && items[1].NoNewline? && items[2].Added?
    ensures lines[h + 3].newNum == Some(start + 1) && TrueNumber(New, start, items, 2) == Some(start)
  {
    RemovedThenMarker(items, start);
    NumberInHunk(New, lines, h, start, items, 2);
  }

  lemma AllItemsRead(lines: seq<DiffLine>, first: nat, items: seq<Item>)
    requires first + |items| <= |lines|
    requires forall k :: 0 <= k < |items| ==> (ReadAt(lines, first, items, k) <==> !LooksLikeHeader(items[k]))
    requires forall i :: 0 <= i < |items| ==> !LooksLikeHeader(items[i])
    ensures AllRead(lines, first, items)
  {
  }

  /** After a removed last line without newline the added line that replaces it is numbered one too high. */
  lemma MarkerShiftsNumber(raw: string, h: nat, was: Span, now: Span, heading: string, items: seq<Item>)
    requires HoldsHunk(Lines(StripAnsi(raw, false)), h, was, now, heading, items)
    requires |items| >= 3 && items[0].Removed? && items[1].NoNewline? && items[2].Added?
    requires forall i :: 0 <= i < |items| ==> !LooksLikeHeader(items[i])
    requires was.start < U32 && now.start < U32 - 1
    ensures h + 3 < |ParseText(raw).lines|
    ensures TrueNumber(New, now.start, items, 2) == Some(now.start)
    ensures ParseText(raw).lines[h + 3].newNum == Some(now.start + 1)
  {
    var lines := ParseText(raw).lines;
    HunkLines(raw, h, was, now, heading, items);
    AllItemsRead(lines, h + 1, items);
    NumberAfterMarker(lines, h, now.start, items);
  }
}
