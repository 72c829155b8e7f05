/** Pairing a unified diff into two columns. */
module SideBySide {
  import opened Prelude
  import opened DiffLines

  datatype Row = Row(left: Option<DiffLine>, right: Option<DiffLine>, kind: LineKind)

  /** Length of the run of lines of one kind at the front. */
  function RunLength(lines: seq<DiffLine>, kind: LineKind): (n: nat)
    ensures n <= |lines|
    ensures forall i :: 0 <= i < n ==> lines[i].kind == kind
    ensures n < |lines| ==> lines[n].kind != kind
  {
    if lines == [] || lines[0].kind != kind then 0 else 1 + RunLength(lines[1..], kind)
  }

  function At(lines: seq<DiffLine>, j: nat): Option<DiffLine> {
    if j < |lines| then Some(lines[j]) else None
  }

  /** Deletions and additions of one change block, row by row. */
  function Pair(dels: seq<DiffLine>, adds: seq<DiffLine>): (rows: seq<Row>)
    ensures |rows| == if |dels| > |adds| then |dels| else |adds|
    ensures forall j :: 0 <= j < |rows| ==> rows[j] == Row(At(dels, j), At(adds, j), Normal)
  {
    seq(if |dels| > |adds| then |dels| else |adds|,
        j requires 0 <= j => Row(At(dels, j), At(adds, j), Normal))
  }

  /** A change block: a run of deletions, the run of additions after it, and what follows. */
  datatype Block = Block(dels: seq<DiffLine>, adds: seq<DiffLine>, rest: seq<DiffLine>)

  predicate IsChange(kind: LineKind) {
    kind.Deletion? || kind.Addition?
  }

  predicate AllOfKind(lines: seq<DiffLine>, kind: LineKind) {
    forall i :: 0 <= i < |lines| ==> lines[i].kind == kind
  }

  function FirstBlock(lines: seq<DiffLine>): (b: Block)
    ensures lines == b.dels + b.adds + b.rest
    ensures AllOfKind(b.dels, Deletion) && AllOfKind(b.adds, Addition)
    ensures b.rest != [] ==> !b.rest[0].kind.Addition?
    ensures b.adds == [] && b.rest != [] ==> !b.rest[0].kind.Deletion?
    ensures lines != [] && IsChange(lines[0].kind) ==> |b.rest| < |lines|
  {
    var d := RunLength(lines, Deletion);
    var a := RunLength(lines[d..], Addition);
    Block(lines[..d], lines[d..d + a], lines[d + a..])
  }

  function Build(lines: seq<DiffLine>): seq<Row>
    decreases |lines|
  {
    if lines == [] then []
    else if IsChange(lines[0].kind) then
      var b := FirstBlock(lines);
      Pair(b.dels, b.adds) + Build(b.rest)
    else
      [Row(Some(lines[0]), Some(lines[0]), lines[0].kind)] + Build(lines[1..])
  }

  /** The inner loops: collect lines of one kind from index `start` on. */
  method TakeRun(lines: seq<DiffLine>, start: nat, kind: LineKind) returns (run: seq<DiffLine>, i: nat)
    requires start <= |lines|
    ensures i == start + RunLength(lines[start..], kind) && i <= |lines|
    ensures run == lines[start..i]
  {
    run := [];
    i := start;
    while i < |lines| && lines[i].kind == kind
      invariant start <= i <= |lines|
      invariant run == lines[start..i]
      invariant AllOfKind(run, kind)
    {
      run := run + [lines[i]];
      i := i + 1;
    }
    forall j | 0 <= j < i - start ensures lines[start..][j].kind == kind {
      assert run[j].kind == kind;
    }
    RunLengthUnique(lines[start..], kind, i - start);
  }

  lemma RunLengthUnique(lines: seq<DiffLine>, kind: LineKind, n: nat)
    requires n <= |lines|
    requires forall i :: 0 <= i < n ==> lines[i].kind == kind
    requires n < |lines| ==> lines[n].kind != kind
    ensures RunLength(lines, kind) == n
  {
  }

  /** The last loop of a block: one row per line of the longer run. */
  method PushPairs(rows: seq<Row>, dels: seq<DiffLine>, adds: seq<DiffLine>) returns (out: seq<Row>)
    ensures out == rows + Pair(dels, adds)
  {
    out := rows;
    var maxLen := if |dels| > |adds| then |dels| else |adds|;
    for j := 0 to maxLen
      invariant out == rows + Pair(dels, adds)[..j]
    {
      out := out + [Row(At(dels, j), At(adds, j), Normal)];
    }
  }

  lemma BlockAt(lines: seq<DiffLine>, start: nat, mid: nat, end: nat)
    requires start < |lines| && IsChange(lines[start].kind)
    requires mid == start + RunLength(lines[start..], Deletion) <= |lines|
    requires end == mid + RunLength(lines[mid..], Addition) <= |lines|
    ensures Build(lines[start..]) == Pair(lines[start..mid], lines[mid..end]) + Build(lines[end..])
    ensures start < end
  {
    var rest := lines[start..];
    assert rest[mid - start..] == lines[mid..];
    assert rest[..mid - start] == lines[start..mid];
    assert rest[mid - start..end - start] == lines[mid..end];
    assert rest[end - start..] == lines[end..];
    assert FirstBlock(rest) == Block(lines[start..mid], lines[mid..end], lines[end..]);
  }

  lemma BlockAppended(lines: seq<DiffLine>, start: nat, mid: nat, end: nat, rows: seq<Row>)
    requires start < |lines| && IsChange(lines[start].kind)
    requires mid == start + RunLength(lines[start..], Deletion) <= |lines|
    requires end == mid + RunLength(lines[mid..], Addition) <= |lines|
    ensures start < end
    ensures rows + Pair(lines[start..mid], lines[mid..end]) + Build(lines[end..])
         == rows + Build(lines[start..])
  {
    BlockAt(lines, start, mid, end);
    ConcatAssociative(rows, Pair(lines[start..mid], lines[mid..end]), Build(lines[end..]));
  }

  lemma ConcatAssociative<T>(a: seq<T>, b: seq<T>, c: seq<T>)
    ensures (a + b) + c == a + (b + c)
  {
  }

  /** One change block: both runs, then their rows. */
  method EmitBlock(lines: seq<DiffLine>, start: nat, rows: seq<Row>) returns (out: seq<Row>, i: nat)
    requires start < |lines| && IsChange(lines[start].kind)
    ensures start < i <= |lines|
    ensures out + Build(lines[i..]) == rows + Build(lines[start..])
  {
    var deletions, mid := TakeRun(lines, start, Deletion);
    var additions;
    additions, i := TakeRun(lines, mid, Addition);
    out := PushPairs(rows, deletions, additions);
    BlockAppended(lines, start, mid, i, rows);
  }

  /** `build_side_by_side_lines`: one index walks the lines, inner loops collect each block. */
  method BuildSideBySideLines(lines: seq<DiffLine>) returns (rows: seq<Row>)
    ensures rows == Build(lines)
  {
    rows := [];
    var i := 0;
    while i < |lines|
      invariant 0 <= i <= |lines|
      invariant rows + Build(lines[i..]) == Build(lines)
    {
      if IsChange(lines[i].kind) {
        rows, i := EmitBlock(lines, i, rows);
      } else {
        var row := Row(Some(lines[i]), Some(lines[i]), lines[i].kind);
        assert lines[i..][1..] == lines[i + 1..];
        assert (rows + [row]) + Build(lines[i + 1..]) == rows + ([row] + Build(lines[i + 1..]));
        rows := rows + [row];
        i := i + 1;
      }
    }
  }

  // ---- What the two columns hold ---------------------------------------------------

  /** The lines shown in a column: all but the other side's changes. */
  predicate Shown(side: Side, kind: LineKind) {
    if side.Old? then !kind.Addition? else !kind.Deletion?
  }

  function ShownList(side: Side, l: DiffLine): seq<DiffLine> {
    if Shown(side, l.kind) then [l] else []
  }

  function ShownLines(side: Side, lines: seq<DiffLine>): seq<DiffLine> {
    if lines == [] then [] else ShownList(side, lines[0]) + ShownLines(side, lines[1..])
  }

  function Cell(side: Side, row: Row): Option<DiffLine> {
    if side.Old? then row.left else row.right
  }

  function CellList(side: Side, row: Row): seq<DiffLine> {
    match Cell(side, row)
    case Some(l) => [l]
    case None => []
  }

  /** The cells of one column, top to bottom. */
  function Cells(side: Side, rows: seq<Row>): seq<DiffLine> {
    if rows == [] then [] else CellList(side, rows[0]) + Cells(side, rows[1..])
  }

  lemma CellsCons(side: Side, row: Row, rest: seq<Row>)
    ensures Cells(side, [row] + rest) == CellList(side, row) + Cells(side, rest)
  {
    assert ([row] + rest)[1..] == rest;
  }

  lemma {:induction false} CellsConcat(side: Side, a: seq<Row>, b: seq<Row>)
    ensures Cells(side, a + b) == Cells(side, a) + Cells(side, b)
  {
    if a == [] {
      assert a + b == b;
    } else {
      assert a + b == [a[0]] + (a[1..] + b);
      CellsCons(side, a[0], a[1..] + b);
      CellsConcat(side, a[1..], b);
      ConcatAssociative(CellList(side, a[0]), Cells(side, a[1..]), Cells(side, b));
    }
  }

  lemma ShownCons(side: Side, l: DiffLine, rest: seq<DiffLine>)
    ensures ShownLines(side, [l] + rest) == ShownList(side, l) + ShownLines(side, rest)
  {
    assert ([l] + rest)[1..] == rest;
  }

  lemma {:induction false} ShownConcat(side: Side, a: seq<DiffLine>, b: seq<DiffLine>)
    ensures ShownLines(side, a + b) == ShownLines(side, a) + ShownLines(side, b)
  {
    if a == [] {
      assert a + b == b;
    } else {
      assert a + b == [a[0]] + (a[1..] + b);
      ShownCons(side, a[0], a[1..] + b);
      ShownConcat(side, a[1..], b);
      ConcatAssociative(ShownList(side, a[0]), ShownLines(side, a[1..]), ShownLines(side, b));
    }
  }

  lemma {:induction false} ShownUniform(side: Side, lines: seq<DiffLine>, kind: LineKind)
    requires AllOfKind(lines, kind)
    ensures ShownLines(side, lines) == if Shown(side, kind) then lines else []
  {
    if lines != [] {
      ShownUniform(side, lines[1..], kind);
    }
  }

  /** A column of a block is the block's lines for that side followed by gaps. */
  lemma {:induction false} CellsOfColumn(side: Side, rows: seq<Row>, col: seq<DiffLine>)
    requires |col| <= |rows|
    requires forall j :: 0 <= j < |rows| ==> Cell(side, rows[j]) == At(col, j)
    ensures Cells(side, rows) == col
  {
    if rows != [] {
      var rest := if col == [] then [] else col[1..];
      forall j | 0 <= j < |rows| - 1 ensures Cell(side, rows[1..][j]) == At(rest, j) {
        assert Cell(side, rows[j + 1]) == At(col, j + 1);
      }
      CellsOfColumn(side, rows[1..], rest);
      assert Cell(side, rows[0]) == At(col, 0);
    }
  }

  /**
   * Pairing loses nothing and reorders nothing: the left cells are exactly the
   * non-Addition lines, the right cells exactly the non-Deletion lines.
   */
  lemma {:induction false} ColumnsAreFaithful(side: Side, lines: seq<DiffLine>)
    ensures Cells(side, Build(lines)) == ShownLines(side, lines)
    decreases |lines|
  {
    if lines == [] {
    } else if IsChange(lines[0].kind) {
      var b := FirstBlock(lines);
      BlockColumn(side, b.dels, b.adds);
      CellsConcat(side, Pair(b.dels, b.adds), Build(b.rest));
      ShownConcat(side, b.dels + b.adds, b.rest);
      ColumnsAreFaithful(side, b.rest);
    } else {
      CellsConcat(side, [Row(Some(lines[0]), Some(lines[0]), lines[0].kind)], Build(lines[1..]));
      ColumnsAreFaithful(side, lines[1..]);
    }
  }

  lemma BlockColumn(side: Side, dels: seq<DiffLine>, adds: seq<DiffLine>)
    requires AllOfKind(dels, Deletion) && AllOfKind(adds, Addition)
    ensures Cells(side, Pair(dels, adds)) == ShownLines(side, dels + adds)
  {
    ShownConcat(side, dels, adds);
    ShownUniform(side, dels, Deletion);
    ShownUniform(side, adds, Addition);
    CellsOfColumn(side, Pair(dels, adds), if side.Old? then dels else adds);
  }

  /** The shapes a row can take. */
  predicate WellFormedRow(r: Row) {
    || (r.left.Some? && r.left == r.right && r.kind == r.left.value.kind
        && !r.kind.Deletion? && !r.kind.Addition?)
    || (&& r.kind.Normal? && (r.left.Some? || r.right.Some?)
        && (r.left.Some? ==> r.left.value.kind.Deletion?)
        && (r.right.Some? ==> r.right.value.kind.Addition?))
  }

  /** A deletion left alone on its row directly above an addition left alone on its row. */
  predicate Unpaired(rows: seq<Row>, j: nat)
    requires 0 < j < |rows|
  {
    rows[j - 1].right.None? && rows[j].left.None?
  }

  ghost predicate Tight(rows: seq<Row>) {
    && (forall j :: 0 <= j < |rows| ==> WellFormedRow(rows[j]))
    && (forall j :: 0 < j < |rows| ==> !Unpaired(rows, j))
  }

  lemma TightConcat(a: seq<Row>, b: seq<Row>)
    requires Tight(a) && Tight(b)
    requires a != [] && b != [] ==> a[|a| - 1].right.Some? || b[0].left.Some?
    ensures Tight(a + b)
  {
    var rows := a + b;
    forall j | 0 < j < |rows| ensures !Unpaired(rows, j) {
      if j < |a| {
        assert !Unpaired(a, j);
      } else if j > |a| {
        assert !Unpaired(b, j - |a|);
      }
    }
  }

  /** The first row starts with an empty left cell only when the first line is an addition. */
  lemma FirstRow(lines: seq<DiffLine>)
    requires lines != []
    ensures Build(lines) != []
    ensures !lines[0].kind.Addition? ==> Build(lines)[0].left.Some?
  {
    if IsChange(lines[0].kind) {
      var b := FirstBlock(lines);
      assert lines[0].kind.Deletion? ==> b.dels != [];
    }
  }

  lemma PairTight(dels: seq<DiffLine>, adds: seq<DiffLine>)
    requires AllOfKind(dels, Deletion) && AllOfKind(adds, Addition)
    ensures Tight(Pair(dels, adds))
  {
  }

  /**
   * Every row shows one line twice or pairs a deletion with an addition, has at
   * least one cell, and no deletion waits unpaired above an unpaired addition.
   */
  lemma {:induction false} RowsAreTight(lines: seq<DiffLine>)
    ensures Tight(Build(lines))
    decreases |lines|
  {
    if lines == [] {
    } else if IsChange(lines[0].kind) {
      var b := FirstBlock(lines);
      RowsAreTight(b.rest);
      PairTight(b.dels, b.adds);
      if b.rest != [] {
        FirstRow(b.rest);
      }
      TightConcat(Pair(b.dels, b.adds), Build(b.rest));
    } else {
      RowsAreTight(lines[1..]);
      TightConcat([Row(Some(lines[0]), Some(lines[0]), lines[0].kind)], Build(lines[1..]));
    }
  }
}
