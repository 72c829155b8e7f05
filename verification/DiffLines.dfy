/** Diff lines, the two number columns, and what the running line numbers mean. */
module DiffLines {
  import opened Prelude
  import opened Text

  datatype LineKind = Normal | Addition | Deletion | Meta | HunkHeader

  datatype DiffLine = DiffLine(
    content: string,
    kind: LineKind,
    file: string,
    oldNum: Option<nat>,
    newNum: Option<nat>)

  /** The two number columns: a line of the old file, a line of the new one. */
  datatype Side = Old | New

  /** Line numbers are `u32`; `+= 1` wraps, as a release build does. */
  const U32: nat := 0x1_0000_0000

  const DIFF_GIT := "diff --git"

  predicate IsBody(l: DiffLine) {
    l.kind.Normal? || l.kind.Addition? || l.kind.Deletion?
  }

  /** The line takes a number on that side. */
  predicate Consumes(side: Side, kind: LineKind) {
    kind.Normal? || (if side.Old? then kind.Deletion? else kind.Addition?)
  }

  function Num(side: Side, l: DiffLine): Option<nat> {
    if side.Old? then l.oldNum else l.newNum
  }

  function Bump(n: Option<nat>): Option<nat> {
    match n
    case None => None
    case Some(v) => Some((v + 1) % U32)
  }

  /** `@@ -<old>[,..] +<new>[,..] ...`: the two start numbers, if both are readable. */
  function ParseHunkHeader(header: string): Option<(nat, nat)> {
    var parts := SplitWhitespace(header);
    if |parts| < 3 || !("-" <= parts[1]) || !("+" <= parts[2]) then None else
      var oldStart := ParseUnsigned(Split(parts[1][1..], {','})[0], U32 - 1);
      var newStart := ParseUnsigned(Split(parts[2][1..], {','})[0], U32 - 1);
      if oldStart.None? || newStart.None? then None
      else Some((oldStart.value, newStart.value))
  }

  function HeaderStart(side: Side, header: string): Option<nat> {
    match ParseHunkHeader(header)
    case None => None
    case Some((o, n)) => Some(if side.Old? then o else n)
  }

  /** The counter of one column after line `l`, from the counter before it. */
  function Advance(side: Side, before: Option<nat>, l: DiffLine): Option<nat> {
    match l.kind
    case HunkHeader => HeaderStart(side, l.content)
    case Meta => if DIFF_GIT <= l.content then None else before
    case _ => if Consumes(side, l.kind) then Bump(before) else before
  }

  /** The counter of one column before line `i`, read off the lines themselves. */
  function Counter(side: Side, lines: seq<DiffLine>, i: nat): Option<nat>
    requires i <= |lines|
  {
    if i == 0 then None else Advance(side, Counter(side, lines, i - 1), lines[i - 1])
  }

  lemma {:induction false} CounterOfPrefix(side: Side, lines: seq<DiffLine>, more: seq<DiffLine>, i: nat)
    requires i <= |lines|
    ensures Counter(side, lines + more, i) == Counter(side, lines, i)
  {
    if i > 0 {
      CounterOfPrefix(side, lines, more, i - 1);
    }
  }

  lemma CounterSnoc(side: Side, lines: seq<DiffLine>, l: DiffLine)
    ensures Counter(side, lines + [l], |lines| + 1)
         == Advance(side, Counter(side, lines, |lines|), l)
  {
    CounterOfPrefix(side, lines, [l], |lines|);
  }

  /** The number line `i` should carry on a side. */
  function ExpectedNumber(side: Side, lines: seq<DiffLine>, i: nat): Option<nat>
    requires i < |lines|
  {
    if Consumes(side, lines[i].kind) then Counter(side, lines, i) else None
  }

  /** Line `i` carries the counter of each column it takes a number in, and nothing else. */
  ghost predicate NumberedAt(lines: seq<DiffLine>, i: nat)
    requires i < |lines|
  {
    && lines[i].oldNum == ExpectedNumber(Old, lines, i)
    && lines[i].newNum == ExpectedNumber(New, lines, i)
  }

  ghost predicate WellNumbered(lines: seq<DiffLine>) {
    forall i :: 0 <= i < |lines| ==> NumberedAt(lines, i)
  }

  /** The current file only changes on Meta lines, which already belong to the new file. */
  ghost predicate SwitchesAtMeta(lines: seq<DiffLine>) {
    forall i :: 0 < i < |lines| ==> SameFileOrMeta(lines, i)
  }

  predicate SameFileOrMeta(lines: seq<DiffLine>, i: nat)
    requires 0 < i < |lines|
  {
    lines[i].file == lines[i - 1].file || lines[i].kind.Meta?
  }

  // ---- The declarative meaning of a line number --------------------------------

  /** A line after which numbering starts afresh. */
  predicate IsReset(l: DiffLine) {
    l.kind.HunkHeader? || (l.kind.Meta? && DIFF_GIT <= l.content)
  }

  /** How many of the lines `lo .. hi` take a number on that side. */
  function CountConsumed(side: Side, lines: seq<DiffLine>, lo: nat, hi: nat): nat
    requires hi <= |lines|
    decreases hi
  {
    if hi <= lo then 0 else
      CountConsumed(side, lines, lo, hi - 1) + if Consumes(side, lines[hi - 1].kind) then 1 else 0
  }

  /** Where a reset leaves the counter of a column. */
  function ResetTo(side: Side, l: DiffLine): (n: Option<nat>)
    ensures n.Some? ==> n.value < U32
  {
    if l.kind.HunkHeader? then HeaderStart(side, l.content) else None
  }

  /** What a counter should read: the start number plus the lines counted since. */
  function Running(start: Option<nat>, since: nat): Option<nat> {
    match start
    case None => None
    case Some(v) => Some((v + since) % U32)
  }

  lemma AdvanceReset(side: Side, before: Option<nat>, l: DiffLine)
    requires IsReset(l)
    ensures Advance(side, before, l) == Running(ResetTo(side, l), 0)
  {
  }

  lemma AdvanceBody(side: Side, start: Option<nat>, since: nat, l: DiffLine)
    requires !IsReset(l)
    ensures Advance(side, Running(start, since), l)
         == Running(start, since + if Consumes(side, l.kind) then 1 else 0)
  {
  }

  /**
   * With `h` the last reset before `i`, the counter at `i` is the start number in
   * header `h` plus the count of lines between them that take a number on that
   * side; without a readable header at `h` there is no counter.
   */
  lemma {:induction false} CounterClosedForm(side: Side, lines: seq<DiffLine>, h: nat, i: nat)
    requires h < i <= |lines|
    requires IsReset(lines[h])
    requires forall j :: h < j < i ==> !IsReset(lines[j])
    ensures Counter(side, lines, i)
         == Running(ResetTo(side, lines[h]), CountConsumed(side, lines, h + 1, i))
  {
    if i - 1 == h {
      AdvanceReset(side, Counter(side, lines, h), lines[h]);
    } else {
      CounterClosedForm(side, lines, h, i - 1);
      AdvanceBody(side, ResetTo(side, lines[h]), CountConsumed(side, lines, h + 1, i - 1), lines[i - 1]);
    }
  }

  /** Before any reset no line is numbered. */
  lemma {:induction false} CounterBeforeAnyReset(side: Side, lines: seq<DiffLine>, i: nat)
    requires i <= |lines| && forall j :: 0 <= j < i ==> !IsReset(lines[j])
    ensures Counter(side, lines, i) == None
  {
    if i > 0 {
      CounterBeforeAnyReset(side, lines, i - 1);
      AdvanceBody(side, None, 0, lines[i - 1]);
    }
  }

  lemma {:induction false} CountConsumedMonotone(side: Side, lines: seq<DiffLine>, lo: nat, i: nat, j: nat)
    requires i <= j <= |lines|
    ensures CountConsumed(side, lines, lo, i) <= CountConsumed(side, lines, lo, j)
  {
    if i < j {
      CountConsumedMonotone(side, lines, lo, i, j - 1);
    }
  }

  /** The closed form at a line that takes a number. */
  lemma HunkNumber(side: Side, lines: seq<DiffLine>, h: nat, i: nat)
    requires WellNumbered(lines)
    requires h < i < |lines| && IsReset(lines[h])
    requires forall k :: h < k < i ==> !IsReset(lines[k])
    ensures Num(side, lines[i]) ==
            if Consumes(side, lines[i].kind)
            then Running(ResetTo(side, lines[h]), CountConsumed(side, lines, h + 1, i))
            else None
  {
    CounterClosedForm(side, lines, h, i);
    assert NumberedAt(lines, i);
  }

  /**
   * Within one hunk (no reset at `h + 1 .. j`) the numbers on a side strictly increase,
   * as long as the header's start plus the lines that follow stay below 2^32.
   */
  lemma NumbersIncreaseWithinHunk(side: Side, lines: seq<DiffLine>, h: nat, i: nat, j: nat)
    requires WellNumbered(lines)
    requires h < i < j < |lines|
    requires lines[h].kind.HunkHeader? && ResetTo(side, lines[h]).Some?
    requires forall k :: h < k <= j ==> !IsReset(lines[k])
    requires Consumes(side, lines[i].kind) && Consumes(side, lines[j].kind)
    requires ResetTo(side, lines[h]).value + CountConsumed(side, lines, h + 1, j) < U32
    ensures Num(side, lines[i]).Some? && Num(side, lines[j]).Some?
    ensures Num(side, lines[i]).value < Num(side, lines[j]).value
  {
    HunkNumber(side, lines, h, i);
    HunkNumber(side, lines, h, j);
    CountConsumedMonotone(side, lines, h + 1, i + 1, j);
    RunningIncreases(ResetTo(side, lines[h]).value, CountConsumed(side, lines, h + 1, i),
                     CountConsumed(side, lines, h + 1, j));
  }

  lemma RunningIncreases(start: nat, m: nat, n: nat)
    requires m < n && start + n < U32
    ensures Running(Some(start), m) == Some(start + m) && Running(Some(start), n) == Some(start + n)
  {
  }
}
