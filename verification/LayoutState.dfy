/** Saving the ratios of a layout and bringing them back. */
module LayoutState {
  import opened Prelude
  import opened Text
  import opened LayoutTrees
  import opened LayoutRatios
  import opened LayoutDividers

  // ---- Paths as text -----------------------------------------------------------------------------

  function Numbers(path: SplitPath): (r: seq<string>)
    ensures |r| == |path|
  {
    seq(|path|, i requires 0 <= i < |path| => Decimal(path[i]))
  }

  /** `encode_path`. */
  function EncodePath(path: SplitPath): string {
    Join(Numbers(path), ".")
  }

  /** The first `n` parts that parse as bytes; the others are dropped. */
  function ParsedParts(parts: seq<string>, n: nat): SplitPath
    requires n <= |parts|
  {
    if n == 0 then [] else
      match ParseUnsigned(parts[n - 1], U8_MAX)
      case Some(v) => ParsedParts(parts, n - 1) + [v]
      case None => ParsedParts(parts, n - 1)
  }

  /** `decode_path`. */
  function DecodePath(s: string): SplitPath {
    if s == "" then [] else
      var parts := Text.Split(s, {'.'});
      ParsedParts(parts, |parts|)
  }

  lemma {:induction false} ParsedNumbers(path: SplitPath, n: nat)
    requires n <= |path| && FitsBytes(path)
    ensures ParsedParts(Numbers(path), n) == path[..n]
  {
    if n > 0 {
      ParsedNumbers(path, n - 1);
      ParseDecimal(path[n - 1], U8_MAX);
      assert Numbers(path)[n - 1] == Decimal(path[n - 1]);
      assert path[..n] == path[..n - 1] + [path[n - 1]];
    }
  }

  /** Decoding undoes encoding, for every sequence of bytes. */
  lemma DecodeEncode(path: SplitPath)
    requires FitsBytes(path)
    ensures DecodePath(EncodePath(path)) == path
  {
    if path != [] {
      var parts := Numbers(path);
      forall p | p in parts ensures '.' !in p {
        assert AllDigits(p);
      }
      SplitJoin(parts, '.');
      ParsedNumbers(path, |path|);
      assert path[..|path|] == path;
      JoinNotEmpty(parts, ".");
    }
  }

  lemma JoinNotEmpty(parts: seq<string>, sep: string)
    requires parts != [] && parts[0] != ""
    ensures Join(parts, sep) != ""
  {
  }

  lemma EncodeInjective(p: SplitPath, q: SplitPath)
    requires FitsBytes(p) && FitsBytes(q) && EncodePath(p) == EncodePath(q)
    ensures p == q
  {
    DecodeEncode(p);
    DecodeEncode(q);
  }

  // ---- Keys that are not canonical ------------------------------------------------------------------

  /** The part is the decimal form of a byte. */
  ghost predicate Canonical(part: string) {
    exists v: nat :: v <= U8_MAX && part == Decimal(v)
  }

  ghost predicate CanonicalKey(s: string) {
    s == "" || forall part :: part in Text.Split(s, {'.'}) ==> Canonical(part)
  }

  /** Decoded indexes are bytes. */
  lemma {:induction false} ParsedPartsFit(parts: seq<string>, n: nat)
    requires n <= |parts|
    ensures FitsBytes(ParsedParts(parts, n))
  {
    if n > 0 {
      ParsedPartsFit(parts, n - 1);
    }
  }

  /** Canonical parts are read one by one and print as themselves. */
  lemma {:induction false} NumbersParsed(parts: seq<string>, n: nat)
    requires n <= |parts| && forall i :: 0 <= i < n ==> Canonical(parts[i])
    ensures Numbers(ParsedParts(parts, n)) == parts[..n]
  {
    if n > 0 {
      NumbersParsed(parts, n - 1);
      var v: nat :| v <= U8_MAX && parts[n - 1] == Decimal(v);
      ParseDecimal(v, U8_MAX);
      NumbersSnoc(ParsedParts(parts, n - 1), v);
      assert parts[..n] == parts[..n - 1] + [parts[n - 1]];
    }
  }

  lemma NumbersSnoc(path: SplitPath, v: nat)
    ensures Numbers(path + [v]) == Numbers(path) + [Decimal(v)]
  {
  }

  lemma NumbersHaveNoDot(path: SplitPath)
    ensures forall p :: p in Numbers(path) ==> '.' !in p
  {
    forall p | p in Numbers(path) ensures '.' !in p {
      assert AllDigits(p);
    }
  }

  lemma JoinSplitDot(s: string)
    ensures Join(Text.Split(s, {'.'}), ".") == s
  {
    JoinSplit(s, {'.'}, '.');
    assert Replace(s, {'.'}, '.') == s;
  }

  /**
   * Main result on keys. A key is read back to itself, so that it addresses exactly the
   * split it spells, if and only if it is empty or every part between its dots
   * is the decimal form of a byte. Every other key is read as some other key.
   */
  lemma EncodeDecodeIff(s: string)
    ensures EncodePath(DecodePath(s)) == s <==> CanonicalKey(s)
  {
    var parts := Text.Split(s, {'.'});
    var path := DecodePath(s);
    if s != "" && CanonicalKey(s) {
      NumbersParsed(parts, |parts|);
      assert parts[..|parts|] == parts;
      JoinSplitDot(s);
    }
    if s != "" && EncodePath(path) == s {
      NumbersHaveNoDot(path);
      SplitJoin(Numbers(path), '.');
      ParsedPartsFit(parts, |parts|);
      forall part | part in parts ensures Canonical(part) {
        var i :| 0 <= i < |parts| && parts[i] == part;
        assert Numbers(path)[i] == Decimal(path[i]);
      }
    }
  }

  /** The split a key addresses has another, canonical key exactly when the key is not canonical itself. */
  lemma OtherKeyIff(s: string)
    ensures (exists t :: t != s && CanonicalKey(t) && DecodePath(t) == DecodePath(s)) <==> !CanonicalKey(s)
  {
    var path := DecodePath(s);
    if s != "" {
      ParsedPartsFit(Text.Split(s, {'.'}), |Text.Split(s, {'.'})|);
    }
    DecodeEncode(path);
    EncodeDecodeIff(s);
    EncodeDecodeIff(EncodePath(path));
    forall t | t != s && CanonicalKey(t) && DecodePath(t) == path ensures !CanonicalKey(s) {
      EncodeDecodeIff(t);
    }
  }

  lemma {:induction false} NothingParsed(parts: seq<string>, n: nat)
    requires n <= |parts|
    ensures ParsedParts(parts, n) == [] <==> forall i :: 0 <= i < n ==> ParseUnsigned(parts[i], U8_MAX) == None
  {
    if n > 0 {
      NothingParsed(parts, n - 1);
    }
  }

  /** The part is an optional "+" and then digits that make a byte. */
  predicate ReadsAsByte(part: string) {
    var digits := if part != "" && part[0] == '+' then part[1..] else part;
    digits != "" && AllDigits(digits) && DecimalValue(digits) <= U8_MAX
  }

  /** A key addresses the root split exactly when no part between its dots reads as a byte. */
  lemma AddressesRootIff(s: string)
    ensures DecodePath(s) == [] <==> forall part :: part in Text.Split(s, {'.'}) ==> !ReadsAsByte(part)
  {
    var parts := Text.Split(s, {'.'});
    NothingParsed(parts, |parts|);
    forall i | 0 <= i < |parts| ensures ReadsAsByte(parts[i]) <==> ParseUnsigned(parts[i], U8_MAX).Some? {
    }
    if s == "" {
      FindUnique(s, {'.'}, 0);
      assert parts == [""];
    } else if forall part :: part in parts ==> !ReadsAsByte(part) {
      forall i | 0 <= i < |parts| ensures ParseUnsigned(parts[i], U8_MAX) == None {
        assert parts[i] in parts;
      }
    }
  }

  lemma OneDigit(c: char)
    requires IsDigit(c)
    ensures DecimalValue([c]) == DigitValue(c) && ParseUnsigned([c], U8_MAX) == Some(DigitValue(c))
  {
    assert [c][..0] == "";
  }

  lemma OnePartKey(s: string)
    requires s != "" && '.' !in s
    ensures Text.Split(s, {'.'}) == [s]
    ensures DecodePath(s) == match ParseUnsigned(s, U8_MAX) case Some(v) => [v] case None => []
  {
    FindUnique(s, {'.'}, |s|);
    assert ParsedParts([s], 0) == [];
  }

  /** A key that is read as one small number but is not its digit is not canonical. */
  lemma NotTheDigit(s: string, v: nat)
    requires s != "" && v < 10 && DecodePath(s) == [v] && s != [DigitChar(v)]
    ensures !CanonicalKey(s)
  {
    EncodeDecodeIff(s);
    assert Numbers([v]) == [Decimal(v)];
  }

  lemma PlusIsSkipped()
    ensures DecodePath("+1") == [1] && !CanonicalKey("+1")
  {
    OneDigit('1');
    OnePartKey("+1");
    assert "+1"[1..] == "1";
    NotTheDigit("+1", 1);
  }

  lemma ZerosAreSkipped()
    ensures DecodePath("007") == [7] && !CanonicalKey("007")
  {
    OnePartKey("007");
    assert "007"[..2] == "00" && "00"[..1] == "0" && "0"[..0] == "";
    assert DecimalValue("00") == 0 && DecimalValue("007") == 7;
    NotTheDigit("007", 7);
  }

  lemma UnreadablePartIsSkipped()
    ensures DecodePath("1.x") == [1] && !CanonicalKey("1.x")
  {
    OneDigit('1');
    FindUnique("1.x", {'.'}, 1);
    FindUnique("x", {'.'}, 1);
    assert "1.x"[..1] == "1" && "1.x"[2..] == "x";
    assert Text.Split("1.x", {'.'}) == ["1"] + Text.Split("x", {'.'});
    assert 'x' in "x" && ParseUnsigned("x", U8_MAX) == None;
    assert ParsedParts(["1", "x"], 1) == [1];
    NotTheDigit("1.x", 1);
  }

  lemma NothingReadableIsRoot()
    ensures DecodePath("x") == [] && !CanonicalKey("x")
  {
    OnePartKey("x");
    assert 'x' in "x" && ParseUnsigned("x", U8_MAX) == None;
    EncodeDecodeIff("x");
  }

  /** Keys nobody writes: a plus sign, leading zeros, an unreadable part, nothing readable at all. */
  lemma OddKeys()
    ensures DecodePath("+1") == [1] && DecodePath("007") == [7] && DecodePath("1.x") == [1] && DecodePath("x") == []
    ensures !CanonicalKey("+1") && !CanonicalKey("007") && !CanonicalKey("1.x") && !CanonicalKey("x")
  {
    PlusIsSkipped();
    ZerosAreSkipped();
    UnreadablePartIsSkipped();
    NothingReadableIsRoot();
  }

  // ---- Snapshots -----------------------------------------------------------------------------------

  datatype Saved = Saved(path: SplitPath, ratios: seq<real>)

  /** The ratios of every split, parents first. */
  function Snapshot(node: LayoutNode, path: SplitPath): seq<Saved>
    decreases node, 0
  {
    if !node.Split? then [] else
      [Saved(path, node.ratios)] + SnapshotUpTo(node.children, |node.children|, path)
  }

  function SnapshotUpTo(children: seq<LayoutNode>, n: nat, path: SplitPath): seq<Saved>
    requires n <= |children|
    decreases children, n
  {
    if n == 0 then [] else
      SnapshotUpTo(children, n - 1, path) + Snapshot(children[n - 1], path + [(n - 1) % 256])
  }

  /** `walk_snapshot`, appending to `start`. */
  method WalkSnapshot(node: LayoutNode, path: SplitPath, start: seq<Saved>) returns (out: seq<Saved>)
    ensures out == start + Snapshot(node, path)
    decreases node
  {
    out := start;
    AppendEmpty(out);
    if node.Split? {
      out := out + [Saved(path, node.ratios)];
      ghost var mid := out;
      AppendEmpty(mid);
      for idx := 0 to |node.children|
        invariant out == mid + SnapshotUpTo(node.children, idx, path)
      {
        ghost var before := SnapshotUpTo(node.children, idx, path);
        out := WalkSnapshot(node.children[idx], path + [idx % 256], out);
        AppendAssoc(mid, before, Snapshot(node.children[idx], path + [idx % 256]));
      }
      AppendAssoc(start, [Saved(path, node.ratios)], SnapshotUpTo(node.children, |node.children|, path));
    }
  }

  /** Every entry holds the ratios its path leads to. */
  lemma {:induction false} SnapshotEntry(root: LayoutNode, node: LayoutNode, path: SplitPath, k: nat)
    requires Narrow(node) && NodeAt(root, path) == Some(node) && k < |Snapshot(node, path)|
    ensures RatiosAt(root, Snapshot(node, path)[k].path) == Some(Snapshot(node, path)[k].ratios)
    decreases node, 0
  {
    if k > 0 {
      SnapshotChildEntry(root, node, |node.children|, path, k - 1);
    }
  }

  lemma {:induction false} SnapshotChildEntry(root: LayoutNode, node: LayoutNode, n: nat, path: SplitPath, k: nat)
    requires node.Split? && Narrow(node) && NodeAt(root, path) == Some(node)
    requires n <= |node.children| && k < |SnapshotUpTo(node.children, n, path)|
    ensures RatiosAt(root, SnapshotUpTo(node.children, n, path)[k].path)
         == Some(SnapshotUpTo(node.children, n, path)[k].ratios)
    decreases node.children, n
  {
    var before := SnapshotUpTo(node.children, n - 1, path);
    if k < |before| {
      SnapshotChildEntry(root, node, n - 1, path, k);
    } else {
      NodeAtAppend(root, path, n - 1);
      SnapshotEntry(root, node.children[n - 1], path + [n - 1], k - |before|);
    }
  }

  /** Every split has an entry. */
  lemma {:induction false} SnapshotComplete(node: LayoutNode, path: SplitPath, below: SplitPath) returns (k: nat)
    requires Narrow(node) && RatiosAt(node, below).Some?
    ensures k < |Snapshot(node, path)| && Snapshot(node, path)[k].path == path + below
    decreases |below|
  {
    if below == [] {
      k := 0;
    } else {
      var i := below[0];
      var at := SnapshotComplete(node.children[i], path + [i], below[1..]);
      k := SnapshotOffset(node.children, i, |node.children|, path, at);
      k := k + 1;
      assert path + below == path + [i] + below[1..];
    }
  }

  /** Where the entries of child `i` start. */
  lemma {:induction false} SnapshotOffset(children: seq<LayoutNode>, i: nat, n: nat, path: SplitPath, at: nat)
    returns (k: nat)
    requires i < n <= |children| <= 256 && at < |Snapshot(children[i], path + [i])|
    ensures k < |SnapshotUpTo(children, n, path)|
    ensures SnapshotUpTo(children, n, path)[k] == Snapshot(children[i], path + [i])[at]
  {
    if i == n - 1 {
      k := |SnapshotUpTo(children, n - 1, path)| + at;
    } else {
      k := SnapshotOffset(children, i, n - 1, path, at);
    }
  }

  // ---- Applying saved ratios -------------------------------------------------------------------------

  function Overwrites(saved: seq<Saved>): (r: seq<Change>)
    ensures |r| == |saved|
  {
    seq(|saved|, i requires 0 <= i < |saved| => Overwrite(saved[i].path, saved[i].ratios))
  }

  /** `apply_ratio_snapshot`: refusals are ignored. */
  method ApplySnapshot(tree: LayoutTree, saved: seq<Saved>)
    modifies tree
    ensures tree.root == AfterChanges(old(tree.root), Overwrites(saved), |saved|)
  {
    for i := 0 to |saved|
      invariant tree.root == AfterChanges(old(tree.root), Overwrites(saved), i)
    {
      assert Overwrites(saved)[i] == Overwrite(saved[i].path, saved[i].ratios);
      var _ := tree.SetRatios(saved[i].path, saved[i].ratios);
    }
  }

  /** Every entry holds what `t` has there. */
  ghost predicate TakenFrom(saved: seq<Saved>, t: LayoutNode) {
    forall k :: 0 <= k < |saved| ==> RatiosAt(t, saved[k].path) == Some(saved[k].ratios)
  }

  ghost predicate Mentions(saved: seq<Saved>, n: nat, path: SplitPath)
    requires n <= |saved|
  {
    exists k :: 0 <= k < n && saved[k].path == path
  }

  lemma {:induction false} SameShapeRatios(a: LayoutNode, b: LayoutNode, path: SplitPath)
    requires SameShape(a, b)
    ensures RatiosAt(a, path).Some? <==> RatiosAt(b, path).Some?
    ensures RatiosAt(a, path).Some? ==> |RatiosAt(a, path).value| == |RatiosAt(b, path).value|
    decreases |path|
  {
    if a.Split? && path != [] && path[0] < |a.children| {
      SameShapeRatios(a.children[path[0]], b.children[path[0]], path[1..]);
    }
  }

  /** Two trees of the same shape with the same ratios everywhere are equal. */
  lemma {:induction false} SameRatiosSameTree(a: LayoutNode, b: LayoutNode)
    requires SameShape(a, b)
    requires forall path :: RatiosAt(a, path).Some? ==> RatiosAt(b, path) == RatiosAt(a, path)
    ensures a == b
  {
    if a.Split? {
      assert RatiosAt(a, []) == Some(a.ratios) && RatiosAt(b, []) == Some(b.ratios);
      forall i | 0 <= i < |a.children| ensures a.children[i] == b.children[i] {
        forall path | RatiosAt(a.children[i], path).Some?
          ensures RatiosAt(b.children[i], path) == RatiosAt(a.children[i], path)
        {
          var longer := [i] + path;
          assert longer[0] == i && longer[1..] == path;
          assert RatiosAt(a, longer) == RatiosAt(a.children[i], path);
          assert RatiosAt(b, longer) == RatiosAt(b.children[i], path);
        }
        SameRatiosSameTree(a.children[i], b.children[i]);
      }
    }
  }

  /** Applied to a tree of the same shape, the mentioned splits become those of `t`. */
  lemma {:induction false} AppliedAt(t: LayoutNode, u: LayoutNode, saved: seq<Saved>, n: nat, path: SplitPath)
    requires Normal(t) && Normal(u) && SameShape(t, u) && TakenFrom(saved, t)
    requires n <= |saved|
    ensures RatiosAt(AfterChanges(u, Overwrites(saved), n), path)
         == if Mentions(saved, n, path) then RatiosAt(t, path) else RatiosAt(u, path)
  {
    if n > 0 {
      AppliedAt(t, u, saved, n - 1, path);
      var before, s := AfterChanges(u, Overwrites(saved), n - 1), saved[n - 1];
      assert Overwrites(saved)[n - 1] == Overwrite(s.path, s.ratios);
      RunKeeps(u, Overwrites(saved), n - 1, path);
      SameShapeTransitive(t, u, before);
      SameShapeRatios(t, before, s.path);
      RatioCount(t, s.path);
      ScaledTotal(s.ratios);
      RatiosAtWith(before, s.path, s.ratios, path);
    }
  }

  /**
   * Main result. For any two trees of the same shape, with at most 256 children per
   * split: applying the snapshot of one to the other gives the first one back.
   */
  lemma SnapshotRestores(t: LayoutNode, u: LayoutNode)
    requires Normal(t) && Normal(u) && SameShape(t, u) && Narrow(t)
    ensures AfterChanges(u, Overwrites(Snapshot(t, [])), |Snapshot(t, [])|) == t
  {
    var saved := Snapshot(t, []);
    var r := AfterChanges(u, Overwrites(saved), |saved|);
    SnapshotTakenFrom(t);
    RunKeeps(u, Overwrites(saved), |saved|, []);
    SameShapeTransitive(t, u, r);
    forall path | RatiosAt(t, path).Some? ensures RatiosAt(r, path) == RatiosAt(t, path) {
      AppliedAt(t, u, saved, |saved|, path);
      SnapshotMentions(t, path);
    }
    SameRatiosSameTree(t, r);
  }

  lemma SnapshotTakenFrom(t: LayoutNode)
    requires Narrow(t)
    ensures TakenFrom(Snapshot(t, []), t)
  {
    forall k | 0 <= k < |Snapshot(t, [])|
      ensures RatiosAt(t, Snapshot(t, [])[k].path) == Some(Snapshot(t, [])[k].ratios)
    {
      SnapshotEntry(t, t, [], k);
    }
  }

  lemma SnapshotMentions(t: LayoutNode, path: SplitPath)
    requires Narrow(t) && RatiosAt(t, path).Some?
    ensures Mentions(Snapshot(t, []), |Snapshot(t, [])|, path)
  {
    var k := SnapshotComplete(t, [], path);
    assert [] + path == path;
  }
}
