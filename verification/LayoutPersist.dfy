/** The layout file: only ratios that differ from the defaults, keyed by encoded path. */
module LayoutPersist {
  import opened Prelude
  import opened LayoutTrees
  import opened LayoutRatios
  import opened LayoutDividers
  import opened LayoutState

  /** `RATIO_DIFF_EPS`. */
  const TOLERANCE: real := 0.0001

  predicate Near(x: real, y: real) {
    -TOLERANCE < x - y < TOLERANCE
  }

  /** `ratios_equal_approx`. */
  predicate Close(a: seq<real>, b: seq<real>) {
    |a| == |b| && forall i :: 0 <= i < |a| ==> Near(a[i], b[i])
  }

  /** Index of the first entry for `path`, from `start` on; the length when there is none. */
  function IndexOf(saved: seq<Saved>, start: nat, path: SplitPath): (i: nat)
    requires start <= |saved|
    ensures start <= i <= |saved|
    ensures i < |saved| ==> saved[i].path == path
    ensures forall j :: start <= j < i ==> saved[j].path != path
    decreases |saved| - start
  {
    if start == |saved| || saved[start].path == path then start else IndexOf(saved, start + 1, path)
  }

  predicate Keep(s: Saved, defaults: seq<Saved>) {
    var i := IndexOf(defaults, 0, s.path);
    i < |defaults| ==> !Close(s.ratios, defaults[i].ratios)
  }

  function Pruned(current: seq<Saved>, defaults: seq<Saved>, n: nat): seq<Saved>
    requires n <= |current|
  {
    if n == 0 then []
    else if Keep(current[n - 1], defaults) then Pruned(current, defaults, n - 1) + [current[n - 1]]
    else Pruned(current, defaults, n - 1)
  }

  /** `prune_to_diff`. */
  method PruneToDiff(current: seq<Saved>, defaults: seq<Saved>) returns (out: seq<Saved>)
    ensures out == Pruned(current, defaults, |current|)
  {
    out := [];
    for i := 0 to |current|
      invariant out == Pruned(current, defaults, i)
    {
      var at := IndexOf(defaults, 0, current[i].path);
      if at == |defaults| || !Close(current[i].ratios, defaults[at].ratios) {
        out := out + [current[i]];
      }
    }
  }

  /** The saved map after the first `n` entries. */
  function Keyed(saved: seq<Saved>, n: nat): map<string, seq<real>>
    requires n <= |saved|
  {
    if n == 0 then map[] else Keyed(saved, n - 1)[EncodePath(saved[n - 1].path) := saved[n - 1].ratios]
  }

  function PersistedState(t: LayoutNode, defaults: seq<Saved>): map<string, seq<real>> {
    var kept := Pruned(Snapshot(t, []), defaults, |Snapshot(t, [])|);
    Keyed(kept, |kept|)
  }

  /** `snapshot_persisted_state`. */
  method SnapshotPersistedState(tree: LayoutTree, defaults: seq<Saved>) returns (splits: map<string, seq<real>>)
    ensures splits == PersistedState(tree.root, defaults)
  {
    var current := WalkSnapshot(tree.root, [], []);
    AppendEmpty(Snapshot(tree.root, []));
    var pruned := PruneToDiff(current, defaults);
    splits := map[];
    for i := 0 to |pruned|
      invariant splits == Keyed(pruned, i)
    {
      splits := splits[EncodePath(pruned[i].path) := pruned[i].ratios];
    }
  }

  /** The entries of a saved map in the order of `keys`. */
  function Entries(splits: map<string, seq<real>>, keys: seq<string>): (r: seq<Saved>)
    requires forall k :: k in keys ==> k in splits
    ensures |r| == |keys|
  {
    seq(|keys|, i requires 0 <= i < |keys| => Saved(DecodePath(keys[i]), splits[keys[i]]))
  }

  /** `keys` lists the keys of the map. */
  ghost predicate Lists(keys: seq<string>, splits: map<string, seq<real>>) {
    forall k :: k in keys <==> k in splits
  }

  /** `apply_persisted_state`; the order in which the map is walked is left open. */
  method ApplyPersistedState(tree: LayoutTree, splits: map<string, seq<real>>) returns (ghost keys: seq<string>)
    modifies tree
    ensures Lists(keys, splits)
    ensures tree.root
         == AfterChanges(old(tree.root), Overwrites(Entries(splits, keys)), |Overwrites(Entries(splits, keys))|)
  {
    var rest := splits.Keys;
    var order: seq<string> := [];
    while rest != {}
      invariant rest <= splits.Keys
      invariant forall k :: k in order <==> k in splits && k !in rest
      decreases |rest|
    {
      var k :| k in rest;
      order := order + [k];
      rest := rest - {k};
    }
    keys := order;
    for i := 0 to |order|
      invariant tree.root == AfterChanges(old(tree.root), Overwrites(Entries(splits, keys)), i)
    {
      assert order[i] in order;
      assert Overwrites(Entries(splits, keys))[i] == Overwrite(DecodePath(order[i]), splits[order[i]]);
      var _ := tree.SetRatios(DecodePath(order[i]), splits[order[i]]);
    }
  }

  // ---- What the saved map holds -------------------------------------------------------------------

  lemma {:induction false} PrunedFrom(current: seq<Saved>, defaults: seq<Saved>, n: nat, i: nat) returns (j: nat)
    requires n <= |current| && i < |Pruned(current, defaults, n)|
    ensures j < n && current[j] == Pruned(current, defaults, n)[i] && Keep(current[j], defaults)
  {
    if i < |Pruned(current, defaults, n - 1)| {
      j := PrunedFrom(current, defaults, n - 1, i);
    } else {
      j := n - 1;
    }
  }

  lemma {:induction false} PrunedHas(current: seq<Saved>, defaults: seq<Saved>, n: nat, j: nat) returns (i: nat)
    requires j < n <= |current| && Keep(current[j], defaults)
    ensures i < |Pruned(current, defaults, n)| && Pruned(current, defaults, n)[i] == current[j]
  {
    if j == n - 1 {
      i := |Pruned(current, defaults, n - 1)|;
    } else {
      i := PrunedHas(current, defaults, n - 1, j);
    }
  }

  lemma {:induction false} KeyedFrom(saved: seq<Saved>, n: nat, key: string) returns (i: nat)
    requires n <= |saved| && key in Keyed(saved, n)
    ensures i < n && key == EncodePath(saved[i].path) && Keyed(saved, n)[key] == saved[i].ratios
  {
    if key == EncodePath(saved[n - 1].path) {
      i := n - 1;
    } else {
      i := KeyedFrom(saved, n - 1, key);
    }
  }

  lemma {:induction false} KeyedHas(saved: seq<Saved>, n: nat, i: nat)
    requires i < n <= |saved|
    ensures EncodePath(saved[i].path) in Keyed(saved, n)
  {
    if i < n - 1 {
      KeyedHas(saved, n - 1, i);
    }
  }

  /** The ratios of `t` at `path` count as changed. */
  predicate Differs(t: LayoutNode, d: LayoutNode, path: SplitPath) {
    RatiosAt(t, path).Some? && RatiosAt(d, path).Some? && !Close(RatiosAt(t, path).value, RatiosAt(d, path).value)
  }

  /** An entry of `t` is kept exactly when it differs from the default tree. */
  lemma KeepIffDiffers(t: LayoutNode, d: LayoutNode, s: Saved)
    requires SameShape(t, d) && Narrow(d) && RatiosAt(t, s.path) == Some(s.ratios)
    ensures Keep(s, Snapshot(d, [])) <==> Differs(t, d, s.path)
  {
    SameShapeRatios(t, d, s.path);
    var k := SnapshotComplete(d, [], s.path);
    assert [] + s.path == s.path;
    var i := IndexOf(Snapshot(d, []), 0, s.path);
    SnapshotEntry(d, d, [], i);
  }

  /** Both trees as the layout file sees them. */
  ghost predicate Comparable(t: LayoutNode, d: LayoutNode) {
    Normal(t) && Normal(d) && SameShape(t, d) && Narrow(t) && Narrow(d)
  }

  /** Every saved key is the path of a split that differs, with its ratios. */
  lemma SavedKey(t: LayoutNode, d: LayoutNode, key: string)
    requires Comparable(t, d) && key in PersistedState(t, Snapshot(d, []))
    ensures Differs(t, d, DecodePath(key))
    ensures RatiosAt(t, DecodePath(key)) == Some(PersistedState(t, Snapshot(d, []))[key])
  {
    var current, defaults := Snapshot(t, []), Snapshot(d, []);
    var kept := Pruned(current, defaults, |current|);
    var i := KeyedFrom(kept, |kept|, key);
    var j := PrunedFrom(current, defaults, |current|, i);
    SnapshotEntry(t, t, [], j);
    NarrowPaths(t, current[j].path);
    DecodeEncode(current[j].path);
    KeepIffDiffers(t, d, current[j]);
  }

  /** Every split that differs is saved under its encoded path. */
  lemma DifferingIsSaved(t: LayoutNode, d: LayoutNode, path: SplitPath)
    requires Comparable(t, d) && Differs(t, d, path)
    ensures EncodePath(path) in PersistedState(t, Snapshot(d, []))
  {
    var current, defaults := Snapshot(t, []), Snapshot(d, []);
    var j := SnapshotComplete(t, [], path);
    assert [] + path == path;
    SnapshotEntry(t, t, [], j);
    KeepIffDiffers(t, d, current[j]);
    var i := PrunedHas(current, defaults, |current|, j);
    var kept := Pruned(current, defaults, |current|);
    KeyedHas(kept, |kept|, i);
  }

  // ---- A restart ------------------------------------------------------------------------------------

  lemma EntriesTakenFrom(t: LayoutNode, d: LayoutNode, keys: seq<string>)
    requires Comparable(t, d) && Lists(keys, PersistedState(t, Snapshot(d, [])))
    ensures TakenFrom(Entries(PersistedState(t, Snapshot(d, [])), keys), t)
  {
    var splits := PersistedState(t, Snapshot(d, []));
    forall k | 0 <= k < |keys|
      ensures RatiosAt(t, Entries(splits, keys)[k].path) == Some(Entries(splits, keys)[k].ratios)
    {
      assert keys[k] in keys;
      SavedKey(t, d, keys[k]);
    }
  }

  lemma EntriesMention(t: LayoutNode, d: LayoutNode, keys: seq<string>, path: SplitPath)
    requires Comparable(t, d) && Lists(keys, PersistedState(t, Snapshot(d, [])))
    ensures var saved := Entries(PersistedState(t, Snapshot(d, [])), keys);
            Mentions(saved, |saved|, path) <==> Differs(t, d, path)
  {
    var splits := PersistedState(t, Snapshot(d, []));
    var saved := Entries(splits, keys);
    if Mentions(saved, |saved|, path) {
      var k :| 0 <= k < |saved| && saved[k].path == path;
      assert keys[k] in keys;
      SavedKey(t, d, keys[k]);
    }
    if Differs(t, d, path) {
      DifferingIsSaved(t, d, path);
      NarrowPaths(t, path);
      DecodeEncode(path);
      var k :| 0 <= k < |keys| && keys[k] == EncodePath(path);
      assert saved[k].path == path;
    }
  }

  /** The tree after saving `t` and loading into the default tree `d`. */
  function Restarted(t: LayoutNode, d: LayoutNode, keys: seq<string>): LayoutNode
    requires forall k :: k in keys ==> k in PersistedState(t, Snapshot(d, []))
  {
    var saved := Entries(PersistedState(t, Snapshot(d, [])), keys);
    AfterChanges(d, Overwrites(saved), |saved|)
  }

  /**
   * Main result. For every layout and every default layout of the same shape: after
   * saving and loading, in whatever order the file is walked, a split has exactly
   * its saved ratios, or its default ratios when those were within the tolerance.
   */
  lemma RestartRestores(t: LayoutNode, d: LayoutNode, keys: seq<string>, path: SplitPath)
    requires Comparable(t, d) && Lists(keys, PersistedState(t, Snapshot(d, [])))
    requires RatiosAt(t, path).Some?
    ensures SameShape(t, Restarted(t, d, keys)) && Normal(Restarted(t, d, keys))
    ensures RatiosAt(Restarted(t, d, keys), path)
         == if Differs(t, d, path) then RatiosAt(t, path) else RatiosAt(d, path)
  {
    var saved := Entries(PersistedState(t, Snapshot(d, [])), keys);
    EntriesTakenFrom(t, d, keys);
    AppliedAt(t, d, saved, |saved|, path);
    EntriesMention(t, d, keys, path);
    RunKeeps(d, Overwrites(saved), |saved|, path);
    SameShapeTransitive(t, d, Restarted(t, d, keys));
  }

  /** No ratio moves by the tolerance or more. */
  lemma RestartIsClose(t: LayoutNode, d: LayoutNode, keys: seq<string>, path: SplitPath)
    requires Comparable(t, d) && Lists(keys, PersistedState(t, Snapshot(d, [])))
    requires RatiosAt(t, path).Some?
    ensures RatiosAt(Restarted(t, d, keys), path).Some?
         && Close(RatiosAt(t, path).value, RatiosAt(Restarted(t, d, keys), path).value)
  {
    RestartRestores(t, d, keys, path);
    SameShapeRatios(t, d, path);
  }

  /** The file is empty exactly when no split differs from its default. */
  lemma NothingSavedIff(t: LayoutNode, d: LayoutNode)
    requires Comparable(t, d)
    ensures PersistedState(t, Snapshot(d, [])) == map[] <==> forall path :: !Differs(t, d, path)
  {
    var splits := PersistedState(t, Snapshot(d, []));
    if splits != map[] {
      var key :| key in splits;
      SavedKey(t, d, key);
    }
    forall path | Differs(t, d, path) ensures splits != map[] {
      DifferingIsSaved(t, d, path);
    }
  }
}
