/** What normalising, saving and loading the left-column tabs guarantees. */
module LeftTabsProofs {
  import opened Prelude
  import opened LeftTabs

  // ---- The normal form ----------------------------------------------------------------------

  /** A permutation of the catalog, the anchor first and visible, the companion right behind Git. */
  ghost predicate IsNormal(list: seq<LeftTab>, catalog: seq<string>, anchor: string) {
    && Covers(list, catalog)
    && |list| > 0 && list[0] == LeftTab(anchor, true)
    && (anchor == ANCHOR_BOTTOM && COMPANION in catalog ==> |list| > 1 && list[1].id == COMPANION)
  }

  /** The tab the user's list asks for: its first occurrence, else a visible one. */
  function Preference(list: seq<LeftTab>, id: string): LeftTab {
    if Has(list, id) then list[Position(list, id)] else LeftTab(id, true)
  }

  /** Listed ids rank by first occurrence, all before unlisted ones, which rank as in the catalog. */
  function Rank(list: seq<LeftTab>, catalog: seq<string>, id: string): nat {
    if Has(list, id) then Position(list, id) else |list| + CatalogIndex(catalog, id)
  }

  function CatalogIndex(catalog: seq<string>, id: string): (i: nat)
    ensures i <= |catalog|
    ensures i < |catalog| ==> catalog[i] == id
    ensures forall j :: 0 <= j < i ==> catalog[j] != id
  {
    CatalogIndexFrom(catalog, 0, id)
  }

  function CatalogIndexFrom(catalog: seq<string>, start: nat, id: string): (i: nat)
    requires start <= |catalog|
    ensures start <= i <= |catalog|
    ensures i < |catalog| ==> catalog[i] == id
    ensures forall j :: start <= j < i ==> catalog[j] != id
    decreases |catalog| - start
  {
    if start == |catalog| || catalog[start] == id then start else CatalogIndexFrom(catalog, start + 1, id)
  }

  /** Tabs other than the anchor and, in the bottom group, the companion. */
  predicate Free(id: string, anchor: string) {
    id != anchor && (anchor == ANCHOR_BOTTOM ==> id != COMPANION)
  }

  /** Free tabs stand in the order the user's list and the catalog give. */
  ghost predicate InOrder(r: seq<LeftTab>, list: seq<LeftTab>, catalog: seq<string>, anchor: string) {
    forall i, j :: 0 <= i < j < |r| && Free(r[i].id, anchor) && Free(r[j].id, anchor) ==>
      Rank(list, catalog, r[i].id) < Rank(list, catalog, r[j].id)
  }

  /** Every tab but the anchor is the one the user's list asks for. */
  ghost predicate AsPreferred(r: seq<LeftTab>, list: seq<LeftTab>, anchor: string) {
    forall i :: 0 <= i < |r| && r[i].id != anchor ==> r[i] == Preference(list, r[i].id)
  }

  // ---- Reconciling ------------------------------------------------------------------------------

  /** Retained tabs are preferences, ranked by their place in the list. */
  ghost predicate RankedBelow(r: seq<LeftTab>, list: seq<LeftTab>, catalog: seq<string>, bound: nat) {
    && (forall i :: 0 <= i < |r| ==> Rank(list, catalog, r[i].id) < bound && r[i] == Preference(list, r[i].id))
    && (forall i, j :: 0 <= i < j < |r| ==> Rank(list, catalog, r[i].id) < Rank(list, catalog, r[j].id))
  }

  lemma RankedSnoc(r: seq<LeftTab>, t: LeftTab, list: seq<LeftTab>, catalog: seq<string>, bound: nat)
    requires RankedBelow(r, list, catalog, bound)
    requires t == Preference(list, t.id) && Rank(list, catalog, t.id) == bound
    ensures RankedBelow(r + [t], list, catalog, bound + 1)
  {
  }

  lemma FirstOccurrence(list: seq<LeftTab>, n: nat)
    requires n < |list| && !HasBelow(list, n, list[n].id)
    ensures Position(list, list[n].id) == n && Has(list, list[n].id)
  {
  }

  lemma {:induction false} RetainedRanked(list: seq<LeftTab>, n: nat, catalog: seq<string>)
    requires n <= |list|
    ensures RankedBelow(Retained(list, n, catalog), list, catalog, n)
  {
    if n > 0 {
      RetainedRanked(list, n - 1, catalog);
      var t, before := list[n - 1], Retained(list, n - 1, catalog);
      if t.id in catalog && !HasBelow(list, n - 1, t.id) {
        FirstOccurrence(list, n - 1);
        RankedSnoc(before, t, list, catalog, n - 1);
      }
    }
  }

  lemma CatalogIndexFirst(catalog: seq<string>, n: nat)
    requires n < |catalog| && catalog[n] !in catalog[..n]
    ensures CatalogIndex(catalog, catalog[n]) == n
  {
    forall j | 0 <= j < n ensures catalog[j] != catalog[n] {
      assert catalog[..n][j] == catalog[j];
    }
  }

  lemma {:induction false} ReconciledRanked(list: seq<LeftTab>, catalog: seq<string>, n: nat)
    requires n <= |catalog|
    ensures var kept := Retained(list, |list|, catalog);
            RankedBelow(kept + Missing(kept, catalog, n), list, catalog, |list| + n)
  {
    var kept := Retained(list, |list|, catalog);
    if n == 0 {
      RetainedRanked(list, |list|, catalog);
      AppendEmpty(kept);
    } else {
      ReconciledRanked(list, catalog, n - 1);
      var id, before := catalog[n - 1], Missing(kept, catalog, n - 1);
      if !Has(kept, id) && id !in catalog[..n - 1] {
        var t := LeftTab(id, true);
        RetainedProps(list, |list|, catalog);
        CatalogIndexFirst(catalog, n - 1);
        assert !Has(list, id);
        RankedSnoc(kept + before, t, list, catalog, |list| + n - 1);
        AppendAssoc(kept, before, [t]);
      }
    }
  }

  // ---- Moving the pinned tabs -------------------------------------------------------------------

  /** Moving a pinned tab leaves the free ones in order. */
  lemma MovedInOrder(
      r: seq<LeftTab>, pos: nat, at: nat, x: LeftTab, list: seq<LeftTab>, catalog: seq<string>, anchor: string)
    requires pos < |r| && at < |r| && x.id == r[pos].id && !Free(x.id, anchor)
    requires InOrder(r, list, catalog, anchor)
    ensures InOrder(Moved(r, pos, at, x), list, catalog, anchor)
  {
    var m := Moved(r, pos, at, x);
    forall i, j | 0 <= i < j < |m| && Free(m[i].id, anchor) && Free(m[j].id, anchor)
      ensures Rank(list, catalog, m[i].id) < Rank(list, catalog, m[j].id)
    {
      MovedAt(r, pos, at, x, i);
      MovedAt(r, pos, at, x, j);
      assert m[at] == x;
      assert Origin(i, pos, at) < Origin(j, pos, at);
    }
  }

  lemma MovedAsPreferred(r: seq<LeftTab>, pos: nat, at: nat, x: LeftTab, list: seq<LeftTab>, anchor: string)
    requires pos < |r| && at < |r|
    requires x == r[pos] || x.id == anchor
    requires AsPreferred(r, list, anchor)
    ensures AsPreferred(Moved(r, pos, at, x), list, anchor)
  {
    var m := Moved(r, pos, at, x);
    forall i | 0 <= i < |m| && m[i].id != anchor ensures m[i] == Preference(list, m[i].id) {
      if i != at {
        assert m[i] == r[Origin(i, pos, at)];
      }
    }
  }

  /**
   * Main result. With the anchor in the catalog, the normalised list is a duplicate-free
   * permutation of the catalog with the pinned tabs in place; every other tab
   * has the visibility of its first occurrence (visible when unlisted), and the
   * free tabs keep their order of first occurrence, unlisted ones last in catalog order.
   */
  lemma NormalizedGroupMeaning(list: seq<LeftTab>, catalog: seq<string>, anchor: string)
    requires !Panics(catalog, anchor) && anchor in catalog
    ensures IsNormal(NormalizedGroup(list, catalog, anchor), catalog, anchor)
    ensures AsPreferred(NormalizedGroup(list, catalog, anchor), list, anchor)
    ensures InOrder(NormalizedGroup(list, catalog, anchor), list, catalog, anchor)
  {
    var r := Reconciled(list, catalog);
    var h := Hoisted(r, catalog, anchor);
    ReconciledCovers(list, catalog);
    ReconciledRanked(list, catalog, |catalog|);
    HoistedCovers(r, catalog, anchor);
    PanicFreeIff(list, catalog, anchor);
    assert Has(r, anchor);
    var pos := Position(r, anchor);
    var tab := r[pos].(visible := true);
    MovedInOrder(r, pos, 0, tab, list, catalog, anchor);
    MovedAsPreferred(r, pos, 0, tab, list, anchor);
    CompanionKeeps(h, list, catalog, anchor);
  }

  lemma CompanionKeeps(h: seq<LeftTab>, list: seq<LeftTab>, catalog: seq<string>, anchor: string)
    requires CanPlaceCompanion(h, anchor)
    requires Covers(h, catalog) && |h| > 0 && h[0] == LeftTab(anchor, true)
    requires InOrder(h, list, catalog, anchor) && AsPreferred(h, list, anchor)
    ensures IsNormal(CompanionPlaced(h, anchor), catalog, anchor)
    ensures InOrder(CompanionPlaced(h, anchor), list, catalog, anchor)
    ensures AsPreferred(CompanionPlaced(h, anchor), list, anchor)
  {
    var at := Position(h, COMPANION);
    assert COMPANION in catalog ==> Has(h, COMPANION);
    if anchor == ANCHOR_BOTTOM && at < |h| {
      MovedCovers(h, at, 1, h[at], catalog);
      MovedInOrder(h, at, 1, h[at], list, catalog, anchor);
      MovedAsPreferred(h, at, 1, h[at], list, anchor);
    }
  }

  // ---- Fixed points -----------------------------------------------------------------------------

  lemma {:induction false} RetainedAll(list: seq<LeftTab>, n: nat, catalog: seq<string>)
    requires n <= |list| && Covers(list, catalog)
    ensures Retained(list, n, catalog) == list[..n]
  {
    if n > 0 {
      RetainedAll(list, n - 1, catalog);
      var t := list[n - 1];
      assert Has(list, t.id);
      assert list[..n] == list[..n - 1] + [t];
    }
  }

  lemma {:induction false} MissingNothing(list: seq<LeftTab>, catalog: seq<string>, n: nat)
    requires n <= |catalog| && Covers(list, catalog)
    ensures Missing(list, catalog, n) == []
  {
    if n > 0 {
      MissingNothing(list, catalog, n - 1);
      assert catalog[n - 1] in catalog;
    }
  }

  lemma MovedToItself(list: seq<LeftTab>, pos: nat)
    requires pos < |list|
    ensures Moved(list, pos, pos, list[pos]) == list
  {
  }

  lemma ReconciledIsSame(list: seq<LeftTab>, catalog: seq<string>)
    requires Covers(list, catalog)
    ensures Reconciled(list, catalog) == list
  {
    RetainedAll(list, |list|, catalog);
    assert list[..|list|] == list;
    MissingNothing(list, catalog, |catalog|);
    AppendEmpty(list);
  }

  lemma PinnedStay(list: seq<LeftTab>, catalog: seq<string>, anchor: string)
    requires IsNormal(list, catalog, anchor) && CanPlaceCompanion(list, anchor)
    ensures Hoisted(list, catalog, anchor) == list
    ensures CompanionPlaced(list, anchor) == list
  {
    assert Position(list, anchor) == 0;
    MovedToItself(list, 0);
    var at := Position(list, COMPANION);
    if anchor == ANCHOR_BOTTOM && at < |list| {
      assert Has(list, COMPANION);
      MovedToItself(list, 1);
    }
  }

  /** Exactly the normal lists are left alone. */
  lemma FixedIffNormal(list: seq<LeftTab>, catalog: seq<string>, anchor: string)
    requires !Panics(catalog, anchor) && anchor in catalog
    ensures NormalizedGroup(list, catalog, anchor) == list <==> IsNormal(list, catalog, anchor)
  {
    if IsNormal(list, catalog, anchor) {
      ReconciledIsSame(list, catalog);
      PanicFreeIff(list, catalog, anchor);
      assert Has(list, anchor);
      assert Has(list, COMPANION) ==> COMPANION in catalog;
      PinnedStay(list, catalog, anchor);
    } else {
      NormalizedGroupMeaning(list, catalog, anchor);
    }
  }

  /** Normalising twice is normalising once. */
  lemma NormalizeIdempotent(s: Tabs, c: Catalogs)
    requires c.Usable() && ANCHOR_TOP in c.top && ANCHOR_BOTTOM in c.bottom
    ensures Normalized(Normalized(s, c), c) == Normalized(s, c)
  {
    var n := Normalized(s, c);
    NormalizedGroupMeaning(s.top, c.top, ANCHOR_TOP);
    NormalizedGroupMeaning(s.bottom, c.bottom, ANCHOR_BOTTOM);
    FixedIffNormal(n.top, c.top, ANCHOR_TOP);
    FixedIffNormal(n.bottom, c.bottom, ANCHOR_BOTTOM);
  }

  // ---- Saving and loading -----------------------------------------------------------------------

  function Defaults(catalog: seq<string>): seq<LeftTab> {
    seq(|catalog|, i requires 0 <= i < |catalog| => LeftTab(catalog[i], true))
  }

  lemma DefaultIff(list: seq<LeftTab>, catalog: seq<string>)
    ensures GroupIsDefault(list, catalog) <==> list == Defaults(catalog)
  {
    if GroupIsDefault(list, catalog) {
      assert forall i :: 0 <= i < |list| ==> list[i] == Defaults(catalog)[i];
    }
  }

  lemma {:induction false} RetainedDefaults(catalog: seq<string>, n: nat)
    requires n <= |catalog|
    ensures Retained(Defaults(catalog), n, catalog) == Missing([], catalog, n)
  {
    if n > 0 {
      RetainedDefaults(catalog, n - 1);
      var d, id := Defaults(catalog), catalog[n - 1];
      assert d[n - 1] == LeftTab(id, true) && id in catalog;
      DefaultsHave(catalog, n - 1, id);
      assert !Has([], id);
    }
  }

  lemma DefaultsHave(catalog: seq<string>, n: nat, id: string)
    requires n <= |catalog|
    ensures HasBelow(Defaults(catalog), n, id) <==> id in catalog[..n]
  {
    var d := Defaults(catalog);
    if id in catalog[..n] {
      var i :| 0 <= i < n && catalog[..n][i] == id;
      assert d[i].id == id;
    }
    if HasBelow(d, n, id) {
      var i :| 0 <= i < n && d[i].id == id;
      assert catalog[..n][i] == id;
    }
  }

  /** An empty list and the default list are the same preference. */
  lemma EmptyIsDefault(catalog: seq<string>, anchor: string)
    requires !Panics(catalog, anchor)
    ensures NormalizedGroup([], catalog, anchor) == NormalizedGroup(Defaults(catalog), catalog, anchor)
  {
    var d := Defaults(catalog);
    var kept := Retained(d, |d|, catalog);
    RetainedDefaults(catalog, |catalog|);
    ReconciledCovers([], catalog);
    assert Retained([], 0, catalog) == [];
    assert Reconciled([], catalog) == kept;
    MissingNothing(kept, catalog, |catalog|);
    AppendEmpty(kept);
  }

  /**
   * Main result. Deleting the file on defaults loses nothing: for every state and
   * catalogs, saving and loading gives a state that normalises to the same one.
   */
  lemma SaveLoadNormalize(s: Tabs, c: Catalogs)
    requires c.Usable()
    ensures Normalized(Loaded(Stored(s, c)), c) == Normalized(s, c)
  {
    DefaultIff(s.top, c.top);
    DefaultIff(s.bottom, c.bottom);
    if MatchesDefaults(s, c) {
      EmptyIsDefault(c.top, ANCHOR_TOP);
      EmptyIsDefault(c.bottom, ANCHOR_BOTTOM);
    }
  }

  /** A normalised state comes back exactly. */
  lemma NormalizedSurvives(s: Tabs, c: Catalogs)
    requires c.Usable() && Normalized(s, c) == s
    ensures Normalized(Loaded(Stored(s, c)), c) == s
  {
    SaveLoadNormalize(s, c);
  }

  /**
   * With catalogs that are themselves in normal order, a normalised state leaves
   * no file behind exactly when it is what a fresh install gets.
   */
  lemma NoFileIffFresh(s: Tabs, c: Catalogs)
    requires c.Usable() && ANCHOR_TOP in c.top && ANCHOR_BOTTOM in c.bottom
    requires IsNormal(Defaults(c.top), c.top, ANCHOR_TOP) && IsNormal(Defaults(c.bottom), c.bottom, ANCHOR_BOTTOM)
    ensures Stored(s, c) == None <==> s == Normalized(Loaded(None), c)
  {
    DefaultIff(s.top, c.top);
    DefaultIff(s.bottom, c.bottom);
    EmptyIsDefault(c.top, ANCHOR_TOP);
    EmptyIsDefault(c.bottom, ANCHOR_BOTTOM);
    FixedIffNormal(Defaults(c.top), c.top, ANCHOR_TOP);
    FixedIffNormal(Defaults(c.bottom), c.bottom, ANCHOR_BOTTOM);
  }
}
