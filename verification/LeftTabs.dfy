/** The persisted order and visibility of the two left-column tab groups. */
module LeftTabs {
  import opened Prelude

  datatype LeftTab = LeftTab(id: string, visible: bool)

  const ANCHOR_TOP := "files"
  const ANCHOR_BOTTOM := "git"
  const COMPANION := "glab"

  /** One of the first `n` tabs has this id. */
  predicate HasBelow(list: seq<LeftTab>, n: nat, id: string)
    requires n <= |list|
  {
    exists i :: 0 <= i < n && list[i].id == id
  }

  predicate Has(list: seq<LeftTab>, id: string) {
    HasBelow(list, |list|, id)
  }

  predicate UniqueIds(list: seq<LeftTab>) {
    forall i, j :: 0 <= i < j < |list| ==> list[i].id != list[j].id
  }

  /** `position`: index of the first tab with this id; the length when there is none. */
  function Position(list: seq<LeftTab>, id: string): (i: nat)
    ensures i <= |list|
    ensures i < |list| ==> list[i].id == id
    ensures forall j :: 0 <= j < i ==> list[j].id != id
  {
    PositionFrom(list, 0, id)
  }

  function PositionFrom(list: seq<LeftTab>, start: nat, id: string): (i: nat)
    requires start <= |list|
    ensures start <= i <= |list|
    ensures i < |list| ==> list[i].id == id
    ensures forall j :: start <= j < i ==> list[j].id != id
    decreases |list| - start
  {
    if start == |list| || list[start].id == id then start else PositionFrom(list, start + 1, id)
  }

  // ---- What normalising does to one group ---------------------------------------------------

  /** The tabs that stay among the first `n`: known ones, at their first occurrence. */
  function Retained(list: seq<LeftTab>, n: nat, catalog: seq<string>): seq<LeftTab>
    requires n <= |list|
  {
    if n == 0 then [] else
      var t, before := list[n - 1], Retained(list, n - 1, catalog);
      if t.id in catalog && !HasBelow(list, n - 1, t.id) then before + [t] else before
  }

  /** Visible tabs for the first `n` catalog ids that `list` lacks, each id once. */
  function Missing(list: seq<LeftTab>, catalog: seq<string>, n: nat): seq<LeftTab>
    requires n <= |catalog|
  {
    if n == 0 then [] else
      var id, before := catalog[n - 1], Missing(list, catalog, n - 1);
      if !Has(list, id) && id !in catalog[..n - 1] then before + [LeftTab(id, true)] else before
  }

  function Reconciled(list: seq<LeftTab>, catalog: seq<string>): seq<LeftTab> {
    var kept := Retained(list, |list|, catalog);
    kept + Missing(kept, catalog, |catalog|)
  }

  function RemoveAt(list: seq<LeftTab>, pos: nat): (r: seq<LeftTab>)
    requires pos < |list|
    ensures |r| == |list| - 1
  {
    list[..pos] + list[pos + 1..]
  }

  /** `list` without the tab at `pos`, and `x` inserted at `at`. */
  function Moved(list: seq<LeftTab>, pos: nat, at: nat, x: LeftTab): (r: seq<LeftTab>)
    requires pos < |list| && at < |list|
    ensures |r| == |list|
  {
    var rest := RemoveAt(list, pos);
    rest[..at] + [x] + rest[at..]
  }

  function Hoisted(list: seq<LeftTab>, catalog: seq<string>, anchor: string): seq<LeftTab> {
    var pos := Position(list, anchor);
    if pos < |list| then Moved(list, pos, 0, list[pos].(visible := true))
    else if anchor in catalog then [LeftTab(anchor, true)] + list
    else list
  }

  /** Moving the companion to index 1 needs another tab to put it behind. */
  predicate CanPlaceCompanion(list: seq<LeftTab>, anchor: string) {
    anchor == ANCHOR_BOTTOM && Has(list, COMPANION) ==> |list| >= 2
  }

  function CompanionPlaced(list: seq<LeftTab>, anchor: string): seq<LeftTab>
    requires CanPlaceCompanion(list, anchor)
  {
    var pos := Position(list, COMPANION);
    if anchor == ANCHOR_BOTTOM && pos < |list| then Moved(list, pos, 1, list[pos]) else list
  }

  /** `normalize_group` panics on this catalog: the companion is all there is. */
  predicate Panics(catalog: seq<string>, anchor: string) {
    anchor == ANCHOR_BOTTOM && COMPANION in catalog && forall id :: id in catalog ==> id == COMPANION
  }

  function NormalizedGroup(list: seq<LeftTab>, catalog: seq<string>, anchor: string): seq<LeftTab>
    requires !Panics(catalog, anchor)
  {
    PanicFreeIff(list, catalog, anchor);
    CompanionPlaced(Hoisted(Reconciled(list, catalog), catalog, anchor), anchor)
  }

  // ---- The list after each step ---------------------------------------------------------------

  /** Holds exactly the ids of the catalog, each once. */
  ghost predicate Covers(list: seq<LeftTab>, catalog: seq<string>) {
    UniqueIds(list) && forall id :: Has(list, id) <==> id in catalog
  }

  lemma {:induction false} RetainedProps(list: seq<LeftTab>, n: nat, catalog: seq<string>)
    requires n <= |list|
    ensures UniqueIds(Retained(list, n, catalog))
    ensures forall id :: Has(Retained(list, n, catalog), id) <==> id in catalog && HasBelow(list, n, id)
  {
    if n > 0 {
      RetainedProps(list, n - 1, catalog);
      var t, before := list[n - 1], Retained(list, n - 1, catalog);
      if t.id in catalog && !HasBelow(list, n - 1, t.id) {
        assert Retained(list, n, catalog) == before + [t];
        SnocUnique(before, t);
      }
      forall id
        ensures Has(Retained(list, n, catalog), id) <==> id in catalog && HasBelow(list, n, id)
      {
        HasBelowNext(list, n - 1, id);
        HasSnoc(before, t, id);
      }
    }
  }

  lemma HasBelowNext(list: seq<LeftTab>, n: nat, id: string)
    requires n < |list|
    ensures HasBelow(list, n + 1, id) <==> HasBelow(list, n, id) || list[n].id == id
  {
  }

  lemma HasSnoc(list: seq<LeftTab>, t: LeftTab, id: string)
    ensures Has(list + [t], id) <==> Has(list, id) || id == t.id
  {
    var longer := list + [t];
    assert longer[|list|] == t;
    if Has(list, id) {
      var i :| 0 <= i < |list| && list[i].id == id;
      assert longer[i].id == id;
    }
  }

  lemma SnocUnique(list: seq<LeftTab>, t: LeftTab)
    requires UniqueIds(list)
    ensures !Has(list, t.id) ==> UniqueIds(list + [t])
  {
  }

  lemma {:induction false} FilledProps(list: seq<LeftTab>, catalog: seq<string>, n: nat)
    requires n <= |catalog| && UniqueIds(list)
    ensures UniqueIds(list + Missing(list, catalog, n))
    ensures forall id :: Has(list + Missing(list, catalog, n), id) <==> Has(list, id) || id in catalog[..n]
  {
    if n == 0 {
      AppendEmpty(list);
    } else {
      FilledProps(list, catalog, n - 1);
      var id, before := catalog[n - 1], Missing(list, catalog, n - 1);
      var t := LeftTab(id, true);
      assert catalog[..n] == catalog[..n - 1] + [id];
      SnocUnique(list + before, t);
      AppendAssoc(list, before, [t]);
      forall other
        ensures Has(list + Missing(list, catalog, n), other) <==> Has(list, other) || other in catalog[..n]
      {
        HasSnoc(list + before, t, other);
      }
    }
  }

  lemma ReconciledCovers(list: seq<LeftTab>, catalog: seq<string>)
    ensures Covers(Reconciled(list, catalog), catalog)
  {
    RetainedProps(list, |list|, catalog);
    FilledProps(Retained(list, |list|, catalog), catalog, |catalog|);
    assert catalog[..|catalog|] == catalog;
  }

  /** Where the tab at `i` was before the move. */
  function Origin(i: nat, pos: nat, at: nat): nat {
    if i == at then pos else
      var k := if i < at then i else i - 1;
      if k < pos then k else k + 1
  }

  /** Where the tab at `i` is after the move. */
  function Target(i: nat, pos: nat, at: nat): (j: nat)
    ensures Origin(j, pos, at) == i
  {
    if i == pos then at else
      var k := if i < pos then i else i - 1;
      if k < at then k else k + 1
  }

  lemma MovedAt(list: seq<LeftTab>, pos: nat, at: nat, x: LeftTab, i: nat)
    requires pos < |list| && at < |list| && i < |list| && x.id == list[pos].id
    ensures Origin(i, pos, at) < |list| && Target(i, pos, at) < |list|
    ensures Moved(list, pos, at, x)[i].id == list[Origin(i, pos, at)].id
  {
  }

  lemma MovedUnique(list: seq<LeftTab>, pos: nat, at: nat, x: LeftTab)
    requires pos < |list| && at < |list| && x.id == list[pos].id && UniqueIds(list)
    ensures UniqueIds(Moved(list, pos, at, x))
  {
    var m := Moved(list, pos, at, x);
    forall i, j | 0 <= i < j < |m| ensures m[i].id != m[j].id {
      MovedAt(list, pos, at, x, i);
      MovedAt(list, pos, at, x, j);
    }
  }

  lemma MovedHas(list: seq<LeftTab>, pos: nat, at: nat, x: LeftTab, id: string)
    requires pos < |list| && at < |list| && x.id == list[pos].id
    ensures Has(Moved(list, pos, at, x), id) <==> Has(list, id)
  {
    var m := Moved(list, pos, at, x);
    if Has(m, id) {
      var i :| 0 <= i < |m| && m[i].id == id;
      MovedAt(list, pos, at, x, i);
    }
    if Has(list, id) {
      var i :| 0 <= i < |list| && list[i].id == id;
      MovedAt(list, pos, at, x, i);
      MovedAt(list, pos, at, x, Target(i, pos, at));
    }
  }

  /** Moving a tab, whatever its visibility becomes, keeps the ids. */
  lemma MovedCovers(list: seq<LeftTab>, pos: nat, at: nat, x: LeftTab, catalog: seq<string>)
    requires pos < |list| && at < |list| && x.id == list[pos].id
    requires Covers(list, catalog)
    ensures Covers(Moved(list, pos, at, x), catalog)
  {
    MovedUnique(list, pos, at, x);
    forall id ensures Has(Moved(list, pos, at, x), id) <==> id in catalog {
      MovedHas(list, pos, at, x, id);
    }
  }

  lemma HoistedCovers(list: seq<LeftTab>, catalog: seq<string>, anchor: string)
    requires Covers(list, catalog)
    ensures Covers(Hoisted(list, catalog, anchor), catalog)
    ensures anchor in catalog ==>
              |Hoisted(list, catalog, anchor)| > 0 && Hoisted(list, catalog, anchor)[0] == LeftTab(anchor, true)
  {
    var pos := Position(list, anchor);
    assert anchor in catalog ==> Has(list, anchor);
    if pos < |list| {
      MovedCovers(list, pos, 0, list[pos].(visible := true), catalog);
    }
  }

  /** The insertion at index 1 is in range for every list exactly when the catalog is not just the companion. */
  lemma PanicFreeIff(list: seq<LeftTab>, catalog: seq<string>, anchor: string)
    ensures CanPlaceCompanion(Hoisted(Reconciled(list, catalog), catalog, anchor), anchor)
            <==> !Panics(catalog, anchor)
  {
    var h := Hoisted(Reconciled(list, catalog), catalog, anchor);
    ReconciledCovers(list, catalog);
    HoistedCovers(Reconciled(list, catalog), catalog, anchor);
    if anchor == ANCHOR_BOTTOM && COMPANION in catalog {
      assert Has(h, COMPANION);
      if exists id :: id in catalog && id != COMPANION {
        var id :| id in catalog && id != COMPANION;
        assert Has(h, id);
      } else if |h| >= 2 {
        assert Has(h, h[0].id) && Has(h, h[1].id);
      }
    }
  }

  // ---- The code ------------------------------------------------------------------------------------

  /** First step of `normalize_group`: keep known ids at their first occurrence. */
  method Retain(original: seq<LeftTab>, catalog: seq<string>) returns (list: seq<LeftTab>)
    ensures list == Retained(original, |original|, catalog)
  {
    list := [];
    var seen: set<string> := {};
    for i := 0 to |original|
      invariant list == Retained(original, i, catalog)
      invariant forall id :: id in seen <==> id in catalog && HasBelow(original, i, id)
    {
      var tab := original[i];
      if tab.id in catalog && tab.id !in seen {
        seen := seen + {tab.id};
        list := list + [tab];
      }
    }
  }

  /** Looking at the whole list or at what was missing before gives the same answer. */
  lemma MissingNext(kept: seq<LeftTab>, catalog: seq<string>, i: nat)
    requires i < |catalog| && UniqueIds(kept)
    ensures var sofar := kept + Missing(kept, catalog, i);
            kept + Missing(kept, catalog, i + 1)
            == if Has(sofar, catalog[i]) then sofar else sofar + [LeftTab(catalog[i], true)]
  {
    FilledProps(kept, catalog, i);
    AppendAssoc(kept, Missing(kept, catalog, i), [LeftTab(catalog[i], true)]);
  }

  /** Second step: append the catalog ids that are not there yet. */
  method AppendMissing(kept: seq<LeftTab>, catalog: seq<string>) returns (list: seq<LeftTab>)
    requires UniqueIds(kept)
    ensures list == kept + Missing(kept, catalog, |catalog|)
  {
    list := kept;
    AppendEmpty(kept);
    for i := 0 to |catalog|
      invariant list == kept + Missing(kept, catalog, i)
    {
      MissingNext(kept, catalog, i);
      if !Has(list, catalog[i]) {
        list := list + [LeftTab(catalog[i], true)];
      }
    }
  }

  /** `normalize_group`, on the list as its one variable. */
  method NormalizeGroup(original: seq<LeftTab>, catalog: seq<string>, anchor: string) returns (list: seq<LeftTab>)
    requires !Panics(catalog, anchor)
    ensures list == NormalizedGroup(original, catalog, anchor)
  {
    PanicFreeIff(original, catalog, anchor);
    list := Retain(original, catalog);
    RetainedProps(original, |original|, catalog);
    list := AppendMissing(list, catalog);
    ghost var reconciled := list;
    var pos := Position(list, anchor);
    if pos < |list| {
      var tab := list[pos].(visible := true);
      list := RemoveAt(list, pos);
      list := list[..0] + [tab] + list[0..];
    } else if anchor in catalog {
      list := [LeftTab(anchor, true)] + list;
    }
    assert list == Hoisted(reconciled, catalog, anchor);
    pos := Position(list, COMPANION);
    if anchor == ANCHOR_BOTTOM && pos < |list| {
      assert Has(list, COMPANION);
      var tab := list[pos];
      list := RemoveAt(list, pos);
      list := list[..1] + [tab] + list[1..];
    }
  }

  // ---- The state object -------------------------------------------------------------------------

  predicate GroupIsDefault(list: seq<LeftTab>, catalog: seq<string>) {
    |list| == |catalog| && forall i :: 0 <= i < |list| ==> list[i].id == catalog[i] && list[i].visible
  }

  /** Both lists, as the state file holds them. */
  datatype Tabs = Tabs(top: seq<LeftTab>, bottom: seq<LeftTab>)

  datatype Catalogs = Catalogs(top: seq<string>, bottom: seq<string>) {
    predicate Usable() {
      !Panics(top, ANCHOR_TOP) && !Panics(bottom, ANCHOR_BOTTOM)
    }
  }

  function Normalized(s: Tabs, c: Catalogs): Tabs
    requires c.Usable()
  {
    Tabs(NormalizedGroup(s.top, c.top, ANCHOR_TOP), NormalizedGroup(s.bottom, c.bottom, ANCHOR_BOTTOM))
  }

  predicate MatchesDefaults(s: Tabs, c: Catalogs) {
    GroupIsDefault(s.top, c.top) && GroupIsDefault(s.bottom, c.bottom)
  }

  /** What the state file holds after saving; `None` when it was deleted. */
  function Stored(s: Tabs, c: Catalogs): Option<Tabs> {
    if MatchesDefaults(s, c) then None else Some(s)
  }

  function Loaded(file: Option<Tabs>): Tabs {
    file.GetOr(Tabs([], []))
  }

  class LeftTabsState {
    var top: seq<LeftTab>
    var bottom: seq<LeftTab>

    function Value(): Tabs
      reads this
    {
      Tabs(top, bottom)
    }

    /** `load_or_default` on a readable or missing file. */
    constructor Load(file: Option<Tabs>)
      ensures Value() == Loaded(file)
    {
      top := file.GetOr(Tabs([], [])).top;
      bottom := file.GetOr(Tabs([], [])).bottom;
    }

    method Normalize(c: Catalogs)
      requires c.Usable()
      modifies this
      ensures Value() == Normalized(old(Value()), c)
    {
      top := NormalizeGroup(top, c.top, ANCHOR_TOP);
      bottom := NormalizeGroup(bottom, c.bottom, ANCHOR_BOTTOM);
    }

    /** `save_to`: the new content of the file. */
    method Save(c: Catalogs) returns (file: Option<Tabs>)
      ensures file == Stored(Value(), c)
    {
      if GroupIsDefault(top, c.top) && GroupIsDefault(bottom, c.bottom) {
        file := None;
      } else {
        file := Some(Tabs(top, bottom));
      }
    }
  }
}
