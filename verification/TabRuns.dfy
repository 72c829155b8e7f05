/** Tab groups over any run of requests, and what that means for the painted layout. */
module TabRuns {
  import opened Prelude
  import opened LayoutTrees
  import opened LayoutRects
  import opened TabGroups

  // ---- Runs -----------------------------------------------------------------------------------

  lemma HandledValid(g: Group, r: Request)
    requires g.Valid() && !Panics(g, r)
    ensures Handled(g, r).Valid() && Handled(g, r).policy == g.policy && Handled(g, r).kind == g.kind
  {
  }

  /** What `TabGroup::new` makes. */
  function NewGroup(members: seq<PaneId>, policy: MembersPolicy, kind: PaneKind): (g: Group)
    ensures g.Valid()
  {
    Group(kind, policy, members, 0)
  }

  /** The group after the first `n` requests; `None` once one of them panicked. */
  function After(g: Group, requests: seq<Request>, n: nat): (r: Option<Group>)
    requires g.Valid() && n <= |requests|
    ensures r.Some? ==> r.value.Valid() && r.value.policy == g.policy && r.value.kind == g.kind
  {
    if n == 0 then Some(g) else
      var before := After(g, requests, n - 1);
      if before.None? || Panics(before.value, requests[n - 1]) then None
      else
        HandledValid(before.value, requests[n - 1]);
        Some(Handled(before.value, requests[n - 1]))
  }

  // ---- When a group shows nothing ----------------------------------------------------------------

  /** A forced close of the last member. */
  predicate Empties(g: Group, r: Request) {
    |g.members| == 1 && r.CloseTab? && r.force && Accepts(g, r)
  }

  /** An accepted addition or replacement of the members. */
  predicate Refills(g: Group, r: Request) {
    (r.AddTab? || r.SetTabs?) && Accepts(g, r)
  }

  predicate EmptiedBy(g: Group, requests: seq<Request>, m: nat)
    requires g.Valid() && m < |requests|
  {
    After(g, requests, m).Some? && Empties(After(g, requests, m).value, requests[m])
  }

  predicate RefilledBy(g: Group, requests: seq<Request>, i: nat)
    requires g.Valid() && i < |requests|
  {
    After(g, requests, i).Some? && Refills(After(g, requests, i).value, requests[i])
  }

  /** Request `m` empties the group, and none after it, of the first `n`, refills it. */
  predicate EmptySince(g: Group, requests: seq<Request>, m: nat, n: nat)
    requires g.Valid() && m < n <= |requests|
  {
    EmptiedBy(g, requests, m) && forall i :: m < i < n ==> !RefilledBy(g, requests, i)
  }

  /** Some request has emptied the group for good. */
  predicate EverEmpty(g: Group, requests: seq<Request>, n: nat)
    requires g.Valid() && n <= |requests|
  {
    exists m :: 0 <= m < n && EmptySince(g, requests, m, n)
  }

  lemma {:induction false} AfterEarlier(g: Group, requests: seq<Request>, i: nat, n: nat)
    requires g.Valid() && i <= n <= |requests| && After(g, requests, n).Some?
    ensures After(g, requests, i).Some?
  {
    if i < n {
      AfterEarlier(g, requests, i, n - 1);
    }
  }

  lemma StepEmptiness(g: Group, r: Request)
    requires g.Valid() && !Panics(g, r)
    ensures Handled(g, r).members == [] <==> Empties(g, r) || (g.members == [] && !Refills(g, r))
  {
  }

  /**
   * Main result. For any new group and any run of requests: it shows one of its members,
   * unless a forced close took the last one and nothing has been added since.
   */
  lemma ShowsNothingIff(g: Group, requests: seq<Request>, n: nat)
    requires g.Valid() && g.members != [] && n <= |requests| && After(g, requests, n).Some?
    ensures var now := After(g, requests, n).value;
            PaneAt(now.members, now.active) == None <==> EverEmpty(g, requests, n)
  {
    EmptyIff(g, requests, n);
  }

  lemma {:induction false} EmptyIff(g: Group, requests: seq<Request>, n: nat)
    requires g.Valid() && g.members != [] && n <= |requests| && After(g, requests, n).Some?
    ensures After(g, requests, n).value.members == [] <==> EverEmpty(g, requests, n)
  {
    if n > 0 {
      AfterEarlier(g, requests, n - 1, n);
      EmptyIff(g, requests, n - 1);
      StepEmptiness(After(g, requests, n - 1).value, requests[n - 1]);
      EverEmptyNext(g, requests, n - 1);
    }
  }

  /** The group is empty since some request: the last one emptied it, or it was and that did not refill it. */
  lemma EverEmptyNext(g: Group, requests: seq<Request>, n: nat)
    requires g.Valid() && n < |requests|
    ensures EverEmpty(g, requests, n + 1)
            <==> EmptiedBy(g, requests, n) || (EverEmpty(g, requests, n) && !RefilledBy(g, requests, n))
  {
    if EmptiedBy(g, requests, n) {
      assert EmptySince(g, requests, n, n + 1);
    }
    if EverEmpty(g, requests, n) && !RefilledBy(g, requests, n) {
      var m :| 0 <= m < n && EmptySince(g, requests, m, n);
      OneMoreRequest(g, requests, m, n);
      assert EmptySince(g, requests, m, n + 1);
    }
    if EverEmpty(g, requests, n + 1) && !EmptiedBy(g, requests, n) {
      var m :| 0 <= m < n + 1 && EmptySince(g, requests, m, n + 1);
      OneMoreRequest(g, requests, m, n);
    }
  }

  lemma OneMoreRequest(g: Group, requests: seq<Request>, m: nat, n: nat)
    requires g.Valid() && m < n < |requests|
    ensures EmptySince(g, requests, m, n + 1) <==> EmptySince(g, requests, m, n) && !RefilledBy(g, requests, n)
  {
  }

  // ---- How many members -------------------------------------------------------------------------

  lemma StepCount(g: Group, r: Request)
    requires g.Valid() && !Panics(g, r) && g.policy.Open?
    ensures |Handled(g, r).members| <= g.policy.max || |Handled(g, r).members| <= |g.members|
  {
  }

  /** An open group never grows beyond its maximum; once within it, it stays there. */
  lemma {:induction false} OpenGroupStaysWithin(g: Group, requests: seq<Request>, m: nat, n: nat)
    requires g.Valid() && g.policy.Open? && m <= n <= |requests| && After(g, requests, n).Some?
    ensures After(g, requests, m).Some?
    ensures var was, now := |After(g, requests, m).value.members|, |After(g, requests, n).value.members|;
            && (was <= g.policy.max ==> now <= g.policy.max)
            && (was > g.policy.max ==> now <= was)
  {
    AfterEarlier(g, requests, m, n);
    if m < n {
      AfterEarlier(g, requests, n - 1, n);
      OpenGroupStaysWithin(g, requests, m, n - 1);
      StepCount(After(g, requests, n - 1).value, requests[n - 1]);
    }
  }

  /** A fixed group only changes size when its members are set. */
  lemma {:induction false} FixedGroupKeepsSize(g: Group, requests: seq<Request>, n: nat)
    requires g.Valid() && g.policy.Fixed? && n <= |requests| && After(g, requests, n).Some?
    requires forall i :: 0 <= i < n ==> !requests[i].SetTabs?
    ensures |After(g, requests, n).value.members| == |g.members|
  {
    if n > 0 {
      AfterEarlier(g, requests, n - 1, n);
      FixedGroupKeepsSize(g, requests, n - 1);
    }
  }

  /** Going to the next tab and back shows the same pane. */
  lemma NextThenPrev(g: Group)
    requires g.Valid()
    ensures Handled(g, NextTab).Valid() && Handled(Handled(g, NextTab), PrevTab) == g
  {
    HandledValid(g, NextTab);
    if g.members != [] {
      NextIndex(g.active, |g.members|);
      PrevIndex(Handled(g, NextTab).active, |g.members|);
    }
  }

  lemma NextIndex(active: nat, n: nat)
    requires active < n
    ensures (active + 1) % n == if active + 1 == n then 0 else active + 1
  {
  }

  // ---- The painted layout -----------------------------------------------------------------------

  /** The cell of some new group after some run without a forced close. */
  ghost predicate Unforced(members: seq<PaneId>, active: nat) {
    exists start: Group, requests: seq<Request> :: UnforcedRun(start, requests, members, active)
  }

  ghost predicate UnforcedRun(start: Group, requests: seq<Request>, members: seq<PaneId>, active: nat) {
    && start.Valid() && start.members != []
    && (forall i :: 0 <= i < |requests| ==> !(requests[i].CloseTab? && requests[i].force))
    && After(start, requests, |requests|).Some?
    && After(start, requests, |requests|).value.Node() == Tabs(members, active)
  }

  /** Every tab cell of the tree is such a group. */
  ghost predicate AllUnforced(node: LayoutNode) {
    match node
    case Leaf(_) => true
    case Tabs(members, active) => Unforced(members, active)
    case Split(_, _, children) => forall i :: 0 <= i < |children| ==> AllUnforced(children[i])
  }

  lemma UnforcedShows(members: seq<PaneId>, active: nat)
    requires Unforced(members, active)
    ensures active < |members|
  {
    var start: Group, requests: seq<Request> :| UnforcedRun(start, requests, members, active);
    ShowsNothingIff(start, requests, |requests|);
  }

  lemma {:induction false} UnforcedAllShown(node: LayoutNode)
    requires AllUnforced(node)
    ensures AllShown(node)
  {
    match node {
      case Leaf(_) =>
      case Tabs(members, active) => UnforcedShows(members, active);
      case Split(_, _, children) =>
        forall i | 0 <= i < |children| ensures AllShown(children[i]) {
          UnforcedAllShown(children[i]);
        }
    }
  }

  /**
   * Main result. In a tree whose tab groups have each seen any run of requests without a
   * forced close, every cell of the area is painted exactly once.
   */
  lemma UnforcedTreeHasNoGaps(root: LayoutNode, area: Rect, split: Splitter, cx: nat, cy: nat)
    requires Normal(root) && IsTiling(split) && AllUnforced(root)
    ensures CoveringAll(PaintedBy(root, area, split), cx, cy) == if Contains(area, cx, cy) then 1 else 0
  {
    UnforcedAllShown(root);
    NoGaps(root, area, split, cx, cy);
  }
}
