/** Tab groups: which of several panes a layout cell shows. */
module TabGroups {
  import opened Prelude
  import opened LayoutTrees

  datatype PaneKind = Shell | AgentChat | Files | Sysmon | Viewer

  datatype MembersPolicy = Fixed | Open(max: nat)

  datatype PolicyError =
    | GroupIsFixed
    | Full(max: nat)
    | WrongKind(expected: PaneKind, got: PaneKind)
    | LastMember
    | NotFound(id: PaneId)

  /** `active_pane`. */
  function PaneAt(members: seq<PaneId>, active: nat): Option<PaneId> {
    if active < |members| then Some(members[active]) else None
  }

  /** Index of the first member equal to `id`, from `start` on; the length when there is none. */
  function MemberIndex(members: seq<PaneId>, start: nat, id: PaneId): (i: nat)
    requires start <= |members|
    ensures start <= i <= |members|
    ensures i < |members| ==> members[i] == id
    ensures forall j :: start <= j < i ==> members[j] != id
    decreases |members| - start
  {
    if start == |members| || members[start] == id then start else MemberIndex(members, start + 1, id)
  }

  // ---- Requests to a group --------------------------------------------------------------------

  /** What a group is at one moment. */
  datatype Group = Group(kind: PaneKind, policy: MembersPolicy, members: seq<PaneId>, active: nat) {
    /** This group as a cell of the layout tree. */
    function Node(): LayoutNode {
      Tabs(members, active)
    }

    /** The active index is a member's, unless there are none. */
    predicate Valid() {
      active < |members| || members == []
    }
  }

  datatype Request =
    | NextTab
    | PrevTab
    | GotoTab(index: nat)
    | AddTab(id: PaneId, kind: PaneKind)
    | CloseTab(index: nat, force: bool)
    | ReplaceTab(index: nat, id: PaneId)
    | SetTabs(members: seq<PaneId>, preferred: Option<nat>)

  /** The code panics: it asks an empty group for its last member. */
  predicate Panics(g: Group, r: Request) {
    g.members == [] && (r.GotoTab? || (r.CloseTab? && g.policy.Open?))
  }

  /** Whether the group accepts a request that changes its members. */
  predicate Accepts(g: Group, r: Request) {
    match r
    case AddTab(_, kind) => g.policy.Open? && |g.members| < g.policy.max && kind == g.kind
    case CloseTab(index, force) => g.policy.Open? && (force || |g.members| != 1) && index < |g.members|
    case ReplaceTab(index, _) => index < |g.members|
    case SetTabs(members, _) => members != [] && (g.policy.Open? ==> |members| <= g.policy.max)
    case _ => false
  }

  /** The active index after the member at `index` is gone. */
  function ActiveAfterClose(g: Group, index: nat): nat
    requires index < |g.members| && g.Valid()
  {
    if |g.members| == 1 then g.active
    else
      var shifted := if index < g.active then g.active - 1 else g.active;
      if shifted <= |g.members| - 2 then shifted else |g.members| - 2
  }

  /** The active index after the members were replaced. */
  function ActiveAfterSet(g: Group, members: seq<PaneId>, preferred: Option<nat>): nat {
    var shown := PaneAt(g.members, g.active);
    var at := if shown.Some? then MemberIndex(members, 0, shown.value) else |members|;
    if at < |members| then at
    else if preferred.Some? && preferred.value < |members| then preferred.value
    else 0
  }

  /** The group after a request; a refused one changes nothing. */
  function Handled(g: Group, r: Request): Group
    requires g.Valid() && !Panics(g, r)
  {
    match r
    case NextTab => if g.members == [] then g else g.(active := (g.active + 1) % |g.members|)
    case PrevTab => if g.members == [] then g else g.(active := (g.active + |g.members| - 1) % |g.members|)
    case GotoTab(index) => if index < |g.members| then g.(active := index) else g
    case AddTab(id, _) =>
      if Accepts(g, r) then g.(members := g.members + [id], active := |g.members|) else g
    case CloseTab(index, _) =>
      if !Accepts(g, r) then g else
        g.(members := g.members[..index] + g.members[index + 1..], active := ActiveAfterClose(g, index))
    case ReplaceTab(index, id) =>
      if Accepts(g, r) then g.(members := g.members[index := id]) else g
    case SetTabs(members, preferred) =>
      if Accepts(g, r) then g.(members := members, active := ActiveAfterSet(g, members, preferred)) else g
  }

  // ---- The code ---------------------------------------------------------------------------------

  class TabGroup {
    const kind: PaneKind
    const policy: MembersPolicy
    var members: seq<PaneId>
    var active: nat

    function Value(): Group
      reads this
    {
      Group(kind, policy, members, active)
    }

    predicate Valid()
      reads this
    {
      Value().Valid()
    }

    function ActivePane(): Option<PaneId>
      reads this
    {
      PaneAt(members, active)
    }

    /** `TabGroup::new`, which asserts that there is a member. */
    constructor (members: seq<PaneId>, policy: MembersPolicy, kind: PaneKind)
      requires members != []
      ensures Value() == Group(kind, policy, members, 0) && Valid()
    {
      this.members, this.active := members, 0;
      this.policy, this.kind := policy, kind;
    }

    method Next()
      requires Valid()
      modifies this`active
      ensures Value() == Handled(old(Value()), NextTab)
      ensures Valid()
      ensures members != [] ==> active == if old(active) + 1 == |members| then 0 else old(active) + 1
      ensures members == [] ==> active == old(active)
    {
      if members != [] {
        active := (active + 1) % |members|;
      }
    }

    method Prev()
      requires Valid()
      modifies this`active
      ensures Value() == Handled(old(Value()), PrevTab)
      ensures Valid()
      ensures members != [] ==> active == if old(active) == 0 then |members| - 1 else old(active) - 1
      ensures members == [] ==> active == old(active)
    {
      if members != [] {
        PrevIndex(active, |members|);
        active := (active + |members| - 1) % |members|;
      }
    }

    /** `goto`, which panics on an empty group. */
    method Goto(index: nat) returns (error: Option<PolicyError>)
      requires Valid() && members != []
      modifies this`active
      ensures Value() == Handled(old(Value()), GotoTab(index))
      ensures Valid()
      ensures index < |members| ==> error == None && active == index
      ensures index >= |members| ==> error == Some(NotFound(members[|members| - 1])) && active == old(active)
    {
      if index >= |members| { return Some(NotFound(members[|members| - 1])); }
      active := index;
      return None;
    }

    /** `try_add`: the new tab becomes the active one. */
    method TryAdd(id: PaneId, paneKind: PaneKind) returns (error: Option<PolicyError>)
      requires Valid()
      modifies this`members, this`active
      ensures Value() == Handled(old(Value()), AddTab(id, paneKind))
      ensures Valid()
      ensures error == (match policy
                        case Fixed => Some(GroupIsFixed)
                        case Open(max) =>
                          if old(|members|) >= max then Some(Full(max))
                          else if paneKind != kind then Some(WrongKind(kind, paneKind))
                          else None)
      ensures error == None ==> members == old(members) + [id] && ActivePane() == Some(id)
      ensures error.Some? ==> members == old(members) && active == old(active)
    {
      match policy {
        case Fixed => return Some(GroupIsFixed);
        case Open(max) =>
          if |members| >= max { return Some(Full(max)); }
          if paneKind != kind { return Some(WrongKind(kind, paneKind)); }
          members := members + [id];
          active := |members| - 1;
          return None;
      }
    }

    /**
     * `try_close`, which panics on an empty open group. Closing another tab than the
     * active one keeps showing the active pane, closing the active one shows the next or
     * else the last; only a forced close of the last member leaves none.
     */
    method TryClose(index: nat, force: bool) returns (closed: Result<PaneId, PolicyError>)
      requires Valid() && (policy.Open? ==> members != [])
      modifies this`members, this`active
      ensures Value() == Handled(old(Value()), CloseTab(index, force))
      ensures Valid()
      ensures closed.Ok? <==> policy.Open? && (force || old(|members|) != 1) && index < old(|members|)
      ensures closed.Ok? ==> closed.value == old(members)[index]
                             && members == old(members)[..index] + old(members)[index + 1..]
                             && (index != old(active) ==> ActivePane() == old(ActivePane()))
                             && (index == old(active) && old(|members|) > 1 ==>
                                   ActivePane() == Some(old(members)[if index + 1 < old(|members|) then index + 1
                                                                     else index - 1]))
                             && (ActivePane() == None <==> force && old(|members|) == 1)
      ensures closed.Err? ==> members == old(members) && active == old(active)
    {
      if policy.Fixed? { return Err(GroupIsFixed); }
      if !force && |members| == 1 { return Err(LastMember); }
      if index >= |members| { return Err(NotFound(members[|members| - 1])); }
      closed := Ok(members[index]);
      members := members[..index] + members[index + 1..];
      if members != [] {
        if index < active { active := active - 1; }
        active := if active <= |members| - 1 then active else |members| - 1;
      }
    }

    /** `replace_member`. */
    method ReplaceMember(index: nat, id: PaneId) returns (replaced: Result<PaneId, PolicyError>)
      requires Valid()
      modifies this`members
      ensures Value() == Handled(old(Value()), ReplaceTab(index, id))
      ensures Valid()
      ensures if index < old(|members|)
              then replaced == Ok(old(members)[index]) && members == old(members)[index := id]
              else replaced == Err(NotFound(id)) && members == old(members)
    {
      if index >= |members| { return Err(NotFound(id)); }
      replaced := Ok(members[index]);
      members := members[index := id];
    }

    /** `set_members`: the active pane stays active if it is still a member. */
    method SetMembers(newMembers: seq<PaneId>, preferred: Option<nat>) returns (error: Option<PolicyError>)
      requires Valid()
      modifies this`members, this`active
      ensures Value() == Handled(old(Value()), SetTabs(newMembers, preferred))
      ensures Valid()
      ensures error == if newMembers == [] then Some(LastMember)
                       else if policy.Open? && |newMembers| > policy.max then Some(Full(policy.max))
                       else None
      ensures error.Some? ==> members == old(members) && active == old(active)
      ensures error == None ==>
                members == newMembers && ActivePane().Some?
                && (if old(ActivePane()).Some? && old(ActivePane()).value in newMembers
                    then ActivePane() == old(ActivePane())
                    else active == if preferred.Some? && preferred.value < |newMembers| then preferred.value else 0)
    {
      if newMembers == [] { return Some(LastMember); }
      if policy.Open? && |newMembers| > policy.max { return Some(Full(policy.max)); }
      var previous := ActivePane();
      members := newMembers;
      var at := if previous.Some? then MemberIndex(members, 0, previous.value) else |members|;
      if at < |members| {
        active := at;
      } else if preferred.Some? && preferred.value < |members| {
        active := preferred.value;
      } else {
        active := 0;
      }
      return None;
    }
  }

  lemma PrevIndex(active: nat, n: nat)
    requires active < n
    ensures (active + n - 1) % n == if active == 0 then n - 1 else active - 1
  {
    if active > 0 {
      assert active + n - 1 == (active - 1) + n;
    }
  }
}
