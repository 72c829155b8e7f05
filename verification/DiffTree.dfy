/** The file tree of a diff: insertion, the flattened list of rows, totals, toggling. */
module DiffTree {
  import opened Prelude
  import opened Text
  import opened DiffLines
  import opened DiffParser

  datatype Node =
    | Dir(name: string, expanded: bool, children: seq<Node>)
    | File(name: string, entry: FileEntry, adds: nat, dels: nat)

  /** One row of the flattened tree. */
  datatype FlatRow = FlatRow(
    name: string,
    depth: nat,
    isDir: bool,
    expanded: bool,
    entry: Option<FileEntry>,
    pathId: string,
    adds: nat,
    dels: nat)

  const ROOT := "root"

  /** A diff path is cut at both kinds of slash. */
  const SLASHES := {'/', '\\'}

  function Parts(path: string): (parts: seq<string>)
    ensures |parts| >= 1
    ensures forall p, c :: p in parts && c in p ==> c !in SLASHES
  {
    Split(path, SLASHES)
  }

  // ---- Sizes ---------------------------------------------------------------------

  function Size(n: Node): (s: nat)
    ensures s > 0
  {
    match n
    case File(_, _, _, _) => 1
    case Dir(_, _, children) => 1 + SizeAll(children)
  }

  function SizeAll(ns: seq<Node>): nat {
    if ns == [] then 0 else Size(ns[0]) + SizeAll(ns[1..])
  }

  // ---- Insertion -------------------------------------------------------------------

  function FindDir(children: seq<Node>, name: string): (i: nat)
    ensures i <= |children|
    ensures i < |children| ==> children[i].Dir? && children[i].name == name
    ensures forall j :: 0 <= j < i ==> !(children[j].Dir? && children[j].name == name)
  {
    if children == [] || (children[0].Dir? && children[0].name == name) then 0
    else 1 + FindDir(children[1..], name)
  }

  predicate HasFile(children: seq<Node>, path: string) {
    exists i :: 0 <= i < |children| && children[i].File? && children[i].entry.path == path
  }

  /** `DiffTreeNode::insert`. */
  function Insert(n: Node, parts: seq<string>, e: FileEntry, adds: nat, dels: nat): Node
    decreases |parts|
  {
    if n.File? || parts == [] then n
    else if |parts| == 1 then
      if HasFile(n.children, e.path) then n
      else n.(children := n.children + [File(parts[0], e, adds, dels)])
    else
      var i := FindDir(n.children, parts[0]);
      if i < |n.children| then
        n.(children := n.children[i := Insert(n.children[i], parts[1..], e, adds, dels)])
      else
        n.(children := n.children + [Insert(Dir(parts[0], true, []), parts[1..], e, adds, dels)])
  }

  // ---- Flattening ------------------------------------------------------------------

  /** Sort order of siblings: directories first, then by name. */
  predicate Before(a: Node, b: Node) {
    if a.Dir? != b.Dir? then a.Dir? else StrLess(a.name, b.name)
  }

  /** Stable insertion: ahead of every element it does not come after. */
  function InsertSorted(n: Node, sorted: seq<Node>): seq<Node> {
    if sorted == [] || !Before(sorted[0], n) then [n] + sorted
    else [sorted[0]] + InsertSorted(n, sorted[1..])
  }

  /** `sort_by`, which is stable. */
  function Sort(ns: seq<Node>): seq<Node> {
    if ns == [] then [] else InsertSorted(ns[0], Sort(ns[1..]))
  }

  lemma {:induction false} InsertSortedSize(n: Node, sorted: seq<Node>)
    ensures SizeAll(InsertSorted(n, sorted)) == Size(n) + SizeAll(sorted)
  {
    if sorted != [] && Before(sorted[0], n) {
      InsertSortedSize(n, sorted[1..]);
    }
  }

  lemma {:induction false} SortSize(ns: seq<Node>)
    ensures SizeAll(Sort(ns)) == SizeAll(ns)
  {
    if ns != [] {
      SortSize(ns[1..]);
      InsertSortedSize(ns[0], Sort(ns[1..]));
    }
  }

  /** No sibling stands right behind one that should come after it. */
  predicate Ordered(ns: seq<Node>) {
    forall i :: 0 <= i < |ns| - 1 ==> InOrderAt(ns, i)
  }

  predicate InOrderAt(ns: seq<Node>, i: nat)
    requires i + 1 < |ns|
  {
    !Before(ns[i + 1], ns[i])
  }

  lemma {:induction false} InsertSortedOrdered(n: Node, sorted: seq<Node>)
    requires Ordered(sorted)
    ensures Ordered(InsertSorted(n, sorted))
    ensures InsertSorted(n, sorted) != []
    ensures InsertSorted(n, sorted)[0] == n || (sorted != [] && InsertSorted(n, sorted)[0] == sorted[0])
  {
    if sorted == [] || !Before(sorted[0], n) {
      forall i | 0 <= i < |sorted| ensures InOrderAt([n] + sorted, i) {
        if i > 0 { assert InOrderAt(sorted, i - 1); }
      }
    } else {
      var rest := sorted[1..];
      assert Ordered(rest) by {
        forall i | 0 <= i < |rest| - 1 ensures InOrderAt(rest, i) { assert InOrderAt(sorted, i + 1); }
      }
      InsertSortedOrdered(n, rest);
      StrLessTotal(sorted[0].name, n.name);
      assert rest != [] ==> InOrderAt(sorted, 0);
      OrderedCons(sorted[0], InsertSorted(n, rest));
    }
  }

  lemma OrderedCons(n: Node, rest: seq<Node>)
    requires Ordered(rest) && rest != [] && !Before(rest[0], n)
    ensures Ordered([n] + rest)
  {
    forall i | 0 <= i < |rest| ensures InOrderAt([n] + rest, i) {
      if i > 0 { assert InOrderAt(rest, i - 1); }
    }
  }

  lemma {:induction false} InsertSortedMembers(n: Node, sorted: seq<Node>)
    ensures multiset(InsertSorted(n, sorted)) == multiset([n] + sorted)
  {
    if sorted != [] && Before(sorted[0], n) {
      InsertSortedMembers(n, sorted[1..]);
      assert [n] + sorted == [n] + ([sorted[0]] + sorted[1..]);
    }
  }

  lemma {:induction false} SortMembers(ns: seq<Node>)
    ensures multiset(Sort(ns)) == multiset(ns)
  {
    if ns != [] {
      SortMembers(ns[1..]);
      InsertSortedMembers(ns[0], Sort(ns[1..]));
      assert ns == [ns[0]] + ns[1..];
    }
  }

  lemma {:induction false} SortOrdered(ns: seq<Node>)
    ensures Ordered(Sort(ns))
  {
    if ns != [] {
      SortOrdered(ns[1..]);
      InsertSortedOrdered(ns[0], Sort(ns[1..]));
    }
  }

  /** Sorting lists the same siblings, directories first and each kind by name. */
  lemma SortOrders(ns: seq<Node>)
    ensures Ordered(Sort(ns)) && multiset(Sort(ns)) == multiset(ns)
  {
    SortOrdered(ns);
    SortMembers(ns);
  }

  function PathId(prefix: string, name: string): string {
    if prefix == "" then name else prefix + "/" + name
  }

  /** Depth of the children of a directory that sits at `depth`. */
  function ChildDepth(name: string, depth: nat): nat {
    if name == ROOT then 0 else depth + 1
  }

  function DirRow(n: Node, depth: nat, prefix: string): FlatRow
    requires n.Dir?
  {
    FlatRow(n.name, depth, true, n.expanded, None, PathId(prefix, n.name), 0, 0)
  }

  function FileRow(n: Node, depth: nat, prefix: string): FlatRow
    requires n.File?
  {
    FlatRow(n.name, depth, false, false, Some(n.entry), PathId(prefix, n.name), n.adds, n.dels)
  }

  /** `DiffTreeNode::flatten`: a directory named "root" has no row and is always open. */
  function Flatten(n: Node, depth: nat, prefix: string): seq<FlatRow>
    decreases Size(n), 0
  {
    match n
    case File(_, _, _, _) => [FileRow(n, depth, prefix)]
    case Dir(name, expanded, children) =>
      SortSize(children);
      (if name != ROOT then [DirRow(n, depth, prefix)] else [])
      + (if name == ROOT || expanded
         then FlattenAll(Sort(children), ChildDepth(name, depth), PathId(prefix, name))
         else [])
  }

  function FlattenAll(ns: seq<Node>, depth: nat, prefix: string): seq<FlatRow>
    decreases SizeAll(ns), 1
  {
    if ns == [] then [] else
      Flatten(ns[0], depth, prefix) + FlattenAll(ns[1..], depth, prefix)
  }

  // ---- Totals ----------------------------------------------------------------------

  /** Deleted lines are counted on the old side, added lines on the new one. */
  function Amount(side: Side, adds: nat, dels: nat): nat {
    if side.Old? then dels else adds
  }

  /** `compute_dir_counts_raw`: deletions or additions of all files below a node. */
  function Total(side: Side, n: Node): nat
    decreases Size(n), 0
  {
    match n
    case File(_, _, adds, dels) => Amount(side, adds, dels)
    case Dir(_, _, children) => TotalAll(side, children)
  }

  function TotalAll(side: Side, ns: seq<Node>): nat
    decreases SizeAll(ns), 1
  {
    if ns == [] then 0 else Total(side, ns[0]) + TotalAll(side, ns[1..])
  }

  // ---- Toggling --------------------------------------------------------------------

  /** `toggle_expanded`: flips the first directory, in child order, whose id is the target. */
  function Toggle(n: Node, target: string, prefix: string): (Node, bool)
    decreases Size(n), 0
  {
    match n
    case File(_, _, _, _) => (n, false)
    case Dir(name, expanded, children) =>
      if PathId(prefix, name) == target then (n.(expanded := !expanded), true)
      else
        var (cs, found) := ToggleFirst(children, target, PathId(prefix, name));
        (n.(children := cs), found)
  }

  function ToggleFirst(ns: seq<Node>, target: string, prefix: string): (seq<Node>, bool)
    decreases SizeAll(ns), 1
  {
    if ns == [] then (ns, false) else
      var (n, found) := Toggle(ns[0], target, prefix);
      if found then ([n] + ns[1..], true)
      else
        var (rest, foundLater) := ToggleFirst(ns[1..], target, prefix);
        ([ns[0]] + rest, foundLater)
  }
}
