/** The one-shot rewrite of a configuration file from before the native files and git panes. */
module Migrate {
  import opened Prelude

  // ---- Configuration values -------------------------------------------------------------------

  type Tree = map<string, Value>

  /** A TOML value; floats and dates are kept as text. */
  datatype Value =
    | Str(text: string)
    | Integer(number: int)
    | Boolean(flag: bool)
    | Scalar(literal: string)
    | List(items: seq<Value>)
    | Table(entries: map<string, Value>)

  function DefaultFiles(): Tree {
    map["left_dir" := Str("."), "right_dir" := Str("."), "show_hidden" := Boolean(false),
        "sort" := Str("name"), "dual_pane" := Boolean(true)]
  }

  function DefaultGit(): Tree {
    map["enabled" := Boolean(true), "commit_limit" := Integer(200), "diff_layout" := Str("auto")]
  }

  /** The entries of a section; empty when it is missing or not a table. */
  function Section(root: Tree, key: string): Tree {
    if key in root && root[key].Table? then root[key].entries else map[]
  }

  /** `has_legacy_schema`. */
  predicate HasLegacySchema(root: Tree) {
    || ("tabs" in Section(root, "files") && Section(root, "files")["tabs"].List?)
    || "yazi_layout" in Section(root, "mouse")
    || "quicklook_scrollbar" in Section(root, "mouse")
  }

  // ---- Rewriting --------------------------------------------------------------------------------

  /** The id of a tab entry; empty when it has none. */
  function TabId(entry: Value): string {
    if entry.Table? && "id" in entry.entries && entry.entries["id"].Str? then entry.entries["id"].text else ""
  }

  predicate Dropped(entry: Value) {
    TabId(entry) == "yazi" || TabId(entry) == "gitui"
  }

  /** The ids among the first `n` tabs that cannot be migrated. */
  function RejectedIds(tabs: seq<Value>, n: nat): seq<string>
    requires n <= |tabs|
  {
    if n == 0 then []
    else if Dropped(tabs[n - 1]) then RejectedIds(tabs, n - 1)
    else RejectedIds(tabs, n - 1) + [if TabId(tabs[n - 1]) == "" then "<unnamed>" else TabId(tabs[n - 1])]
  }

  function Rejected(root: Tree): seq<string> {
    var files := Section(root, "files");
    if "tabs" in files && files["tabs"].List? then RejectedIds(files["tabs"].items, |files["tabs"].items|) else []
  }

  /** `root` without `keys` in the table `section`. */
  function Without(root: Tree, section: string, keys: set<string>): Tree {
    if section in root && root[section].Table? then root[section := Table(root[section].entries - keys)] else root
  }

  /** `root` with every missing entry of `section` filled in. */
  function Filled(root: Tree, section: string, defaults: Tree): Tree {
    root[section := Table(defaults + Section(root, section))]
  }

  function Rewritten(root: Tree): Tree {
    var stripped := Without(Without(root, "files", {"tabs"}), "mouse", {"yazi_layout", "quicklook_scrollbar"});
    Filled(Filled(stripped, "files", DefaultFiles()), "git", DefaultGit())
  }

  /** The loop of `fill_defaults`: entries that are there stay as they are. */
  method FillMissing(before: Tree, defaults: Tree) returns (table: Tree)
    ensures table == defaults + before
  {
    table := before;
    var rest := defaults.Keys;
    while rest != {}
      invariant rest <= defaults.Keys
      invariant table.Keys == before.Keys + (defaults.Keys - rest)
      invariant forall k :: k in table ==> table[k] == if k in before then before[k] else defaults[k]
      decreases |rest|
    {
      var k :| k in rest;
      if k !in table {
        table := table[k := defaults[k]];
      }
      rest := rest - {k};
    }
  }

  /** The parsed configuration, edited in place. */
  class Config {
    var root: Tree

    constructor (tree: Tree)
      ensures root == tree
    {
      root := tree;
    }

    /** `files.remove("tabs")` and the two `mouse.remove` calls. */
    method Remove(section: string, keys: set<string>)
      modifies this
      ensures root == Without(old(root), section, keys)
    {
      if section in root && root[section].Table? {
        root := root[section := Table(root[section].entries - keys)];
      }
    }

    /** `fill_defaults`. */
    method FillDefaults(section: string, defaults: Tree)
      modifies this
      ensures root == Filled(old(root), section, defaults)
    {
      if section !in root || !root[section].Table? {
        root := root[section := Table(map[])];
      }
      var table := FillMissing(root[section].entries, defaults);
      root := root[section := Table(table)];
    }

    /** `rewrite_root`. */
    method Rewrite() returns (rejected: seq<string>)
      modifies this
      ensures root == Rewritten(old(root))
      ensures rejected == Rejected(old(root))
    {
      rejected := [];
      var files := Section(root, "files");
      if "tabs" in files && files["tabs"].List? {
        var tabs := files["tabs"].items;
        for i := 0 to |tabs|
          invariant rejected == RejectedIds(tabs, i)
        {
          var id := TabId(tabs[i]);
          if id == "yazi" || id == "gitui" {
          } else if id == "" {
            rejected := rejected + ["<unnamed>"];
          } else {
            rejected := rejected + [id];
          }
        }
      }
      Remove("files", {"tabs"});
      Remove("mouse", {"yazi_layout", "quicklook_scrollbar"});
      FillDefaults("files", DefaultFiles());
      FillDefaults("git", DefaultGit());
    }
  }

  // ---- Files --------------------------------------------------------------------------------------

  /** The files of the configuration directory, by name. */
  type Files = map<string, string>

  datatype Op = Write(name: string, content: string) | Rename(source: string, target: string)

  predicate CanApply(files: Files, op: Op) {
    op.Rename? ==> op.source in files
  }

  function Applied(files: Files, op: Op): Files
    requires CanApply(files, op)
  {
    match op
    case Write(name, content) => files[name := content]
    case Rename(source, target) => files[target := files[source]] - {source}
  }

  /** `op` applied when it can be; a rename of a missing file changes nothing. */
  function Step(files: Files, op: Op): Files {
    if CanApply(files, op) then Applied(files, op) else files
  }

  /** The files after the first `k` operations. */
  function After(files: Files, ops: seq<Op>, k: nat): Files
    requires k <= |ops|
  {
    if k == 0 then files else Step(After(files, ops, k - 1), ops[k - 1])
  }

  lemma AfterOne(files: Files, a: Op)
    ensures After(files, [a], 1) == Step(files, a)
  {
    assert After(files, [a], 0) == files;
  }

  lemma AfterThree(files: Files, a: Op, b: Op, c: Op)
    ensures After(files, [a, b, c], 1) == Step(files, a)
    ensures After(files, [a, b, c], 2) == Step(Step(files, a), b)
    ensures After(files, [a, b, c], 3) == Step(Step(Step(files, a), b), c)
  {
    assert After(files, [a, b, c], 0) == files;
    assert After(files, [a, b, c], 1) == Step(files, a);
    assert After(files, [a, b, c], 2) == Step(Step(files, a), b);
  }

  /** Reading and printing TOML; printing may fail. */
  datatype Codec = Codec(parse: string -> Option<Tree>, show: Tree -> Option<string>) {
    /** What prints reads back as the same tree. */
    ghost predicate Faithful() {
      forall t: Tree :: show(t).Some? ==> parse(show(t).value) == Some(t)
    }
  }

  datatype Outcome =
    | NotPresent
    | AlreadyMigrated
    | Migrated
    | CustomEntriesRejected(ids: seq<string>)
    | ParseFailed
    | PrintFailed

  const BACKUP_SUFFIX := ".pre-native-file-git.bak"
  const TMP_SUFFIX := ".toml.pre-native-file-git.tmp"

  function BackupName(name: string): string {
    name + BACKUP_SUFFIX
  }

  /** Index of the last "." among the first `n` characters; -1 when there is none. */
  function LastDot(name: string, n: nat): (d: int)
    requires n <= |name|
    ensures -1 <= d < n
  {
    if n == 0 then -1 else if name[n - 1] == '.' then n - 1 else LastDot(name, n - 1)
  }

  /** `file_stem`: a name that only starts with a dot has no extension. */
  function Stem(name: string): string {
    var d := LastDot(name, |name|);
    if d <= 0 then name else name[..d]
  }

  /** `with_extension`. */
  function TmpName(name: string): string {
    Stem(name) + TMP_SUFFIX
  }

  /** What the migration decides and the file operations it issues, in order. */
  datatype Plan = Plan(outcome: Outcome, ops: seq<Op>)

  function PlanFor(files: Files, name: string, codec: Codec): Plan {
    if name !in files then Plan(NotPresent, []) else
      var original := files[name];
      var root := codec.parse(original);
      if root.None? then Plan(ParseFailed, [])
      else if !HasLegacySchema(root.value) then Plan(AlreadyMigrated, []) else
        var backup := Write(BackupName(name), original);
        if Rejected(root.value) != [] then Plan(CustomEntriesRejected(Rejected(root.value)), [backup]) else
          var text := codec.show(Rewritten(root.value));
          if text.None? then Plan(PrintFailed, [backup]) else
            Plan(Migrated, [backup, Write(TmpName(name), text.value), Rename(TmpName(name), name)])
  }

  /** A disk that remembers the operations issued to it. */
  class Disk {
    var files: Files
    ghost var log: seq<Op>

    constructor (initial: Files)
      ensures files == initial && log == []
    {
      files := initial;
      log := [];
    }

    method WriteFile(name: string, content: string)
      modifies this
      ensures files == Applied(old(files), Write(name, content))
      ensures log == old(log) + [Write(name, content)]
    {
      files := files[name := content];
      log := log + [Write(name, content)];
    }

    method RenameFile(source: string, target: string)
      requires source in files
      modifies this
      ensures files == Applied(old(files), Rename(source, target))
      ensures log == old(log) + [Rename(source, target)]
    {
      files := files[target := files[source]] - {source};
      log := log + [Rename(source, target)];
    }

    /** `migrate_pre_native_file_git` on a disk whose every operation succeeds. */
    method MigrateConfig(name: string, codec: Codec) returns (outcome: Outcome)
      modifies this
      ensures outcome == PlanFor(old(files), name, codec).outcome
      ensures log == old(log) + PlanFor(old(files), name, codec).ops
      ensures files == After(old(files), PlanFor(old(files), name, codec).ops, |PlanFor(old(files), name, codec).ops|)
    {
      AppendEmpty(log);
      if name !in files { return NotPresent; }
      var original := files[name];
      var parsed := codec.parse(original);
      if parsed.None? { return ParseFailed; }
      if !HasLegacySchema(parsed.value) { return AlreadyMigrated; }
      ghost var before := files;
      WriteFile(BackupName(name), original);
      AfterOne(before, Write(BackupName(name), original));
      var config := new Config(parsed.value);
      var rejected := config.Rewrite();
      if rejected != [] { return CustomEntriesRejected(rejected); }
      var text := codec.show(config.root);
      if text.None? { return PrintFailed; }
      WriteFile(TmpName(name), text.value);
      RenameFile(TmpName(name), name);
      AfterThree(before, Write(BackupName(name), original), Write(TmpName(name), text.value),
                 Rename(TmpName(name), name));
      return Migrated;
    }
  }
}
