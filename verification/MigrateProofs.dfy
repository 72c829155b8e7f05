/** What the migration guarantees: at every crash point, over retries, and for every entry. */
module MigrateProofs {
  import opened Prelude
  import opened Migrate

  // ---- Three different files ------------------------------------------------------------------

  lemma {:induction false} LastDotOfPrefix(a: string, b: string, n: nat)
    requires n <= |a|
    ensures LastDot(a + b, n) == LastDot(a, n)
  {
    if n > 0 {
      LastDotOfPrefix(a, b, n - 1);
    }
  }

  /** The temporary file's extension is "tmp". */
  lemma TmpLastDot(stem: string)
    ensures LastDot(stem + TMP_SUFFIX, |stem| + 29) == |stem| + 25
  {
    var t := stem + TMP_SUFFIX;
    assert |TMP_SUFFIX| == 29 && TMP_SUFFIX[25] == '.';
    assert TMP_SUFFIX[26] == 't' && TMP_SUFFIX[27] == 'm' && TMP_SUFFIX[28] == 'p';
    assert t[|stem| + 25] == '.' && t[|stem| + 26] == 't' && t[|stem| + 27] == 'm' && t[|stem| + 28] == 'p';
    assert LastDot(t, |stem| + 26) == |stem| + 25;
    assert LastDot(t, |stem| + 27) == |stem| + 25;
    assert LastDot(t, |stem| + 28) == |stem| + 25;
  }

  /** For every name: the configuration, its backup and the temporary file never coincide. */
  lemma NamesDiffer(name: string)
    ensures BackupName(name) != name && TmpName(name) != name && TmpName(name) != BackupName(name)
  {
    var stem := Stem(name);
    assert |TMP_SUFFIX| == 29 && |BACKUP_SUFFIX| == 24;
    assert TmpName(name)[|TmpName(name)| - 1] == 'p' by { assert TMP_SUFFIX[28] == 'p'; }
    assert BackupName(name)[|BackupName(name)| - 1] == 'k' by { assert BACKUP_SUFFIX[23] == 'k'; }
    TmpLastDot(stem);
    assert |Stem(TmpName(name))| == |stem| + 25;
  }

  lemma {:induction false} NoDot(s: string, n: nat)
    requires n <= |s| && forall i :: 0 < i < n ==> s[i] != '.'
    ensures LastDot(s, n) <= 0
  {
    if n > 0 {
      NoDot(s, n - 1);
    }
  }

  lemma {:induction false} LastDotAt(s: string, n: nat, d: nat)
    requires d < n <= |s| && s[d] == '.' && forall i :: d < i < n ==> s[i] != '.'
    ensures LastDot(s, n) == d
  {
    if n > d + 1 {
      LastDotAt(s, n - 1, d);
    }
  }

  /** The temporary file's name: the extension is replaced, when there is one. */
  lemma TmpNameOf(stem: string, ext: string)
    requires '.' !in ext && stem != ""
    ensures TmpName(stem + "." + ext) == stem + TMP_SUFFIX
    ensures '.' !in stem[1..] ==> TmpName(stem) == stem + TMP_SUFFIX
  {
    var name := stem + "." + ext;
    forall i | |stem| < i < |name| ensures name[i] != '.' {
      assert name[i] == ext[i - |stem| - 1];
    }
    LastDotAt(name, |name|, |stem|);
    assert name[..|stem|] == stem;
    if '.' !in stem[1..] {
      forall i | 0 < i < |stem| ensures stem[i] != '.' {
        assert stem[i] == stem[1..][i - 1];
      }
      NoDot(stem, |stem|);
    }
  }

  // ---- One run, stopped anywhere ------------------------------------------------------------------

  /** Stopped during an operation: a write may leave any prefix, a rename happens or not. */
  ghost predicate Torn(files: Files, op: Op, after: Files) {
    || after == files
    || after == Step(files, op)
    || (op.Write? && exists n :: 0 <= n <= |op.content| && after == files[op.name := op.content[..n]])
  }

  /** Stopped after some operations, or during the next one. */
  ghost predicate StoppedAt(files: Files, ops: seq<Op>, k: nat, after: Files)
    requires k <= |ops|
  {
    after == After(files, ops, k) || (k < |ops| && Torn(After(files, ops, k), ops[k], after))
  }

  ghost predicate Stopped(files: Files, ops: seq<Op>, after: Files) {
    exists k :: 0 <= k <= |ops| && StoppedAt(files, ops, k, after)
  }

  /** The three files the migration may touch. */
  function Touched(name: string): set<string> {
    {name, BackupName(name), TmpName(name)}
  }

  ghost predicate SameElsewhere(before: Files, after: Files, name: string) {
    forall f :: f !in Touched(name) ==>
      (f in before <==> f in after) && (f in before && f in after ==> before[f] == after[f])
  }

  lemma TornWrite(files: Files, file: string, content: string, after: Files, name: string)
    requires Torn(files, Write(file, content), after) && file in Touched(name)
    ensures SameElsewhere(files, after, name)
    ensures forall f :: f in files && f != file ==> f in after && after[f] == files[f]
  {
  }

  /**
   * Main result for one run. Wherever it stops, the configuration still holds
   * its original text, or the run was migrating, the complete new text is in place
   * and the backup holds the original. No other file changes but the temporary one.
   */
  lemma ConfigIsOldOrNew(files: Files, name: string, codec: Codec, after: Files)
    requires name in files && Stopped(files, PlanFor(files, name, codec).ops, after)
    ensures SameElsewhere(files, after, name)
    ensures name in after
    ensures after[name] == files[name]
         || (PlanFor(files, name, codec).outcome == Migrated
             && codec.show(Rewritten(codec.parse(files[name]).value)) == Some(after[name])
             && BackupName(name) in after && after[BackupName(name)] == files[name])
  {
    var plan := PlanFor(files, name, codec);
    NamesDiffer(name);
    var k :| 0 <= k <= |plan.ops| && StoppedAt(files, plan.ops, k, after);
    if |plan.ops| == 1 {
      AfterOne(files, plan.ops[0]);
      if k == 0 { TornWrite(files, BackupName(name), files[name], after, name); }
    } else if |plan.ops| == 3 {
      var text := codec.show(Rewritten(codec.parse(files[name]).value)).value;
      StoppedMigrating(files, name, text, k, after);
    }
  }

  function Migration(name: string, original: string, text: string): seq<Op> {
    [Write(BackupName(name), original), Write(TmpName(name), text), Rename(TmpName(name), name)]
  }

  /** The configuration is old, or new with its backup. */
  predicate OldOrNew(files: Files, name: string, original: string, text: string) {
    name in files
    && (files[name] == original
        || (files[name] == text && BackupName(name) in files && files[BackupName(name)] == original))
  }

  /** The files after each of the three operations. */
  lemma MigrationSteps(files: Files, name: string, text: string)
    requires name in files
    ensures var ops := Migration(name, files[name], text);
            forall k :: 0 <= k <= 3 ==>
              OldOrNew(After(files, ops, k), name, files[name], text)
              && SameElsewhere(files, After(files, ops, k), name)
  {
    NamesDiffer(name);
    var ops := Migration(name, files[name], text);
    AfterThree(files, ops[0], ops[1], ops[2]);
    forall k | 0 <= k <= 3
      ensures OldOrNew(After(files, ops, k), name, files[name], text)
      ensures SameElsewhere(files, After(files, ops, k), name)
    {
      assert k == 0 || k == 1 || k == 2 || k == 3;
    }
  }

  lemma StoppedMigrating(files: Files, name: string, text: string, k: nat, after: Files)
    requires name in files
    requires k <= 3 && StoppedAt(files, Migration(name, files[name], text), k, after)
    ensures SameElsewhere(files, after, name) && OldOrNew(after, name, files[name], text)
  {
    var ops := Migration(name, files[name], text);
    MigrationSteps(files, name, text);
    NamesDiffer(name);
    var before := After(files, ops, k);
    if k < 3 && after != before && after != Step(before, ops[k]) {
      TornWrite(before, ops[k].name, ops[k].content, after, name);
      AfterThree(files, ops[0], ops[1], ops[2]);
    } else if k < 3 {
      assert Step(before, ops[k]) == After(files, ops, k + 1);
    }
  }

  // ---- The rewritten configuration ----------------------------------------------------------------

  /** The three retired keys. */
  predicate Retired(section: string, key: string) {
    || (section == "files" && key == "tabs")
    || (section == "mouse" && (key == "yazi_layout" || key == "quicklook_scrollbar"))
  }

  /** The same entry, with the same value, is in both. */
  predicate Survives(root: Tree, after: Tree, section: string, key: string) {
    key in Section(root, section) && key in Section(after, section)
    && Section(root, section)[key] == Section(after, section)[key]
  }

  lemma SectionNames()
    ensures "files" != "git" && "files" != "mouse" && "git" != "mouse"
    ensures "tabs" !in DefaultFiles()
  {
    assert |"files"| == 5 && |"git"| == 3 && |"mouse"| == 5 && "files"[0] == 'f' && "mouse"[0] == 'm';
    assert |"tabs"| == 4 && |"left_dir"| == 8 && |"right_dir"| == 9 && |"show_hidden"| == 11 && |"dual_pane"| == 9;
    assert "tabs"[0] == 't' && "sort"[0] == 's';
  }

  function WithoutZones(mouse: Value): Value {
    if mouse.Table? then Table(mouse.entries - {"yazi_layout", "quicklook_scrollbar"}) else mouse
  }

  /** What becomes of each section. */
  lemma RewrittenSections(root: Tree)
    ensures "files" in Rewritten(root)
         && Rewritten(root)["files"] == Table(DefaultFiles() + (Section(root, "files") - {"tabs"}))
    ensures "git" in Rewritten(root) && Rewritten(root)["git"] == Table(DefaultGit() + Section(root, "git"))
    ensures "mouse" in root ==> "mouse" in Rewritten(root) && Rewritten(root)["mouse"] == WithoutZones(root["mouse"])
    ensures forall k :: k != "files" && k != "git" && k != "mouse" ==>
              (k in Rewritten(root) <==> k in root) && (k in root ==> Rewritten(root)[k] == root[k])
    ensures "mouse" in Rewritten(root) ==> "mouse" in root
  {
    SectionNames();
    var a := Without(root, "files", {"tabs"});
    assert Section(a, "files") == Section(root, "files") - {"tabs"};
    var b := Without(a, "mouse", {"yazi_layout", "quicklook_scrollbar"});
    assert Section(b, "files") == Section(a, "files");
    assert Section(b, "git") == Section(root, "git");
  }

  /** The rewritten configuration is never taken for an old one. */
  lemma RewrittenIsNotLegacy(root: Tree)
    ensures !HasLegacySchema(Rewritten(root)) && !IsOld(Rewritten(root))
  {
    SectionNames();
    RewrittenSections(root);
  }

  /**
   * An entry of a section survives, whatever its type, if and only if it is none of the
   * three retired ones.
   */
  lemma EntrySurvivesIff(root: Tree, section: string, key: string)
    requires key in Section(root, section)
    ensures Survives(root, Rewritten(root), section, key) <==> !Retired(section, key)
  {
    SectionNames();
    RewrittenSections(root);
  }

  /** Every top-level value survives, except that a section must become a table. */
  lemma TopLevelSurvivesIff(root: Tree, key: string)
    requires key in root && !root[key].Table?
    ensures key in Rewritten(root) && Rewritten(root)[key] == root[key] <==> key != "files" && key != "git"
  {
    SectionNames();
    RewrittenSections(root);
  }

  /** Nothing is added but missing defaults. */
  lemma AddedAreDefaults(root: Tree, section: string, key: string)
    requires key in Section(Rewritten(root), section) && key !in Section(root, section)
    ensures section == "files" ==>
              key in DefaultFiles() && Section(Rewritten(root), section)[key] == DefaultFiles()[key]
    ensures section == "git" ==>
              key in DefaultGit() && Section(Rewritten(root), section)[key] == DefaultGit()[key]
    ensures section == "files" || section == "git"
  {
    SectionNames();
    RewrittenSections(root);
  }

  // ---- Which configurations are migrated, which refused ----------------------------------------------

  predicate HasEntry(root: Tree, section: string, key: string) {
    section in root && root[section].Table? && key in root[section].entries
  }

  /** [files] has a list at tabs. */
  predicate HasOldTabs(root: Tree) {
    HasEntry(root, "files", "tabs") && root["files"].entries["tabs"].List?
  }

  function OldTabs(root: Tree): seq<Value>
    requires HasOldTabs(root)
  {
    root["files"].entries["tabs"].items
  }

  /** A configuration from before: it has old tabs or one of the two retired mouse keys. */
  predicate IsOld(root: Tree) {
    HasOldTabs(root) || HasEntry(root, "mouse", "yazi_layout") || HasEntry(root, "mouse", "quicklook_scrollbar")
  }

  /**
   * A readable configuration is left alone, with no file operation, if and only if it has none
   * of the three markers.
   */
  lemma AlreadyMigratedIff(files: Files, name: string, codec: Codec, root: Tree)
    requires name in files && codec.parse(files[name]) == Some(root)
    ensures PlanFor(files, name, codec) == Plan(AlreadyMigrated, []) <==> !IsOld(root)
    ensures PlanFor(files, name, codec).outcome.AlreadyMigrated? <==> !IsOld(root)
  {
    IsOldIff(root);
  }

  lemma IsOldIff(root: Tree)
    ensures HasLegacySchema(root) <==> IsOld(root)
  {
  }

  /** The tab's id is one of the two that have a native pane. */
  predicate IsNative(tab: Value) {
    && tab.Table? && "id" in tab.entries
    && (tab.entries["id"] == Str("yazi") || tab.entries["id"] == Str("gitui"))
  }

  /** What a refused tab is called. */
  function TabName(tab: Value): string {
    if tab.Table? && "id" in tab.entries && tab.entries["id"].Str? && tab.entries["id"].text != ""
    then tab.entries["id"].text else "<unnamed>"
  }

  /** The names of the tabs that are not native, in order. */
  function OtherNames(tabs: seq<Value>, n: nat): seq<string>
    requires n <= |tabs|
  {
    if n == 0 then []
    else OtherNames(tabs, n - 1) + if IsNative(tabs[n - 1]) then [] else [TabName(tabs[n - 1])]
  }

  lemma {:induction false} RejectedAreOthers(tabs: seq<Value>, n: nat)
    requires n <= |tabs|
    ensures RejectedIds(tabs, n) == OtherNames(tabs, n)
  {
    if n > 0 {
      RejectedAreOthers(tabs, n - 1);
      RejectedNext(tabs, n);
    }
  }

  lemma {:induction false} NoOthersIff(tabs: seq<Value>, n: nat)
    requires n <= |tabs|
    ensures OtherNames(tabs, n) == [] <==> forall i :: 0 <= i < n ==> IsNative(tabs[i])
  {
    if n > 0 {
      NoOthersIff(tabs, n - 1);
    }
  }

  lemma RejectedNext(tabs: seq<Value>, n: nat)
    requires 0 < n <= |tabs|
    ensures RejectedIds(tabs, n)
         == RejectedIds(tabs, n - 1) + if IsNative(tabs[n - 1]) then [] else [TabName(tabs[n - 1])]
  {
    NativeIff(tabs[n - 1]);
    AppendEmpty(RejectedIds(tabs, n - 1));
  }

  lemma NativeIff(tab: Value)
    ensures Dropped(tab) <==> IsNative(tab)
    ensures !Dropped(tab) ==> TabName(tab) == if TabId(tab) == "" then "<unnamed>" else TabId(tab)
  {
    assert |"yazi"| == 4 && |"gitui"| == 5;
  }

  /**
   * A readable old configuration is refused if and only if some old tab is neither yazi nor gitui,
   * and the refusal names these tabs in order.
   */
  lemma RefusedIff(files: Files, name: string, codec: Codec, root: Tree)
    requires name in files && codec.parse(files[name]) == Some(root) && IsOld(root)
    ensures var outcome := PlanFor(files, name, codec).outcome;
            && (outcome.CustomEntriesRejected?
                <==> HasOldTabs(root) && exists i :: 0 <= i < |OldTabs(root)| && !IsNative(OldTabs(root)[i]))
            && (outcome.CustomEntriesRejected? ==> outcome.ids == OtherNames(OldTabs(root), |OldTabs(root)|))
  {
    IsOldIff(root);
    if HasOldTabs(root) {
      RejectedAreOthers(OldTabs(root), |OldTabs(root)|);
      NoOthersIff(OldTabs(root), |OldTabs(root)|);
    }
  }

  // ---- Any number of runs ---------------------------------------------------------------------------

  /** An old configuration that can be migrated, and the text it becomes. */
  datatype Job = Job(name: string, original: string, root: Tree, text: string)

  ghost predicate CanMigrate(job: Job, codec: Codec) {
    && codec.Faithful()
    && codec.parse(job.original) == Some(job.root) && IsOld(job.root)
    && (HasOldTabs(job.root) ==> forall i :: 0 <= i < |OldTabs(job.root)| ==> IsNative(OldTabs(job.root)[i]))
    && codec.show(Rewritten(job.root)) == Some(job.text)
  }

  lemma NothingRejected(job: Job, codec: Codec)
    requires CanMigrate(job, codec)
    ensures HasLegacySchema(job.root) && Rejected(job.root) == []
  {
    IsOldIff(job.root);
    if HasOldTabs(job.root) {
      RejectedAreOthers(OldTabs(job.root), |OldTabs(job.root)|);
      NoOthersIff(OldTabs(job.root), |OldTabs(job.root)|);
    }
  }

  /** The original is in place, or the new text is and the backup holds the original. */
  predicate Safe(files: Files, job: Job) {
    job.name in files
    && (|| files[job.name] == job.original
        || (files[job.name] == job.text
            && BackupName(job.name) in files && files[BackupName(job.name)] == job.original))
  }

  /** Once the new text is in place, a later run finds nothing to do. */
  lemma MigratedStaysMigrated(files: Files, job: Job, codec: Codec)
    requires CanMigrate(job, codec) && job.name in files && files[job.name] == job.text
    ensures PlanFor(files, job.name, codec) == Plan(AlreadyMigrated, [])
  {
    assert codec.parse(codec.show(Rewritten(job.root)).value) == Some(Rewritten(job.root));
    RewrittenIsNotLegacy(job.root);
  }

  lemma StoppedKeepsSafe(files: Files, job: Job, codec: Codec, after: Files)
    requires CanMigrate(job, codec) && Safe(files, job)
    requires Stopped(files, PlanFor(files, job.name, codec).ops, after)
    ensures Safe(after, job) && SameElsewhere(files, after, job.name)
  {
    ConfigIsOldOrNew(files, job.name, codec, after);
    if files[job.name] != job.original {
      MigratedStaysMigrated(files, job, codec);
    }
  }

  /** Each state follows from the one before by a run that stopped anywhere. */
  ghost predicate Runs(states: seq<Files>, name: string, codec: Codec) {
    forall i :: 0 <= i < |states| - 1 ==> RunStep(states, i, name, codec)
  }

  ghost predicate RunStep(states: seq<Files>, i: nat, name: string, codec: Codec)
    requires i + 1 < |states|
  {
    Stopped(states[i], PlanFor(states[i], name, codec).ops, states[i + 1])
  }

  /**
   * Main result. After any number of runs, each stopped anywhere, the configuration
   * is the original or the complete new text with the original in the backup.
   */
  lemma {:induction false} AlwaysSafe(states: seq<Files>, job: Job, codec: Codec, i: nat)
    requires CanMigrate(job, codec) && i < |states| && Runs(states, job.name, codec)
    requires job.name in states[0] && states[0][job.name] == job.original
    ensures Safe(states[i], job) && SameElsewhere(states[0], states[i], job.name)
  {
    if i > 0 {
      AlwaysSafe(states, job, codec, i - 1);
      assert RunStep(states, i - 1, job.name, codec);
      StoppedKeepsSafe(states[i - 1], job, codec, states[i]);
    }
  }

  /** From every such state, one run that is not stopped ends migrated, with the original in the backup. */
  lemma FullRunMigrates(files: Files, job: Job, codec: Codec)
    requires CanMigrate(job, codec) && Safe(files, job)
    ensures var plan := PlanFor(files, job.name, codec);
            var after := After(files, plan.ops, |plan.ops|);
            && job.name in after && after[job.name] == job.text
            && BackupName(job.name) in after && after[BackupName(job.name)] == job.original
            && plan.outcome == if files[job.name] == job.text then AlreadyMigrated else Migrated
  {
    var name := job.name;
    NamesDiffer(name);
    NothingRejected(job, codec);
    if files[name] == job.text {
      MigratedStaysMigrated(files, job, codec);
      if files[name] == job.original { NewTextDiffers(job, codec); }
    } else {
      AfterThree(files, Write(BackupName(name), files[name]), Write(TmpName(name), job.text),
                 Rename(TmpName(name), name));
    }
  }

  lemma NewTextDiffers(job: Job, codec: Codec)
    requires CanMigrate(job, codec)
    ensures job.text != job.original
  {
    assert codec.parse(codec.show(Rewritten(job.root)).value) == Some(Rewritten(job.root));
    RewrittenIsNotLegacy(job.root);
    IsOldIff(job.root);
  }
}
