# Verification of rimeterm's stateful core

A Dafny 4.11 model of five parts of the rimeterm workspace, with proofs about them:

- **Diff view** (`Diff*.dfy`, `SideBySide.dfy`, `CommentRanges.dfy`): raw diff text becomes numbered
  lines, a file tree with change counts, a flattened list of rows, a side-by-side pairing and the
  line range of a review comment.
- **Incremental session refresh** (`Session*.dfy`): adapter threads send events into one channel; a
  single consumer batches them into the session index, deletes and reports progress. Also the
  deduplication of scanned sessions.
- **Layout** (`Layout*.dfy`, `Tab*.dfy`): the tree of splits, tab groups and panes; the
  rectangles it paints; its dividers and their ratios; saving the ratios and bringing them back.
- **Persisted state** (`ProjectMap.dfy`, `LeftTabs*.dfy`, `Migrate*.dfy`): the project map's text
  format, the normal form of the left-column tabs, and the one-shot configuration migration.
- **Command line** (`Cli*.dfy`): the `rimectl` parser.

`Prelude.dfy` and `Text.dfy` hold shared datatypes and the string operations the code takes from the
Rust standard library. Code that updates variables in place is modelled by methods and classes, each
proved equal to a specification function; the results are lemmas about those functions. The whole
project verifies with `dafny verify dfyconfig.toml`.

## How things are modelled

- Text is a sequence of Unicode scalar values. `f32` ratios and `f64` modification times are reals.
- The channel of the refresh is any interleaving of the adapters' event streams that keeps each
  adapter's own order. The index is the sequence of its documents; a commit makes a writer's deletes
  and adds visible at once. A document is deleted by its key text, `agent::id`, as in the code.
- ratatui's solver is an arbitrary function. The painting results assume that it returns one
  rectangle per ratio and that these tile the area; the divider results only assume the number.
- TOML reading and printing are arbitrary functions; the migration results over several runs assume
  that what prints reads back as the same tree. Whether a path is absolute is an arbitrary predicate.
- An interrupted run of the migration leaves the files after some of its operations, and of the next
  operation, if it was a write, any prefix of the text. A failing operation counts as an interruption.

## What the code does differently from what one might expect

- Two agents' document keys can coincide. They do exactly when one agent name followed by `::` is a
  proper prefix of the other one's (`Sessions.KeysCollideIff`); colon-free names never collide.
- The refresh leaves two documents under one id when an adapter emits the id twice in one batch
  without deleting it; `SessionInterleaving.RefreshLandsIff` shows that this is the only failure over
  all schedules and batch sizes, `SessionBatches.RepeatedIdLandsIff` when it happens in a given one.
- A path with white space is cut at it, so the file is listed under another name, unless a `rename to` line
  names it (`DiffFileNames.SpacedPathIsRenameTarget`, `DiffSections.SectionListsItsPathIff`). A file is
  marked as new or deleted only if a `+++` or `---` line follows the mode line, so an empty or binary one
  is not (`DiffSections.SectionIsRead`).
- A deleted line that begins with `-- ` and an added line that begins with `++ ` are read as file
  headers (`DiffParserProofs.MarkerIsReadUnlessItLooksLikeAHeader`).
- The marker for a missing newline at the end of a file counts as a line of both files, so what follows
  it in its hunk is numbered too high (`DiffHunks.MarkerShiftsNumber`). This and the header look-alikes
  are all that can go wrong in a hunk (`DiffHunks.HunkRecoveredIff`).
- Selecting the row of a file whose path holds a backslash does not show that file
  (`DiffRowLines.FileRowShowsItsFile`). A directory's row also shows a file with the directory's own path
  and leaves out files below it that spell its path with backslashes; these and an empty directory name
  are the only exceptions (`DiffRowLines.DirRowShowsItsFiles`).
- Change totals miss exactly the changes before the first named file, unless a header names the empty
  path (`DiffTotals.TotalsCountFromFirstFile`, `DiffTotals.TotalsCountEveryChange`).
- `rebuild_visible_nodes` finds the selected row by a key that a file's path and a directory's id can
  share. When another row with that key comes first the selection moves to it, and in no other case
  (`DiffRebuild.ReselectedIff`); in a diff of `root/src` and `src/a.rs` it does
  (`DiffRebuild.SelectionMovesToFile`), without a top-level folder `root` it never does
  (`DiffRebuild.StaysWithoutRootFolder`).
- `rebuild_visible_nodes` does not copy directory counts back. After it every directory reads 0, which is
  right only for a directory without changed lines below it (`DiffStaleCounts.RebuiltCountIff`,
  `DiffStaleCounts.CountsAreLost`).
- `collapse_all` stops at shut directories. It shuts everything only if no open directory lies below a
  shut one (`DiffCollapse.CollapseShutsAllIff`), and since it shuts the invisible root too, a second
  `collapse_all` does nothing whatever was opened in between (`DiffCollapse.LaterCollapseDoesNothing`).
- A layout key is read back as itself only if it is empty or each part is the decimal form of a byte;
  `+1`, `007`, `1.x` and `x` address the splits 1, 7, 1 and the root (`LayoutState.EncodeDecodeIff`,
  `LayoutState.OddKeys`).
- A child index above 255 is recorded modulo 256. Exactly then a divider can be recorded under the path
  of another split (`LayoutDividers.RecordedTrulyIff`, `LayoutDividers.WideTreeMisrecords`).
- The migration drops `[files].tabs` whatever its type, not only when it is an array
  (`MigrateProofs.EntrySurvivesIff`).
- The documentation of `parse_cli` calls the flags order-independent; with `osc-emit` among other
  arguments they are not (`CliProofs.OrderIndependentIff`).
- `normalize_group` panics on the bottom group when the catalog holds nothing but `glab`
  (`LeftTabs.PanicFreeIff`).

## Model

| member | source | states |
|---|---|---|
| DiffParser.Parse | crates/glab-tui/src/app.rs:772-1021 | the line loop with its running counters and file list computes the specified parse of the text |
| DiffParser.StripAnsiIdempotent | crates/glab-tui/src/app.rs:747-768 | removing colour codes twice is removing them once |
| DiffParser.ColoursVanish | crates/glab-tui/src/app.rs:747-768 | from any text with colour codes in it exactly the codes are removed |
| DiffFileNames.PlusNames | crates/glab-tui/src/app.rs:867-911 | in every text a "+++ b/p" line belongs to the listed file p |
| DiffFileNames.MinusNames | crates/glab-tui/src/app.rs:855-911 | a "--- a/p" line belongs to the listed file p, unless a rename from p is pending; then it names nothing |
| DiffFileNames.GitNames | crates/glab-tui/src/app.rs:798-812 | a "diff --git a/p b/q" line belongs to the listed file q, and a rename from p is then pending exactly if p differs from q |
| DiffFileNames.RenameNames | crates/glab-tui/src/app.rs:824-840 | a "rename to q" line belongs to the listed file q, spaces and all |
| DiffFileNames.RenameFromPends | crates/glab-tui/src/app.rs:813-823 | a "rename from p" line leaves a rename from p pending |
| DiffFileNames.NullNamesNothing | crates/glab-tui/src/app.rs:855-887 | "/dev/null" in place of a path names nothing |
| DiffFileNames.OthersNameNothing | crates/glab-tui/src/app.rs:798-911 | nor does a line that begins like none of these: it belongs to the file of the line before, and no file begins at it |
| DiffFileNames.SpacedPathIsRenameTarget | crates/glab-tui/src/app.rs:798-911 | a listed path holds white space only if a "rename to" line names it |
| DiffSections.SectionIsRead | crates/glab-tui/src/app.rs:798-911 | a rendered file section anywhere in a text: all its lines belong to its file, and reading it lists that file with its former path if renamed, as new or deleted exactly if "---" and "+++" lines follow the mode line |
| DiffSections.DiffListsItsSections | crates/glab-tui/src/app.rs:798-911 | a diff of sections for different files lists exactly these, in order, with these entries |
| DiffSections.SectionCounts | crates/glab-tui/src/app.rs:967-1003 | each file's change counts are the numbers of added and deleted lines in its section |
| DiffSections.OnlyTheBodyChanges | crates/glab-tui/src/app.rs:913-949 | the header lines of a section are no changes |
| DiffSections.SectionListsItsPathIff | crates/glab-tui/src/app.rs:798-911 | a section on its own lists exactly its path if and only if that holds no white space (renames apart) |
| DiffParserProofs.MarkerIsReadUnlessItLooksLikeAHeader | crates/glab-tui/src/app.rs:785-985 | a hunk line is read by its marker exactly when it does not look like a file header or hunk header; which texts do |
| DiffParserProofs.LineNumbersMeanWhatTheySay | crates/glab-tui/src/app.rs:913-1021 | every numbered line of every text carries its hunk's start plus the count of earlier lines of that side since the header |
| DiffParserProofs.NoNumbersBeforeFirstHeader | crates/glab-tui/src/app.rs:772-1021 | nothing before the first hunk header or file header is numbered |
| DiffSections.HeaderIsNotNumbered | crates/glab-tui/src/app.rs:914-966 | from a "diff --git" line to the next hunk header nothing is numbered |
| DiffLines.CounterClosedForm | crates/glab-tui/src/app.rs:950-1021 | the running counter has a closed form: start of the last header plus the lines counted since |
| DiffLines.NumbersIncreaseWithinHunk | crates/glab-tui/src/app.rs:950-1021 | within a hunk the numbers of a side strictly increase while they stay below 2^32 |
| DiffHunks.HeaderReadsBack | crates/glab-tui/src/app.rs:1584-1596 | a rendered hunk header, with or without line counts, is recognised and its two start lines are read back |
| DiffHunks.HunkRecoveredIff | crates/glab-tui/src/app.rs:913-1021 | a rendered hunk anywhere in a text comes out with all its kinds and true line numbers if and only if no text looks like a header and no missing-newline marker precedes another line |
| DiffHunks.MarkerShiftsNumber | crates/glab-tui/src/app.rs:1004-1021 | an added line behind such a marker is numbered one too high |
| DiffParserProofs.FileListIsFaithful | crates/glab-tui/src/app.rs:772-930 | for every text: no file listed twice, from the first file's first line on every line belongs to a listed file, earlier ones have the empty path; jump targets are the files' first lines |
| DiffParserProofs.RunCounts | crates/glab-tui/src/app.rs:967-1003 | a file's change counts are the numbers of its added and deleted lines |
| DiffTree.SortOrders | crates/glab-tui/src/app.rs:583-660 | siblings are listed once each, directories first, each kind by name |
| DiffFolders.SiblingsInOrder | crates/glab-tui/src/app.rs:583-660 | in the list of any tree, of two rows in one directory a directory comes before a file and the lesser name before the greater |
| DiffFolders.DirectoryRowsIff | crates/glab-tui/src/app.rs:505-660 | a new tree's list has a directory row for exactly the directories of the listed paths not called "root", with name, id and depth |
| DiffTreeBuild.BuildTreeLoop | crates/glab-tui/src/app.rs:1023-1042 | the insertion loop builds the specified tree |
| DiffTreeBuild.BuildTreeFresh | crates/glab-tui/src/app.rs:505-581 | after construction sibling directories have distinct names, no name holds a slash, all directories are open |
| DiffTreeBuild.InsertAddsOne | crates/glab-tui/src/app.rs:505-581 | inserting a file with a new path adds exactly its row, under the directories of its path |
| DiffTreeBuild.FileRowsArePermutation | crates/glab-tui/src/app.rs:504-660 | the file rows of the flattened tree are a permutation of the listed files' rows |
| DiffTreeBuild.RowForFile | crates/glab-tui/src/app.rs:505-660 | which row a file has: id, name, counts, and depth unless a directory is named "root" |
| DiffViews.NewViewListsEveryFile | crates/glab-tui/src/app.rs:1023-1051 | for every text the new view's list shows every detected file exactly once, and the tree has distinct sibling directories |
| DiffTreeToggle.ToggleChangesOneBlock | crates/glab-tui/src/app.rs:583-694 | toggling a visible directory flips its row and inserts or removes exactly the block right below it |
| DiffTreeToggle.ToggleTwice | crates/glab-tui/src/app.rs:669-694 | toggling the same id twice restores any tree |
| DiffTreeToggle.ToggleWellFormed | crates/glab-tui/src/app.rs:669-694 | a toggle keeps the tree well-formed, so the above holds along any run of toggles |
| DiffRebuild.ReselectedIff | crates/glab-tui/src/app.rs:1248-1267 | after flattening anew a row that is still listed is selected again if and only if no row before it carries its key as its other name; otherwise an earlier row is |
| DiffRebuild.StaysWithoutRootFolder | crates/glab-tui/src/app.rs:1248-1267 | for every diff without a top-level folder "root" it is always selected again |
| DiffRebuild.SelectionMovesToFile | crates/glab-tui/src/app.rs:1248-1267 | with files root/src and src/a.rs, selecting the directory src ends on the file root/src |
| DiffRebuild.ToggleKeepsSelectionIff | crates/glab-tui/src/app.rs:583-694 | toggling the selected directory and flattening anew keeps the selection at its index under the same condition |
| DiffRebuild.TreeListsFilesOnce | crates/glab-tui/src/app.rs:504-660 | whatever is open, the list shows no file twice |
| DiffStaleCounts.RebuiltCountIff | crates/glab-tui/src/app.rs:583-660 | after flattening anew every directory row reads 0, its directory's total if and only if no line of a listed file below it changes that side |
| DiffStaleCounts.CountsAreLost | crates/glab-tui/src/app.rs:1187-1253 | with files root/src and src/a.rs the row of src first shows the changes of src/a.rs and after flattening anew 0 |
| DiffCollapse.CollapseShutsAllIff | crates/glab-tui/src/app.rs:1277-1295 | collapsing shuts every directory if and only if no open one lies below a shut one |
| DiffCollapse.LaterCollapseDoesNothing | crates/glab-tui/src/app.rs:1277-1295 | after one collapse, a later one changes nothing, whatever directories were toggled in between |
| DiffCollapse.ReopenedStaysOpen | crates/glab-tui/src/app.rs:669-694 | a directory reopened after a collapse is still open after the next |
| DiffCollapse.ExpandShowsEveryFile | crates/glab-tui/src/app.rs:1297-1313 | expanding shows every file of the diff exactly once, whatever was shut |
| DiffDirCounts.CopyDirCountsToFlat | crates/glab-tui/src/app.rs:1227-1246 | the stack-driven walk computes the specified copy of directory totals |
| DiffDirCounts.DirectoryRowsSumTheirFiles | crates/glab-tui/src/app.rs:1187-1246 | after the copy every directory row carries the sums of the file rows below it; nothing else changed |
| DiffTotals.TotalsCountFromFirstFile | crates/glab-tui/src/app.rs:967-1051 | for every text the tree's total on a side is the number of changed lines from the first listed file on (of all lines if a header names the empty path) |
| DiffTotals.TotalsCountEveryChange | crates/glab-tui/src/app.rs:967-1051 | the totals equal the numbers of added and deleted lines if and only if no changed line of the text comes before one that names a file, or a header names the empty path |
| DiffTotals.TotalsWhenFirstLineNamesFile | crates/glab-tui/src/app.rs:967-1051 | they agree whenever the first line names a file |
| SideBySide.BuildSideBySideLines | crates/glab-tui/src/app.rs:1534-1582 | the nested index loops terminate and compute the specified pairing |
| SideBySide.ColumnsAreFaithful | crates/glab-tui/src/app.rs:1534-1582 | the left cells in order are exactly the non-Addition lines, the right cells the non-Deletion lines |
| SideBySide.RowsAreTight | crates/glab-tui/src/app.rs:1534-1582 | every row holds one line twice or pairs a deletion with an addition, never neither |
| CommentRanges.ViewChained | crates/glab-tui/src/app.rs:1082-1159 | in a filtered view neighbouring body lines are still numbered consecutively |
| CommentRanges.UnifiedRangeIsGapless | crates/glab-tui/src/app.rs:1379-1531 | in the unified view a selection inside a hunk gives a gapless range on the side it should be on |
| CommentRanges.SplitRangeIsGapless | crates/glab-tui/src/app.rs:1379-1531 | the same in the side-by-side view |
| DiffViews.ParsedViewIsSound | crates/glab-tui/src/app.rs:772-1159 | whatever files of whatever text are shown, the view meets what the comment results need |
| DiffViews.UnifiedSelectionIsGapless | crates/glab-tui/src/app.rs:1379-1531 | for every text and file filter: end minus start plus one is the number of returned lines, new side first, all selected lines of that side |
| DiffViews.SplitSelectionIsGapless | crates/glab-tui/src/app.rs:1379-1582 | the same for the side-by-side view, cell by cell |
| DiffRowLines.FileRowShowsItsFile | crates/glab-tui/src/app.rs:1082-1120 | selecting a listed file's row shows exactly its lines if and only if its path holds no backslash |
| DiffRowLines.DirRowShowsItsFiles | crates/glab-tui/src/app.rs:1082-1120 | in every tree of every diff, selecting a directory's row shows exactly the lines of the files below it if and only if no file has its path and all spell it with forward slashes |
| DiffViews.CollectHunks | crates/glab-tui/src/app.rs:1125-1159 | the hunk list holds exactly the entries that are hunk headers, in order |
| DiffViews.ActiveLines | crates/glab-tui/src/app.rs:1082-1159 | lines, rows, clamped cursor and hunks for the selected row and mode |
| DiffViews.DiffView.constructor | crates/glab-tui/src/app.rs:1042-1080 | a new view is valid and shows the flattened tree with directory counts |
| DiffViews.DiffView.UpdateActiveLines | crates/glab-tui/src/app.rs:1082-1159 | restores the agreement of the derived fields with the selection and mode |
| DiffViews.DiffView.RebuildVisibleNodes | crates/glab-tui/src/app.rs:1248-1275 | the list is flattened anew without directory counts; a row still listed stays selected if and only if no row before it carries its key as its other name; no match resets the positions; the view stays valid |
| DiffViews.DiffView.CollapseAll | crates/glab-tui/src/app.rs:1277-1295 | collapses the tree and rebuilds the list; the view stays valid |
| DiffViews.DiffView.ExpandAll | crates/glab-tui/src/app.rs:1297-1313 | expands the tree and rebuilds the list, which shows every file once; the view stays valid |
| DiffViews.ViewCommentRangeIsGapless | crates/glab-tui/src/app.rs:1379-1490 | in any valid view, in either mode, a selection of several numbered entries has a gapless comment range |
| DiffViews.CursorRangeIsItsLine | crates/glab-tui/src/app.rs:1492-1530 | in any valid view without a selection the range is that of the line under the cursor, in the paired view of the right cell if numbered or alone, else the left: one line, its file, its new number or for a deletion its old one |
| Sessions.KeysCollideIff | crates/fast-resume/src/index/document.rs:44-46 | when document keys of two agents can coincide, exactly |
| Sessions.PlainKeysAreFaithful | crates/fast-resume/src/index/document.rs:44-46 | colon-free agents never share a key |
| Sessions.SessionIndex.UpdateSessions | crates/fast-resume/src/index.rs:225-243 | all deletes of the batch, then all adds, visible at once |
| Sessions.SessionIndex.DeleteSessions | crates/fast-resume/src/index.rs:245-260 | deletes the documents of the given ids and no others |
| Sessions.SessionIndex.KnownSessions | crates/fast-resume/src/index.rs:123-138 | the known ids are the ids of the documents, each with a stored time |
| SessionRefresh.Refresher.FlushRefreshBatch | crates/fast-resume/src/refresh.rs:160-190 | a flush moves the batch into the index, counts new ids and reports |
| SessionRefresh.Refresher.HandleEvent | crates/fast-resume/src/refresh.rs:96-150 | one turn of the event loop |
| SessionRefresh.RefreshIncrementalStreaming | crates/fast-resume/src/refresh.rs:47-158 | the whole consumer computes the specified run over the events |
| SessionRefreshProofs.ProgressIsAccurate | crates/fast-resume/src/refresh.rs:87-190 | at every callback the reported number is the number of distinct ids in the index, and the saturating subtraction never saturates |
| SessionProgress.WaitingCount | crates/fast-resume/src/refresh.rs:96-126 | how many sessions wait: those emitted since the last finish, modulo the batch size |
| SessionProgress.CallbacksTell | crates/fast-resume/src/refresh.rs:87-190 | the callbacks come after exactly the event prefixes that fill a batch, finish an adapter while sessions wait, or report deleted ids, one for each; each is told the number of ids in the index, of sessions emitted and of ids deleted so far |
| SessionRefreshProofs.SummaryCountsEveryEvent | crates/fast-resume/src/refresh.rs:87-158 | the summary counts every emitted session and every deleted id, however batched |
| SessionRefreshProofs.TotalLenAgrees | crates/fast-resume/src/refresh.rs:89-158 | with one document per id and no id emitted twice, the document count agrees with the running total at every callback and at the end |
| SessionInterleaving.CleanIdLands | crates/fast-resume/src/refresh.rs:87-157 | for one id, any interleaving and batch size: it ends with its emitted session, its old one, or none if deleted |
| SessionInterleaving.RefreshLandsIff | crates/fast-resume/src/refresh.rs:87-157 | every interleaving and batch size ends with initial sessions overridden by emitted ones minus deleted ones, if and only if no adapter emits an id twice without deleting it |
| SessionBatches.RepeatedIdLandsIff | crates/fast-resume/src/refresh.rs:87-157 | for one schedule and batch size: an undeleted id ends with its last emission alone if and only if no earlier emission of it waits in the batch the last one joins |
| SessionBatches.SingleBatchesLand | crates/fast-resume/src/refresh.rs:87-157 | with a batch size of one every undeleted id lands, however often emitted |
| SessionInterleaving.InterleavingEmitsOnce | crates/fast-resume/src/refresh.rs:55-86 | clean streams give interleavings without repeated emissions, so the counts agree too |
| SessionDedupe.SortAndDedupeSessions | crates/fast-resume/src/model.rs:109-127 | the survivor of every id, each once, newest first |
| SessionDedupe.SurvivorDominatesLater | crates/fast-resume/src/model.rs:109-121 | the survivor is an input that dominates every later session of its id |
| SessionDedupe.GreatestIsKept | crates/fast-resume/src/model.rs:109-121 | once a session greatest in all three measures was seen, the kept one has its rank |
| SessionDedupe.OneMoreSession | crates/fast-resume/src/model.rs:109-121 | one more session replaces the kept one of its id, unless that is at least as new, as late and as long in bytes |
| SessionDedupe.BestSurvives | crates/fast-resume/src/model.rs:109-121 | a session best in all three measures survives in all three |
| SessionDedupe.SurvivorOrderIndependentIff | crates/fast-resume/src/model.rs:109-127 | the survivor's measures are the same for every input order if and only if some session is greatest in all three |
| LayoutTrees.NewSplit | crates/rimeterm-core/src/layout.rs:40-58 | ratios are kept in proportion and sum to 1 |
| LayoutTrees.CheckUnique | crates/rimeterm-core/src/layout.rs:219-240 | the recursive check computes the specified scan of the ids |
| LayoutTrees.UniqueIff | crates/rimeterm-core/src/layout.rs:88-92 | a tree is accepted if and only if no pane id repeats; the error names the first repeated one |
| LayoutTrees.FindSplit | crates/rimeterm-core/src/layout.rs:346-368 | the cursor loop finds the node at a path |
| LayoutRects.Walk | crates/rimeterm-core/src/layout.rs:285-314 | the recursive walk appends the specified rectangles |
| LayoutRects.ComputeRects | crates/rimeterm-core/src/layout.rs:104-108 | painting from an empty list computes the specified rectangles |
| LayoutRects.EveryCellCovered | crates/rimeterm-core/src/layout.rs:104-108 | every cell of the area is covered by exactly one rectangle, or by none if it falls to a tab group without active pane; no cell outside is covered |
| LayoutRects.NoGaps | crates/rimeterm-core/src/layout.rs:285-314 | when every tab group shows a member each cell is painted exactly once |
| LayoutRects.PaintedInside | crates/rimeterm-core/src/layout.rs:285-314 | every painted rectangle is a non-empty part of the area |
| LayoutRects.PaintedDisjoint | crates/rimeterm-core/src/layout.rs:285-314 | no two painted rectangles share a cell |
| LayoutRects.PaintedOncePerPane | crates/rimeterm-core/src/layout.rs:88-108 | in an accepted tree no pane is painted twice, and only its own panes are |
| LayoutPanes.PaintedIff | crates/rimeterm-core/src/layout.rs:285-314 | a pane is painted in a rectangle if and only if some path leads to its cell, or to a tab group whose active member it is, and the solver gives that path this non-empty rectangle |
| LayoutPanes.GroupPaints | crates/rimeterm-core/src/layout.rs:285-314 | after any request to a tab group its active pane has the group's rectangle, and every other path shows what it showed |
| LayoutPanes.SwitchingPaints | crates/rimeterm-core/src/tabs.rs:155-212 | going to a tab, to the next, and adding one paint that tab |
| LayoutPanes.HiddenTabsAreNotPainted | crates/rimeterm-core/src/layout.rs:285-314 | in an accepted tree the other members of a group are painted nowhere |
| LayoutPanes.ChildrenSideBySide | crates/rimeterm-core/src/layout.rs:296-312 | with a tiling solver the children of a split stand side by side along its direction, in order, from the edge on |
| LayoutPanes.WeightIsNearest | crates/rimeterm-core/src/layout.rs:301-304 | the solver is given each ratio in ten-thousandths, to the nearest |
| LayoutSeams.DividersIff | crates/rimeterm-core/src/layout.rs:373-424 | a divider is listed if and only if its path leads to a visible split and it is the last column or row of a child that has a next one |
| LayoutDividers.CollectDividers | crates/rimeterm-core/src/layout.rs:373-424 | the recursive collection gives the specified seams under their byte-truncated paths |
| LayoutDividers.Dividers | crates/rimeterm-core/src/layout.rs:129-133 | collecting from the root with an empty list gives all seams under their recorded paths |
| LayoutDividers.RecordedTrulyIff | crates/rimeterm-core/src/layout.rs:373-424 | every divider is recorded under its true path if and only if no visible split of two or more children lies at or below a child index above 255 |
| LayoutDividers.ChildrenCollide | crates/rimeterm-core/src/layout.rs:373-424 | visible split children 256 apart have dividers under one key, that of the first |
| LayoutDividers.WideTreeMisrecords | crates/rimeterm-core/src/layout.rs:373-424 | in a tree of 257 columns the divider inside the last is recorded as the first one's |
| LayoutDividers.DividersAreDraggable | crates/rimeterm-core/src/layout.rs:129-181 | with at most 256 children per split every divider names a distinct real seam, and moving it can only fail with BelowMinSize |
| LayoutRatios.LayoutTree.AdjustRatio | crates/rimeterm-core/src/layout.rs:150-181 | outcome and new tree of an adjustment; a refused call changes nothing |
| LayoutRatios.LayoutTree.SetRatios | crates/rimeterm-core/src/layout.rs:185-203 | outcome and new tree of an overwrite; a refused call changes nothing |
| LayoutRatios.AdjustAcceptedIff | crates/rimeterm-core/src/layout.rs:150-181 | an adjustment is accepted if and only if the seam is there and both neighbours keep their floors |
| LayoutRatios.AdjustMovesSeam | crates/rimeterm-core/src/layout.rs:150-181 | an accepted one moves that seam by delta towards the end and no other |
| LayoutRatios.OverwriteScales | crates/rimeterm-core/src/layout.rs:185-203 | an accepted overwrite sets the ratios in the given proportions |
| LayoutRatios.RunKeeps | crates/rimeterm-core/src/layout.rs:150-203 | over any run of requests: ratios sum to 1, the shape stays, splits not named keep their ratios |
| LayoutRatios.AdjustBackIff | crates/rimeterm-core/src/layout.rs:150-181 | after an accepted adjustment the opposite one is accepted, and restores the tree, if and only if the original ratios met the floors |
| LayoutRatios.OverwriteRestores | crates/rimeterm-core/src/layout.rs:150-203 | overwriting a split with its former ratios undoes any run of requests to it |
| LayoutState.DecodeEncode | crates/rimeterm-config/src/layout_state.rs:35-50 | decoding undoes encoding for every sequence of bytes |
| LayoutState.EncodeInjective | crates/rimeterm-config/src/layout_state.rs:35-50 | different paths have different keys |
| LayoutState.EncodeDecodeIff | crates/rimeterm-config/src/layout_state.rs:35-50 | a key is read back as itself if and only if it is empty or all its parts are decimal forms of bytes |
| LayoutState.OtherKeyIff | crates/rimeterm-config/src/layout_state.rs:35-50 | the split a key addresses has another canonical key if and only if the key is not canonical |
| LayoutState.AddressesRootIff | crates/rimeterm-config/src/layout_state.rs:43-50 | a key addresses the root split if and only if no part between its dots reads as a byte |
| LayoutState.OddKeys | crates/rimeterm-config/src/layout_state.rs:43-50 | what +1, 007, 1.x and x address |
| LayoutState.WalkSnapshot | crates/rimeterm-tui/src/app.rs:9949-9981 | the recursive snapshot appends the specified entries |
| LayoutState.ApplySnapshot | crates/rimeterm-tui/src/app.rs:9959-9966 | applying a snapshot is a run of overwrites |
| LayoutState.SnapshotRestores | crates/rimeterm-tui/src/app.rs:9949-9981 | applying the snapshot of one tree to any tree of its shape gives the first one back |
| LayoutPersist.PruneToDiff | crates/rimeterm-tui/src/app.rs:10039-10056 | the loop keeps the specified entries |
| LayoutPersist.SnapshotPersistedState | crates/rimeterm-tui/src/app.rs:10018-10030 | the saved map is the specified one |
| LayoutPersist.ApplyPersistedState | crates/rimeterm-tui/src/app.rs:9986-9997 | loading is a run of overwrites over the keys of the map, in some order |
| LayoutPersist.RestartRestores | crates/rimeterm-tui/src/app.rs:9986-10070 | after saving and loading a split has exactly its ratios, or its default ones if those were within the tolerance, for every order of the file |
| LayoutPersist.RestartIsClose | crates/rimeterm-tui/src/app.rs:10032-10070 | no ratio moves by the tolerance or more |
| LayoutPersist.NothingSavedIff | crates/rimeterm-tui/src/app.rs:9999-10030 | the file is empty if and only if no split differs from its default |
| TabGroups.TabGroup.constructor | crates/rimeterm-core/src/tabs.rs:103-120 | a new group shows its first member |
| TabGroups.TabGroup.Next | crates/rimeterm-core/src/tabs.rs:155-160 | the next member, around the end |
| TabGroups.TabGroup.Prev | crates/rimeterm-core/src/tabs.rs:163-168 | the previous member, around the start |
| TabGroups.TabGroup.Goto | crates/rimeterm-core/src/tabs.rs:172-181 | jumps to a member or reports the last one |
| TabGroups.TabGroup.TryAdd | crates/rimeterm-core/src/tabs.rs:190-212 | which policy refuses an addition; otherwise the new pane is active |
| TabGroups.TabGroup.TryClose | crates/rimeterm-core/src/tabs.rs:217-244 | closing another tab keeps the active pane; only a forced close of the last member leaves none |
| TabGroups.TabGroup.ReplaceMember | crates/rimeterm-core/src/tabs.rs:253-261 | swaps one member and nothing else |
| TabGroups.TabGroup.SetMembers | crates/rimeterm-core/src/tabs.rs:275-298 | the active pane stays active if it is still a member |
| TabRuns.ShowsNothingIff | crates/rimeterm-core/src/tabs.rs:103-298 | over any run of requests a group shows a member, unless a forced close took the last one and nothing was added since |
| TabRuns.OpenGroupStaysWithin | crates/rimeterm-core/src/tabs.rs:190-298 | an open group never grows beyond its maximum; once within it, it stays there |
| TabRuns.FixedGroupKeepsSize | crates/rimeterm-core/src/tabs.rs:190-298 | a fixed group changes its size only when its members are set |
| TabRuns.NextThenPrev | crates/rimeterm-core/src/tabs.rs:155-168 | going to the next tab and back restores the group |
| TabRuns.UnforcedTreeHasNoGaps | crates/rimeterm-core/src/layout.rs:285-314 | when every tab group of a tree has seen any run of requests without a forced close, each cell of the area is painted exactly once |
| ProjectMaps.ProjectMap.Parse | crates/rimeterm-config/src/project_map.rs:74-105 | the line loop computes the specified map; a later line wins |
| ProjectMaps.ProjectMap.Serialise | crates/rimeterm-config/src/project_map.rs:110-122 | the comment lines, then every entry in key order |
| ProjectMaps.ProjectMap.Insert | crates/rimeterm-config/src/project_map.rs:156-158 | the key is lowercased, the path stored as it is: it is found under every spelling of the name, and no other name's entry changes |
| ProjectMaps.ParsedIsClean | crates/rimeterm-config/src/project_map.rs:74-105 | whatever any text parses to is clean |
| ProjectMaps.ReadsIff | crates/rimeterm-config/src/project_map.rs:74-105 | a line gives an entry if and only if it is a key and an absolute path around the first "=", with any white space around each, and no comment |
| ProjectMaps.RoundTripIff | crates/rimeterm-config/src/project_map.rs:74-122 | a map survives printing and parsing if and only if every entry is clean |
| ProjectMaps.ParseSerialiseParse | crates/rimeterm-config/src/project_map.rs:74-122 | for every text, printing what was parsed and parsing again changes nothing |
| ProjectMaps.InsertRoundTripsIff | crates/rimeterm-config/src/project_map.rs:110-158 | inserting keeps the round trip if and only if the new entry is clean |
| ProjectMaps.PrintedInKeyOrder | crates/rimeterm-config/src/project_map.rs:110-122 | one line per entry, keys strictly ascending |
| LeftTabs.NormalizeGroup | crates/rimeterm-config/src/left_tabs_state.rs:98-124 | the in-place steps compute the specified list |
| LeftTabs.PanicFreeIff | crates/rimeterm-config/src/left_tabs_state.rs:117-123 | the insertion at index 1 is in range if and only if the catalog is not just the companion |
| LeftTabs.LeftTabsState.Normalize | crates/rimeterm-config/src/left_tabs_state.rs:84-87 | both groups are normalised with their anchors |
| LeftTabs.LeftTabsState.Save | crates/rimeterm-config/src/left_tabs_state.rs:182-210 | the file is deleted on defaults, else holds the state |
| LeftTabs.LeftTabsState.Load | crates/rimeterm-config/src/left_tabs_state.rs:165-177 | a missing file is the empty state |
| LeftTabsProofs.NormalizedGroupMeaning | crates/rimeterm-config/src/left_tabs_state.rs:98-124 | a duplicate-free permutation of the catalog, anchor first and visible, glab behind git, every other tab with its recorded visibility, the rest in recorded order |
| LeftTabsProofs.FixedIffNormal | crates/rimeterm-config/src/left_tabs_state.rs:98-124 | normalising leaves a list alone if and only if it is in that form |
| LeftTabsProofs.NormalizeIdempotent | crates/rimeterm-config/src/left_tabs_state.rs:84-124 | normalising twice is normalising once |
| LeftTabsProofs.SaveLoadNormalize | crates/rimeterm-config/src/left_tabs_state.rs:93-210 | for every state, saving and loading gives one that normalises to the same |
| LeftTabsProofs.NormalizedSurvives | crates/rimeterm-config/src/left_tabs_state.rs:93-210 | a normalised state comes back exactly |
| LeftTabsProofs.NoFileIffFresh | crates/rimeterm-config/src/left_tabs_state.rs:89-210 | no file is left if and only if the state is that of a fresh install |
| Migrate.Config.FillDefaults | crates/rimeterm-config/src/migrate.rs:187-206 | missing keys are filled in, present ones untouched |
| Migrate.Config.Rewrite | crates/rimeterm-config/src/migrate.rs:144-182 | the in-place edits compute the specified tree and rejected ids |
| Migrate.Disk.MigrateConfig | crates/rimeterm-config/src/migrate.rs:62-108 | outcome, final files and the sequence of file operations |
| MigrateProofs.NamesDiffer | crates/rimeterm-config/src/migrate.rs:98-138 | configuration, backup and temporary file never coincide, for any name |
| MigrateProofs.TmpNameOf | crates/rimeterm-config/src/migrate.rs:98-102 | the temporary name replaces the extension, when there is one |
| MigrateProofs.ConfigIsOldOrNew | crates/rimeterm-config/src/migrate.rs:62-108 | wherever a run stops, the configuration is unchanged or complete and new with the original in the backup; no other file changes |
| MigrateProofs.AlwaysSafe | crates/rimeterm-config/src/migrate.rs:62-108 | the same after any number of interrupted runs |
| MigrateProofs.FullRunMigrates | crates/rimeterm-config/src/migrate.rs:62-124 | from every such state an uninterrupted run ends migrated with the original in the backup, whichever of the three markers it has |
| MigrateProofs.MigratedStaysMigrated | crates/rimeterm-config/src/migrate.rs:79-81 | a later run returns AlreadyMigrated and issues no operation |
| MigrateProofs.AlreadyMigratedIff | crates/rimeterm-config/src/migrate.rs:79-124 | a readable configuration is left alone, without any operation, if and only if [files] has no list at tabs and [mouse] neither yazi_layout nor quicklook_scrollbar |
| MigrateProofs.RewrittenIsNotLegacy | crates/rimeterm-config/src/migrate.rs:113-182 | the rewritten configuration is never taken for an old one |
| MigrateProofs.EntrySurvivesIff | crates/rimeterm-config/src/migrate.rs:144-206 | a section's entry survives if and only if it is none of the three retired keys |
| MigrateProofs.TopLevelSurvivesIff | crates/rimeterm-config/src/migrate.rs:187-206 | a value that is not a table survives if and only if it does not stand at files or git |
| MigrateProofs.AddedAreDefaults | crates/rimeterm-config/src/migrate.rs:176-224 | nothing is added but missing defaults |
| MigrateProofs.RefusedIff | crates/rimeterm-config/src/migrate.rs:144-166 | an old configuration is refused if and only if some tab of the list is neither yazi nor gitui, and the refusal names these tabs in order |
| Cli.TakeVal | crates/rimectl/src/main.rs:249-256 | the value behind a flag, or the error that names it |
| Cli.ParseCli | crates/rimectl/src/main.rs:108-244 | the index loop terminates and computes the specified action or error |
| CliProofs.ScanIff | crates/rimectl/src/main.rs:133-191 | the loop accepts exactly sequences of well-formed groups and ends with the last value per flag and the positionals in order |
| CliRoundTrip.CommandLineIff | crates/rimectl/src/main.rs:108-244 | for every action with numbers in range: its command line is parsed as that action, each value in its place, if and only if none of its texts is taken for something else |
| CliProofs.OrderIndependentIff | crates/rimectl/src/main.rs:108-244 | reordering groups does not change the outcome, if and only if osc-emit does not stand among other groups |

## Left out

- Rendering, keys, mouse, themes, syntax highlighting and the search of the diff view.
- DiffTree.Insert: the tree node's in-place mutation is modelled on values (`Insert`, `Toggle`, directory totals); aliasing of nodes is not captured.
- DiffParser.Parse: line numbers wrap at 2^32 as in a release build; a debug build would stop instead. Change counts are unbounded.
- DiffHunks.HunkRecoveredIff: assumes that the hunk's line numbers stay below 2^32.
- DiffViews.ViewCommentRangeIsGapless: speaks of selections of two or more entries that all show numbers; of others only the branch taken is specified.
- Sessions.SessionIndex.UpdateSessions: write errors of the search library, its query side, ranking and statistics are not modelled.
- SessionRefresh.RefreshIncrementalStreaming: threads and the channel are represented by the order in which events leave it; adapters that fail and never finish are a stream without a last event.
- SessionDedupe.SortAndDedupeSessions: modification times are ordered numbers; NaN is not modelled. Sessions with equal timestamps come in no particular order, as from a hash map.
- LayoutRects.EveryCellCovered: the layout solver itself is not modelled, nor are float rounding of ratios and 16-bit coordinates.
- LayoutRatios.LayoutTree.AdjustRatio: ratios are reals, so restoring a ratio is exact where `f32` may drift; the tree is updated as a value instead of through a reference into it.
- ProjectMaps.ProjectMap.Serialise: paths are text; file names that are not Unicode print lossily and are not modelled. Two spellings of one path count as different values.
- LeftTabs.LeftTabsState.Save: input and output errors, and files from older versions without a `visible` field, are not modelled.
- Migrate.Disk.MigrateConfig: the path's directory, creation of the parent directory and loss of unsynchronised writes after a power failure are not modelled.
- Cli.ParseCli: the wording of number-parsing errors; the five actions themselves.
- Agent-status adapters, memory policy, path helpers, tool detection, process and socket handling: single-branch facts or foreign effects.
