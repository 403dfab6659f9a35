# Agent-instruction sync engine and RTTM interval helpers, in Dafny

This project models two parts of the dotfiles repository and proves properties about them.

The main part is the manifest-tracked sync engine of `scripts/sync_agents.py`. It keeps one dotfiles directory in step with the instruction directories of several coding agents. It works in three phases:

1. **Import.** Items found in an import-enabled target that the dotfiles do not hold yet are copied into the dotfiles and recorded in the manifest. Names the manifest says were deleted on purpose are skipped. Items present on both sides go to the newer side or are reported as a conflict.
2. **Plan.** For every target, the base file `ROOT_AGENTS.md`, the legacy `ROOT_AGENTS_*` entries and the children of `commands/`, `skills/` and `agents/` are compared with what the target holds. Each is classed `new`, `changed` or `synced`. Names the manifest remembers but the dotfiles no longer hold are planned for deletion.
3. **Apply.** `new` entries are written. `changed` entries and deletions are carried out when the operator answers yes, or always under `--yes`. The manifest is then rebuilt as the union of what it held and what the dotfiles hold.

The second part is the pair `find_overlaps` / `merge_intervals` of `tools/rttm/visualize.py`. They compute the time ranges where two speaker segments overlap, as a list of disjoint ranges. For segments of non-negative duration that list is the only sorted list of disjoint ranges covering those points, and so the minimal one. A segment with a negative duration (`end = start + duration`) yields an inverted range, which the model keeps as the code does.

## How the system is represented

- **File system.** The file system is one immutable value (`FileTree.Node`). A node is a file with content and mtime, a directory with a map of named entries and an mtime, or a symbolic link to an absolute path.
- **Paths.** Paths are sequences of names. `FileTree.Walk` follows links the way the kernel does, with the Linux limit of 40 links; a loop reads as a missing entry. `Stat`/`LStat` follow the last link or do not.
- **Raised exceptions.** Every Python call that can raise is a function returning `Option`. `None` means the exception propagates and the script stops (`Engine.Crashed`).
- **Clock.** `now` is the mtime given to directories the run creates.
- **Manifest.** `.sync-manifest.json` is a `Manifests.Manifest` value: a version and a map from category to names. The stored one is a parameter (`None` when the file is absent).
- **Operator.** The operator's answers are a stream of `Prompt.Reply` values. Each is a typed line, an end of input or an interrupt. An exhausted stream reads as end of input.
- **Console output.** What the run prints about the apply phase is an `Engine.Event` log.
- **Directory order.** `Path.iterdir()` order is taken to be ascending by name. The source leaves it to the operating system.
- **Interval helpers.** Segments and intervals are closed ranges of `real`. Both helpers are pure functions returning new sequences.

Files:

- `wrappers.dfy`: `Option`.
- `strings.dfy`: Python's string order, `sorted`, prefix and split helpers.
- `naming.dfy`: `_convert_path`.
- `confirm.dfy`: `_confirm`.
- `filetree.dfy`: the file system and link resolution.
- `fsops.dfy`: `mkdir(parents=True)`, `unlink`, `rmtree`, `copy2`, `copytree`, `_sync_file`, `_sync_directory`.
- `compare.dfy`: `filecmp`, `_compare_files`, `_compare_directories`, `_get_newest_mtime`.
- `sources.dfy`: the source listing.
- `manifest.dfy`: the manifest.
- `plans.dfy`: the sync and deletion plans.
- `imports.dfy`: the import plan and its application.
- `convergence.dfy`: what a write achieves, and the link problem.
- `engine.dfy`: `sync_mode` and `preview_mode`.
- `intervals.dfy`: the RTTM helpers.

## Model

| member | source | states |
|---|---|---|
| Naming.ConvertPath | scripts/sync_agents.py:153-157 | the result holds no underscore; it is the name without the `ROOT_AGENTS_` prefix, character for character, except that every `_` became `/` |
| Naming.ConvertPathIdempotent | scripts/sync_agents.py:153-157 | converting an already converted path changes nothing |
| Naming.ConvertPathInjective | scripts/sync_agents.py:153-157 | two prefixed names without `/` that convert to the same relative path are the same name, so legacy sources never collide |
| Naming.ConvertPathExamples | tests/test_sync_agents.py:201-226 | `ROOT_AGENTS_commands_strict.md` becomes `commands/strict.md` and `ROOT_AGENTS_skills_my-skill` becomes `skills/my-skill` |
| Manifests.LoadManifest | scripts/sync_agents.py:119-140 | a stored manifest is taken as it is; otherwise it has version 1 and exactly the categories that are directories, each listing its visible children in ascending order without repeats |
| Manifests.SaveManifest | scripts/sync_agents.py:143-150 | the saved manifest keeps the version and the categories; every list is sorted and is a permutation of the one in memory |
| Manifests.AddImported | scripts/sync_agents.py:645-650 | recording `cat/name` keeps every other category, keeps the old list as a prefix, adds at most one entry, keeps a list without repeats free of repeats, and makes `name` a member of `cat` |
| Manifests.AddImportedRecordsName | scripts/sync_agents.py:645-650 | after recording, the members of `cat` are exactly the old members and `name` |
| Manifests.Rebuild | scripts/sync_agents.py:721-732 | every category keeps all it held; each synced category becomes the ascending union of its old names and the visible dotfiles children; other categories are untouched |
| Sources.Visible | scripts/sync_agents.py:170-174 | the visible names of a directory are its children that do not start with a dot |
| Sources.DirectoryItems | scripts/sync_agents.py:160-183 | an item is listed exactly when it is a visible child `n` of a synced category `c`, with relative path `c/n` |
| Sources.LegacyNames | scripts/sync_agents.py:190-192 | the legacy names are exactly the dotfiles children starting with `ROOT_AGENTS_` |
| Sources.AdditionalSources | scripts/sync_agents.py:186-205 | it raises exactly when the dotfiles path is not a directory; otherwise the result is sorted by relative path and is a permutation of the legacy items followed by the category items; items with the same relative path keep that order, as the stable `sort` keeps them |
| Sources.AdditionalSourcesMembers | scripts/sync_agents.py:186-205 | an item is a source exactly when it is a legacy item or a category item |
| Sources.JoinPair | scripts/sync_agents.py:321 | joining `a/b` onto a directory appends the two names |
| Compare.CompareFiles | scripts/sync_agents.py:208-212 | it raises exactly when the target exists but the source does not; it answers true exactly when both are files with the same content |
| Compare.CompareDirectoriesAsWritten | scripts/sync_agents.py:215-228 | a missing target is unequal; it raises unless both are directories; a true answer means the trees agree up to the `dircmp` rules as written, which pass over entries whose kinds differ |
| Compare.KindMismatchIgnored | scripts/sync_agents.py:220-221 | a directory holding a file `x` and one holding a directory `x` compare equal as written, although they differ |
| Compare.CompareDirectories | scripts/sync_agents.py:215-228 | a missing target is unequal; it raises unless both are directories; true means no listed path tells the trees apart, and false on existing trees means some listed path does |
| Compare.TreesEqualMeaning | scripts/sync_agents.py:215-228 | two directories are equal exactly when no listed path is missing on one side, of another kind, or a pair of files that `dircmp`'s shallow check tells apart (different size or mtime, and different content) |
| Compare.TreesEqualRefinesAsWritten | scripts/sync_agents.py:215-228 | the corrected comparison never calls equal what the original calls unequal |
| Compare.NewestMtime | scripts/sync_agents.py:231-241 | a file gives its own mtime; a directory gives the largest mtime of an entry below it that is a file or a link leading to a file (`rglob` lists the link, `is_file` and `stat` follow it), or 0 when there is none or all are negative; a missing path gives 0 |
| Compare.FileMtimesMeaning | scripts/sync_agents.py:236-238 | an mtime is collected exactly when some entry below the directory is a file with that mtime, or a link whose target, read through `stat`, is such a file |
| Compare.LinkedFileCounts | scripts/sync_agents.py:236-238 | a directory holding a file of mtime 1 and a link to a file of mtime 9 has newest mtime 9 |
| FsOps.MakeDirs | scripts/sync_agents.py:279 | an existing directory leaves the world as it is; an existing non-directory raises; without links the result holds the directory |
| FsOps.MakeDirsKeeps | scripts/sync_agents.py:279 | without links, `mkdir -p` changes nothing at any path that is not one of the target's prefixes |
| FsOps.CreateDirKeeps | scripts/sync_agents.py:279 | creating one missing directory leaves every path that is not one of its prefixes as it was |
| FsOps.Unlink | scripts/sync_agents.py:285 | unlinking succeeds exactly on an existing entry that is not a directory (a link counts as itself); afterwards the path names no entry, every path that branches away from the removed entry is unchanged, and a world without links stays without links |
| FsOps.RemoveTree | scripts/sync_agents.py:287 | removal succeeds exactly on a real directory that is not the root; afterwards the path names no entry, every path that branches away from the removed tree is unchanged, and a world without links stays without links |
| FsOps.Copy2 | scripts/sync_agents.py:280 | the copy succeeds exactly when the source is a file and the destination (the path itself, or the same name inside it when it is a directory) resolves to a non-directory in an existing directory, other than the source; afterwards the destination holds the source's content and mtime, and every path that branches away from it is unchanged |
| FsOps.CopyTree | scripts/sync_agents.py:289 | the tree copy succeeds exactly when the source is a directory, the destination does not exist and its parent directories can be made; afterwards the destination holds the source's tree |
| Convergence.SyncFileConverges | scripts/sync_agents.py:277-280 | without links, syncing a file (`FsOps.SyncFile`, which is `FsOps.SyncFileAsWritten` when there is no link at the target) onto a file or a missing entry succeeds, keeps the world link-free, and the next plan calls the target synced |
| FsOps.SyncDirectory | scripts/sync_agents.py:283-289 | afterwards the target is a directory; a target that is neither a link nor a directory (a file) makes `rmtree` raise |
| Convergence.SyncDirectoryConverges | scripts/sync_agents.py:283-289 | without links, syncing a directory (`FsOps.SyncDirectory`) onto a directory or a missing entry succeeds, keeps the world link-free, and the next plan calls the target synced |
| Convergence.LinkedTargetStaysChanged | scripts/sync_agents.py:277-280 | as written (`FsOps.SyncFileAsWritten`), a file target that is a link to another file is written through; the link stays and the next plan still calls it changed |
| Convergence.LinkToSourceRaises | scripts/sync_agents.py:277-280 | as written, a file target that links back to its source makes the copy raise |
| Convergence.LinkedTargetReplaced | scripts/sync_agents.py:323-325 | with the link removed first, the same target becomes a real copy and the next plan calls it synced |
| Plans.ItemStatus | scripts/sync_agents.py:323-339 | a link at a checked target is changed; otherwise new exactly when the target is missing, synced exactly when the comparison says equal, and raising exactly when the comparison raises; directories are compared with the corrected `Compare.CompareDirectories` (see "Left out") |
| Plans.BuildSyncPlan | scripts/sync_agents.py:292-351 | the base file comes first, without the link check; then one action per additional source in order, with its target under the agent directory and its status as classified; it raises exactly when classifying the base file or one of the sources raises |
| Plans.PresentNames | scripts/sync_agents.py:263-265 | only names whose target exists or is a dangling link are kept, in the original order |
| Plans.DeletedNames | scripts/sync_agents.py:250-265 | the names deleted in one category are exactly those the manifest holds, the dotfiles no longer show and the target still has; they are ascending |
| Plans.CategoryDeletions | scripts/sync_agents.py:265-273 | a deletion is planned exactly for a deletable name, with target, relative path and kind; the relative paths are strictly ascending |
| Plans.BuildDeletionPlan | scripts/sync_agents.py:244-274 | a deletion is planned exactly for each deletable name of each synced category |
| Plans.HasChanges | scripts/sync_agents.py:361-399 | there is something to apply exactly when some plan has an action that is not synced or a deletion |
| Prompt.ConfirmMeaning | scripts/sync_agents.py:402-409 | a reply is a yes exactly when it is a line that is `y` or `yes` in any letter case, with only white space around it; end of input and interrupts are no |
| Prompt.Lower | scripts/sync_agents.py:405 | lower-casing keeps the length and maps every letter `A`-`Z` to its small letter |
| Prompt.Ask | scripts/sync_agents.py:402-409 | asking consumes one reply when there is one; an exhausted stream is a no; only a typed line can be a yes |
| Imports.PresentStatus | scripts/sync_agents.py:474-496 | for a name the dotfiles hold: it raises when the dotfiles side is missing or of the wrong kind; otherwise exists when equal, import when different and the target side is newer, conflict when different and not newer; directories are compared with the corrected `Compare.CompareDirectories` (see "Left out") |
| Imports.ClassifyChild | scripts/sync_agents.py:461-514 | the action records the entry, its resolved path, `cat/name` and the dotfiles destination; a name the dotfiles lack is deleted exactly when the manifest holds it and import exactly when it does not |
| Imports.ChildActions | scripts/sync_agents.py:461-514 | the actions of one category are exactly the classifications of its considered children; it raises exactly when one of them raises |
| Imports.BuildImportPlan | scripts/sync_agents.py:436-516 | an action is planned exactly when it is the classification of a considered child of a synced category; it raises exactly when one of those classifications raises |
| Imports.BuildImportPlanWellFormed | scripts/sync_agents.py:465-466 | every planned action has relative path `cat/name` for a synced category and its destination is that path under the dotfiles |
| Imports.DeletedNeverImported | scripts/sync_agents.py:497-499 | a name the manifest holds but the dotfiles no longer show is classified deleted, never imported (a named corollary of `Imports.ClassifyChild`'s contract) |
| Imports.UnknownIsImported | scripts/sync_agents.py:500-502 | a name neither the dotfiles nor the manifest know is imported (a named corollary of `Imports.ClassifyChild`'s contract) |
| Imports.HasImports | scripts/sync_agents.py:542-567 | the import preview reports imports exactly when some action is an import |
| Imports.ApplyOne | scripts/sync_agents.py:521-539 | an action that is not an import leaves the world unchanged; an import, in a world without links where the target entry and the dotfiles copy branch apart and no file is put onto a directory, leaves the dotfiles copy holding what the target entry held (a file's content and mtime, or the whole tree) |
| Imports.ApplyImport | scripts/sync_agents.py:519-539 | a plan without imports leaves the world unchanged |
| Imports.RecordImports | scripts/sync_agents.py:640-650 | recording keeps every name the manifest held and its version, changes nothing when there is no import, records each imported `cat/name` as `name` under `cat`, and adds no repeats to a manifest without them |
| Imports.ImportsRecorded | scripts/sync_agents.py:640-650 | after the bookkeeping, every child of a category that the plan classes `import` is recorded under that category by its own name |
| Engine.ImportPhase | scripts/sync_agents.py:636-651 | the phase only adds to the manifest, keeps its version and adds no repeats; what the first import source records survives the rest of the phase; with no import source it changes nothing |
| Engine.ImportFrom | scripts/sync_agents.py:638-651 | one import source: it finishes only when its plan was built; every child the plan classes `import` is then recorded under its category; the manifest only grows, keeps its version and gains no repeats; a plan without imports changes nothing |
| Engine.FirstSourceRecorded | scripts/sync_agents.py:636-651 | every child the first import source's plan classes `import` is recorded in the manifest phase 1 ends with |
| Engine.AnyPending | scripts/sync_agents.py:588-596 | the fold over the import sources raises exactly when building one of their plans raises, and otherwise answers yes exactly when one of their plans has an import |
| Engine.PreviewImports | scripts/sync_agents.py:588-596 | the import preview raises exactly when some import source's plan raises, and otherwise reports imports exactly when some import source has one |
| Engine.QuietImportPhase | scripts/sync_agents.py:636-651 | when every import source's plan builds and holds no import, the import phase leaves world and manifest as they are |
| Engine.BuildPlans | scripts/sync_agents.py:664-668 | one plan per agent, in order, holding that agent's sync actions and deletions; it raises exactly when one agent's plan raises |
| Engine.PlansFor | scripts/sync_agents.py:662-668 | phase 2 raises exactly when listing the additional sources raises or one agent's sync plan over them raises; otherwise one plan per agent, in order, built from that listing |
| Engine.Approve | scripts/sync_agents.py:698 | with `--yes` nothing is asked; otherwise the answer is the next reply's, and the stream only shrinks from the front |
| Engine.ApproveIsAsk | scripts/sync_agents.py:402-409 | reading the interpreted answers gives the same decision and the same remaining stream as reading the replies with `_confirm` |
| Engine.ItemStep | scripts/sync_agents.py:685-705 | a synced action does nothing; any other leaves one event describing it; a `changed` entry without consent is skipped and leaves the world as it was; a `new` entry, or a `changed` one with consent, leaves exactly what the writer leaves (`Engine.Write`: `FsOps.SyncDirectory` for a directory, `FsOps.SyncFile` for a file); under `--yes` nothing is skipped and no reply is read |
| Engine.ApplyItems | scripts/sync_agents.py:684-705 | every event describes an action of the plan; the replies are consumed from the front; if every answer is no, the log holds only creations and skips; under `--yes` no reply is read and nothing is skipped |
| Engine.ItemsDeclined | scripts/sync_agents.py:684-705 | if every answer is no, the items of a plan leave exactly the world of writing its `new` entries in order; no `changed` entry is written |
| Engine.ItemsApproved | scripts/sync_agents.py:684-703 | under `--yes`, the items of a plan leave exactly the world of writing every entry that is not synced, in order |
| Engine.AllSyncedItemsAreQuiet | scripts/sync_agents.py:684-686 | a plan whose actions are all synced writes nothing and asks nothing |
| Engine.Remove | scripts/sync_agents.py:711-716 | an approved deletion succeeds exactly when the entry is there and, unless it is a link, has the kind the plan recorded (a directory that is not the root for `rmtree`, anything but a directory for `unlink`); afterwards the entry is gone |
| Engine.DeleteStep | scripts/sync_agents.py:709-719 | a deletion is either carried out or kept; without consent it is kept and the world is unchanged; with consent the world is what the removal (`Engine.Remove`) leaves; under `--yes` it is always carried out |
| Engine.ApplyDeletions | scripts/sync_agents.py:707-719 | one event per deletion, in order, naming its relative path; under `--yes` all are removed; if every answer is no, it never raises, the world is unchanged and every deletion is reported kept |
| Engine.DeletionsApproved | scripts/sync_agents.py:707-717 | under `--yes`, the deletions of a plan leave exactly the world of carrying each out in order |
| Engine.PlanStep | scripts/sync_agents.py:679-719 | one plan's pass finishes only when `mkdir -p` of the target directory succeeds first; the replies are consumed from the front; if every answer is no, the log holds only creations and skips; under `--yes` no reply is read and nothing is declined |
| Engine.PlanDeclined | scripts/sync_agents.py:679-719 | if every answer is no, one plan leaves exactly the world of making its target directory and writing its `new` entries |
| Engine.PlanApproved | scripts/sync_agents.py:679-719 | under `--yes`, one plan leaves exactly the world of making its target directory, writing every entry that is not synced and carrying out every deletion |
| Engine.DeletedStaysDeleted | scripts/sync_agents.py:721-732 | a name the loaded manifest already recorded stays recorded after a finished run, so when a later dotfiles tree no longer holds it, the next run classifies the agent's copy as an intentional deletion (lines 497-499) instead of offering it for import |
| Engine.ApplyPlans | scripts/sync_agents.py:679-719 | the replies are consumed from the front; if every answer is no, the log holds only creations and skips; under `--yes` no reply is read and nothing is skipped |
| Engine.PlansDeclined | scripts/sync_agents.py:679-719 | if every answer is no, the apply phase leaves exactly the world of making each target directory and writing each plan's `new` entries, plan by plan; nothing is overwritten or deleted in a target |
| Engine.PlansApproved | scripts/sync_agents.py:679-719 | under `--yes`, the apply phase leaves exactly the world of carrying out every plan in full, plan by plan |
| Engine.ApplyAndSave | scripts/sync_agents.py:679-735 | the apply phase raises or finishes; a finished phase saves the manifest rebuilt from the dotfiles as they stand afterwards, keeping every name it held; if every answer is no, the world is that of writing only the `new` entries; under `--yes` it is that of carrying out every plan, no reply is read and nothing is skipped |
| Engine.PlanAndApply | scripts/sync_agents.py:662-735 | it raises when planning raises; when the plans show nothing to do, the world is left as it is, nothing is logged, no reply is read and the manifest is saved as phase 1 left it (lines 672-675); otherwise the world is that of the apply phase, as for `ApplyAndSave`; a finished run keeps every name in the manifest |
| Engine.SyncRun | scripts/sync_agents.py:614-735 | the run stops at once exactly when the base file is missing; a finished run's manifest includes the loaded one; under `--yes` no reply is consumed and nothing is skipped; if every answer is no, the log holds only creations and skips |
| Engine.DeclinedRun | scripts/sync_agents.py:614-735 | when every answer is no, the run leaves the world phase 1 left, plus the target directories and the `new` entries of the plans; no `changed` target entry is overwritten and nothing in a target is deleted (phase 1 itself writes into the dotfiles without asking, lines 641-643) |
| Engine.Preview | scripts/sync_agents.py:573-611 | the preview stops exactly when the base file is missing; it raises exactly when an import plan or the plans of the run raise; it reports imports exactly when some import source has one, and changes exactly when the plans on the loaded manifest have something to apply |
| Engine.InSyncRunIsQuiet | scripts/sync_agents.py:672-675 | when the preview reports neither imports nor changes, the run leaves the world as it is, logs nothing, reads no reply and saves the loaded manifest |
| Intervals.MergeIntervals | tools/rttm/visualize.py:190-213 | the result is empty exactly for empty input; it is no longer than the input, sorted and pairwise separated, and covers exactly the points the input covers; when no segment ends before it starts, neither does any merged range |
| Intervals.MergeIntervalsUnique | tools/rttm/visualize.py:190-213 | for segments of non-negative duration, any sorted list of disjoint proper ranges that covers exactly the segments' points is the merged list |
| Intervals.AbsorbCovers | tools/rttm/visualize.py:205-211 | one visit of the merge loop, extending the last interval or appending the current one, neither adds nor loses a covered point |
| Intervals.MergeIntoCovers | tools/rttm/visualize.py:204-212 | the merge loop covers exactly the points of what was merged so far and of what remains to visit |
| Intervals.MergeIntervalsExample | tools/rttm/tests/test_visualize.py:16-25 | `[0,10]`, `[5,15]`, `[20,30]` merge to `[0,15]`, `[20,30]` |
| Intervals.FindOverlaps | tools/rttm/visualize.py:155-187 | the overlap list is sorted and pairwise separated |
| Intervals.FindOverlapsSound | tools/rttm/visualize.py:155-187 | every point the result covers lies in two different segments |
| Intervals.FindOverlapsComplete | tools/rttm/visualize.py:155-187 | every point shared by two segments that overlap with positive length is covered by the result |
| Intervals.TouchingSegmentsDoNotOverlap | tools/rttm/visualize.py:174 | segments that pairwise at most touch produce no overlap |
| Intervals.FindOverlapsExample | tools/rttm/tests/test_visualize.py:28-36 | `[0,10]`, `[5,15]`, `[20,30]` overlap exactly in `[5,10]` |
| Strings.SortedList | scripts/sync_agents.py:263 | sorting a set of names gives its members in strictly ascending order |
| Strings.SortBy | scripts/sync_agents.py:205 | the sort by key yields an ordered permutation of the input, and it is stable: for every key, the elements with that key come in their input order |

## Left out

- Reading and writing JSON, `print`, `argparse`, `main` and `sys.exit` are not modelled. The manifest is a value passed in and returned. Printing becomes the event log. Exiting becomes `BaseFileMissing`.
- `AGENTS` and `DOTFILES_DIR` are parameters (`agents`, `dotfiles`), not the hard-coded home-directory paths.
- `_print_plan` and `_print_import_plan` are modelled by their return values only (`Plans.HasChanges`, `Imports.HasImports`). The same holds for `preview_mode` (`Engine.Preview`).
- `_print_plan` calls `_get_additional_sources` once more only to print it. That second call is not modelled: on the world the plans were built from, it returns the same list.
- Links are absolute paths. Relative link targets, `.` and `..` in paths, hard links, permissions and file sizes beyond content length are not modelled.
- Links inside a tree that `copytree` copies or `dircmp` compares are treated as opaque entries. They are copied as links, and comparing them never descends.
- `copy2`'s metadata copy keeps only the mtime. Directory mtimes are not bumped when their entries change.
- `str.lower()` is modelled on ASCII letters only. `str.strip()` uses the full Unicode white-space set.
- `Path.resolve()` on a link loop raises in recent Pythons. Here the walk runs out of its 40-link budget and the entry reads as missing.
- The listing order of `iterdir()` is taken to be ascending by name.
- Intervals.FindOverlaps: `find_overlaps` also widens `end` in the caller's segment dictionaries, and `merge_intervals` widens the dictionaries it is given. These side effects on the inputs are not modelled; the helpers return new values.
- Engine.ApplyItems: states that every event describes one of the plan's actions. It does not state that every action that is not synced gets its event.
- Imports.ApplyOne: the effect of an import is stated only for a world without links where the target entry and the dotfiles copy branch apart. It is not stated for a file imported onto a dotfiles directory, where `copy2` writes inside the directory.
- Engine.ImportFrom: states what is recorded, not what is written; the write of each import is stated on `Imports.ApplyOne`.
- Imports.ApplyImport: states only that a plan without imports changes nothing. The effect of each import is stated on `Imports.ApplyOne`; how later actions of the same plan affect earlier ones is not stated.
- Plans.ItemStatus: directories are compared with the corrected `Compare.CompareDirectories`. On a source directory holding the file `x` and a target directory holding the directory `x`, the code says `synced` (lines 327-328); the model says `changed`.
- Plans.BuildSyncPlan: inherits the corrected directory comparison of `Plans.ItemStatus`, so on the input above its status differs from the code's.
- Imports.PresentStatus: compares with the corrected `Compare.CompareDirectories`. On a dotfiles directory holding the file `x` and a target directory holding the directory `x`, the code says `exists` (lines 477-480); the model says `import` or `conflict`, and an import then replaces the dotfiles copy.
- Engine.ItemStep: the engine writes files with the corrected `FsOps.SyncFile`, which unlinks a link at the target first. When the target `/t` links to its own source, the code's `copy2` raises `SameFileError` (line 280) and the run stops; the model's run finishes with a real copy. When `/t` links to another file `/x`, the code writes through into `/x` and keeps the link; the model replaces the link and leaves `/x` alone.
- Engine.ApplyItems: writes with the corrected `FsOps.SyncFile`; on the two link inputs under `Engine.ItemStep` it differs from the code.
- Engine.PlanStep: writes with the corrected `FsOps.SyncFile`; on the two link inputs under `Engine.ItemStep` it differs from the code.
- Engine.ApplyPlans: writes with the corrected `FsOps.SyncFile`; on the two link inputs under `Engine.ItemStep` it differs from the code.
- Engine.ApplyAndSave: writes with the corrected `FsOps.SyncFile` and plans with the corrected comparison; on the inputs under `Engine.ItemStep` and `Plans.ItemStatus` it differs from the code.
- Engine.PlanAndApply: plans with the corrected comparison and writes with the corrected `FsOps.SyncFile`; on the inputs under `Engine.ItemStep` and `Plans.ItemStatus` it differs from the code.
- Engine.SyncRun: imports, plans and writes with the corrected comparison and writer; on the inputs under `Engine.ItemStep`, `Plans.ItemStatus` and `Imports.PresentStatus` it differs from the code.
- Engine.SyncRun: phase 1 overwrites dotfiles entries classed `import` without a prompt (lines 641-643), so a run in which every answer is no still changes the dotfiles. The no-answer statements cover the targets only.
- Segments are `real` ranges. Floating-point rounding is not modelled, and neither are the NaN and infinite values `float()` accepts (lines 60-61): with a NaN every comparison at lines 175 and 207 is false and the sort order at line 166 is unspecified.

## Findings

| source | as written | input that shows it | evidently intended | confidence | as-written member | corrected member |
|---|---|---|---|---|---|---|
| scripts/sync_agents.py:277-280 | `_sync_file` runs `copy2` onto a target that is a link, so it writes through the link into the linked file and leaves the link in place | target `/t` a link to `/x`, source `/s` holding different content: after the write `/t` is still a link, and the next plan classes it `changed` again (lines 323-325), forever; a link back to the source makes `copy2` raise | a link at a target is replaced by a real copy after one apply pass, as `_sync_directory` does at lines 284-285 | not executed | Convergence.LinkedTargetStaysChanged | Convergence.LinkedTargetReplaced |
| scripts/sync_agents.py:215-228 | `_compare_directories` looks only at `left_only`, `right_only` and `diff_files`; a name that is a file on one side and a directory on the other lands in `common_funny` and is ignored | source directory holding the file `x`, target directory holding an empty directory `x`: reported identical, so the plan says `synced` and the import says `exists` | entries of different kinds make the directories different | not executed | Compare.KindMismatchIgnored | Compare.TreesEqualMeaning |

The model uses the corrected definitions throughout. `FsOps.SyncFile` unlinks a link at the target before writing. `FsOps.SyncFileAsWritten` keeps the original. `Compare.CompareDirectories` adds the kind check. `Compare.CompareDirectoriesAsWritten` keeps the original.

Two behaviours of the code are modelled as written and are not counted as findings:

- When nothing needs applying, the manifest is saved without the rebuild of lines 721-732 (line 674).
- The base file's target is not checked for links (lines 302-307). Other targets are (lines 323-325).
