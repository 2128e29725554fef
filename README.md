# AgentFlow folder sync: a verified model of the sync core

AgentFlow keeps the `.roo/` directories of several project folders in step.
The sync engine scans every `<folder>/.roo` tree into an index keyed by each
file's path relative to `.roo`. It plans a copy from the most recently
modified copy of each file onto every strictly older copy. It then carries
the copies out, with an optional timestamped backup and a copy to a temp
file that is then renamed over the destination. Progress events go to a
queue throughout.

The project models four parts:

- the engine (`SyncEngine`);
- the `key=value` configuration file it reads, with its serialiser;
- the path helpers it relies on;
- the progress-event vocabulary.

Modules:

- `Wrappers`: `Option` and `Result`. They stand for `None` and for raised exceptions.
- `Text`: the Python `str` operations the code uses: `strip`, `lower`, `split`, `join`, `int` and `str` of an integer.
- `Filesystem`: the filesystem as a map from absolute paths to nodes (file with bytes and mtime, directory, symbolic link), with the `os`, `pathlib` and `shutil` calls the core makes: `exists`, `is_dir`, `is_file`, `is_symlink`, `stat`, `mkdir(parents=True, exist_ok=True)`, `os.rename`/`os.replace` and `shutil.copy2`.
- `FilePathUtils`: `normalize_path` validation, `deduplicate_paths`, `ensure_folder`, `has_roo_dir` and `get_roo_relative_path`.
- `ConfigSync`: `DEFAULTS`, `_to_bool`, `load_config` (parsing, typing and final normalisation) and the text `save_config` writes.
- `ProgressEvents`: `EventType` and `ProgressEvent`.
- `SyncCore`: the class `SyncEngine`, whose fields are the config dict and the event queue (a sequence of events), and whose methods `ScanFolders`, `PlanActions` and `ExecuteActions` are proved against the specification functions `ScanHits`/`BuildIndex`, `Plan` and `ExecRun`.
- `SyncFindings`: a concrete folder whose `.roo` holds two links to files outside it, used for the key collision under "Findings".

Three parts depend on the machine and are parameters:

- the directory walk: a `Listing` gives what `rglob("*")` yields under a scan root;
- the path resolution inside `normalize_path`: a `Resolver`;
- the UTC clock used for backup names: `clock(i)` for the i-th action.

## Model

| member | source | states |
|---|---|---|
| `SyncCore.SyncEngine.constructor` | utils_sync/sync_core.py:36-46 | The engine holds exactly the config and the queue it was given. |
| `SyncCore.SyncEngine.EmitEvent` | utils_sync/sync_core.py:243-260 | Exactly one event is appended to the queue, carrying the given type, folder, file path and message and no timestamp. Earlier events are unchanged. |
| `SyncCore.SyncEngine.ScanFolders` | utils_sync/sync_core.py:48-119 | Given a walk that lists every entry below each scan root exactly once, the index returned groups the files of the scan by key in first-seen order. The queue gains `SCAN_START`, then per folder either one missing-`.roo` error or one `SCAN_FILE` per indexed file, in scan order. |
| `SyncCore.SyncEngine.ScanFolder` | utils_sync/sync_core.py:73-117 | One folder's pass: a folder without `.roo` adds one error and no records; otherwise its `.roo` tree is walked. |
| `SyncCore.SyncEngine.ScanRooTree` | utils_sync/sync_core.py:86-117 | Walking the listed items of one `.roo` tree appends exactly that folder's hits to the index and one `SCAN_FILE` event per hit. |
| `SyncCore.SyncEngine.ScanItem` | utils_sync/sync_core.py:87-117 | One listed item adds one record and one event when it is kept, and nothing otherwise. |
| `SyncCore.ItemHit` | utils_sync/sync_core.py:88-117 | An item is recorded if and only if no part of its relative path is an ignore pattern and it is a regular file after following links. Its record carries the path, the followed file's mtime, its byte size and the base folder. |
| `SyncCore.LoadedConfigIgnoreList` | utils_sync/sync_core.py:70 | Any config `load_config` returns has `ignore_patterns` as a list, so the engine's scan can iterate it. |
| `SyncCore.FolderHitsSound` | utils_sync/sync_core.py:87-117 | Every record of a folder's pass is a non-ignored regular file under that folder's `.roo`, with that folder as its base. |
| `SyncCore.ScanHitsSound` | utils_sync/sync_core.py:73-117 | Every record of a scan is sound for one of the scanned folders, and that folder has a real `.roo` directory. |
| `SyncCore.ScanFindsListedFiles` | utils_sync/sync_core.py:87-117 | Completeness: every listed, non-ignored regular file under a folder with `.roo` is in the scan, with that folder as its base. |
| `SyncCore.ScanFindsEveryFile` | utils_sync/sync_core.py:86-117 | Under a walk of the tree, every regular file strictly below a scanned `.roo` (after links) whose relative parts match no ignore pattern is in the scan, with its folder as base. |
| `SyncCore.FolderHitsFrom` | utils_sync/sync_core.py:86-117 | Each record of a folder's pass is the hit of one walked entry: its path is the scan root followed by that entry. |
| `SyncCore.FolderHitsDistinctPaths` | utils_sync/sync_core.py:86-117 | A walk that lists each entry once records each path at most once. |
| `SyncCore.KeyNoneOutsideRoo` | utils_sync/sync_core.py:101 | An entry that resolves outside the resolved folder's `.roo` is filed under the key `None`. |
| `SyncCore.FolderHitsAsIntended` | utils_sync/sync_core.py:89-101 | When the folder and every walked entry resolve to themselves, the source's key is the entry's relative parts joined with `/`. |
| `SyncCore.IntendedItemHit` | utils_sync/sync_core.py:89-117 | The corrected scan step: the same records as `ItemHit`, filed under the entry's relative parts joined with `/`. |
| `SyncCore.IntendedKeysUnique` | utils_sync/sync_core.py:86-117 | With the corrected key, a walk that lists each non-empty entry once gives each key at most once, whatever the entries resolve to. |
| `SyncFindings.OutsideLinksShareNoneKey` | utils_sync/sync_core.py:101-117 | As written: two links in one `.roo` to files outside it are both filed under `None`, and the plan copies one target over the other link. |
| `SyncFindings.OutsideLinksKeptApart` | utils_sync/sync_core.py:89-117 | Corrected: the same two links are filed under `x` and `y`, and nothing is copied. |
| `SyncCore.FolderKeysUnique` | utils_sync/sync_core.py:86-117 | Under a walk of the tree, when the folder and every entry below its `.roo` resolve to themselves, one folder's scan gives each key at most once. |
| `SyncCore.FolderWithoutRooOnlyReports` | utils_sync/sync_core.py:75-81 | A folder without a real `.roo` adds no records and exactly one error event at its position in the event order. |
| `SyncCore.HitKeyIsRelativePath` | utils_sync/sync_core.py:101 | When paths resolve to themselves, a record's key is its path below `.roo`, parts joined by `/`. |
| `SyncCore.ScanFileEventsMatchHits` | utils_sync/sync_core.py:104-117 | The `SCAN_FILE` events of a scan correspond one-to-one, in order, to the records added to the index. |
| `SyncCore.ScanErrorsReportMissingRoo` | utils_sync/sync_core.py:75-81 | Every scan event other than `SCAN_FILE` is the missing-`.roo` error of a scanned folder that lacks `.roo`. |
| `SyncCore.AddRecord` | utils_sync/sync_core.py:112-117 | Appending a record changes only the group of its key, which gains that record at its end. Non-empty groups stay non-empty. |
| `SyncCore.AddRecordKeys` | utils_sync/sync_core.py:67 | Appending keeps the keys distinct and adds at most the record's own key, as the `defaultdict` does. |
| `SyncCore.BuildIndex` | utils_sync/sync_core.py:67 | The scanned index has distinct keys and no empty group. |
| `SyncCore.IndexGroupsByKey` | utils_sync/sync_core.py:112-117 | Each key's group is exactly the scan's records with that key, in scan order. |
| `SyncCore.ScannedIndexIsCurrent` | utils_sync/sync_core.py:94-117 | Every record of a fresh index describes a regular file of the scanned filesystem with the recorded mtime. Every record came from the scan under its own key. |
| `SyncCore.SyncEngine.PlanActions` | utils_sync/sync_core.py:121-171 | The actions returned are `Plan(index)`: group by group in index order, the copies of that group's plan. |
| `SyncCore.SyncEngine.PlanGroup` | utils_sync/sync_core.py:148-169 | The copies planned for one group are `GroupPlan`: nothing for one record, else one copy per strictly older record, in group order. |
| `SyncCore.NewestIndex` | utils_sync/sync_core.py:152 | `max(..., key=mtime)`: a record with the largest mtime, and the first such record. |
| `SyncCore.WithoutMembers` | utils_sync/sync_core.py:155 | The destination candidates are exactly the group's records that differ from the source. |
| `SyncCore.WithoutSourceChangesNothing` | utils_sync/sync_core.py:155-160 | Removing the source's duplicates first plans the same copies: a record equal to the source is never strictly older than it. |
| `SyncCore.CopiesFromMembers` | utils_sync/sync_core.py:158-169 | An action is planned from a source if and only if it copies onto a candidate whose mtime is strictly smaller. |
| `SyncCore.GroupPlanMembers` | utils_sync/sync_core.py:146-169 | A group's plan holds exactly the copies from its newest record onto each strictly older record; a lone record plans nothing. |
| `SyncCore.PlanMembers` | utils_sync/sync_core.py:143-171 | The plan holds exactly the union of the per-group plans. |
| `SyncCore.PlanCopiesNewestOntoOlder` | utils_sync/sync_core.py:152-169 | Every planned action is a copy of the newest record of its key's group onto a record of the same group, and the source is strictly newer than the destination. |
| `SyncCore.StaleGroupPlansCopy` | utils_sync/sync_core.py:148-169 | A group whose records do not all share the newest mtime makes the plan non-empty. |
| `SyncCore.PlannedCopyHasStaleGroup` | utils_sync/sync_core.py:148-169 | Every planned copy comes from a group that is not up to date, filed under the copy's key. Its source is that group's newest record, and its destination is a record of the group with a strictly smaller mtime. |
| `SyncCore.PlanEmptyIffUpToDate` | utils_sync/sync_core.py:146-171 | The plan is empty if and only if in every group all records share the newest mtime. |
| `SyncCore.PlanMatchesFs` | utils_sync/sync_core.py:152-169 | Planned from a current index, both ends of each copy are regular files with the recorded mtimes, and they are different paths. |
| `SyncCore.BackupPath` | utils_sync/sync_core.py:212-213 | The backup lives beside the destination, named `<name>_<stamp>.bak`. |
| `SyncCore.TempPath` | utils_sync/sync_core.py:220 | The temp file lives beside the destination, named `.tmp_<name>`. |
| `SyncCore.SyncEngine.TryCopy` | utils_sync/sync_core.py:209-229 | The filesystem after one copy attempt, and whether it completed or which error it raised, is `CopyOutcome`: backup, `mkdir`, `copy2` to temp, `replace`. The first failing step stops the rest. |
| `SyncCore.SyncEngine.RunAction` | utils_sync/sync_core.py:194-238 | One action's effect and its event: a `SKIP` in a dry run, else a `COPY` or an `ERROR` with the attempt's new filesystem. |
| `SyncCore.SyncEngine.ExecuteActions` | utils_sync/sync_core.py:173-241 | The final filesystem and the queued events are those of `ExecRun` over the actions in order, followed by one `COMPLETE` event. |
| `SyncCore.ExecEventsPerCopy` | utils_sync/sync_core.py:193-238 | Execution emits exactly one event per copy action, in order: a `COPY`, `SKIP` or `ERROR` for that action's relative path, with no folder. |
| `SyncCore.ActionStepReports` | utils_sync/sync_core.py:194-238 | A copy action yields exactly one event about it; any other action kind yields none. |
| `SyncCore.DryRunChangesNothing` | utils_sync/sync_core.py:200-206 | With a truthy `dry_run`, the filesystem is unchanged and each copy action is reported by a `SKIP` event. |
| `SyncCore.CopiedResult` | utils_sync/sync_core.py:211-222 | After a completed copy, the destination holds the bytes and mtime of the file the source leads to after links. The source entry is untouched and no temp file remains. With a timestamped backup of an existing destination, the backup holds its old content. For a linked source, its link chain must avoid the destination and the backup. |
| `SyncCore.CopiedKeepsTheRest` | utils_sync/sync_core.py:211-222 | Besides the destination, its temp file and its backup, a completed copy keeps every entry and adds only directories above the destination. |
| `SyncCore.BackedUpResult` | utils_sync/sync_core.py:211-214 | With `backup_mode == "timestamped"` and an existing destination, the destination is moved to its backup; otherwise nothing changes. |
| `SyncCore.InstalledResult` | utils_sync/sync_core.py:217-222 | `mkdir`, `copy2` to the temp path and `replace` leave at the destination the file the source leads to after links, and no temp file. Every other entry is kept; only directories above the destination are added. |
| `SyncCore.FailureAfterBackupLeavesOnlyBackup` | utils_sync/sync_core.py:211-238 | A copy that fails after the backup leaves no file at the destination, only its backup. |
| `FilePathUtils.NormalizePath` | utils_sync/file_path_utils.py:17-47 | Fails if and only if the argument is None, of another type, or blank after `strip()`. Otherwise it is the resolution of the stripped text. |
| `FilePathUtils.NormalizeIgnoresSurroundingSpace` | utils_sync/file_path_utils.py:36 | Whitespace before and after the text, for a `str` or a `Path` argument, changes neither the result nor the error. |
| `FilePathUtils.PathObjectNormalizes` | utils_sync/file_path_utils.py:30-38 | A `pathlib.Path` argument (an absolute path) always passes validation. |
| `FilePathUtils.Unique` | utils_sync/file_path_utils.py:58-66 | The output has the same members as the input, each exactly once. |
| `FilePathUtils.UniqueKeepsFirstSeenOrder` | utils_sync/file_path_utils.py:58-66 | The output keeps paths in the order of their first occurrence. |
| `FilePathUtils.UniqueOfDistinct` | utils_sync/file_path_utils.py:58-66 | Input without repeats comes back unchanged. |
| `FilePathUtils.UniqueIdempotent` | utils_sync/file_path_utils.py:58-66 | De-duplicating twice is de-duplicating once. |
| `FilePathUtils.NormalizeAll` | utils_sync/file_path_utils.py:60-61 | When every item normalises, there is one path per item. |
| `FilePathUtils.NormalizeAllElementwise` | utils_sync/file_path_utils.py:60-61 | Normalising the list succeeds if and only if every item normalises, and then holds each item's normalised path at its position. |
| `FilePathUtils.DeduplicatePaths` | utils_sync/file_path_utils.py:50-66 | Result: an error for None; the first item's validation error; else the normalised paths, each once, in first-seen order. Keys are compared as resolved paths. |
| `FilePathUtils.FailurePropagates` | utils_sync/file_path_utils.py:60-61 | The first item that fails `normalize_path` decides the error of the whole call. |
| `FilePathUtils.DeduplicateIdempotent` | utils_sync/file_path_utils.py:50-66 | Feeding the output back in, as `Path` objects that resolve to themselves, returns it unchanged. |
| `FilePathUtils.RealDirTest` | utils_sync/file_path_utils.py:104 | `exists() and is_dir() and not is_symlink()` holds exactly for a directory node that is not a link. |
| `FilePathUtils.HasRooDir` | utils_sync/file_path_utils.py:85-104 | Fails exactly when `normalize_path` does. It is true if and only if the folder is a directory with a real `.roo` directory directly under it. |
| `FilePathUtils.GetRooRelativePath` | utils_sync/file_path_utils.py:108-147 | Fails only on invalid arguments and succeeds on valid ones. Some: `.roo` is a real directory, the file is strictly below it, and the value is the `/`-joined remainder. None: `.roo` is missing, the file is outside it, or it is `.roo` itself. |
| `FilePathUtils.RooRelativePathRebuilds` | utils_sync/file_path_utils.py:141-147 | A returned relative path is non-empty, not absolute, and `<base>/.roo/<rel>` rebuilds the full path. |
| `FilePathUtils.SplitJoinedSegments` | utils_sync/file_path_utils.py:147 | The POSIX text of a relative path splits back into its parts. |
| `FilePathUtils.EnsureFolder` | utils_sync/file_path_utils.py:69-83 | On success the normalised path is a directory and every existing entry is kept. A path that exists as a non-directory fails. |
| `ConfigSync.Set` | utils_sync/config_sync.py:96-118 | `config[key] = value` changes the lookup of that key only. |
| `ConfigSync.DefaultsTyped` | utils_sync/config_sync.py:10-19 | `DEFAULTS` has positive window sizes, boolean flags and list-valued patterns and lists. |
| `ConfigSync.ToBoolIgnoresCaseAndSpace` | utils_sync/config_sync.py:22-27 | `_to_bool` depends only on the stripped, lower-cased text. |
| `ConfigSync.NormalFormIsFixed` | utils_sync/config_sync.py:27 | Stripping and lower-casing is idempotent, so `_to_bool`'s normal form is stable. |
| `ConfigSync.Items` | utils_sync/config_sync.py:108 | List items are non-empty and stripped. |
| `ConfigSync.ParseLine` | utils_sync/config_sync.py:85-118 | Blank, comment and `=`-less lines assign nothing. Any other line assigns exactly when its value types under its key, and then sets the stripped key before the first `=` to the typed value. |
| `ConfigSync.ApplyLinesStep` | utils_sync/config_sync.py:84-118 | Reading one more line applies exactly that line to the dict built so far. |
| `ConfigSync.LoadConfig` | utils_sync/config_sync.py:55-139 | The loaded config is `LoadSpec(src)`: defaults when the file is missing; otherwise the lines applied over defaults and then normalised. On a read error partway, the dict built so far is returned. |
| `ConfigSync.ParsedLineFits` | utils_sync/config_sync.py:96-118 | Every assignment respects the key's type: a positive int, a bool, or a list for the list keys. |
| `ConfigSync.SetKeepsTyped` | utils_sync/config_sync.py:96-118 | A fitting assignment keeps the dict well-typed. |
| `ConfigSync.ApplyLinesKeepsTyped` | utils_sync/config_sync.py:84-118 | Applying any lines to a well-typed dict keeps it well-typed. |
| `ConfigSync.NormalizeKeepsTyped` | utils_sync/config_sync.py:123-137 | The final normalisation leaves a well-typed dict unchanged. |
| `ConfigSync.LoadedConfigIsTyped` | utils_sync/config_sync.py:55-139 | Every loaded config has positive window sizes, boolean flags and lists under the list keys. |
| `ConfigSync.LastLineWins` | utils_sync/config_sync.py:84-118 | A key's loaded value is the one its last valid assignment gives, or else the prior value. |
| `ConfigSync.IgnorableLinesChangeNothing` | utils_sync/config_sync.py:86-91 | Blank, comment and malformed lines leave the dict unchanged. |
| `ConfigSync.SaveConfig` | utils_sync/config_sync.py:163-176 | The text written is `ConfigText(d)`: one `key=value\n` line per entry, in dict order. |
| `ConfigSync.SavedLines` | utils_sync/config_sync.py:84-85 | Reading back the saved text yields exactly the entry lines, then an empty last piece. |
| `ConfigSync.ToBoolOfRendered` | utils_sync/config_sync.py:166-167 | A saved bool reads back as the same bool. |
| `ConfigSync.ListItemsOfJoin` | utils_sync/config_sync.py:108 | Splitting a `", "`-joined list on commas and stripping gives back the items, when no item is blank, padded or holds a comma. |
| `ConfigSync.TypedValueOfRendered` | utils_sync/config_sync.py:166-175 | Every saveable value's text parses back, under its key, to the same value. |
| `ConfigSync.ParseEntryLine` | utils_sync/config_sync.py:86-118 | A saved `key=value` line parses back to that key and value. |
| `ConfigSync.ApplyEntryLines` | utils_sync/config_sync.py:84-118 | Reading the saved lines over a dict overlays the saved entries onto it, in order. |
| `ConfigSync.OverlayKeepsTyped` | utils_sync/config_sync.py:96-118 | Overlaying saveable entries keeps a dict well-typed. |
| `ConfigSync.SaveThenLoad` | utils_sync/config_sync.py:142-189 | Round trip: loading the saved text of a saveable config gives the defaults overlaid with that config. |
| `ConfigSync.SaveThenLoadGet` | utils_sync/config_sync.py:55-139 | After a round trip, every saved key reads back its saved value and every other key its default. |
| `ProgressEvents.EventValue` | utils_sync/progress_events.py:15-22 | Each event type has a non-empty string value. |
| `ProgressEvents.EventValuesDistinct` | utils_sync/progress_events.py:15-22 | Two event types have the same value if and only if they are the same type. |
| `Text.Strip` | utils_sync/config_sync.py:86 | `str.strip()` returns a text with no surrounding whitespace and leaves such a text unchanged. |
| `Text.TrimStart` | utils_sync/config_sync.py:86 | Leading-whitespace removal returns a suffix of the text, cuts only whitespace, and stops at a non-whitespace character. |
| `Text.TrimEnd` | utils_sync/config_sync.py:86 | Trailing-whitespace removal returns a prefix of the text, cuts only whitespace, and stops at a non-whitespace character. |
| `Text.StripParts` | utils_sync/config_sync.py:86 | A text is the whitespace `strip()` removed in front, the stripped text, and the whitespace it removed behind. |
| `Text.StripIgnoresPadding` | utils_sync/file_path_utils.py:36 | Adding whitespace on either side does not change what `strip()` returns. |
| `Text.ParseIntOfNatText` | utils_sync/config_sync.py:98 | `int()` of the decimal text of a natural number gives the number back. |
| `Text.SplitConcat` | utils_sync/config_sync.py:108 | `str.split` over a separator splits the text on each side independently. |
| `Filesystem.MakeDirs` | utils_sync/sync_core.py:217 | On success the path is a directory and existing entries are kept. Only directories above or at the path are added. An existing non-directory fails. |
| `Filesystem.Rename` | utils_sync/sync_core.py:214 | `os.rename`/`os.replace` moves the source node to the destination, replacing what was there; it fails on a missing source. |
| `Filesystem.Copy2` | utils_sync/sync_core.py:221 | `shutil.copy2` succeeds only from a regular file to a different path; the destination then holds the source's bytes and mtime. |
| `Filesystem.StatOfPlainNode` | utils_sync/sync_core.py:96 | For a node that is not a link, `stat` and `lstat` agree. |
| `Filesystem.FollowAvoiding` | utils_sync/sync_core.py:221 | Following links gives the same node in any filesystem that agrees on every entry off a set the link chain avoids. |
| `Filesystem.FollowIntoNewDirs` | utils_sync/sync_core.py:217-221 | Adding only directories does not change which file a path leads to. |

## Findings

| source | as written | input that shows it | evidently intended | confidence | as-written member | corrected member |
|---|---|---|---|---|---|---|
| utils_sync/sync_core.py:101-117 | The index key is `get_roo_relative_path(item_path, folder)`, which resolves links first. An entry of `.roo` that is a link to a file outside `.roo` gets the key `None`, so every such entry of every folder lands in one group and is synced with the others. A link to another file of the same `.roo` takes that file's key. | Folder `/p` with `/p/.roo/x` linking to `/o/f1` (mtime 1) and `/p/.roo/y` linking to `/o/f2` (mtime 2): both are filed under `None` and the plan copies `/o/f2` over `/p/.roo/x`. | Each entry is filed under its own parts below `.roo` (`relative_parts`, line 89) joined with `/`, so entries of one folder never share a key. | medium; not executed | `SyncFindings.OutsideLinksShareNoneKey` | `SyncCore.IntendedKeysUnique`, `SyncFindings.OutsideLinksKeptApart` |

The engine model keeps the source's key, so that its other rows describe the code as it is. `SyncCore.FolderHitsAsIntended` shows that the two keys agree whenever the folder and its entries resolve to themselves.

## Left out

- The GUI, the CLI, the worker thread, the logger and the integration-test scripts are not part of this model. The event queue is a sequence owned by the engine; thread safety is not modelled.
- `make_event` (utils_sync/progress_events.py:44-73) reads the wall clock. The engine never calls it: it builds `ProgressEvent` directly, so every event carries a `None` timestamp, which is what the model keeps.
- Event messages that embed a path use its POSIX text (`PathText`). Messages that embed an exception use approximate `OSError` texts, not the exact wording Python produces.
- `resolve_config_path` and the `.env` lookup of `AGENTFLOW_CONFIG`: which file is read is outside the model. `LoadConfig` takes a `ConfigSource`: the file is missing, readable with the given text, or failing after some lines (decoding or I/O errors).
- `SaveConfig`: the temp file, the `os.replace`, the temp-file clean-up and the `True`/`False` return are left out. The model states only the text that is written.
- `LoadConfig`: the `bool(config.get(b))` coercion of the final normalisation never fires on a dict the parser built, because the dict is always well-typed (`NormalizeKeepsTyped`).
- `SaveThenLoad`: proved for saveable configs only. Keys must be non-empty, stripped and free of `=`, `#` at the start and line breaks. Values must be typed as their key expects. Strings must be stripped and free of line breaks. List items must be non-empty, stripped and free of commas.
- `NormalizePath`: expanding `~` and environment variables and resolving links are the `resolve` parameter, because they depend on the machine's home, environment and filesystem.
- `Filesystem`: symbolic links are followed in the last path segment only, with at most 40 hops. Intermediate segments count as resolved already.
- `Filesystem.Rename`: renaming a directory is reported as a failure instead of moving a subtree. No core path renames a directory on purpose.
- `Filesystem.Copy2`: a temp path that already exists as a directory or a link is reported as a failure, instead of writing into or through it.
- File modification times are integers, not floating-point seconds. A file's size is the length of its bytes.
- `ScanFolders`: the walk is the `Listing` parameter, because it depends on the directory layout on disk. `ScanFolders` requires it to list every entry strictly below each scan root exactly once (`WalksTree`); which order it uses is left open.
- `ScanFolders`: an `OSError` from `is_file()` or `stat()` (a permission error, a file removed during the walk) aborts the source's scan, because there is no `try` around them. The filesystem here is a fixed map, so the model has no such error.
- `ScanFolders`: requires `ignore_patterns` to be a list, a string or absent. The source reads the patterns per item (utils_sync/sync_core.py:89-90), so with any other value it raises a `TypeError` at the first item it checks, but raises nothing when no folder has a `.roo` or every `.roo` is empty. The model does not cover those runs. `load_config` always supplies a list (`LoadedConfigIgnoreList`).
- `ExecuteActions`: the UTC clock read for each backup name is the `clock` parameter.
- `ExecuteActions`: the filesystem has no permissions, no capacity limit and no I/O errors. An action fails only on the structural conditions the filesystem operations state: a missing source, a directory where a file is needed, the same file, a missing parent, or a directory or link at the destination. A permission error, a full disk or an I/O error makes the source emit `ERROR` (utils_sync/sync_core.py:231-238), where the model may emit `COPY` and change the filesystem. A `copy2` that fails partway leaves a partial `.tmp_<name>` inside `.roo` that nothing removes, and the next scan would index and sync it. The model never produces that state. `EnsureFolder` likewise never fails for lack of permission.
- `ExecuteActions`: `preserve_mtime`, `root_allowlist` and `folders_faves` are parsed and typed but never read by the engine, so they play no part in it.
- `GroupPlanMembers`: states which copies are planned, not how many times each appears. A group holding equal records yields one copy per such record, as the list comprehension does.
- `Text.ParseInt`: accepts ASCII decimal digits only. Python's `int()` also accepts other Unicode decimal digits, such as full-width `１２０`, so a window size written that way keeps its default here where Python would take it.
