# folderize, modelled in Dafny

`folderize.js` (date-folderize) moves every file found under a source folder into
`<destination>/<YYYY>/<YYYY-MM>/<name>`, copying the file, re-applying its original
timestamps and then removing the source. An existing destination is never overwritten,
except by the housekeeping files `.DS_Store` and `Thumbs.db`. Afterwards it can remove the
subfolders of the source that were left empty.

This project models the logic of that script and proves what it promises:

- `ExtendedFiles` (extended_file.dfy): the per-file record `getExtendedFile` builds from a
  discovered file and the EXIF parser's outcome. This covers the five-field date chain, the
  provenance tag and the diagnostics. It also holds the discovery loop that replaces each
  file by its record.
- `Planning` (planning.dfy): the planning `map`, which turns each record into a
  `dst/YYYY/YYYY-MM/` folder and a destination path.
- `FileSystems` (filesystem.dfy): the file system, a class holding a map from locations to
  folders and files. Its methods are the file calls the script makes. Most are Node `fs`
  calls (`existsSync`, `statSync().isDirectory()`, `mkdirSync` with `recursive`,
  `copyFileSync`, `unlinkSync`, `readdirSync`, `rmdirSync`). `utimesSync` comes from the
  `utimes` package, which, unlike Node's `fs.utimesSync`, also sets the birth time on systems
  that allow it (macOS and Windows; see "## Left out" for Linux). Each
  method is specified by a function on the map and keeps the map a tree.
- `Moving` (move.dfy): the move `forEach` and its per-file `try`/`catch`.
  `MoveStep` and `Run` are the reference definitions.
  - The methods `MoveFile`, `MovePlanned` and `MoveFiles` perform the calls one by one and
    are proved equal to those definitions.
  - Lemmas state the collision policy, the effect of a successful move, the failure cases
    and the order in which files are handled.
- `Pruning` (prune.dfy): `cleanEmptyFoldersRecursively`, a recursive method on the file
  system. It is proved to remove exactly the set `Removed` of folders beneath the start
  folder that have no file anywhere beneath them.
- `LogName` (log_name.dfy): `getLogFileName`, as a rewriting of the ISO-8601 text of the
  current time.
- `Paths` (paths.dfy): how a path string names a location. It ignores empty segments, so
  `a//b` and `a/b/` name the same folder as `a/b`. It also holds the trailing-slash
  normalisation of `validatePath`.
- `Decimal` (decimal.dfy): decimal text of the year and month.
- `Wrappers` (wrappers.dfy): `Option`.

The parts of the environment the script cannot control are parameters of the model:
- the EXIF parser's outcome per file (`ExifOutcome`);
- the local-time reading of a `Date` (`localDate: Instant -> LocalDate`);
- the ISO text of the current time;
- the timestamps a fresh copy receives (`stamp`);
- which `fs` calls the environment refuses (`Faults`, one flag per call: permissions, I/O
  errors).

Failures the file system itself causes are decided by the map. These are a missing source,
a missing destination folder, a file in the way of `mkdirSync`, and a folder at the
destination.

## Model

| member | source | states |
|---|---|---|
| ExtendedFiles.GetExtendedFile | folderize.js:93-114 | The record keeps the file's path, name and stats. In every branch (parse error, parsed data, thrown constructor) the filing date is the birth time. `exifData` is present exactly when parsing succeeded. The tag is `exif` exactly when parsing succeeded and the date chain is non-empty. A parse error or a throw appends exactly one diagnostic, and a success appends none |
| ExtendedFiles.FirstTruthy | folderize.js:102 | Reference definition of the `\|\|` chain, with no contract of its own; characterised by `FirstTruthySpec` and `FirstTruthyNone` |
| ExtendedFiles.ExifCreateDate | folderize.js:102 | Reference definition of `exifCreateDate`, the chain over the five fields in the source's order, with no contract of its own; characterised by `FirstTruthySpec`, `ProvenanceIsExif` and `IntendedDateFollowsChain` |
| ExtendedFiles.ParseErrorMessage | folderize.js:100 | Reference definition of the parse-error diagnostic, with no contract of its own; `GetExtendedFile` states that a parse error appends exactly this text |
| ExtendedFiles.ThrownMessage | folderize.js:110 | Reference definition of the diagnostic for a throwing parser, as written, with no contract of its own; characterised by `ThrownMessageHidesPath` |
| ExtendedFiles.FirstTruthySpec | folderize.js:102 | The `\|\|` chain yields `v` exactly when some field is truthy with value `v` and every earlier field is falsy |
| ExtendedFiles.FirstTruthyNone | folderize.js:102 | The chain is falsy exactly when no field is truthy |
| ExtendedFiles.ProvenanceIsExif | folderize.js:95-105 | The tag is `'exif'` exactly when parsing succeeded and one of the five fields is truthy; otherwise it is `'file.createdAt'` |
| ExtendedFiles.ExifDateNotUsedForFiling | folderize.js:96-107 | A concrete file whose EXIF CreateDate is 2021-05-03 and whose birth time is 2023-01-01. It is tagged `exif` but filed under its birth time, while the intended date is the EXIF one |
| ExtendedFiles.IntendedFilingDate | folderize.js:102-103 | The intended filing date comes from EXIF exactly when the record is tagged `exif`, and is then the chain's value. Otherwise it is the birth time |
| ExtendedFiles.IntendedDateFollowsChain | folderize.js:102-103 | When field `i` is the first truthy one, the intended filing date is field `i` |
| ExtendedFiles.ThrownMessageHidesPath | folderize.js:110 | As written, two different files whose parser throws get the same diagnostic text |
| ExtendedFiles.IntendedThrownMessage | folderize.js:110 | The intended diagnostic starts with `No EXIF data for "` followed by the file's path |
| ExtendedFiles.GetFilesInfo | folderize.js:133-136 | The loop yields one record per file, in order, each equal to `GetExtendedFile` of that file and its parser outcome |
| Planning.MonthText | folderize.js:140 | `('0' + m).slice(-2)` is two digits that read back as the month |
| Planning.MonthFolderName | folderize.js:141 | Reference definition of the `YYYY-MM` folder name, with no contract of its own; characterised by `FolderNamesAreSegments` and `DstFolderInjective` |
| Planning.DstFolder | folderize.js:141 | Reference definition of `dstFolder`, with no contract of its own; characterised by `DstFolderResolves`, `DstFolderInjective`, `DstFolderTrailingSlash`, `PlannedFolderEndsWithSlash` and `PlanExample` |
| Planning.PlanFiling | folderize.js:142-148 | A plan keeps the name, source path and stats. Its destination file path is the destination folder followed by the name |
| Planning.PlanAll | folderize.js:138-149 | There is one plan per record, in order, each planned from that record's filing date |
| Planning.FolderNamesAreSegments | folderize.js:141 | The year text and the `YYYY-MM` text are single, slash-free path segments |
| Planning.DstFolderResolves | folderize.js:141 | The destination folder names the location `dst` / year / `year-MM` |
| Planning.PlanLayout | folderize.js:141-146 | For a proper file name, the destination file is the name directly inside the destination folder |
| Planning.DstFolderInjective | folderize.js:139-141 | Two dates share a destination folder only when they have the same year and month |
| Planning.DstFolderTrailingSlash | folderize.js:141 | Planning from the slash-normalised destination names the same folder as planning from the destination as given |
| Planning.PlannedFolderEndsWithSlash | folderize.js:141 | Every planned folder path ends with `/` |
| Planning.PlanExample | folderize.js:141 | `/dest` in May 2021 gives `/dest/2021/2021-05/` |
| Decimal.IntToString | folderize.js:141 | Reference definition of the decimal text of `getFullYear()` in the template, with no contract of its own; characterised by `ParseIntToString`, `IntToStringInjective` and `FourDigitYear` |
| Decimal.ParseIntToString | folderize.js:141 | The year's decimal text reads back as the year |
| Decimal.IntToStringInjective | folderize.js:141 | Different years have different texts |
| Decimal.FourDigitYear | folderize.js:141 | A year between 1000 and 9999 has four digits |
| Paths.Resolve | folderize.js:141-156 | Reference definition of the location a path string names, with empty segments and a trailing `/` ignored, and no contract of its own; characterised by `ResolveJoin`, `ResolveYieldsSegments`, `ResolveSegment` and `ResolveTrailingSlash` |
| Paths.ResolveJoin | folderize.js:141 | Joining two paths with `/` names the concatenation of their locations |
| Paths.ResolveYieldsSegments | folderize.js:141 | A path names a list of non-empty, slash-free segments |
| Paths.ResolveSegment | folderize.js:146 | A single segment names itself |
| Paths.ResolveTrailingSlash | folderize.js:74 | A trailing `/` does not change the location a path names |
| Paths.WithTrailingSlash | folderize.js:74 | The result ends in `/`, is the input plus at most one character, starts with the input, and names the same location |
| Paths.WithTrailingSlashIdempotent | folderize.js:74 | Normalising twice is normalising once |
| LogName.GetLogFileName | folderize.js:20-27 | Reference definition of `getLogFileName` for a given ISO text, with no contract of its own; characterised by `GetLogFileNameOfIso` |
| LogName.LogTimestamp | folderize.js:22-26 | Reference definition of the four replacements, in the source's order, with no contract of its own; characterised by `LogTimestampClean` and `GetLogFileNameOfIso` |
| LogName.ReplaceAll | folderize.js:23 | `.replace(/[T]/g, ' ')` and `.replace(/:/g, '-')`: the text keeps its length, and every occurrence of the one character is replaced; characterised by `LogTimestampClean` |
| LogName.RemoveAll | folderize.js:24 | Reference definition of `.replace(/[Z]/g, '')`, with no contract of its own; characterised by `LogTimestampClean` |
| LogName.CutAtDot | folderize.js:25 | Reference definition of `.replace(/\..+/, '')`, with no contract of its own; characterised by `CutAtDotPrefix`, `FirstDot` and `FirstDotAfter` |
| LogName.GetLogFileNameOfIso | folderize.js:20-27 | `YYYY-MM-DDTHH:MM:SS.sssZ` maps to `./log/folderize_YYYY-MM-DD HH-MM-SS.log` |
| LogName.LogTimestampClean | folderize.js:22-26 | For any input, the timestamp part contains no `T`, no `Z` and no `:` |
| LogName.CutAtDotPrefix | folderize.js:25 | Dropping from the first dot keeps a prefix of the text |
| LogName.FirstDotAfter | folderize.js:25 | With no dot in `a`, the first dot of `a + "." + b` is the one after `a` |
| LogName.FirstDot | folderize.js:25 | The index found holds a dot, and no dot comes before it |
| FileSystems.ChildNamesEmpty | folderize.js:48 | A folder lists no names exactly when nothing is inside it |
| FileSystems.AncestorIsDir | folderize.js:44-52 | In a tree, every location above an existing one is a folder |
| FileSystems.MakeDirs | folderize.js:156 | Reference definition of a recursive `mkdirSync`, with no contract of its own; characterised by `MakeDirsExisting`, `MakeDirsWellFormed` and `FileSystem.MkdirSync` |
| FileSystems.CanCopy | folderize.js:170 | Reference definition of when `copyFileSync` succeeds: a source file, an existing folder for the copy, and no folder at the destination; used by `FileSystem.CopyFileSync` and `TransferSucceeds` |
| FileSystems.Copy | folderize.js:170 | Reference definition of `copyFileSync`, with no contract of its own; characterised by `CopyWellFormed` and `FileSystem.CopyFileSync` |
| FileSystems.SetTimes | folderize.js:172-176 | Reference definition of `utimesSync` on a file, with no contract of its own; characterised by `SetTimesWellFormed` and `FileSystem.UtimesSync` |
| FileSystems.Unlink | folderize.js:177 | Reference definition of `unlinkSync`, with no contract of its own; characterised by `UnlinkWellFormed` and `FileSystem.UnlinkSync` |
| FileSystems.MakeDirsExisting | folderize.js:156 | `mkdirSync` on an existing folder of a tree succeeds |
| FileSystems.MakeDirsWellFormed | folderize.js:156 | A successful recursive `mkdirSync` keeps the tree a tree. It makes the folder exist, keeps every earlier entry, and adds only folders on the way |
| FileSystems.CopyWellFormed | folderize.js:170 | A successful copy keeps the tree a tree |
| FileSystems.SetTimesWellFormed | folderize.js:172-176 | Re-applying timestamps keeps the tree a tree |
| FileSystems.UnlinkWellFormed | folderize.js:177 | Removing a file keeps the tree a tree |
| FileSystems.RemoveEmptyDirWellFormed | folderize.js:64 | Removing an empty folder other than the root keeps the tree a tree |
| FileSystems.Exists | folderize.js:154 | A path ending in `/` never reaches a file. A folder always exists. Without a trailing `/`, the path exists exactly when its location does |
| FileSystems.FileSystem.ExistsSync | folderize.js:154 | Returns `Exists`: false for a slash-ended path to a file, as Node reports ENOTDIR |
| FileSystems.FileSystem.IsDirectory | folderize.js:44 | True exactly when the location is a folder |
| FileSystems.FileSystem.MkdirSync | folderize.js:156 | Succeeds exactly when not refused and no file lies on the way. The new state is the specified one, or unchanged on failure |
| FileSystems.FileSystem.CopyFileSync | folderize.js:170 | Succeeds exactly when not refused, the source is a file, the destination's folder exists and the destination is not a folder. The destination then holds the source's bytes; on failure nothing changes |
| FileSystems.FileSystem.UtimesSync | folderize.js:172-176 | Succeeds exactly when not refused and the path is a file, whose timestamps are then the given ones |
| FileSystems.FileSystem.UnlinkSync | folderize.js:177 | Succeeds exactly when not refused and the path is a file, which is then gone |
| FileSystems.FileSystem.ReaddirSync | folderize.js:48 | Lists each name inside the folder exactly once |
| FileSystems.FileSystem.RmdirSync | folderize.js:64 | Removes exactly the given empty folder and keeps the tree a tree |
| Moving.EnsureFolder | folderize.js:153-161 | Reference definition of the folder step, with no contract of its own; characterised by `EnsureFolderGrows` |
| Moving.MoveStep | folderize.js:152-185 | Reference definition of one iteration, with no contract of its own; characterised by `MoveStepCollision`, `MoveStepFileAtFolder`, `MoveStepMoved`, `MoveStepSucceeds`, `MoveStepOntoItself`, `MoveStepUnlinkFailure`, `MoveStepMkdirFailure` and `MoveStepWellFormed`, and performed by `MoveFile` |
| Moving.Transfer | folderize.js:164-177 | Reference definition of the copy inside the `try`, with no contract of its own; characterised by `TransferMoved`, `TransferUnlinkFailure`, `TransferSucceeds` and `TransferWellFormed`, and performed by `TransferFile` |
| Moving.Finish | folderize.js:172-177 | Reference definition of the utimes and unlink after the copy, with no contract of its own; characterised through `Transfer`'s lemmas |
| Moving.RetainedTimes | folderize.js:172-176 | The birth time is `birthtimeMs`, falling back to `btimeMs` when it is 0. The modification and access times are the source's |
| Moving.EnsureFolderGrows | folderize.js:154-161 | The folder step only adds folders on the way to the destination folder. When it fails, nothing changed and the folder did not exist |
| Moving.PlannedIsShaped | folderize.js:141-146 | Every plan with a proper file name puts the destination file directly in the destination folder |
| Moving.MoveStepCollision | folderize.js:165-181 | An existing destination whose name is not allowlisted gives `destination already exists`, whatever the environment refuses. In a tree, for a planned path, the file system is then unchanged and no folder error is logged |
| Moving.MoveStepFileAtFolder | folderize.js:154-170 | When a file sits where the slash-ended destination folder should be, `existsSync` is false and `mkdirSync` throws, so the folder error is logged. The copy then fails and nothing changes |
| Moving.TransferMoved | folderize.js:170-177 | After a successful copy, utimes and unlink, the new state is the old one with the destination set to the source's bytes and retained times, and the source removed |
| Moving.TransferUnlinkFailure | folderize.js:177 | After a refused unlink, the destination holds the copy with the retained times, and the source is still in place |
| Moving.TransferSucceeds | folderize.js:164-177 | With nothing refused, the `try` block moves the file exactly when the copy can be made |
| Moving.MoveStepMoved | folderize.js:170-178 | After a move, the source no longer exists. When source and destination differ, the destination holds the source's content with the retained birth, modification and access times. No other existing path changes, and the only new locations are folders of the destination |
| Moving.MoveStepOntoItself | folderize.js:165-177 | With nothing refused, an allowlisted file that already sits at its planned place is reported as moved, and its location is then empty: the copy onto itself succeeds and the unlink deletes the only copy |
| Moving.CanMove | folderize.js:154-170 | Reference definition of what a move needs from the tree, with no contract of its own; `MoveStepSucceeds` proves that it is exactly when a fault-free iteration moves the file |
| Moving.MoveStepSucceeds | folderize.js:154-178 | With nothing refused, a file is moved exactly when all of these hold: the source is a file, the destination folder can be made, and the destination is free or the name is allowlisted over an existing file. No folder error is logged then |
| Moving.MoveStepUnlinkFailure | folderize.js:170-183 | If the unlink fails, the destination copy remains, with the retained timestamps, beside the source |
| Moving.MoveStepMkdirFailure | folderize.js:154-170 | A failed `mkdirSync` does not skip the move. The copy is still attempted and fails, and the file system is unchanged |
| Moving.TransferWellFormed | folderize.js:164-184 | Every outcome of the `try` block keeps the tree a tree |
| Moving.MoveStepWellFormed | folderize.js:152-185 | Every outcome of one iteration keeps the tree a tree |
| Moving.Run | folderize.js:152-185 | Every file gets exactly one report |
| Moving.RunReportAt | folderize.js:152-185 | File `i` is handled on exactly the state the files before it left, whatever their outcomes, so a failure for one file never stops the later ones |
| Moving.RunWellFormed | folderize.js:152-185 | The whole pass keeps the tree a tree |
| Moving.LaterSameDestinationCollides | folderize.js:165-178 | A later file with the same destination, a name that is not allowlisted and a file path not ending in `/`, collides with the copy an earlier file just made |
| Moving.MoveFile | folderize.js:152-185 | Performing the calls of one iteration in order gives exactly the state and report of `MoveStep` |
| Moving.TransferFile | folderize.js:164-184 | Copy, utimes and unlink, stopping at the first that throws, give exactly `Transfer` |
| Moving.MovePlanned | folderize.js:152-185 | The loop over all plans gives exactly the state and reports of `Run` |
| Moving.MoveFiles | folderize.js:132-185 | Extending, planning and moving gives one plan per file, planned from its record's filing date, and the state and reports of `Run` over those plans |
| Pruning.Removed | folderize.js:43-67 | Reference definition of the set a walk from `d` removes, with no contract of its own: the folders under `d` with no file below them, `d` itself included only for a subfolder walk; `CleanEmptyFolders` removes exactly this set |
| Pruning.NothingBelowFile | folderize.js:44-46 | A walk that starts at a file removes nothing |
| Pruning.RemovedIsLocal | folderize.js:50-53 | What a walk from a child removes depends only on what lies beneath that child, so the walks of the children do not disturb each other |
| Pruning.SweepStep | folderize.js:50-53 | Walking one more child removes exactly that child's removable folders |
| Pruning.ChildStep | folderize.js:50-53 | Each listed child still exists when its turn comes, and its subtree is smaller than the parent's |
| Pruning.SweptAll | folderize.js:50-53 | Once every listed child is walked, the removals are everything removable strictly beneath the folder |
| Pruning.EmptyAfterSweep | folderize.js:56-62 | After the children are walked, the folder lists nothing exactly when no file lies beneath it |
| Pruning.AfterSweep | folderize.js:56-66 | After the children are walked, removing the folder when it is then empty gives the walk's result for a subfolder |
| Pruning.CleanEmptyFolders | folderize.js:43-67 | The walk removes exactly the folders at or beneath the start folder that have no file beneath them. The start folder counts only when it is a subfolder. The result is a tree |
| Pruning.CleanEmptyFoldersRecursively | folderize.js:43-67 | From the named folder, the walk removes exactly the subfolders with no file beneath them, never the folder itself |
| Pruning.PruneKeeps | folderize.js:43-67 | The start folder, every file, every folder with a file beneath it, and everything outside the start folder stay |
| Pruning.PruneRemovesEmptySubfolders | folderize.js:43-67 | A folder strictly beneath the start folder is removed exactly when no file lies beneath it |
| Pruning.PrunedWellFormed | folderize.js:43-67 | The pruned file system is still a tree |
| Pruning.PruneIdempotent | folderize.js:43-67 | A second walk removes nothing more |
| Pruning.PruneNested | folderize.js:43-67 | With A/B/C and C empty, the walk from A removes C and B, and A stays |

## Left out

- File discovery through `globby` (folderize.js:118-130) is not modelled: glob patterns, hidden files, the `node_modules` ignore and stats collection. It is a foreign library doing I/O. Its output is the given sequence of `FileEntry` records.
- The `node-exif` parser itself (folderize.js:98) is not modelled. It is a foreign asynchronous callback, and its outcome is the input `ExifOutcome`.
- `Date` semantics are not modelled: `new Date(...)` and local-time `getFullYear`/`getMonth` (folderize.js:139-141), and `toISOString` (folderize.js:22). These depend on the clock and the timezone. The planner receives `localDate`, a function from an instant to (year, month in 1..12), and `GetLogFileName` receives the ISO text.
- Millisecond timestamps are whole numbers, so `Math.floor` (folderize.js:173-175) is the identity. Floating-point values, `NaN` and absent fields are not modelled.
- Moving.RetainedTimes: JavaScript `||` also falls back when `birthtimeMs` is `NaN` or absent. Only the fallback on 0 is modelled, because the model's stats are whole numbers. Node's `fs.Stats` has no `btimeMs` field. When `birthtimeMs` is 0, the script actually floors `undefined`, which gives `NaN`. The model's whole-number `btimeMs` stands for that missing field.
- `log`, console output, log-file appends (folderize.js:30-41) and every progress or error message of the move loop are not modelled; they are I/O. The model keeps the outcome behind each message in `Report`.
- The `enquirer` prompts, argv parsing, the `process.exit` paths of `validatePath` and `moveFiles`, and the `setInterval` continuous mode (folderize.js:15-17, 69-91, 189-230) are not modelled. They are command-line, timer and I/O glue. Only the slash normalisation of line 74 is kept, as `Paths.WithTrailingSlash`.
- The promise/async structure is not modelled: the model runs sequentially.
- The discovery loop (folderize.js:133-136) reassigns `files[i]` in an array whose elements change type. The model builds the new sequence in a loop (`GetFilesInfo`) rather than updating an array in place.
- `getExtendedFile` mutates a local object and returns a spread copy. Nothing outside sees the mutation, so it is modelled as a function.
- FileSystems.FileSystem.MkdirSync: a refused `mkdirSync` is modelled as changing nothing. A real recursive `mkdirSync` can fail after creating some of the folders.
- Relative paths, `.` and `..` are not modelled. The model has no working directory, so `inbox/a.jpg` names the same location as `/inbox/a.jpg`. `.` and `..` are ordinary names to the model, although `path.join` (folderize.js:51) and the system resolve them. Two spellings of one real location are therefore two locations, and the model cannot express aliasing between the source and destination trees.
- FileSystems.FileSystem.CopyFileSync: a slash-ended destination file path is resolved like the path without the slash. The system would refuse it with ENOTDIR. Planned names are single segments, so planned file paths never end with `/`.
- FileSystems.FileSystem.CopyFileSync: the timestamps a copy receives are the parameter `stamp`, whether or not it overwrites an existing file.
- FileSystems.Exists and Moving.MoveStep compare names exactly: the model's names are case-sensitive and are not Unicode-normalised. On a case-insensitive volume (the default on macOS and Windows), a later `img.jpg` finds the earlier `IMG.JPG` in the same month folder, and the script logs "destination already exists". The model moves both files. `Moving.LaterSameDestinationCollides` covers only names that are exactly equal.
- FileSystems.SetTimes sets the birth time along with the modification and access times. That is what the `utimes` package does on macOS and Windows. Linux has no call that sets a birth time, so there the copy keeps the birth time the system gave it, and the retained birth time in `Moving.MoveStepMoved`, `Moving.TransferMoved` and `Moving.MoveStepUnlinkFailure` holds only on the other two systems.
- Moving.MoveStepMoved: the destination's content is stated only when source and destination differ. When the source tree contains the destination tree, an allowlisted file such as `.DS_Store` that already sits at its planned place is copied onto itself, and `unlinkSync` (folderize.js:177) then deletes it. The model does the same (`Moving.MoveStepOntoItself`). No corrected behaviour is modelled, because the script does not show whether keeping such housekeeping files is intended.
- Symbolic links, hard links, permissions and file-system errors during pruning are not modelled. In the script, a throwing `statSync`, `readdirSync` or `rmdirSync` aborts the walk uncaught.
- Pruning.CleanEmptyFoldersRecursively requires the named folder to exist. The script's callers check that with `validatePath` first; `statSync` would throw otherwise.
- LogName.CutAtDot: the regular expression `/\..+/` does not match across line terminators. The model cuts from the first dot that has any character after it, which is the same on ISO text because ISO text has no line terminators.
- `validatePath` normalises the path but assigns the result only to its parameter, so the callers keep the path as given. The model plans from the path as given, and `Planning.DstFolderTrailingSlash` shows that the difference does not change the destination folder.
- The order in which `readdirSync` lists names is left open: `FileSystem.ReaddirSync` returns them in an unspecified order, and the pruning result does not depend on it.

## Findings

| source | as written | input that shows it | evidently intended | confidence | as-written member | corrected member |
|---|---|---|---|---|---|---|
| folderize.js:96-111 | The record returned by `resolve({...updatedFile, filingCreatedDate})` takes `filingCreatedDate` from the local variable, which is always `stats.birthtime`. The EXIF value assigned at line 103 is overwritten, so files are always filed by birth time even when tagged `exif`. | A file whose EXIF CreateDate is `2021:05:03 10:00:00` and whose birth time is 2023-01-01 is tagged `exif` and filed in `2023/2023-01`. | File by the first truthy EXIF date field, falling back to the birth time. EXIF dates are text such as `2021:05:03 10:00:00`, which V8's `new Date` does not parse. Feeding the chain's value to line 139 as it is would plan `NaN/NaN-aN/`. The fix therefore needs a date conversion, so `IntendedFilingDate` stops before planning. | not executed | ExtendedFiles.ExifDateNotUsedForFiling | ExtendedFiles.IntendedFilingDate |
| folderize.js:110 | The diagnostic for a throwing parser interpolates the file object, which renders as `[object Object]`. The message does not name the file. | Any two files whose parser throws with the same message get identical diagnostics. | Name the file's path, as the parse-error diagnostic at line 100 does. | not executed | ExtendedFiles.ThrownMessageHidesPath | ExtendedFiles.IntendedThrownMessage |
