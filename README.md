# GreenDiskVisualizer core, modelled in Dafny

GreenDiskVisualizer scans a Windows disk and draws a treemap of where the
space went. This project models the core of that program and proves
properties of the model:

- the two scan backends of `scanner.py` and `mft_scanner.py` and the
  dispatcher that picks one of them;
- the squarified treemap layout of `treemap.py`;
- the arithmetic behind the window in `main.py`;
- the record types of `models.py`.

The model keeps the source's form. Loops become methods with `while` loops
and invariants. Each method is proved against a specification function or
predicate, and lemmas prove the source's promises about those functions.
The size hierarchy, which the scanners update in place, is a class. The
treemap nodes, whose fields `build_treemap` overwrites, are a class too.

## Modules

- `Wrappers`, `Flags`, `Text`, `Dicts` hold shared pieces:
  - `Option` and `Result`;
  - the attribute-flag test;
  - the string operations the source uses (`lower`, `strip`, `rstrip("\\/")`, `split`, `join`, `rfind`);
  - `Dict`, an insertion-ordered Python dict, used wherever the source depends on key order.
- `Models`: `FileInfo`, `DiskStats`, `ScanOptions` and `ScanResult`, with their defaults.
- `FsModel`: what the operating system answers, given as inputs:
  - a listing per directory path;
  - for each entry, the answers of `is_dir`, `stat` and `readlink`;
  - the disk-usage answer and the clock;
  - progress calls, returned as a log of `Event`s.
- `Exclude`: `_match_exclude`, as a predicate and as the source's early-return loop.
- `FileStats`: the per-file fold both backends share:
  - counts and bytes;
  - the per-extension map;
  - the largest file, replaced only on a strictly greater size.
- `Accounting`: how one accepted file reaches the tally and the hierarchy.
- `Hierarchy`: `_add_size_to_hierarchy` on the class `SizeTree`.
  - The nested `{name: {"total", "children"}}` dict is modelled as a map from component chains to totals.
  - A chain is a key exactly when the nested node exists.
  - A ghost history of the additions carries the invariant: every node's total is the sum of the sizes added through it.
- `Walker`: the stack loop of `_scan_via_scandir`.
- `Usn`: the `FSCTL_ENUM_USN_DATA` batch loop and the `USN_RECORD_V2` record parser of `_enumerate_mft_entries`.
  - The buffer is the sequence of returned bytes.
  - `DeviceIoControl` is a script of responses.
- `DirTree`: `_build_dir_paths_compact` (the breadth-first walk from NTFS reference 5) and `_get_dir_full_path`.
- `MftScan`: `scan_mft`, which lists the reconstructed directories one by one.
- `Scanner`:
  - `list_disks`;
  - `_scan_via_scandir` and `_scan_via_mft`, around the two loops;
  - `scan_path`.
- `Treemap`: `TreemapNode`, `_squarify` (with `layout_row` and `worst_aspect_ratio`) and `build_treemap`, over exact reals.
- `Ui`, the arithmetic of `main.py`:
  - the progress state, as the class `Progress`;
  - the ratio clamp, the progress bar and the ETA;
  - `_format_size`;
  - the per-component aggregation, top-50 selection and 1.5% grouping of `_draw_treemap`;
  - the label truncation;
  - the options of the two scan modes.

## How the code behaves (the model follows it)

- Neither backend ever fills `ScanResult.files` (scanner.py:271, 332).
  - `_draw_treemap` therefore returns at once on every real result.
  - `Ui.DrawTreemap` proves this and also models the path taken for a non-empty list.
- A root directory that cannot be listed is not fatal. The walk counts one error, and `scan_path` returns a result with `error_count` 1 instead of raising.
- `folder_count` counts a subdirectory when it is pushed. That happens before its depth is checked (scanner.py:202 against 176-179). `Walker.Walk` reports every pushed directory, including those later skipped as too deep.
- The MFT backend passes only the path and `exclude_patterns` to `scan_mft` (scanner.py:308-313). So `max_depth` and `follow_symlinks` play no part there. Its exclusion test applies to directory paths only.
- On failure of the MFT backend, `scan_path` reruns the scandir walk on the same `shared_hierarchy`.
  - Whatever the failed attempt added stays in the hierarchy.
  - Its progress calls stay made.
  - `Scanner.ScanPath` states both.
  - main.py:177 passes no shared hierarchy, so the program itself starts from a fresh one. `Scanner.ScanPath` states that case too.
- `_build_dir_paths_compact` has no visited set. It terminates when the root's own record, if present and not named `$…`, has no parent reachable from the root. The model states this as the precondition `DirTree.RootStays`.
- `datetime.fromtimestamp` is the only call that can raise while a file is counted. Its outcome is a field of the stat answer (`Conversion`).
  - In the walker, the exception leaves the scan.
  - In the MFT size pass, an `OSError` abandons the directory with one error. Any other exception leaves `scan_mft`.

## Model

| member | source | states |
|---|---|---|
| Models.ScanOptionsDefaults | models.py:40-50 | Options given only a path are recursive, follow no links and compute no hash. They have no exclusions, no depth limit, and collect file details. |
| Models.FileInfoDefaults | models.py:6-21 | A `FileInfo` built without them has no hash and risk level 0. |
| Models.ScanResultDefaults | models.py:62 | A `ScanResult` built without a method says "scandir". |
| Models.NewScanResult | models.py:53-62 | A `ScanResult` built from its four required fields gets a new, empty hierarchy shared with nothing, and method "scandir". |
| Text.StripEmptyIffBlank | scanner.py:45-47 | A pattern strips to nothing exactly when all its characters are white space, which is Python's full `isspace` set. |
| Text.RStripSeps | scanner.py:165 | The root path is a prefix of the given path and does not end in `\` or `/`. Everything cut off is `\` or `/`. |
| Text.LStripSeps | scanner.py:232 | The relative path is a suffix of the given one and does not start with `\` or `/`. Everything cut off is `\` or `/`. |
| Text.JoinSplit | scanner.py:115 | Splitting a relative path at `\` and joining the parts back gives the path again. |
| Text.LowerIdempotent | scanner.py:44 | Lowering twice is lowering once. |
| Exclude.MatchExclude | scanner.py:42-51 | The early-return loop answers true exactly when some stripped, non-blank pattern occurs, lowered, in the lowered path. With no patterns it answers false. |
| Exclude.HitMatches | mft_scanner.py:241-247 | Either copy's loop body decides exactly `PatternMatches`: it lowers the path once and strips the pattern. So the two copies of `_match_exclude` agree. |
| Exclude.ExcludedExtends | mft_scanner.py:241-247 | An excluded path stays excluded whatever is appended to it. |
| Exclude.BlankPatternIgnored | scanner.py:45-47 | Adding a blank pattern changes no verdict. |
| Exclude.ExcludedIgnoresCase | scanner.py:44-50 | A path and its lowered form get the same verdict. |
| FileStats.ExtensionForm | scanner.py:222 | The extension `os.path.splitext` gives is empty, or a dot followed by characters that are neither dots nor separators. It ends the name. |
| FileStats.ExtensionPresent | scanner.py:222 | There is an extension exactly when the last path component holds a dot after some non-dot character. |
| FileStats.TypeTagShape | scanner.py:222 | The type key is "unknown" exactly when there is no extension. Otherwise it is the lowered extension. |
| FileStats.Start | scanner.py:150-155 | The counters start at zero, with no largest file and an empty type map. |
| FileStats.TallyOf | scanner.py:224-225 | After any files, `file_count` is their number and `scanned_size` the sum of their sizes. |
| FileStats.TallySnoc | scanner.py:224-244 | Counting one more file is one more step of the fold. |
| FileStats.CountTypeAt | scanner.py:227-230 | `setdefault` then `+=` creates only the file's key. It grows that key's entry by the size and by one, and leaves every other entry as it was. |
| FileStats.CountTypeSum | scanner.py:227-230 | One file adds its size to the sum of the per-type sizes and one to the sum of the per-type counts. |
| FileStats.TypeStatsContents | scanner.py:227-230 | A type is a key exactly when some file has it. Its entry holds that type's total size and file count. |
| FileStats.TypeStatsSumUp | scanner.py:224-230 | The per-type counts sum to `file_count` and the per-type sizes to `scanned_size`. |
| FileStats.StepLargest | scanner.py:236-244 | The largest file changes only when there is none yet or the new size is strictly greater, and its `FileInfo` can be built. |
| FileStats.LargestIsFirstMaximal | scanner.py:236-244 | The largest file is None exactly when no file's `FileInfo` can be built. Otherwise it is the first file of maximal size, so the first seen wins ties. |
| FsModel.JoinPath | scanner.py:196 | An entry's path strictly extends its directory's path. |
| FsModel.Trunc | scanner.py:271 | `int()` truncates toward zero. |
| FsModel.WalkRatio | scanner.py:248-251 | The walker's ratio lies in [0, 0.999]. It is 0 exactly when nothing is scanned yet or the total size is 0. |
| Accounting.CountFile | scanner.py:224-244 | One accepted file advances the tally by one fold step and adds its addition to the hierarchy. It raises only when it is a new largest file whose times cannot be converted. |
| Accounting.CountTypeIn | scanner.py:227-230 | The in-place type-map update equals the fold's `CountType`. |
| Accounting.LargestAfter | scanner.py:236-244 | The new largest file and the exception it may raise follow the strict `>` test. |
| Accounting.AddFileSize | scanner.py:232-234 | A non-empty relative path adds one addition of its components to the hierarchy. An empty one adds nothing. |
| Accounting.AdditionsSize | scanner.py:232-234 | The hierarchy receives at most the accepted bytes. It receives exactly them when no file's relative path is empty. |
| Accounting.RaisedAtLastSnoc | scanner.py:236-244 | A file raises exactly when it would replace the largest file and its times cannot be converted. |
| Hierarchy.Components | scanner.py:115 | A relative path, `/` replaced by `\`, splits into at least one component. |
| Hierarchy.SizeTree.constructor | scanner.py:169 | A new hierarchy is empty and has no history. |
| Hierarchy.SizeTree.AddSize | scanner.py:106-125 | The nodes after an addition are those before plus those the path touches, so no key is ever removed. Each touched node's total grows by the size, and every other total is unchanged. The invariant holds: each total is the sum of the sizes added through that node. |
| Hierarchy.AddAlong | scanner.py:117-125 | The `setdefault` loop creates each touched node that is missing and adds the size to it. For one component that node is the name itself; otherwise it is every directory prefix, never the last component. |
| Hierarchy.ReachedSnoc | scanner.py:106-125 | After one more addition, a node exists exactly when it existed before or the new path touches it. |
| Hierarchy.AdditionKeepsInvariant | scanner.py:106-125 | An update of that shape keeps every node's total equal to the sizes added through it. |
| Hierarchy.ThroughPermutation | scanner.py:106-125 | The size through a node does not depend on the order of the additions. |
| Hierarchy.AdditionOrderIrrelevant | mft_scanner.py:250-263 | Two hierarchies whose additions are the same up to order have the same totals. |
| Hierarchy.ChildWithinParent | scanner.py:120-125 | A child node exists only under an existing parent node, and its total is at most the parent's. |
| Hierarchy.OneTopLevelNode | scanner.py:117-125 | Each addition touches exactly one top-level node, its first component. |
| Hierarchy.TopLevelTotalsSumToSizes | scanner.py:106-125 | The top-level totals sum to the sizes added. |
| Walker.JudgeEntry | scanner.py:190-222 | The entry loop body up to counting follows the decision `Judge`. |
| Walker.JudgeAccept | scanner.py:206-222 | An accepted file has the entry's own path and is not excluded. Its `is_dir` said no and its stat, following links as configured, said not a directory. Its size is that stat's. |
| Walker.JudgeDescend | scanner.py:196-204 | An entry is pushed exactly when `is_dir` says yes, its path is not excluded, and links are followed or it is no junction or symlink. The pushed path is the entry's. |
| Walker.ListingFilesNotExcluded | scanner.py:206-207 | Every file a listing accepts comes from one of its entries and is not excluded. |
| Walker.ListingDirsNotExcluded | scanner.py:196-204 | Every pushed subdirectory is the path of one of the listing's entries and is not excluded. |
| Walker.TakeOutcome | scanner.py:224-244 | One outcome advances the tally, the pushed list, the error count and the hierarchy. It reports the `FileInfo` exception exactly when it raises. |
| Walker.ScanListing | scanner.py:188-244 | The outcomes taken are a prefix of the listing's: all of them unless building a `FileInfo` raised at the last one. The tally, the pushed directories, the errors and the hierarchy account for exactly that prefix. |
| Walker.ScanDirectory | scanner.py:188-246 | A listed directory adds exactly its visit's files, subdirectories and errors, unless a `FileInfo` raised. |
| Walker.WalkStep | scanner.py:172-252 | One pop takes the last directory off the stack and records the visit the file system dictates for it. Unless a `FileInfo` raised, the new stack is the rest followed by the directory's subdirectories in listing order. The walk's account is kept, and the stack's weight strictly drops. A directory deeper than `max_depth` is passed over without an error. One that cannot be listed is one more error. When a `FileInfo` raised, `WalkRaised` holds for the visits so far. |
| Walker.WalkListed | scanner.py:187-252 | A listed directory's files, subdirectories and errors are added, and its subdirectories are appended to the stack in listing order. One progress call follows with the files and folders so far, the directory, and `min(0.999, scanned / total)`. If a `FileInfo` raised, no call is made. The accepted files are then the earlier visits' plus those of a prefix of this listing, ending at the raising file. |
| Walker.Walk | scanner.py:171-252 | Unless it raised, each visit popped the last directory of the stack the earlier visits left, starting from `[path]`. Each visit is the one the file system dictates, and the stack ended empty. The tally is that of the visits' files, `folder_count` their pushed directories, the error count their errors. The progress calls are exactly one per listed directory, with the counts so far, that directory and the ratio. If it raised, the same holds for the visits before the raising directory, which was on top of the stack. The accepted files are then theirs plus a prefix of its listing ending at the raising file. |
| Walker.WalkedEnd | scanner.py:171-252 | Once the stack is empty, the trace is a finished walk in stack order and its progress calls are bounded. |
| Walker.WalkOrderUnique | scanner.py:171-174 | Two finished walks over the same file system and options are the same trace. So the files accepted, their order and the progress calls are determined. |
| Walker.InStackOrderPushed | scanner.py:171-246 | Popping in stack order starts at the scan path and pops only directories an earlier visit pushed. |
| Walker.StackMultiset | scanner.py:171-246 | In stack order, the scan path and every pushed directory are either popped exactly once or still on the stack. |
| Walker.StackAfterFrom | scanner.py:171-246 | After the first pop the stack holds only directories some visit pushed. |
| Walker.WalkEventsFacts | scanner.py:248-252 | The walk makes one progress call per listed directory, each naming a directory with a ratio in [0, 0.999]. |
| Walker.ScannedWeight | scanner.py:171-246 | Replacing a listed directory on the stack by its subdirectories lowers the stack's weight, so the walk terminates. |
| Walker.TraceFilesNotExcluded | scanner.py:206-207 | No counted file of the walk is excluded. |
| Walker.TraceDirsNotExcluded | scanner.py:196-204 | No pushed directory of the walk is excluded. |
| Walker.WalkSkipsExcluded | scanner.py:196-204 | Apart from the root, no directory the walk visits is excluded. |
| Usn.U16 | mft_scanner.py:165-172 | A little-endian 16-bit read is below 2^16. |
| Usn.U32 | mft_scanner.py:165-172 | A little-endian 32-bit read is below 2^32. |
| Usn.U64 | mft_scanner.py:160 | A little-endian 64-bit read is below 2^64. |
| Usn.Mask48 | mft_scanner.py:120 | Masking with `0x0000FFFFFFFFFFFF` gives a value below 2^48 and leaves smaller values alone. |
| Usn.FileRef | mft_scanner.py:168 | The file reference is below 2^48. |
| Usn.ParentRef | mft_scanner.py:169 | The parent reference is below 2^48. |
| Usn.DecodeName | mft_scanner.py:177-178 | The name decodes to one character per two bytes, an odd last byte counting as one. |
| Usn.Stored | mft_scanner.py:174-182 | A kept record stores a key and a parent below 2^48 and a non-empty name. |
| Usn.OffsetsShape | mft_scanner.py:163-184 | The record offsets start at 8 and strictly increase, each by its record's length. Each record header and record lies within the returned bytes. |
| Usn.KeptFromRecords | mft_scanner.py:174-182 | Every stored pair comes from a record the loop reached that is a non-reparse directory with a non-empty name inside the buffer. |
| Usn.PutAllHas | mft_scanner.py:182 | After the stores, a reference is a key exactly when it was one before or some record stored it. |
| Usn.PutAllLast | mft_scanner.py:182 | A reference maps to what its last record stored, so a later record overwrites an earlier one. |
| Usn.PutAllKeeps | mft_scanner.py:182 | A reference no record stores keeps its earlier entry. |
| Usn.ReadRecord | mft_scanner.py:166-182 | A record is kept exactly when it is a non-reparse directory whose name is non-empty and ends within the buffer. What is kept is its key, parent and name. |
| Usn.ParseBatch | mft_scanner.py:160-184 | A batch stores the pairs of its kept records in order. The next cursor is the little-endian u64 at bytes 0..7. |
| Usn.BatchCountStop | mft_scanner.py:147-158 | The number of batches decoded is the index of the first failing call or answer of at most 8 bytes. |
| Usn.EventsOfShape | mft_scanner.py:186-193 | There is one progress call, with ratio 0.01, after every 8th batch and no other. |
| Usn.DecodeBatch | mft_scanner.py:147-193 | One more batch keeps the enumeration's account: the entries, the progress calls and the cursors. |
| Usn.EnumerateMft | mft_scanner.py:124-195 | The loop decodes exactly the batches before the first stopping answer. Each next cursor is read from its batch, the entries are those batches' kept records in order, and the progress calls are one per 8 batches. |
| Usn.DecodedEntries | mft_scanner.py:168-182 | Every key and every parent of the enumerated entries is below 2^48, and every name is non-empty. |
| Usn.OneRecordBatch | mft_scanner.py:163-184 | A 72-byte batch holding one directory record, reference 12 under 5 and named "A", decodes to exactly that entry. |
| DirTree.GroupChildren | mft_scanner.py:203-205 | `children_of[p]` lists exactly the entries whose parent is `p`, in the entries' order. |
| DirTree.ChildrenFacts | mft_scanner.py:203-205 | Each listed child is an entry with that parent and name. Every such entry is listed, and none twice. |
| DirTree.EnqueueChildren | mft_scanner.py:214-217 | The queue grows by the children not named `$…`, in order. |
| DirTree.QueuedFor | mft_scanner.py:214-217 | The children queued for a directory carry it as parent, match their entries and have no `$` name. Every such child is queued, and none twice. |
| DirTree.BfsDone | mft_scanner.py:209-218 | When the queue runs out, the keys of `compact` are exactly the references other than 5 reached from 5 through names not starting with `$`. |
| DirTree.BuildDirPathsCompact | mft_scanner.py:196-218 | The root path has its trailing separators stripped, and reference 5 is never a key. The keys are exactly the directories reachable from 5 through non-`$` names, each with its enumerated record. Every key's parent is 5 or a key inserted earlier. The keys are in the order the first-in first-out queue (`pop(0)`, `append`) takes them (`BfsKeys`). |
| DirTree.FifoOrderUnique | mft_scanner.py:207-218 | Two sequences that both start with the root entry, consist of what the taken entries appended, in order, and take each entry after the one that appended it are equal. So the order in which the queue is emptied is determined by the entries. |
| DirTree.BfsKeysUnique | mft_scanner.py:207-218 | Only one key sequence is the queue's order, so `compact`'s key order is fixed. |
| DirTree.SampleBfsKeys | mft_scanner.py:207-218 | For 10 "A" and 11 "B" under 5 and 12 "C" under 10, `[10, 11, 12]` is the only possible key sequence. `[10, 12, 11]` is excluded, although it also puts every parent first. |
| DirTree.ParentEarlier | mft_scanner.py:209-213 | A directory's parent was dequeued, and so inserted, before it. This is why the walk up to the root ends. |
| DirTree.WalkUp | mft_scanner.py:231-235 | Each step up the parent links keeps the collected names, reversed, equal to the tail of the full path. |
| DirTree.ChildPath | mft_scanner.py:223-238 | A directory's full path is its parent's full path, a backslash and its name. |
| DirTree.GetDirFullPath | mft_scanner.py:223-238 | The parent-link loop and the reversal give the root path for reference 5. For any other reference they give the root path, a backslash and the names from the top down. |
| DirTree.SamplePaths | mft_scanner.py:223-238 | Reference 5 resolves to `C:`. `{12: (5, "Projects"), 40: (12, "src")}` resolves 12 to `C:\Projects` and 40 to `C:\Projects\src`. |
| DirTree.RootReachable | mft_scanner.py:207 | The walk starts at reference 5. |
| DirTree.ReachChild | mft_scanner.py:214-217 | A child not named `$…` of a reached directory is reached. |
| MftScan.SizeJudgeCases | mft_scanner.py:325-335 | Only a failing stat is an error, and only regular files are counted, with their own path, type and size. Nothing is descended into. |
| MftScan.SizePushedNone | mft_scanner.py:323-358 | The size pass never collects subdirectories: the directories come from the MFT. |
| MftScan.TakenUnique | mft_scanner.py:323-358 | A listing takes one determined prefix of its entries, ending where a `FileInfo` raises. |
| MftScan.SizeListing | mft_scanner.py:323-358 | The entries are taken in order until a `FileInfo` raises. The tally, the stat errors and the hierarchy account for exactly the taken prefix. |
| MftScan.SizeVisit | mft_scanner.py:319-360 | An excluded directory is skipped. One that cannot be listed is one error. Otherwise its listing is taken, one more error when a `FileInfo` raised `OSError`; any other exception leaves the scan. |
| MftScan.SizeDir | mft_scanner.py:318-366 | One directory at its full path keeps the pass's account. A progress call follows every 15th processed directory unless it was excluded or aborted the scan. |
| MftScan.SizePass | mft_scanner.py:316-366 | The passes are those of `[5] + keys(compact)` in order, each at its full path and as the file system dictates. It stops early only when a `FileInfo` raised a non-`OSError`; otherwise every directory is passed. The tally, the errors, the hierarchy and the progress calls are those of the passes. |
| MftScan.SizeDirsOnce | mft_scanner.py:305-316 | The pass lists each directory once: the root and exactly the reconstructed directories, one more than `folder_count`. |
| MftScan.PassEventsBounded | mft_scanner.py:362-366 | Every progress call of the pass names a directory and carries `folder_count`. Its ratio lies in [0.03, 0.999], never decreases, and never exceeds the ratio of the directories processed. |
| MftScan.RatioBounds | mft_scanner.py:364-366 | `min(0.999, 0.03 + 0.969 * processed / total)` lies in [0.03, 0.999]. |
| MftScan.RatioGrows | mft_scanner.py:364-366 | That ratio does not decrease as directories are processed. |
| MftScan.SkippedIffExcluded | mft_scanner.py:319-321 | A directory is skipped exactly when its full path is excluded. |
| MftScan.ExcludedBelow | mft_scanner.py:319-321 | When a directory's full path is excluded, so is every directory's below it. |
| MftScan.PassSkipsBelow | mft_scanner.py:319-321 | Every directory below a skipped one is skipped too, so its listing is never read. |
| MftScan.ScanMft | mft_scanner.py:266-372 | A volume that does not open raises before any progress call and adds nothing. Otherwise the progress calls are, in order: reading at 0, then the enumeration's, then 0.02, then 0.03, then the pass's. The scan raises exactly when the last pass aborted. Otherwise it returns the pass's tally, `len(compact)` as `folder_count` and the pass's errors, and the hierarchy holds the pass's files. The pass visits 5 and then the reconstructed directories in the queue's order (`BfsKeys`). That ordering decides ties for the largest file, the key order of the type statistics and the order of the progress paths. |
| Scanner.DrivesPresent | scanner.py:24-28 | The loop over 26 bits lists the drives the mask says. |
| Scanner.DrivesInShape | scanner.py:25-28 | Drive `chr(ord('A') + i) + ":"`, with mount point drive plus `\`, is listed exactly when bit `i` is set, in ascending letter order. |
| Scanner.NoBitNoDrive | scanner.py:25-30 | A mask with no bit among the 26 lists no drive, which sends `list_disks` to its fallback. |
| Scanner.ListDisks | scanner.py:13-39 | On Windows, a readable bitmask that names a drive gives the bitmask's drives. Otherwise the drives whose mount point exists are listed. |
| Scanner.StatsOf | scanner.py:157-163 | The statistics carry the tally's file count and the folder count. The disk usage is taken when it was read and 0 when reading it raised. |
| Scanner.StatsFromFiles | scanner.py:255-268 | In the returned statistics, `file_count` is the number of files and the per-type counts and sizes sum to it and to the bytes. |
| Scanner.ScanViaScandir | scanner.py:143-282 | The hierarchy written is the shared one when given, else a new one. It receives the accepted files even when the walk raises. A returned result has no files, the walk's statistics, duration and error count, and method "scandir". Its progress calls are exactly the walk's, then one final call with ratio 1.0. When the walk raises, the accepted files, and so the hierarchy's additions, are those of the visits before the raising directory plus a prefix of its listing ending at the raising file. The progress calls are then those visits'. |
| Scanner.ScanViaMft | scanner.py:287-343 | It raises exactly when `scan_mft` does not finish. Otherwise it returns `scan_mft`'s tally, folders and errors with its own disk usage and clock and method "mft", with one final progress call at 1.0. Its pass order is the queue order of `ScanMft`. A new hierarchy is made when none is shared. |
| Scanner.ScanPath | scanner.py:348-366 | The result says "mft" exactly when the MFT backend is usable and finishes. Otherwise it comes from the scandir walk. The progress calls of a failed MFT attempt come first. The walk's part of the calls, and its files when it raises, are as `ScanViaScandir` states. A shared hierarchy keeps the MFT additions followed by the walker's. Without one, which is how main.py:177 calls it, the hierarchy is new and is the one the result carries. It holds the MFT pass's files when that backend finished, and otherwise the walker's files: a failed MFT attempt's tree is dropped. |
| Treemap.TreemapNode.constructor | treemap.py:5-15 | A node has the given label, size and box, and no data. |
| Treemap.MaxOf | treemap.py:79 | `max(row)` bounds every value of the row. |
| Treemap.MinOf | treemap.py:80 | `min(row)` is below every value of the row. |
| Treemap.WorstRatioInfinite | treemap.py:75-86 | The worst ratio is infinite exactly for an empty row, a non-positive side, or a row whose sum, maximum or minimum is not positive. |
| Treemap.WorstRatioAtLeastOne | treemap.py:75-86 | A finite worst ratio is at least 1. |
| Treemap.RowTilesAcross | treemap.py:41-73 | All nodes of a row have the row's thickness and start at the row's edge, and each box's area is its value. |
| Treemap.RowTilesChain | treemap.py:45-72 | The nodes of a row are tiled one after another from the rectangle's start. |
| Treemap.RowTilesFull | treemap.py:41-73 | A row of positive values lays out every value and ends at start plus row sum over thickness. |
| Treemap.LayoutRowNone | treemap.py:38-40 | `layout_row` returns None exactly when the row sum or a side of the rectangle is not positive. It then lays out nothing. |
| Treemap.LayoutRowExact | treemap.py:49-70 | Every node `layout_row` appends has positive width and height, and its area is its value. |
| Treemap.LayoutRowRest | treemap.py:57-73 | The rectangle left has the old area minus the row sum. A horizontal row leaves the strip below it with the same width; a vertical row leaves the strip to its right with the same height. |
| Treemap.LayoutRowFull | treemap.py:41-73 | A row of positive values in a proper rectangle lays out each value and spans the rectangle's full side. |
| Treemap.PlaceValue | treemap.py:46-55 | One value of the row appends its node and advances the position. |
| Treemap.LayoutRow | treemap.py:35-73 | The nested `layout_row` appends the nodes of `LayoutRowSpec` as new objects after the earlier ones, and returns its rectangle. |
| Treemap.RunAccept | treemap.py:93-98 | An accepted value moves from `remaining` into the row. |
| Treemap.RunClose | treemap.py:99-107 | A rejected value closes the row and the orientation toggles. If `layout_row` returned None, the loop breaks and the final `if row:` lays the same row out again, which adds nothing. |
| Treemap.SquarifyStep | treemap.py:93-107 | One turn of `while remaining` keeps the layout still to come equal to the specification's. The pair of remaining and row strictly drops. |
| Treemap.FinishRow | treemap.py:109-110 | The final row is laid out. |
| Treemap.Squarify | treemap.py:18-112 | `_squarify` makes exactly the nodes of the squarified layout, as new objects. |
| Treemap.SquarifyDegenerate | treemap.py:39-40 | A rectangle with a non-positive side gives no nodes. |
| Treemap.SquarifyExact | treemap.py:18-112 | Every node has positive sides and an area equal to its size. |
| Treemap.NormalizeAt | treemap.py:31 | Size `i` is scaled to `s_i / total * w * h`. |
| Treemap.NormalizeSum | treemap.py:31 | The scaled sizes are positive and sum to the rectangle's area. |
| Treemap.SquarifyComplete | treemap.py:24-112 | Positive sizes in a proper rectangle give one node per size, in order. Each node's area is its normalised size. |
| Treemap.PositiveMembers | treemap.py:124 | The kept items are exactly those of positive size. |
| Treemap.Bind | treemap.py:131-137 | Node `i` receives the label, size and data of the `i`-th kept item and keeps its box. There are `min(#nodes, #kept)` of them. |
| Treemap.BuildTreemap | treemap.py:115-139 | The result holds `min(#nodes, #kept)` nodes. Node `i` has the `i`-th kept item's label, size and data and its layout box. |
| Treemap.LayoutFacts | treemap.py:115-139 | A proper canvas gives one box per kept item, each of area `size / total * width * height`. A canvas with a non-positive side gives none. |
| Ui.Clamp | main.py:213-217 | The stored ratio lies in [0, 1]. It equals the reported one when that is in range, and the nearer bound otherwise. |
| Ui.BarValue | main.py:224-226 | The bar value is `int(ratio * 1000)`, in [0, 1000] for a ratio in [0, 1]. |
| Ui.Elapsed | main.py:228 | The elapsed time is never negative. |
| Ui.RemainingSeconds | main.py:230-232 | The remaining time is never negative. |
| Ui.EtaFacts | main.py:229-240 | An estimate is shown exactly when the ratio exceeds 0.01 and more than a second has passed. It shows the whole seconds left, with seconds below 60 and minutes only when there is at least one. |
| Ui.Progress.constructor | main.py:50-55 | The progress state starts at zero, not running. |
| Ui.Progress.StartScan | main.py:164-171 | A scan start zeroes the counters at the current time and starts the updater with the bar at 0. |
| Ui.Progress.OnScanProgress | main.py:207-217 | The counters and the path are stored and the ratio is clamped. Nothing else changes. |
| Ui.Progress.UpdateProgressUi | main.py:219-248 | While running, the bar becomes `int(ratio * 1000)` and the view shows the percentage, counters and ETA. When stopped, nothing changes. |
| Ui.Progress.OnScanFinished | main.py:187-189 | The updater stops and the bar is full. The counters, ratio, path and start time stay. |
| Ui.Progress.OnScanFailed | main.py:203-205 | The updater stops. The bar, counters, ratio, path and start time stay. |
| Ui.FormatSize | main.py:360-369 | A size of at most 0 gives "0 B". Otherwise the value times 1024 to the unit index is the size, at least 1. The index is at most 4 (TB), and the value is below 1024 unless the unit is TB. |
| Ui.ScaledUnique | main.py:365-368 | There is only one such value and unit for a size. |
| Ui.SizeByRoot | main.py:255-262 | The per-component totals are those of `SizesByRoot`. |
| Ui.SizesByRootFacts | main.py:255-262 | The per-component totals sum to the file sizes. A component is a key exactly when some file lies under it. |
| Ui.Top50Facts | main.py:264 | At most 50 components are kept, sorted by size descending, drawn from the totals. None left out is larger than one kept. |
| Ui.GroupItems | main.py:272-284 | The grouping loop and the "other" append give `Grouped`. |
| Ui.GroupFacts | main.py:272-282 | Kept items have a share of at least 0.015 and the others less. Together they account for every item and for the top-50 total. |
| Ui.GroupedFacts | main.py:272-284 | One "other" item is appended exactly when there are others and their size is positive. The groups then sum to the top-50 total. |
| Ui.Truncate | main.py:319-338 | A label longer than the limit becomes its first `limit - 2` characters and "..". The shown label never exceeds the limit. |
| Ui.LabelLimit | main.py:318-336 | A label is drawn exactly for boxes above 100x48, 50x22 or 24x14, with a limit of at least 2. |
| Ui.DisplayLabelFacts | main.py:314-342 | A label is shown exactly when the box has a limit. It is at most that long, and unchanged when it fits. |
| Ui.DrawItemsBound | main.py:264-284 | At most 51 boxes are drawn: 50 components and one "other". |
| Ui.DrawTreemap | main.py:250-293 | No files, and so every real result, give no nodes. Otherwise node `i` has the caption, size and data of the `i`-th grouped item of positive size, and the box the layout gives it, on a canvas at least 800 by 500. |
| Ui.ScanModes | main.py:125-161 | Fast mode has depth 4 and ten exclusions. Full mode is unbounded with two exclusions, which fast mode also has. Neither follows links or hashes, and both skip `$Recycle.Bin` and `System Volume Information`. |
| Ui.OnScanClicked | main.py:112-162 | A click starts a scan exactly when no scan thread is alive and a disk is selected, with that mode's options for the selected mount. |

## Left out

- The Tk window: widgets, canvas drawing, colours, the `after` polling, DPI calls and the status and info texts. These are user interface only. The model keeps the numbers that feed them.
- Concurrency: the worker thread and the thread-liveness check of `on_scan_clicked`, which is a parameter.
- Win32 and ctypes calls are inputs:
  - `CreateFileW` and `_open_volume`: whether the volume opens;
  - `DeviceIoControl`: a script of responses;
  - `GetLogicalDrives`: an optional bitmask;
  - `CloseHandle`: not modelled, it has no effect on the result;
  - `can_use_mft` and `_can_use_mft`: a boolean.
- File-system and clock calls are inputs: `os.scandir`, `entry.is_dir`, `entry.stat`, `os.readlink`, `shutil.disk_usage`, `os.path.exists`, `time.time` and `datetime.now`.
  - The `list_disks` fallback's existence probes are one mask of the mounted drives.
  - Each backend reads the disk usage and the clock on its own, so the model gives each its own.
- `datetime.fromtimestamp` is reduced to whether it succeeds, raises `OSError` or raises something else. The timestamps are kept as the seconds it was given.
- A listing that raises after it was opened is not modelled. Only `os.scandir` itself fails, as a directory that cannot be listed.
- `_get_on_disk_size` is not modelled: the scanners never call it.
- `sys.intern`, `gc.collect` and `del entries` are not modelled: they change memory use, not results.
- build_icon_ico.py is not part of this model: it only converts an image.
- `TreemapNode.label` is named `caption` in the model, because `label` is a Dafny keyword.
- Floating point: the treemap, the ratios and the UI arithmetic are over exact reals. Rounding and `%.2f` / `%.1f` formatting are left out.
- The guards in `layout_row` that cannot fire once the row sum and the sides are positive (treemap.py:43-44, 47-51, 60-61, 64-68) are folded into the one test they follow from.
- Text.LowerChar: lowers ASCII letters only, where Python's `str.lower()` uses the Unicode case tables. For example, "Ä" becomes "ä" in Python and stays "Ä" in the model. Python also expands "İ" to two characters.
- Exclude.MatchExclude: inherits the ASCII-only lowering. The pattern "BÄR" matches `C:\Bär` in Python but not in the model.
- FileStats.TypeTagShape: inherits the ASCII-only lowering. The extension ".ÄPK" gives the key ".äpk" in Python and ".Äpk" in the model.
- Usn.DecodeName: UTF-16LE decoding is approximated. Each code unit becomes one character and a surrogate becomes U+FFFD; surrogate pairs are not combined into one character.
- Ui.RemainingSeconds: states only that the remaining time is non-negative. Its value `elapsed * (1 - ratio) / ratio` is part of `EtaOf`.
- Ui.GroupedFacts: the sum equality is stated only when the items folded into "other" have a non-negative total, which sizes always do.
- Ui.Top50Facts: does not state that Python's stable sort keeps ties in dictionary order; the model sorts by insertion and states order, membership and size only.
- DirTree.BuildDirPathsCompact: requires `RootStays`. Without it the source's walk does not terminate, and that case is not modelled.
- MftScan.ScanMft: requires `RootStays` of the enumerated entries, for the same reason.
- Scanner.ScanViaMft: requires `RootStays` of the enumerated entries, for the same reason.
- Scanner.ScanPath: requires `RootStays` of the enumerated entries when the MFT backend is usable, for the same reason.
- The 64 KiB enumeration buffer is modelled as exactly the bytes each call returns, since the record loop never reads past `returned`.
