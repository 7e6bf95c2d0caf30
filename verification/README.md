# Photo organiser decision core, in Dafny

The organiser has three sub-commands:

- **query** lists photos.
- **rename** renames each photo in place to its taken-time, `YYYY-MM-DD_hh.mm.ss` plus its lower-cased extension.
- **move** moves each photo, keeping its name, into a target directory. It creates that directory on the first file that actually moves.

All three first select the photos. Selection walks the expanded command-line paths in order. It skips entries that are not regular files, or whose lower-cased extension is not on the allow-list. It reads the EXIF taken-time of the rest, and keeps the photos whose time lies inside the optional, inclusive `--from`/`--to` window. It gives up on the first path that cannot be stat-ed or whose taken-time cannot be read.

The model follows the program's structure:

- `Paths` — `filepath.Ext`, `Base`, `Dir` and `Join`, and `strings.ToLower`, on the strings the organiser hands them. Every path is clean and absolute, because it comes out of `filepath.Abs` or `filepath.Glob`.
- `Classifier` — `isImageFile` and `getLowerCaseExt`, together with the allow-list.
- `Timestamps` — taken-times as calendar records, with `Before`/`After` and the inclusive window.
- `Naming` — `newImageNameFormat` and `getNewImagePath`.
- `Oracle` — the operating system and the EXIF/HEIF decoders, as function values. Each answer may depend on the history of operations issued before it, so the model never chooses a semantics for overwrites or collisions. `getPhotoTakenTime` is modelled on top of them: the `.heic` dispatch, then decode, then `DateTime()`.
- `Config` — `Options` and the errors a run can return.
- `Selection` — `getImageFilePaths` after glob expansion.
- `Executor` — what the rename and move loops share: a fold over the selected paths that stops at the first error. Each path that carries on logs one `Line` about itself; on a move dry run, the first file that has to move is preceded by one line about the target directory. Each path issues at most one `MkdirAll` (only the first file that moves, and only in move) and one rename.
- `Renaming` and `Moving` — the two loop bodies. Their lemmas take the destination function as a parameter, so they hold for `getNewImagePath` and `filepath.Join(target, filepath.Base(p))` in particular.
- `Handlers` — `handleQuery`, `handleRename` and `handleMove` as methods with loops.

"The filesystem is unchanged" is stated as "no operation was issued". A run is *honest* (`Executor.Honest`) when:

- every operation it issued succeeded, in the history before it;
- except that a run that stopped on a failed operation issued that operation last, and its error names that operation with the OS's own cause.

## Model

| member | source | states |
|---|---|---|
| Classifier.IsImageFileBySuffix | handlers.go:155-167 | an entry is a photo exactly when it is a regular file and its name ends, in any ASCII case, with one of the eight allowed extensions |
| Classifier.IsImageFile | handlers.go:155-167 | definition: a regular entry whose lower-cased extension is one of the eight allowed ones; `IsImageFileBySuffix` is its partner |
| Classifier.ImageEndsWithAllowedExt | handlers.go:159-163 | the lower-cased extension of a photo, read back from the end of its name, is an allowed suffix |
| Classifier.AllowedSuffixIsImageExt | handlers.go:159-163 | a name ending in an allowed extension, in any case, has that extension as its lower-cased `filepath.Ext` |
| Classifier.SuffixIsExt | handlers.go:169-171 | a suffix made of a dot and non-dot, non-separator characters that lower-cases to e makes e the lower-cased extension |
| Classifier.IsImageFileIgnoresCase | handlers.go:169-171 | two names equal after lower-casing classify alike |
| Classifier.UpperAndLowerCaseExamples | handlers.go:159-163 | `a.JPG` and `a.jpg` are both photos |
| Classifier.NonRegularRejected | handlers.go:156-158 | a directory or other non-regular entry is never a photo, whatever its name |
| Classifier.ImageHasExtension | handlers.go:159-166 | every photo has a non-empty extension, so no photo is the root |
| Classifier.DotlessNameRejected | handlers.go:159-166 | a last element without a dot is never a photo, whatever directory it lies in |
| Classifier.DirectoryExtensionIgnored | handlers.go:170 | `/photos.jpg/readme` is not a photo: only the last element's extension counts |
| Classifier.FinalExtensionCounts | handlers.go:170 | `a.jpg.txt` is not a photo: only the final extension counts |
| Paths.Lower | handlers.go:170 | definition: `strings.ToLower` on ASCII, keeping the length and mapping each character by itself; `LowerIdempotent` and `LowerExtCommutes` are its partners |
| Paths.LowerIdempotent | handlers.go:170 | lower-casing twice is lower-casing once |
| Paths.Ext | handlers.go:170 | the extension is empty, or a suffix of the path that starts with a dot and holds no separator |
| Paths.LowerCaseExt | handlers.go:169-171 | the lower-cased extension is empty or a dot followed by characters that are neither dots nor separators |
| Paths.ExtOfExtension | handlers.go:170 | whatever precedes it, a trailing extension is what `filepath.Ext` returns |
| Paths.ExtOfLastElement | handlers.go:170 | `filepath.Ext` depends on the last path element only |
| Paths.LowerExtCommutes | handlers.go:170 | lower-casing then taking the extension equals taking the extension then lower-casing |
| Paths.Base | handlers.go:68 | the base name is never empty |
| Paths.Dir | handlers.go:209 | the directory of a clean absolute path is a clean absolute path no longer than it, and the root's is the root |
| Paths.Join | handlers.go:209 | joining a clean absolute directory and one element gives a path whose `Dir` is the directory and whose `Base` is the element |
| Paths.JoinDirBase | handlers.go:68 | every path below the root is its `Dir` joined with its `Base`, and that base is a single element |
| Timestamps.Before | handlers.go:139 | definition: `time.Time.Before` for one zone, lexicographic on the calendar fields; `BeforeIsOrdinalOrder` is its partner |
| Timestamps.After | handlers.go:144 | definition: a is after b exactly when b is before a |
| Timestamps.InRange | handlers.go:138-147 | definition: not before `from` when it is given, and not after `to` when it is given; `InRangeIsInclusive` is its partner |
| Timestamps.BeforeIsOrdinalOrder | handlers.go:139 | `Before` holds exactly when the moment's mixed-radix ordinal is smaller, and two moments are equal exactly when their ordinals are |
| Timestamps.InRangeIsInclusive | handlers.go:138-147 | a taken-time passes the window exactly when from <= t (when from is given) and t <= to (when to is given) |
| Timestamps.BoundsAreKept | handlers.go:138-147 | a taken-time equal to either bound is kept |
| Timestamps.Year2023Window | handlers.go:138-147 | with the 2023 window, mid-year and the first second are kept, and the last second of 2022 is not |
| Naming.FormatName | handlers.go:207 | the formatted time has the layout of `2006-01-02_15.04.05`: digits where it has digits, its separators elsewhere |
| Naming.ParseFormatRoundTrip | handlers.go:204-207 | the formatted name reads back to the timestamp it was formatted from |
| Naming.FormatNameInjective | handlers.go:207 | two timestamps format alike exactly when they are equal |
| Naming.LayoutIsReferenceTime | handlers.go:204 | the layout string is Go's reference time written in that layout |
| Naming.NewImageFileName | handlers.go:207-208 | the new file name is a single path element |
| Naming.NewImagePath | handlers.go:206-211 | the new path stays in the original's directory, and its base name is the formatted time followed by the lower-cased original extension |
| Naming.ExtOfNewImagePath | handlers.go:208 | a renamed photo keeps its lower-cased extension; a name without one gets `.ss` from the seconds |
| Naming.NamingIdempotent | handlers.go:42-45 | for a path with an extension, renaming the new path with the same time gives the same path, which is the "old and new path match" skip |
| Naming.NoFixedPointWithoutExtension | handlers.go:206-211 | without an extension the new path is never a fixed point |
| Naming.NewImagePathCollision | handlers.go:206-211 | two photos get the same new path exactly when they share directory, lower-cased extension and taken-time |
| Oracle.PhotoTakenTime | handlers.go:173-202 | a file that cannot be opened fails with the open error; a successful read of a non-`.heic` file is the time its own bytes decode to, and of a `.heic` file the time the HEIF EXIF block of its bytes decodes to; only a `.heic` file can fail in the HEIF step |
| Oracle.DecodeTakenTime | handlers.go:191-201 | definition: a decoder failure and a `DateTime()` failure are told apart, and otherwise the decoded time is returned |
| Oracle.TakenTimeOfDecoded | handlers.go:173-202 | once the file is read, the outcome is the decoder's: a time decoded from the bytes (or, for `.heic`, from their HEIF EXIF block) is returned, and a decoder or `DateTime()` failure, of a `.heic` file's block as of any other file's bytes, is returned as `DecodeFailed` or `DateTimeFailed` |
| Oracle.HeifOnlyForHeic | handlers.go:181-189 | only `.heic` files, in any case, go through the HEIF unwrapper |
| Oracle.HeicWithoutExifFails | handlers.go:182-187 | a `.heic` file whose container yields no EXIF block fails with that error |
| Selection.Examine | handlers.go:124-147 | a taken-time error can arise only for a path that was stat-ed and classified as a photo |
| Selection.ExamineFails | handlers.go:124-137 | one iteration gives up exactly when the path cannot be stat-ed, or is a photo whose taken-time cannot be read, each with its own error; everything else is kept or skipped |
| Selection.ExamineKeepsPassing | handlers.go:124-149 | one iteration keeps a path exactly when it is a photo whose taken-time lies in the window |
| Selection.KeptIsNotRoot | handlers.go:130-132 | no kept path is the root |
| Selection.Kept | handlers.go:124-150 | the selection is no longer than the input, and every selected path passes the classifier and the time window |
| Selection.KeptIsFilter | handlers.go:124-150 | the selection is the passing inputs in input order, at strictly increasing positions; an input is selected exactly when it passes |
| Selection.KeptMembership | handlers.go:124-150 | a path is selected exactly when it is an input that passes |
| Selection.Scan | handlers.go:124-152 | the loop succeeds exactly when no path fails, then returning the kept paths in order; otherwise it returns the error of the first failing path |
| Selection.GetImageFilePaths | handlers.go:103-153 | succeeds exactly when every expanded path can be examined (which `ExamineFails` characterises), and then returns the selection; otherwise it returns the first failing path's error and no paths |
| Executor.TryRename | handlers.go:52-56 | the rename is recorded; the loop stops exactly when the OS reports an error, which it wraps with both paths, and otherwise it prints the rename |
| Executor.Transfer | handlers.go:47-56 | a dry run carries on, issues nothing and logs the skipped rename; otherwise exactly the rename is issued, a stop names both paths, and a run that carries on logs the rename; the seen-first-file flag is untouched |
| Executor.Fold | handlers.go:34-58 | definition: each path in order is handed to the step, returning at the first error; `StopsAtFirstFailure` and `Handlers.Execute` are its partners |
| Executor.StopsAtFirstFailure | handlers.go:34-58 | a stopped loop stopped at some path k, every earlier path having carried on; the paths after k are never looked at |
| Executor.TryRenameHonest | handlers.go:52-55 | a rename attempted after a successful history leaves an honest run |
| Renaming.RenameTarget | handlers.go:36-41 | definition: the taken-time read again in the current history, then the new image path; `RenameTargetShape` is its partner |
| Renaming.RenameStep | handlers.go:36-56 | definition: one loop iteration, where a failed read stops, an unchanged path is skipped, and otherwise the rename is reported or attempted; `RenameStepIssues`, `RenameStepReports` and `RenameStepStops` state its effect |
| Renaming.RenameTargetShape | handlers.go:36-41 | the rename target fails exactly when the taken-time read fails; otherwise it is the new image path |
| Renaming.RenameStepIssues | handlers.go:41-52 | one iteration issues nothing, or, when not a dry run, one rename of the path to its differing new path |
| Renaming.RenameStepReports | handlers.go:42-56 | one iteration that carries on writes exactly one line, about its own path |
| Renaming.RenameStepStops | handlers.go:36-55 | one iteration stops exactly when the taken-time read fails (with that error, nothing issued or logged), or, when not a dry run and the path changes, when the OS rejects the rename |
| Renaming.RenameSamePathSkipped | handlers.go:42-45 | a file that already carries its new name is skipped with the "old and new path match" line, and nothing else happens |
| Renaming.RenameStepPlanned | handlers.go:36-52 | one iteration keeps every issued operation a rename of a selected file to the path derived for it just before it was issued |
| Renaming.RenameStepHonest | handlers.go:52-55 | one iteration after a successful history is honest |
| Renaming.RenameHonest | handlers.go:34-58 | the rename loop is honest |
| Renaming.DryRunRenameIssuesNothing | handlers.go:48-51 | a dry run issues no operation, however it ends |
| Renaming.RenamesArePlanned | handlers.go:36-52 | every operation issued renames a selected file, never onto itself, to the new path derived for it in the history of the operations before it |
| Renaming.RenameReportsEveryPath | handlers.go:34-57 | a run that ends without error wrote one line per selected file, about that file, in order |
| Renaming.RenameStepDue | handlers.go:41-52 | when the derived path does not depend on the history, an iteration that carries on issues exactly the rename due |
| Renaming.RenamePlanOnSuccess | handlers.go:34-58 | with a settled derivation, a run that ends without error issued exactly the due renames, in order |
| Renaming.SettledRunStopsOnlyOnRename | handlers.go:35-39 | when every taken-time could be read before the run and renaming does not change it, the run can stop only on a failed rename, never on a dry run |
| Renaming.TakenTimesSettleTarget | handlers.go:36-41 | taken-times that do not depend on the history give a rename target that does not either |
| Moving.MoveDestination | handlers.go:68 | the destination lies in the target directory and keeps the file's base name |
| Moving.Prepare | handlers.go:74-86 | definition: on the first file that moves, set the flag, then announce (dry run) or issue MkdirAll of the target, stopping if it fails |
| Moving.MoveStep | handlers.go:68-98 | definition: skip a file already in place, otherwise prepare the directory and then report or attempt the rename; `MoveStepFlag`, `MoveStepIssues` and `MoveStepStops` state its effect |
| Moving.MoveDestinationIsSelf | handlers.go:68-72 | a file is skipped as already in place exactly when it lies directly in the target directory |
| Moving.MoveStepFlag | handlers.go:74-75 | the seen-first-file flag is set once some file has had to move |
| Moving.MoveStepIssues | handlers.go:68-98 | one iteration issues nothing on a dry run or for a file in place; otherwise it issues MkdirAll first when no file has moved before, then the rename, unless MkdirAll failed |
| Moving.MoveSamePathSkipped | handlers.go:68-72 | a file already in the target is skipped with the "old and new path match" line, and nothing else happens |
| Moving.MoveStepStops | handlers.go:81-97 | one iteration stops only on a failed MkdirAll of the target or a failed rename, never on a dry run |
| Moving.MoveStepReports | handlers.go:68-97 | one iteration that carries on writes one line about its own path, leaving any directory announcement aside |
| Moving.MoveStepNoMkdirLine | handlers.go:74-86 | an iteration that is not a dry run never announces a directory |
| Moving.MoveReportsEveryPath | handlers.go:66-99 | a run that ends without error wrote one line per selected file, about that file, in order, leaving the directory announcements aside |
| Moving.MoveAnnouncesNothing | handlers.go:74-86 | a run that is not a dry run never announces a directory |
| Moving.DryRunStepAnnounces | handlers.go:68-92 | a dry-run iteration carries on, sets the flag exactly when the file has to move, and announces the target once if it is the first such file, and otherwise not at all |
| Moving.DryRunFlag | handlers.go:66-92 | a dry run never stops, and ends with the flag set exactly when some file had to move |
| Moving.DryRunAnnouncesOnce | handlers.go:66-92 | a dry run announces the target directory exactly once if some file had to move, never otherwise, and announces no other directory |
| Moving.MoveStepHonest | handlers.go:81-97 | one iteration after a successful history is honest |
| Moving.MoveHonest | handlers.go:67-99 | the move loop is honest |
| Moving.DryRunMoveIssuesNothing | handlers.go:76-92 | a dry run issues no operation, not even MkdirAll, however it ends |
| Moving.MoveStepShaped | handlers.go:66-98 | one iteration keeps the shape: MkdirAll of the target first if at all, then planned moves only |
| Moving.MoveOpsShape | handlers.go:66-99 | however the loop ends, MkdirAll of the target is issued at most once and first, and every later operation moves a selected file, not in place, to its destination |
| Moving.MovePlanEmpty | handlers.go:69-72 | nothing is due exactly when every file is already in place |
| Moving.MoveStepPlan | handlers.go:68-98 | an iteration that carries on issues its due move, preceded by MkdirAll when it is the first to move |
| Moving.FoldPlanFrom | handlers.go:66-99 | in any loop of that shape, a run that ends without error issued one MkdirAll if anything was due, then everything due in order |
| Moving.MovePlanFrom | handlers.go:66-99 | from any state, a move run that ends without error issued MkdirAll if no file had moved and one had to, then the due moves |
| Moving.MovePlanOnSuccess | handlers.go:66-100 | a run that ends without error issued MkdirAll of the target exactly when some file had to move, followed by exactly the due renames |
| Moving.AllInPlaceIssuesNothing | handlers.go:69-72 | when every file is in place the loop runs to the end and issues nothing, not even MkdirAll |
| Handlers.Execute | handlers.go:34-58 | the handler loop computes the fold over the selected paths, returning at the first error |
| Handlers.ListAll | handlers.go:23-25 | the listing writes one line per path, about that path, in order, and every line is a listing line |
| Handlers.HandleQuery | handlers.go:18-27 | one listing line per selected path, in order, or the selection's error |
| Handlers.HandleRename | handlers.go:29-59 | a failed selection stops before any operation, with the first failing path's error. Otherwise it runs the rename loop over the selection, where: a dry run issues nothing; the run is honest; every operation is a planned rename; a run without error reported every selected file in order |
| Handlers.HandleMove | handlers.go:61-101 | a failed selection stops before any operation. Otherwise it runs the move loop, where: a dry run issues nothing; the run is honest; MkdirAll of the target comes first if at all, then only planned moves; a run without error issued MkdirAll exactly when something had to move, then exactly the due renames, and reported every selected file in order; only a dry run announces the directory, and then exactly once if something had to move |

## Left out

- Command-line wiring (main.go:31-131): flag parsing, `app.Run` and exit codes. Only the allow-list (main.go:15) and the `Options` record (main.go:24-29) are modelled.
- The default pattern and glob expansion (handlers.go:104-122): `filepath.Abs` and `filepath.Glob` depend on the working directory and the filesystem. The handlers take the already expanded, clean absolute paths. Their error paths, and how those order against stat errors of earlier patterns, are not modelled.
- Selection.GetImageFilePaths: states its contract for one already expanded sequence of paths, not for the per-pattern loop of handlers.go:113-123.
- EXIF and HEIF decoding (goexif, go4 heif): these are function values of the `World`. Only the `.heic` dispatch, the order of the failure points and the wrapping of errors are modelled. The `time.Now()` values returned beside errors are not.
- `os.Stat`, `os.Open`, `os.Rename` and `os.MkdirAll` are oracles over the history of operations issued. What a rename does to the filesystem is not modelled, because the code defines no overwrite or collision policy. So "the filesystem is unchanged" is stated as "no operation was issued".
- The 0755 permission bits passed to `os.MkdirAll`.
- `os.Stat` follows symbolic links, so the code accepts a symbolic link to a regular photo. The model follows the code: `Kind` is the kind of the entry the link points to.
- Discovery is glob expansion of each command-line pattern, as the code does it. There is no recursive directory walk, and no mode that skips a file whose taken-time cannot be read: the first such file ends the selection with an error.
- Two photos whose new paths coincide are renamed one after the other with nothing in between, as the code does. The model leaves the outcome of each rename to the `World`, so it claims neither an overwrite nor a refusal; `Naming.NewImagePathCollision` states exactly when new paths coincide.
- `path/filepath` is modelled as on Unix only: `/` is the only separator, and there are no volume names, drive letters or Windows `\` separators.
- `strings.ToLower` is modelled on ASCII letters only. Unicode case mappings are left out.
- Timestamps have second precision in one fixed zone, with no daylight-saving gaps. Years are 0..9999, the four-digit years the `2006` layout element writes. Sub-second precision and time zones are not modelled.
- Output text: each printed line is a `Line` value with the paths it names, not the exact `fmt` text. Error messages are `Error` values carrying the same context, not the wrapped strings.
- Handlers.HandleMove: requires a clean absolute target. main.go:113-118 passes the target through `filepath.Abs`, which guarantees this.
- Renaming.RenamePlanOnSuccess: the exact-plan statement assumes that renaming does not change the taken-times read afterwards (`Renaming.Settled`). Without it, the model only promises what `Renaming.RenamesArePlanned` states.
