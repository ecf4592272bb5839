# UZip-Cli decision logic in Dafny

UZip-Cli (`index.js`) is a command-line wrapper around an external 7-Zip
binary. `-compress`/`-c <input> <output> <size>` compresses a folder into
split volumes and writes a manifest `index.json` next to them. The manifest
records the base name, a timestamp, the split size and the sorted list of
volume files. `-restore`/`-r <folder>` reads that manifest, extracts its first
volume, and then asks whether to delete the volumes and the manifest.

This project models the tool's own logic around the engine:

- the split-size grammar (`SplitSize`): a DFA proved equal to a declarative
  token predicate;
- quote stripping, `path.join` and `path.basename` on `/`-separated paths (`Paths`);
- the progress match and the bar (`Progress`): leftmost-match semantics of
  `/(\d+)%/`, and integer rounding;
- the parts list, the manifest record and the engine argument vectors
  (`Manifest`, on top of `Sorting`, a reference sort for JavaScript's default
  `sort`);
- the `run7z` runner (`Engine`);
- the prompt answer test (`Prompt`);
- the command-line dispatch (`Cli`);
- the compress, restore and cleanup flows, written as functions of the tool's
  state (`Flows`);
- the tool itself as a class with mutable state (`Tool.Uzip`). Its methods
  perform the steps in source order: the `run7z` chunk loop, the directory
  listing, the manifest write, the `mkdirSync`, and the deletion loop. Each
  method is proved to end in the state its `Flows` function gives.

The tool's state has three parts:

- the file system, as a map from directory path to the files in it;
- the text written to standard output;
- the argument vectors given to the engine.

One engine run is a value `Engine(launches, chunks, code, effect)`:

- `launches`: whether the spawn succeeds;
- `chunks`: the chunks printed on standard output;
- `code`: the exit code;
- `effect`: the file system the run leaves behind.

The clock reading (`createdAt`) and the answer typed at the prompt are
parameters. A fatal `die(message)` is the status `Fatal(message)`, and an
exception nothing catches is `Crash(kind)`. Both exit with 1 (`Engine.ExitCode`).

Three behaviours of the code are easy to miss; the model follows the code:

- The tool's own help text (index.js:33-51) lists `--compress` and shows
  `UZip compress ...`. The dispatch (index.js:214-219) accepts only
  `-compress`/`-c` (and `-restore`/`-r`) as the first argument, so `compress`
  without a dash is an unknown command (`Cli.BareWordIsUnknown`).
- Cleanup can fail. After the loop, `unlinkSync(index.json)` throws when the
  manifest is gone. That happens, for example, when the manifest lists
  `index.json` among its parts (`Flows.CleanupEffect`, third clause).
- A percentage above 102 is not ignored. It makes `"░".repeat` throw, and the
  process ends (`Progress.OnData`, `Crash(BarOverflow)`).

## Model

| member | source | states |
|---|---|---|
| `SplitSize.ValidSize` | index.js:27-29 | accepts exactly one or more ASCII digits followed by one of `k m g K M G` |
| `SplitSize.RunCorrect` | index.js:27-29 | the recogniser's state after any input is the class of that input (empty, digits, a size token, or dead) |
| `SplitSize.Examples` | index.js:27-29 | `0k`, `500M`, `2g`, `100k` are accepted; ``, `g`, `2gb`, `2 g`, `-1g`, `1.5g` are rejected |
| `Paths.StripQuotes` | index.js:15 | the result holds no quote, is no longer than the input, and is the input itself when it held none |
| `Paths.StripQuotesAppend` | index.js:15 | stripping distributes over concatenation |
| `Paths.StripQuotesIdempotent` | index.js:15 | stripping twice is stripping once |
| `Paths.Normalize` | index.js:13-16 | absent or empty gives null; otherwise the argument with its quotes removed |
| `Paths.NormalizeExamples` | index.js:13-16 | a quoted name loses its quotes; empty and absent give null |
| `Paths.TrimTrailingSeparators` | index.js:108 | the result is the path up to the separators it ends with, and does not end in a separator |
| `Paths.Basename` | index.js:108 | a base name holds no separator, and is empty only for a path made of separators alone |
| `Paths.BasenameSuffix` | index.js:108 | the base name is the suffix after the last separator, once trailing separators are set aside |
| `Paths.BasenameIgnoresTrailing` | index.js:108 | a trailing separator does not change the base name (`MyFolder/` names `MyFolder`) |
| `Paths.BasenameOfName` | index.js:108 | a name without separators is its own base name |
| `Paths.BasenameOfJoin` | index.js:108-109 | the base name of `join(dir, name)` is `name` when `name` is not empty and holds no separator |
| `Text.Contains` | index.js:130 | `includes` is true exactly when the substring occurs at some position |
| `Text.Trim` | index.js:160 | the result is a slice of the input with only whitespace around it, and its ends are not whitespace |
| `Text.TrimPadded` | index.js:160 | trimming whitespace-padded text gives back the text |
| `Text.Lower` | index.js:160 | lower-casing keeps the length and maps each character |
| `Text.DecimalOfNatToString` | index.js:62 | the decimal rendering of a number reads back as that number |
| `Progress.FindMatch` | index.js:76 | none exactly when no digit run is followed by `%`; otherwise the leftmost such match |
| `Progress.PercentOf` | index.js:76-78 | no percentage exactly when the text has no digits followed by `%` |
| `Progress.Examples` | index.js:76-78 | `"  12% 3 files"` reads as 12; text without a percent sign reads as none |
| `Progress.RoundHalfUp` | index.js:60 | the result is the integer nearest the fraction, halves rounded up |
| `Progress.FilledFormula` | index.js:60 | the filled count `round(p / 100 * 20)` equals `(p + 2) / 5` |
| `Progress.FilledMonotone` | index.js:60 | more progress never fills fewer cells |
| `Progress.FilledFits` | index.js:59-61 | the filled count fits the 20 cells exactly when p is at most 102; 0 fills none, 100 fills all |
| `Progress.Bar` | index.js:59-61 | the bar is 20 cells: the filled cells first, then the empty ones |
| `Progress.Frame` | index.js:62 | a carriage return, the bar in brackets with the filled cells first, a space, the percentage in decimal, then `%` |
| `Progress.FrameHalf` | index.js:58-62 | at 50 percent ten cells are filled and ten empty |
| `Progress.FrameEmpty` | index.js:58-62 | at 0 percent all twenty cells are empty |
| `Progress.OnData` | index.js:74-80 | a chunk draws exactly when progress is on and it holds a percentage of at most 102; it draws the frame of that percentage; larger ones overflow; all else is silent |
| `Progress.FrameRoundTrip` | index.js:62 | a drawn frame, read back, yields its own percentage |
| `Sorting.Sort` | index.js:131 | the result is sorted and a permutation of the input |
| `Sorting.SortedUnique` | index.js:131 | two sorted permutations of the same list are equal |
| `Sorting.SortIdempotent` | index.js:174 | sorting a sorted list changes nothing |
| `Sorting.SortOrderIndependent` | index.js:131 | the sorted list depends only on the multiset of names |
| `Sorting.HeadIsLeast` | index.js:174-175 | the first element of a sorted list is its least element |
| `Sorting.LexLeTotal` | index.js:131 | code-unit order is total |
| `Sorting.LexLeAntisymmetric` | index.js:131 | code-unit order is antisymmetric |
| `Sorting.LexLeTransitive` | index.js:131 | code-unit order is transitive |
| `Sorting.LexLeCommonPrefix` | index.js:131 | a common prefix does not change the order of two names |
| `Sorting.VolumeNamesSorted` | index.js:131 | zero-padded volume names compare in volume order |
| `Sorting.SortThree` | index.js:131 | three names listed out of order sort back into order |
| `Sorting.Example` | index.js:131 | three volume names in shuffled order sort into sequence order |
| `Manifest.FilterParts` | index.js:130 | keeps each entry holding `.7z.` as often as it occurs, and nothing else |
| `Manifest.PartsOf` | index.js:128-131 | the parts list is sorted and holds each marked entry of the listing as often as it occurs |
| `Manifest.PartsMembers` | index.js:128-131 | a name is in the parts list exactly when it is listed and holds the marker |
| `Manifest.PartsOrderIndependent` | index.js:128-131 | the parts list does not depend on the order the directory enumerates |
| `Manifest.IndexIsNotPart` | index.js:130 | `index.json` is never taken for a part |
| `Manifest.CompressArgs` | index.js:113-125 | eleven entries: the eight fixed flags in order first, the input last |
| `Manifest.CompressArgsLayout` | index.js:113-125 | between them, `-v` with the size as given, then the archive in the output directory named after the input |
| `Manifest.ArchiveName` | index.js:108-123 | the archive's base name is the input's base name followed by `.7z` |
| `Manifest.VolumesArePart` | index.js:123-130 | volumes named after that archive are picked up as parts |
| `Manifest.ExtractArgs` | index.js:180 | four entries, the second the first part's path |
| `Engine.ExitCode` | index.js:18-21 | exit status 0 exactly for a normal end, else 1 |
| `Engine.EnginePath` | index.js:9 | the engine path is `./7-Zip/7z.exe` |
| `Engine.Stream` | index.js:74-80 | at most one frame per chunk; each frame is the frame of its own percentage; an overflow exactly when some chunk overflows; nothing is drawn without progress |
| `Engine.StreamSingle` | index.js:74-80 | one chunk draws its own frame, overflows with its percentage, or has no effect, as the data handler decides |
| `Engine.StreamAppend` | index.js:74-80 | chunks are handled in order: the trace of `a + b` is that of `a` if `a` overflowed, else the frames of `a` then those of `b`, ending as `b` ends |
| `Engine.StreamStops` | index.js:74-80 | no chunk after an overflowing one has any effect |
| `Engine.EngineStep` | index.js:67-90 | never shortens standard output; a missing engine is fatal and changes nothing; a normal end needs the engine found, launched and code 0; one spawn exactly when installed |
| `Engine.EngineStepOutcome` | index.js:67-90 | normal end exactly when found, launched, code 0 and no overflow; a non-zero code after a clean stream is the engine failure; the newline is written on close whatever the code |
| `Flows.CallbackOnlyOnSuccess` | index.js:86-89 | the completion callback runs exactly when the engine was found, launched, drew no overflow and exited with 0; otherwise the run ends as the engine step left it |
| `Flows.Run7zSpec` | index.js:67-91 | a run never shortens standard output; a missing engine is fatal and changes nothing; one spawn exactly when installed |
| `Flows.CallbackSpec` | index.js:127-193 | a completion callback never shortens standard output and spawns nothing |
| `Flows.DirPartsMembers` | index.js:128-131 | the recorded parts are sorted and are exactly the directory's marked names |
| `Flows.ListingGivesDirParts` | index.js:128-131 | any enumeration order of the directory gives the same parts |
| `Flows.Mkdir` | index.js:106 | the directory exists afterwards, empty if it was new, and no other directory changes |
| `Flows.WriteManifestSpec` | index.js:127-148 | a failure changes nothing; on success `index.json` holds a manifest in the output directory; no directory appears or disappears and nothing is spawned |
| `Flows.RemoveParts` | index.js:185-188 | the deletion loop keeps the set of directories and changes no directory but the folder |
| `Flows.RemovePartsEffect` | index.js:185-188 | the loop removes exactly the listed names from the folder, skips absent ones, and leaves the other files as they were |
| `Flows.CleanupSpec` | index.js:183-193 | the question is always written; nothing is spawned; no directory appears or disappears; an answer that does not confirm leaves the files as they were |
| `Flows.CompressSpec` | index.js:95-149 | the state is untouched exactly when a check fails |
| `Flows.CompressChecks` | index.js:96-104 | each failed check gives its own message, in source order |
| `Flows.CompressSpawns` | index.js:106-127 | after the checks, the engine gets the compress vector exactly once |
| `Flows.CompressSucceeds` | index.js:127-145 | a normal end means code 0 and a manifest with the input's base name, the clock reading, the size verbatim, and the sorted non-empty list of exactly the marked files |
| `Flows.CompressFailureWritesNothing` | index.js:86-88 | any other end writes no manifest: the disk is as before, as after the `mkdir`, or as the engine left it |
| `Flows.RestoreSpec` | index.js:164-196 | the state is untouched exactly when a check fails |
| `Flows.RestoreChecks` | index.js:165-176 | missing folder, missing manifest, unparsable manifest and empty parts each end as the source says |
| `Flows.RestoreExtractsFirstPart` | index.js:172-180 | after the checks, the engine extracts the least part of the re-sorted list, and the cleanup gets that list |
| `Flows.CleanupEffect` | index.js:183-193 | any answer but `y`/`yes` keeps every file; agreeing removes exactly the listed parts and `index.json` from the folder and nothing elsewhere; it crashes exactly when the manifest is gone |
| `Flows.CompressThenRestore` | index.js:127-180 | after a normal compress the output directory holds the recorded volumes; restoring it passes every check and extracts the first recorded volume with the recorded list as is |
| `Flows.ExecuteSpec` | index.js:200-220 | only compress and restore change the state; an unknown command never ends normally |
| `Flows.ExecuteOutcome` | index.js:200-220 | help and version touch nothing and end normally; an unknown command touches nothing and exits with 1 |
| `Prompt.ConfirmsPadded` | index.js:160-184 | a padded word confirms exactly when it lower-cases to `y` or `yes` |
| `Prompt.Confirms` | index.js:160-184 | a confirming answer is one or three characters long once trimmed |
| `Prompt.ConfirmsShape` | index.js:160-184 | a confirming answer trims to `y` or `yes` in any mix of cases |
| `Prompt.ConfirmsUpperY` | index.js:160-184 | `"Y"` confirms |
| `Prompt.DeclinesNo` | index.js:160-184 | `"n"` declines |
| `Prompt.DeclinesEmpty` | index.js:160-184 | the empty answer declines |
| `Cli.Includes` | index.js:202 | `includes` is membership |
| `Cli.Arg` | index.js:215-217 | a positional argument is present exactly when the list is long enough |
| `Cli.Dispatch` | index.js:200-220 | help exactly on an empty list or a help flag anywhere; otherwise version on a version flag anywhere; otherwise the first argument picks compress or restore with their positional arguments; anything else is unknown |
| `Cli.FlagsAnywhere` | index.js:202-210 | a help flag anywhere wins over everything; a version flag anywhere wins over commands |
| `Cli.CompressExample` | index.js:214-215 | `-c MyFolder backup 2g` is the compress command with its three arguments |
| `Cli.RestoreMissingFolder` | index.js:216-217 | `-r` alone is restore with no folder |
| `Cli.BareWordIsUnknown` | index.js:214-219 | `compress` without its dash is an unknown command |
| `Cli.VersionAmongArguments` | index.js:207-215 | a version flag among a command's arguments wins over the command |
| `Tool.Uzip.constructor` | index.js:200 | the tool starts with the given files, nothing written and nothing spawned |
| `Tool.Uzip.Write` | index.js:62 | `process.stdout.write` appends its text and changes nothing else |
| `Tool.Uzip.Print` | index.js:111 | `console.log` appends its line and a newline |
| `Tool.Uzip.ReadDir` | index.js:129 | the names listed are the directory's names, each once, in some order |
| `Tool.Uzip.Drain` | index.js:74-80 | handling the chunks one by one writes the frames and stops at an overflow, as `Engine.Stream` says |
| `Tool.Uzip.Run7z` | index.js:67-91 | ends in the status and state of `Flows.Run7zSpec` |
| `Tool.Uzip.OnDone` | index.js:127-195 | runs the callback the command passed |
| `Tool.Uzip.WriteIndex` | index.js:127-148 | lists, filters, sorts and writes the manifest as `Flows.WriteManifestSpec` says |
| `Tool.Uzip.DeleteParts` | index.js:185-188 | the deletion loop leaves the disk of `Flows.RemoveParts` |
| `Tool.Uzip.Cleanup` | index.js:183-193 | asks, and deletes or keeps as `Flows.CleanupSpec` says |
| `Tool.Uzip.Compress` | index.js:95-149 | ends in the status and state of `Flows.CompressSpec` |
| `Tool.Uzip.Restore` | index.js:164-196 | ends in the status and state of `Flows.RestoreSpec` |
| `Tool.Uzip.Execute` | index.js:200-220 | ends in the status and state of `Flows.ExecuteSpec` |

## Left out

- `path.resolve`: the working directory is not modelled. `normalize` only strips quotes, so a path is the text the user gave.
- `path.join`: modelled as `dir + "/" + name` without normalisation. Node's `path.join` also collapses repeated separators (so `backup/` joined with `x` is `backup/x`, where the model has `backup//x`) and resolves `.` and `..` segments; neither is modelled.
- `path.basename`: modelled on `/` alone, ignoring trailing `/` as Node does. Windows `\` separators and drive letters are not modelled.
- `CompressThenRestore`: requires a non-empty stripped output name. Without `path.resolve`, an output argument of only quotes would become the empty path.
- File or directory: every existence check asks for a directory key or a file in a directory. An input that is a file, and a part name that contains a separator or names a subdirectory, are not distinguished the way `fs.existsSync` and `unlinkSync` would distinguish them.
- `readdirSync` lists only the files of the output directory, not its subdirectories.
- `mkdirSync` with `recursive`: the parent directories it creates are not modelled. The failure when the output path is a file is not modelled either.
- `JSON.stringify` / `JSON.parse`: the manifest is a record whose parts are absent or a list of strings. A manifest with no `parts`, or a falsy one, or one whose `length` is missing or zero, is `Manifest` with no parts or an empty list, and ends with "No parts found.". The shapes that make the source throw are stored as `Data` and crash as `ManifestUnparsable` before the engine runs. Those shapes are text that does not parse, the JSON `null` (reading `.parts` throws), a `parts` value with a non-zero `length` that is not an array such as a string (`.sort` is not a function), and an array with an entry that is not a string (`path.join` throws). For the last shape the source can get further before it throws: an entry that sorts after the first part only throws in the cleanup loop.
- `new Date().toISOString()`: the clock reading is a parameter.
- The engine: a value saying whether it launches, the output chunks, the exit code and the files it leaves behind. The model does not say what 7-Zip does to the files. Standard error of the engine is ignored, as in the source.
- Output chunk boundaries: the model takes the chunks as given. A percentage split across two chunks is read as the source would read each chunk alone.
- The `die` message written to standard error, with its emoji prefix: kept as the `Fatal` status, not as output text.
- Help and version text (index.js:33-56): the commands end normally with no state change. The text itself is not modelled.
- `readline`: the answer is a parameter. The echo of the typed answer is not modelled.
- `Text.Lower`: lower-cases ASCII letters only. The source lower-cases all of Unicode; only `y`/`yes` matter to the decision.
- `Sorting.Sort`: compares Dafny characters (Unicode scalar values). JavaScript compares UTF-16 code units, which order differently only above U+FFFF.
- In-place sort: the default `sort` of the parts list (index.js:131, index.js:174) is a library call and is modelled as a pure function. The in-place mutation of the parsed manifest object has no effect the tool can observe.
- `parseInt`: modelled as an exact decimal value. Floating-point precision of very long digit runs is not modelled; such a percentage overflows the bar anyway.
- `Progress.Bar`: demands percent at most 102. That is exactly the range where `"░".repeat` gets a count that is not negative. The data handler maps larger percentages to a crash instead of calling it.
- Process concurrency: none exists inside the tool. The engine is one step between the spawn and its close event.
