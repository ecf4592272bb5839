/** The two commands and the command line as functions of the tool's state:
    `compress` (index.js:95-149), `restore` with its cleanup (index.js:164-196)
    and the top level (index.js:200-220). These are the specifications the
    methods of `Tool.Uzip` are proved against. The clock reading, the answer
    typed at the prompt and the engine runs are parameters. */
module Flows {
  import opened Common
  import opened SplitSize
  import opened Sorting
  import opened Paths
  import opened Manifest
  import opened Prompt
  import opened Cli
  import opened Engine

  const MISSING_ARGUMENTS: string := "Missing arguments."
  const INVALID_SIZE: string := "Invalid split size. Use formats like: 500m, 2g, 100k"
  const NO_PARTS_CREATED: string := "No split parts were created."
  const MISSING_FOLDER: string := "Missing folder argument."
  const NO_PARTS: string := "No parts found."
  const UNKNOWN_COMMAND: string := "Unknown command"

  /** The message of `exists(p, what)` when `p` is missing. */
  function NotFound(what: string, p: string): string {
    what + " not found: " + p
  }

  const COMPRESSING: string := "\U{1F5DC} Compressing..."
  const COMPRESSED: string := "\U{2705} Compression complete"
  const RESTORING: string := "\U{267B} Restoring..."
  const RESTORED: string := "\U{2705} Restore complete"
  const QUESTION: string := "Delete split parts? (y/n): "
  const DELETED: string := "\U{1F9F9} Parts deleted"
  const KEPT: string := "\U{1F4E6} Parts kept"

  /** `console.log(line)`. */
  function Log(w: World, line: string): World {
    w.(out := w.out + [line + "\n"])
  }

  /** The names of a directory in some enumeration order. */
  ghost function ListOf(s: set<string>): (l: seq<string>)
    ensures multiset(l) == multiset(s)
  {
    if s == {} then []
    else
      var x :| x in s;
      assert multiset(s) == multiset{x} + multiset(s - {x});
      [x] + ListOf(s - {x})
  }

  /** The parts list `compress` records for a directory: its entries holding
      the marker, sorted. Which enumeration order `readdirSync` uses does not
      matter (`Manifest.PartsOrderIndependent`). */
  ghost function DirParts(files: map<string, Content>): seq<string> {
    PartsOf(ListOf(files.Keys))
  }

  /** The parts are exactly the directory's names that hold the marker, and
      they are sorted. */
  lemma DirPartsMembers(files: map<string, Content>)
    ensures Sorted(DirParts(files))
    ensures forall x :: x in DirParts(files) <==> x in files && IsPart(x)
  {
    var l := ListOf(files.Keys);
    forall x ensures x in DirParts(files) <==> x in files && IsPart(x) {
      PartsMembers(l, x);
      assert x in l <==> multiset(l)[x] > 0;
    }
  }

  /** Any enumeration of a directory gives the same parts list. */
  lemma ListingGivesDirParts(listing: seq<string>, files: map<string, Content>)
    requires multiset(listing) == multiset(files.Keys)
    ensures PartsOf(listing) == DirParts(files)
  {
    PartsOrderIndependent(listing, ListOf(files.Keys));
  }

  /** `fs.mkdirSync(dir, { recursive: true })` for the output directory. */
  function Mkdir(d: Disk, dir: string): (r: Disk)
    ensures dir in r && r.Keys == d.Keys + {dir}
    ensures forall x :: x in d ==> r[x] == d[x]
    ensures dir !in d ==> r[dir] == map[]
  {
    if dir in d then d else d[dir := map[]]
  }

  /** The completion callback of the compress run (index.js:127-148). */
  ghost function WriteManifestSpec(w: World, outputDir: string, baseName: string, splitSize: string,
                                   createdAt: string): (s: Step)
    ensures !s.status.Done? ==> s.world == w
    ensures s.world.disk.Keys == w.disk.Keys && s.world.spawned == w.spawned
    ensures s.status.Done? ==> FileExists(s.world.disk, outputDir, INDEX_NAME)
                               && s.world.disk[outputDir][INDEX_NAME].Index?
  {
    if outputDir !in w.disk then Step(Crash(DirectoryGone), w)
    else
      var parts := DirParts(w.disk[outputDir]);
      if parts == [] then Step(Fatal(NO_PARTS_CREATED), w)
      else
        var index := Index(Manifest(baseName, createdAt, splitSize, Some(parts)));
        var written := w.(disk := w.disk[outputDir := w.disk[outputDir][INDEX_NAME := index]]);
        Step(Done, Log(written, COMPRESSED))
  }

  /** One turn of the cleanup loop: unlink `folder/part` if it exists. */
  function RemoveOne(d: Disk, folder: string, part: string): Disk {
    if FileExists(d, folder, part) then d[folder := d[folder] - {part}] else d
  }

  /** The cleanup loop over `parts`, in order. */
  function RemoveParts(d: Disk, folder: string, parts: seq<string>): (r: Disk)
    ensures r.Keys == d.Keys
    ensures forall dir :: dir in r && dir != folder ==> r[dir] == d[dir]
    decreases |parts|
  {
    if parts == [] then d
    else RemoveOne(RemoveParts(d, folder, parts[..|parts| - 1]), folder, parts[|parts| - 1])
  }

  /** The loop removes exactly the listed names from the folder and leaves
      the other files there as they were, whatever the order of the list and
      its repetitions. */
  lemma {:induction false} RemovePartsEffect(d: Disk, folder: string, parts: seq<string>)
    ensures var r := RemoveParts(d, folder, parts);
            && (folder in d ==> forall x :: x in r[folder] <==> x in d[folder] && x !in parts)
            && (folder in d ==> forall x :: x in r[folder] ==> r[folder][x] == d[folder][x])
    decreases |parts|
  {
    if parts != [] {
      var init := parts[..|parts| - 1];
      RemovePartsEffect(d, folder, init);
      assert forall x :: x in parts <==> x in init || x == parts[|parts| - 1];
    }
  }

  /** The answer callback of the restore run (index.js:183-193). */
  function CleanupSpec(w: World, folder: string, parts: seq<string>, answer: string): (s: Step)
    ensures |s.world.out| > |w.out| && s.world.spawned == w.spawned
    ensures s.world.disk.Keys == w.disk.Keys
    ensures !Confirms(answer) ==> s.world.disk == w.disk
  {
    var asked := w.(out := w.out + [QUESTION]);
    if !Confirms(answer) then Step(Done, Log(asked, KEPT))
    else
      var d := RemoveParts(asked.disk, folder, parts);
      if !FileExists(d, folder, INDEX_NAME) then Step(Crash(ManifestGone), asked.(disk := d))
      else Step(Done, Log(asked.(disk := d[folder := d[folder] - {INDEX_NAME}]), DELETED))
  }

  /** The `onDone` callbacks the commands hand to `run7z`. */
  datatype Callback =
    | WriteManifest(outputDir: string, baseName: string, splitSize: string, createdAt: string)
    | AskCleanup(folder: string, parts: seq<string>, answer: string)

  ghost function CallbackSpec(w: World, cb: Callback): (s: Step)
    ensures |s.world.out| >= |w.out| && s.world.spawned == w.spawned
  {
    match cb
    case WriteManifest(o, b, s, now) => WriteManifestSpec(w, o, b, s, now)
    case AskCleanup(f, ps, ans) => CleanupSpec(Log(w, RESTORED), f, ps, ans)
  }

  /** `run7z(args, onProgress, onDone)` as a whole. */
  ghost function Run7zSpec(w: World, args: seq<string>, onProgress: bool, e: Engine, cb: Callback): (s: Step)
    ensures |s.world.out| >= |w.out|
    ensures !Installed(w.disk) ==> s == Step(Fatal(NOT_FOUND), w)
    ensures s.world.spawned == if Installed(w.disk) then w.spawned + [args] else w.spawned
  {
    var s := EngineStep(w, args, onProgress, e);
    if s.status.Done? then CallbackSpec(s.world, cb) else s
  }

  /** The completion callback runs, once, exactly when the engine was found,
      launched, printed no overflowing percentage and exited with code 0. */
  lemma CallbackOnlyOnSuccess(w: World, args: seq<string>, onProgress: bool, e: Engine, cb: Callback)
    ensures var ok := Installed(w.disk) && e.launches && e.code == 0 && Stream(e.chunks, onProgress).overflow.None?;
            Run7zSpec(w, args, onProgress, e, cb)
            == if ok then CallbackSpec(EngineStep(w, args, onProgress, e).world, cb)
               else EngineStep(w, args, onProgress, e)
  {
    EngineStepOutcome(w, args, onProgress, e);
  }

  /** The checks `compress` makes before it touches anything (index.js:96-104). */
  predicate CompressReady(w: World, input: Option<string>, output: Option<string>, size: Option<string>) {
    var i, o := Normalize(input), Normalize(output);
    && i.Some? && o.Some? && size.Some? && size.value != ""
    && i.value in w.disk && ValidSize(size.value)
  }

  /** `compress(input, outputDir, splitSize)`. */
  ghost function CompressSpec(w: World, input: Option<string>, output: Option<string>, size: Option<string>,
                              e: Engine, now: string): (s: Step)
    ensures s.world == w <==> !CompressReady(w, input, output, size)
  {
    var i, o := Normalize(input), Normalize(output);
    if i.None? || o.None? || size.None? || size.value == "" then Step(Fatal(MISSING_ARGUMENTS), w)
    else if i.value !in w.disk then Step(Fatal(NotFound("Input folder", i.value)), w)
    else if !ValidSize(size.value) then Step(Fatal(INVALID_SIZE), w)
    else
      var made := Log(w.(disk := Mkdir(w.disk, o.value)), COMPRESSING);
      Run7zSpec(made, CompressArgs(i.value, o.value, size.value), true, e,
                WriteManifest(o.value, Basename(i.value), size.value, now))
  }

  /** A failed check ends with its own message, in the order the checks are
      made. */
  lemma CompressChecks(w: World, input: Option<string>, output: Option<string>, size: Option<string>,
                       e: Engine, now: string)
    ensures Normalize(input).None? || Normalize(output).None? || size.None? || size.value == ""
            ==> CompressSpec(w, input, output, size, e, now).status == Fatal(MISSING_ARGUMENTS)
    ensures Normalize(input).Some? && Normalize(output).Some? && size.Some? && size.value != ""
            && Normalize(input).value !in w.disk
            ==> CompressSpec(w, input, output, size, e, now).status
                == Fatal(NotFound("Input folder", Normalize(input).value))
    ensures Normalize(input).Some? && Normalize(output).Some? && size.Some? && size.value != ""
            && Normalize(input).value in w.disk && !ValidSize(size.value)
            ==> CompressSpec(w, input, output, size, e, now).status == Fatal(INVALID_SIZE)
  {
  }

  /** Once the checks pass, the engine is handed the compress vector, exactly
      once, provided it is installed. */
  lemma CompressSpawns(w: World, input: Option<string>, output: Option<string>, size: Option<string>,
                       e: Engine, now: string)
    requires CompressReady(w, input, output, size)
    requires Installed(Mkdir(w.disk, Normalize(output).value))
    ensures var s := CompressSpec(w, input, output, size, e, now);
            s.world.spawned == w.spawned + [CompressArgs(Normalize(input).value, Normalize(output).value, size.value)]
  {
    var i, o := Normalize(input).value, Normalize(output).value;
    var made := Log(w.(disk := Mkdir(w.disk, o)), COMPRESSING);
    EngineStepOutcome(made, CompressArgs(i, o, size.value), true, e);
  }

  /** A compress run that ends normally left a manifest in the output
      directory recording the input's base name, the clock reading, the split
      size as given, and the sorted, non-empty list of exactly the part files
      the engine left there; nothing else changed after the engine ran. */
  lemma CompressSucceeds(w: World, input: Option<string>, output: Option<string>, size: Option<string>,
                         e: Engine, now: string)
    requires CompressSpec(w, input, output, size, e, now).status.Done?
    ensures CompressReady(w, input, output, size)
    ensures e.launches && e.code == 0 && Normalize(output).value in e.effect
    ensures var o := Normalize(output).value;
            var parts := DirParts(e.effect[o]);
            var m := Manifest(Basename(Normalize(input).value), now, size.value, Some(parts));
            CompressSpec(w, input, output, size, e, now).world.disk == e.effect[o := e.effect[o][INDEX_NAME := Index(m)]]
    ensures var parts := DirParts(e.effect[Normalize(output).value]);
            && parts != [] && Sorted(parts)
            && forall x :: x in parts <==> x in e.effect[Normalize(output).value] && IsPart(x)
  {
    CompressChecks(w, input, output, size, e, now);
    var i, o := Normalize(input).value, Normalize(output).value;
    var made := Log(w.(disk := Mkdir(w.disk, o)), COMPRESSING);
    EngineStepOutcome(made, CompressArgs(i, o, size.value), true, e);
    DirPartsMembers(e.effect[o]);
  }

  /** A compress run that does not end normally writes no manifest: the disk
      is as the engine left it, or as it was before the engine ran. */
  lemma CompressFailureWritesNothing(w: World, input: Option<string>, output: Option<string>, size: Option<string>,
                                     e: Engine, now: string)
    requires !CompressSpec(w, input, output, size, e, now).status.Done?
    ensures var s := CompressSpec(w, input, output, size, e, now);
            s.world.disk == w.disk
            || (Normalize(output).Some? && s.world.disk == Mkdir(w.disk, Normalize(output).value))
            || s.world.disk == e.effect
  {
    if CompressReady(w, input, output, size) {
      var i, o := Normalize(input).value, Normalize(output).value;
      var made := Log(w.(disk := Mkdir(w.disk, o)), COMPRESSING);
      var args := CompressArgs(i, o, size.value);
      EngineStepOutcome(made, args, true, e);
      var s := EngineStep(made, args, true, e);
      if s.status.Done? {
        assert s.world.disk == e.effect;
        var r := WriteManifestSpec(s.world, o, Basename(i), size.value, now);
        assert !r.status.Done? ==> r.world == s.world;
      }
    }
  }

  /** `index.parts && index.parts.length`. */
  predicate ListsParts(m: Manifest) {
    m.parts.Some? && m.parts.value != []
  }

  /** The checks `restore` makes before it runs the engine (index.js:165-176). */
  predicate RestoreReady(w: World, folder: Option<string>) {
    var f := Normalize(folder);
    && f.Some? && FileExists(w.disk, f.value, INDEX_NAME)
    && w.disk[f.value][INDEX_NAME].Index?
    && ListsParts(w.disk[f.value][INDEX_NAME].manifest)
    && FileExists(w.disk, f.value, Sort(w.disk[f.value][INDEX_NAME].manifest.parts.value)[0])
  }

  /** `restore(folder)`. */
  ghost function RestoreSpec(w: World, folder: Option<string>, e: Engine, answer: string): (s: Step)
    ensures s.world == w <==> !RestoreReady(w, folder)
  {
    var f := Normalize(folder);
    if f.None? then Step(Fatal(MISSING_FOLDER), w)
    else if !FileExists(w.disk, f.value, INDEX_NAME) then
      Step(Fatal(NotFound(INDEX_NAME, Join(f.value, INDEX_NAME))), w)
    else
      match w.disk[f.value][INDEX_NAME]
      case Data => Step(Crash(ManifestUnparsable), w)
      case Index(m) =>
        if !ListsParts(m) then Step(Fatal(NO_PARTS), w)
        else
          var parts := Sort(m.parts.value);
          if !FileExists(w.disk, f.value, parts[0]) then
            Step(Fatal(NotFound("First archive part", Join(f.value, parts[0]))), w)
          else
            Run7zSpec(Log(w, RESTORING), ExtractArgs(Join(f.value, parts[0])), true, e,
                      AskCleanup(f.value, parts, answer))
  }

  /** Each failed check ends with its own message. */
  lemma RestoreChecks(w: World, folder: Option<string>, e: Engine, answer: string)
    ensures Normalize(folder).None? ==> RestoreSpec(w, folder, e, answer).status == Fatal(MISSING_FOLDER)
    ensures Normalize(folder).Some? && !FileExists(w.disk, Normalize(folder).value, INDEX_NAME)
            ==> RestoreSpec(w, folder, e, answer).status
                == Fatal(NotFound(INDEX_NAME, Join(Normalize(folder).value, INDEX_NAME)))
    ensures Normalize(folder).Some? && FileExists(w.disk, Normalize(folder).value, INDEX_NAME)
            && w.disk[Normalize(folder).value][INDEX_NAME].Data?
            ==> RestoreSpec(w, folder, e, answer).status == Crash(ManifestUnparsable)
    ensures Normalize(folder).Some? && FileExists(w.disk, Normalize(folder).value, INDEX_NAME)
            && w.disk[Normalize(folder).value][INDEX_NAME].Index?
            && !ListsParts(w.disk[Normalize(folder).value][INDEX_NAME].manifest)
            ==> RestoreSpec(w, folder, e, answer).status == Fatal(NO_PARTS)
  {
  }

  /** Once the checks pass, the engine extracts the least part in sort order,
      and the cleanup is handed the whole sorted list. */
  lemma RestoreExtractsFirstPart(w: World, folder: Option<string>, e: Engine, answer: string)
    requires RestoreReady(w, folder)
    ensures var f := Normalize(folder).value;
            var parts := Sort(w.disk[f][INDEX_NAME].manifest.parts.value);
            && multiset(parts) == multiset(w.disk[f][INDEX_NAME].manifest.parts.value)
            && (forall x :: x in parts ==> LexLe(parts[0], x))
            && RestoreSpec(w, folder, e, answer)
               == Run7zSpec(Log(w, RESTORING), ExtractArgs(Join(f, parts[0])), true, e, AskCleanup(f, parts, answer))
  {
    var f := Normalize(folder).value;
    var parts := Sort(w.disk[f][INDEX_NAME].manifest.parts.value);
    forall x | x in parts ensures LexLe(parts[0], x) {
      HeadIsLeast(parts, x);
    }
  }

  /** The cleanup: any answer but `y`/`yes` leaves every file in place;
      agreeing removes exactly the listed parts and the manifest from the
      folder and nothing anywhere else, and fails only when the manifest is
      no longer there to remove. */
  lemma CleanupEffect(w: World, folder: string, parts: seq<string>, answer: string)
    ensures !Confirms(answer) ==> CleanupSpec(w, folder, parts, answer).status.Done?
                                  && CleanupSpec(w, folder, parts, answer).world.disk == w.disk
    ensures Confirms(answer) && FileExists(w.disk, folder, INDEX_NAME) && INDEX_NAME !in parts
            ==> var d := CleanupSpec(w, folder, parts, answer).world.disk;
                && CleanupSpec(w, folder, parts, answer).status.Done?
                && d.Keys == w.disk.Keys
                && (forall x :: x in d[folder] <==> x in w.disk[folder] && x !in parts && x != INDEX_NAME)
                && (forall x :: x in d[folder] ==> d[folder][x] == w.disk[folder][x])
                && (forall dir :: dir in d && dir != folder ==> d[dir] == w.disk[dir])
    ensures Confirms(answer) && (!FileExists(w.disk, folder, INDEX_NAME) || INDEX_NAME in parts)
            ==> CleanupSpec(w, folder, parts, answer).status == Crash(ManifestGone)
  {
    RemovePartsEffect(w.disk, folder, parts);
  }

  /** A manifest written by a compress run restores: when the output
      directory is what compress left, restoring it passes every check and
      extracts the first volume of the recorded list, which is used as it
      stands because it is already sorted. */
  lemma CompressThenRestore(w: World, input: Option<string>, output: Option<string>, size: Option<string>,
                            e: Engine, now: string, e2: Engine, answer: string)
    requires CompressSpec(w, input, output, size, e, now).status.Done?
    requires Normalize(output).Some? && Normalize(output).value != ""
    ensures Normalize(output).value in e.effect && DirParts(e.effect[Normalize(output).value]) != []
    ensures var w2 := CompressSpec(w, input, output, size, e, now).world;
            var o := Normalize(output).value;
            var parts := DirParts(e.effect[o]);
            && RestoreReady(w2, Some(o))
            && RestoreSpec(w2, Some(o), e2, answer)
               == Run7zSpec(Log(w2, RESTORING), ExtractArgs(Join(o, parts[0])), true, e2, AskCleanup(o, parts, answer))
  {
    CompressSucceeds(w, input, output, size, e, now);
    var w2 := CompressSpec(w, input, output, size, e, now).world;
    var o := Normalize(output).value;
    var parts := DirParts(e.effect[o]);
    var m := Manifest(Basename(Normalize(input).value), now, size.value, Some(parts));
    assert w2.disk == e.effect[o := e.effect[o][INDEX_NAME := Index(m)]];
    DirPartsMembers(e.effect[o]);
    StripQuotesIdempotent(output.value);
    assert Normalize(Some(o)) == Some(o);
    SortIdempotent(parts);
    IndexIsNotPart();
    assert parts[0] in e.effect[o] && parts[0] != INDEX_NAME;
    assert FileExists(w2.disk, o, parts[0]);
    assert RestoreReady(w2, Some(o));
    RestoreExtractsFirstPart(w2, Some(o), e2, answer);
  }

  /** `process.argv.slice(2)` handled from start to end. */
  ghost function ExecuteSpec(w: World, args: seq<string>, e: Engine, now: string, answer: string): (s: Step)
    ensures s.world != w ==> Dispatch(args).CompressCmd? || Dispatch(args).RestoreCmd?
    ensures s.status.Done? ==> !Dispatch(args).UnknownCmd?
  {
    match Dispatch(args)
    case Help => Step(Done, w)
    case Version => Step(Done, w)
    case CompressCmd(i, o, s) => CompressSpec(w, i, o, s, e, now)
    case RestoreCmd(f) => RestoreSpec(w, f, e, answer)
    case UnknownCmd => Step(Fatal(UNKNOWN_COMMAND), w)
  }

  /** Help and version touch nothing and exit with 0; an unknown command
      touches nothing and exits with 1. */
  lemma ExecuteOutcome(w: World, args: seq<string>, e: Engine, now: string, answer: string)
    ensures WantsHelp(args) || WantsVersion(args)
            ==> ExecuteSpec(w, args, e, now, answer) == Step(Done, w)
    ensures Dispatch(args) == UnknownCmd
            ==> ExecuteSpec(w, args, e, now, answer) == Step(Fatal(UNKNOWN_COMMAND), w)
                && ExitCode(ExecuteSpec(w, args, e, now, answer).status) == 1
  {
  }
}
