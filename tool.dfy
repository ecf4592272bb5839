/** The tool as a process with state: the file system it reads and changes,
    what it has written to standard output, and the argument vectors it has
    handed to the engine. Each method performs its step of index.js in the
    order the source does, and is proved to end in the state and with the
    status its specification in `Flows` gives. */
module Tool {
  import opened Common
  import opened SplitSize
  import opened Sorting
  import opened Paths
  import opened Manifest
  import opened Progress
  import opened Prompt
  import opened Cli
  import opened Engine
  import opened Flows

  class Uzip {
    var disk: Disk
    var out: seq<string>
    var spawned: seq<seq<string>>

    constructor (d: Disk)
      ensures State() == World(d, [], [])
    {
      disk, out, spawned := d, [], [];
    }

    function State(): World
      reads this
    {
      World(disk, out, spawned)
    }

    /** `process.stdout.write(s)`. */
    method Write(s: string)
      modifies this
      ensures State() == old(State()).(out := old(out) + [s])
    {
      out := out + [s];
    }

    /** `console.log(line)`. */
    method Print(line: string)
      modifies this
      ensures State() == Log(old(State()), line)
    {
      out := out + [line + "\n"];
    }

    /** `fs.readdirSync(dir)`: every name in the directory, once, in an order
        the file system picks. */
    method ReadDir(dir: string) returns (names: seq<string>)
      requires dir in disk
      ensures multiset(names) == multiset(disk[dir].Keys)
    {
      var rest := disk[dir].Keys;
      names := [];
      while rest != {}
        invariant rest <= disk[dir].Keys
        invariant multiset(names) + multiset(rest) == multiset(disk[dir].Keys)
        decreases |rest|
      {
        var x :| x in rest;
        assert multiset(rest) == multiset{x} + multiset(rest - {x});
        names := names + [x];
        rest := rest - {x};
      }
    }

    /** The chunks of the engine's standard output, each handed to the data
        handler in turn; an overflowing bar ends the process there, and the
        overflowing percentage is returned. */
    method Drain(chunks: seq<string>, onProgress: bool) returns (overflow: Option<nat>)
      modifies this
      ensures overflow == Stream(chunks, onProgress).overflow
      ensures State() == old(State()).(out := old(out) + Stream(chunks, onProgress).frames)
    {
      var i := 0;
      while i < |chunks|
        invariant 0 <= i <= |chunks|
        invariant Stream(chunks[..i], onProgress).overflow.None?
        invariant State() == old(State()).(out := old(out) + Stream(chunks[..i], onProgress).frames)
      {
        assert chunks[..i + 1][..i] == chunks[..i];
        var effect := OnData(chunks[i], onProgress);
        match effect {
          case Silent =>
          case Draw(frame) =>
            out := out + [frame];
          case Overflow(p) =>
            StreamStops(chunks, i + 1, onProgress);
            return Some(p);
        }
        i := i + 1;
      }
      assert chunks[..i] == chunks;
      return None;
    }

    /** `run7z(args, onProgress, onDone)`. */
    method Run7z(args: seq<string>, onProgress: bool, e: Engine, onDone: Callback) returns (st: Status)
      modifies this
      ensures Step(st, State()) == Run7zSpec(old(State()), args, onProgress, e, onDone)
    {
      if !(ENGINE_DIR in disk && ENGINE_NAME in disk[ENGINE_DIR]) {
        return Fatal(NOT_FOUND);
      }
      spawned := spawned + [args];
      if !e.launches {
        return Fatal(LAUNCH_FAILED);
      }
      disk := e.effect;
      var overflow := Drain(e.chunks, onProgress);
      if overflow.Some? {
        return Crash(BarOverflow(overflow.value));
      }
      out := out + ["\n"];
      if e.code != 0 {
        return Fatal(ENGINE_FAILED);
      }
      st := OnDone(onDone);
    }

    method OnDone(cb: Callback) returns (st: Status)
      modifies this
      ensures Step(st, State()) == CallbackSpec(old(State()), cb)
    {
      match cb {
        case WriteManifest(outputDir, baseName, splitSize, createdAt) =>
          st := WriteIndex(outputDir, baseName, splitSize, createdAt);
        case AskCleanup(folder, parts, answer) =>
          Print(RESTORED);
          st := Cleanup(folder, parts, answer);
      }
    }

    /** The compress run's completion callback: list the output directory,
        keep the part files, sort them and write the manifest. */
    method WriteIndex(outputDir: string, baseName: string, splitSize: string, createdAt: string)
      returns (st: Status)
      modifies this
      ensures Step(st, State()) == WriteManifestSpec(old(State()), outputDir, baseName, splitSize, createdAt)
    {
      if outputDir !in disk {
        return Crash(DirectoryGone);
      }
      var names := ReadDir(outputDir);
      var parts := Sort(FilterParts(names));
      ListingGivesDirParts(names, disk[outputDir]);
      if |parts| == 0 {
        return Fatal(NO_PARTS_CREATED);
      }
      var index := Manifest(baseName, createdAt, splitSize, Some(parts));
      disk := disk[outputDir := disk[outputDir][INDEX_NAME := Index(index)]];
      Print(COMPRESSED);
      return Done;
    }

    /** The cleanup loop: each listed part still present in the folder is
        unlinked. */
    method DeleteParts(folder: string, parts: seq<string>)
      modifies this
      ensures State() == old(State()).(disk := RemoveParts(old(disk), folder, parts))
    {
      for i := 0 to |parts|
        invariant State() == old(State()).(disk := RemoveParts(old(disk), folder, parts[..i]))
      {
        assert parts[..i + 1][..i] == parts[..i];
        if folder in disk && parts[i] in disk[folder] {
          disk := disk[folder := disk[folder] - {parts[i]}];
        }
      }
      assert parts[..|parts|] == parts;
    }

    /** The restore run's completion callback after its message: ask, and on
        `y` or `yes` delete the parts and then the manifest. */
    method Cleanup(folder: string, parts: seq<string>, answer: string) returns (st: Status)
      modifies this
      ensures Step(st, State()) == CleanupSpec(old(State()), folder, parts, answer)
    {
      Write(QUESTION);
      var ans := NormalizeAnswer(answer);
      if !(ans == "y" || ans == "yes") {
        Print(KEPT);
        return Done;
      }
      DeleteParts(folder, parts);
      if !(folder in disk && INDEX_NAME in disk[folder]) {
        return Crash(ManifestGone);
      }
      disk := disk[folder := disk[folder] - {INDEX_NAME}];
      Print(DELETED);
      return Done;
    }

    /** `compress(input, outputDir, splitSize)`. */
    method Compress(input: Option<string>, output: Option<string>, splitSize: Option<string>,
                    e: Engine, now: string) returns (st: Status)
      modifies this
      ensures Step(st, State()) == CompressSpec(old(State()), input, output, splitSize, e, now)
    {
      var i := Normalize(input);
      var o := Normalize(output);
      if i.None? || o.None? || splitSize.None? || splitSize.value == "" {
        return Fatal(MISSING_ARGUMENTS);
      }
      if i.value !in disk {
        return Fatal(NotFound("Input folder", i.value));
      }
      if !ValidSize(splitSize.value) {
        return Fatal(INVALID_SIZE);
      }
      if o.value !in disk {
        disk := disk[o.value := map[]];
      }
      var baseName := Basename(i.value);
      Print(COMPRESSING);
      var args := CompressArgs(i.value, o.value, splitSize.value);
      st := Run7z(args, true, e, WriteManifest(o.value, baseName, splitSize.value, now));
    }

    /** `restore(folder)`. */
    method Restore(folder: Option<string>, e: Engine, answer: string) returns (st: Status)
      modifies this
      ensures Step(st, State()) == RestoreSpec(old(State()), folder, e, answer)
    {
      var f := Normalize(folder);
      if f.None? {
        return Fatal(MISSING_FOLDER);
      }
      var indexPath := Join(f.value, INDEX_NAME);
      if !(f.value in disk && INDEX_NAME in disk[f.value]) {
        return Fatal(NotFound(INDEX_NAME, indexPath));
      }
      var content := disk[f.value][INDEX_NAME];
      if content.Data? {
        return Crash(ManifestUnparsable);
      }
      var index := content.manifest;
      if index.parts.None? || |index.parts.value| == 0 {
        return Fatal(NO_PARTS);
      }
      var parts := Sort(index.parts.value);
      var firstPart := Join(f.value, parts[0]);
      if parts[0] !in disk[f.value] {
        return Fatal(NotFound("First archive part", firstPart));
      }
      Print(RESTORING);
      st := Run7z(ExtractArgs(firstPart), true, e, AskCleanup(f.value, parts, answer));
    }

    /** The top level: dispatch the command line and run the command. */
    method Execute(args: seq<string>, e: Engine, now: string, answer: string) returns (st: Status)
      modifies this
      ensures Step(st, State()) == ExecuteSpec(old(State()), args, e, now, answer)
    {
      var cmd := Dispatch(args);
      match cmd {
        case Help =>
          st := Done;
        case Version =>
          st := Done;
        case CompressCmd(input, output, splitSize) =>
          st := Compress(input, output, splitSize, e, now);
        case RestoreCmd(folder) =>
          st := Restore(folder, e, answer);
        case UnknownCmd =>
          st := Fatal(UNKNOWN_COMMAND);
      }
    }
  }
}
