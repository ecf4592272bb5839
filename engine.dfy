/** The 7-Zip runner `run7z` (index.js:67-91) as a step on the tool's
    observable state: the file system, what was written to standard output,
    and the argument vectors handed to the engine. The engine is opaque: one
    run is described by whether it launches, the chunks it prints, its exit
    code and the file system it leaves behind. */
module Engine {
  import opened Common
  import opened Progress
  import opened Manifest
  import opened Paths

  const ENGINE_DIR: string := "./7-Zip"
  const ENGINE_NAME: string := "7z.exe"

  const NOT_FOUND: string := "7-Zip not found: ./7-Zip/7z.exe"
  const LAUNCH_FAILED: string := "Failed to launch 7-Zip"
  const ENGINE_FAILED: string := "7-Zip failed."

  /** Exceptions nothing catches, which end the process like `die` does. */
  datatype CrashKind =
    | BarOverflow(percent: nat)   // `"░".repeat` with a negative count
    | ManifestUnparsable          // a manifest that does not parse, or whose shape makes `restore` throw
    | DirectoryGone               // `readdirSync` of a directory that is gone
    | ManifestGone                // `unlinkSync` of an `index.json` that is gone

  /** How a command ends: normally, through `die(message)`, or by an
      uncaught exception. */
  datatype Status = Done | Fatal(message: string) | Crash(kind: CrashKind)

  /** The process exit status: `die` and uncaught exceptions exit with 1. */
  function ExitCode(st: Status): (code: nat)
    ensures code == 0 <==> st.Done?
    ensures code <= 1
  {
    if st.Done? then 0 else 1
  }

  /** One run of the engine. */
  datatype Engine = Engine(launches: bool, chunks: seq<string>, code: int, effect: Disk)

  /** What the tool has done so far: the file system, the text written to
      standard output, and every argument vector passed to the engine. */
  datatype World = World(disk: Disk, out: seq<string>, spawned: seq<seq<string>>)

  /** A command's ending and the state it leaves. */
  datatype Step = Step(status: Status, world: World)

  predicate FileExists(d: Disk, dir: string, name: string) {
    dir in d && name in d[dir]
  }

  /** `fs.existsSync(SEVEN_ZIP)`. */
  predicate Installed(d: Disk) {
    FileExists(d, ENGINE_DIR, ENGINE_NAME)
  }

  lemma EnginePath()
    ensures Join(ENGINE_DIR, ENGINE_NAME) == "./7-Zip/7z.exe"
  {
  }

  /** The frames drawn for a sequence of output chunks, and the percentage of
      the chunk whose bar overflowed, if one did (nothing after it is
      handled: the process is gone). */
  datatype Trace = Trace(frames: seq<string>, overflow: Option<nat>)

  function Stream(chunks: seq<string>, onProgress: bool): (tr: Trace)
    ensures |tr.frames| <= |chunks|
    ensures tr.overflow.None? <==> forall k :: 0 <= k < |chunks| ==> !OnData(chunks[k], onProgress).Overflow?
    ensures tr.overflow.Some? ==> tr.overflow.value >= 103
    ensures forall k :: 0 <= k < |tr.frames| ==>
              PercentOf(tr.frames[k]).Some? && PercentOf(tr.frames[k]).value <= 102
              && tr.frames[k] == Frame(PercentOf(tr.frames[k]).value)
    ensures !onProgress ==> tr == Trace([], None)
    decreases |chunks|
  {
    if chunks == [] then Trace([], None)
    else
      var init := chunks[..|chunks| - 1];
      var t := Stream(init, onProgress);
      assert forall k :: 0 <= k < |init| ==> init[k] == chunks[k];
      if t.overflow.Some? then t
      else
        match OnData(chunks[|chunks| - 1], onProgress)
        case Silent => t
        case Draw(f) =>
          FrameRoundTrip(PercentOf(chunks[|chunks| - 1]).value);
          Trace(t.frames + [f], None)
        case Overflow(p) => Trace(t.frames, Some(p))
  }

  /** Once a chunk has overflowed, the chunks after it change nothing. */
  lemma {:induction false} StreamStops(chunks: seq<string>, k: nat, onProgress: bool)
    requires k <= |chunks| && Stream(chunks[..k], onProgress).overflow.Some?
    ensures Stream(chunks, onProgress) == Stream(chunks[..k], onProgress)
    decreases |chunks| - k
  {
    if k < |chunks| {
      var init := chunks[..|chunks| - 1];
      assert init[..k] == chunks[..k];
      StreamStops(init, k, onProgress);
    } else {
      assert chunks[..k] == chunks;
    }
  }

  /** One chunk: it draws its frame, overflows, or is passed over. */
  lemma StreamSingle(c: string, onProgress: bool)
    ensures Stream([c], onProgress) == match OnData(c, onProgress)
              case Draw(f) => Trace([f], None)
              case Overflow(q) => Trace([], Some(q))
              case Silent => Trace([], None)
  {
    assert [c][..0] == [];
  }

  /** The chunks are handled one after another: the trace of `a + b` is the
      trace of `a`, and if nothing in `a` overflowed, followed by the trace
      of `b`. */
  lemma {:induction false} StreamAppend(a: seq<string>, b: seq<string>, onProgress: bool)
    ensures Stream(a + b, onProgress)
            == if Stream(a, onProgress).overflow.Some? then Stream(a, onProgress)
               else Trace(Stream(a, onProgress).frames + Stream(b, onProgress).frames,
                          Stream(b, onProgress).overflow)
    decreases |b|
  {
    if b == [] {
      assert a + b == a;
    } else {
      var init := b[..|b| - 1];
      assert (a + b)[..|a + b| - 1] == a + init;
      assert (a + b)[|a + b| - 1] == b[|b| - 1];
      StreamAppend(a, init, onProgress);
      var ta, ti := Stream(a, onProgress), Stream(init, onProgress);
      if ta.overflow.None? && ti.overflow.None? {
        match OnData(b[|b| - 1], onProgress)
        case Silent =>
        case Draw(f) =>
          assert ta.frames + (ti.frames + [f]) == (ta.frames + ti.frames) + [f];
        case Overflow(p) =>
      }
    }
  }

  /** `run7z` up to its close handler: the engine check, the spawn, the
      output chunks, and the mapping of the exit code. `Done` means the close
      handler reached `onDone`. */
  function EngineStep(w: World, args: seq<string>, onProgress: bool, e: Engine): (s: Step)
    ensures |s.world.out| >= |w.out|
    ensures !Installed(w.disk) ==> s == Step(Fatal(NOT_FOUND), w)
    ensures s.status.Done? ==> Installed(w.disk) && e.launches && e.code == 0
    ensures s.world.spawned == if Installed(w.disk) then w.spawned + [args] else w.spawned
  {
    if !Installed(w.disk) then Step(Fatal(NOT_FOUND), w)
    else
      var launched := w.(spawned := w.spawned + [args]);
      if !e.launches then Step(Fatal(LAUNCH_FAILED), launched)
      else
        var tr := Stream(e.chunks, onProgress);
        var ran := launched.(disk := e.effect, out := launched.out + tr.frames);
        if tr.overflow.Some? then Step(Crash(BarOverflow(tr.overflow.value)), ran)
        else
          var closed := ran.(out := ran.out + ["\n"]);
          if e.code != 0 then Step(Fatal(ENGINE_FAILED), closed) else Step(Done, closed)
  }

  /** The close handler: a newline is written whatever the code; a non-zero
      code is fatal and only code 0 gets as far as the completion callback. */
  lemma EngineStepOutcome(w: World, args: seq<string>, onProgress: bool, e: Engine)
    ensures EngineStep(w, args, onProgress, e).status.Done?
            <==> (Installed(w.disk) && e.launches && e.code == 0
                  && forall k :: 0 <= k < |e.chunks| ==> !OnData(e.chunks[k], onProgress).Overflow?)
    ensures EngineStep(w, args, onProgress, e).status == Fatal(ENGINE_FAILED)
            <==> (Installed(w.disk) && e.launches && e.code != 0 && Stream(e.chunks, onProgress).overflow.None?)
    ensures var s := EngineStep(w, args, onProgress, e);
            (s.status.Done? || s.status == Fatal(ENGINE_FAILED))
            ==> (s.world.out == w.out + Stream(e.chunks, onProgress).frames + ["\n"] && s.world.disk == e.effect)
  {
    assert ENGINE_FAILED != NOT_FOUND && ENGINE_FAILED != LAUNCH_FAILED;
  }
}
