/** The manifest `index.json` and the engine argument lists: which directory
    entries count as archive parts (index.js:128-131), the manifest record
    (index.js:135-140), and the argument vectors of the compress and extract
    runs (index.js:113-125, index.js:180). */
module Manifest {
  import opened Common
  import opened Text
  import opened Sorting
  import opened Paths


  /** Volume files the engine writes have this marker in their names. */
  const MARKER: string := ".7z."
  const INDEX_NAME: string := "index.json"

  predicate IsPart(name: string) {
    Contains(name, MARKER)
  }

  /** The manifest as `JSON.parse` returns it; a manifest written by hand may
      lack `parts`. */
  datatype Manifest = Manifest(originalName: string, createdAt: string, splitSize: string,
                               parts: Option<seq<string>>)

  /** What a file holds, as far as the tool reads it: an `index.json` that
      parses to a manifest whose parts, if any, are strings, or anything
      else, including JSON that `restore` cannot use without throwing. */
  datatype Content = Data | Index(manifest: Manifest)

  /** The file system: each directory path to the names in it and what they
      hold. */
  type Disk = map<string, map<string, Content>>

  /** `.filter((f) => f.includes(".7z."))`. */
  function FilterParts(listing: seq<string>): (r: seq<string>)
    ensures forall x :: multiset(r)[x] == if IsPart(x) then multiset(listing)[x] else 0
    ensures forall k :: 0 <= k < |r| ==> IsPart(r[k])
  {
    if listing == [] then []
    else
      var rest := FilterParts(listing[1..]);
      assert listing == [listing[0]] + listing[1..];
      if IsPart(listing[0]) then [listing[0]] + rest else rest
  }

  /** The manifest's parts list for a directory listing: the entries holding
      the marker, sorted. */
  function PartsOf(listing: seq<string>): (parts: seq<string>)
    ensures Sorted(parts)
    ensures forall x :: multiset(parts)[x] == if IsPart(x) then multiset(listing)[x] else 0
  {
    Sort(FilterParts(listing))
  }

  /** Exactly the listed names that hold the marker are parts. */
  lemma PartsMembers(listing: seq<string>, x: string)
    ensures x in PartsOf(listing) <==> x in listing && IsPart(x)
  {
    assert x in PartsOf(listing) <==> multiset(PartsOf(listing))[x] > 0;
    assert x in listing <==> multiset(listing)[x] > 0;
  }

  /** The parts list does not depend on the order the directory is
      enumerated in. */
  lemma PartsOrderIndependent(a: seq<string>, b: seq<string>)
    requires multiset(a) == multiset(b)
    ensures PartsOf(a) == PartsOf(b)
  {
    var fa, fb := FilterParts(a), FilterParts(b);
    assert forall x :: multiset(fa)[x] == multiset(fb)[x];
    assert multiset(fa) == multiset(fb);
    SortOrderIndependent(fa, fb);
  }

  /** The manifest itself is never taken for a part. */
  lemma IndexIsNotPart()
    ensures !IsPart(INDEX_NAME)
  {
    var s := INDEX_NAME;
    forall i | OccursAt(s, MARKER, i) ensures s[i + 1] == '7' {
      assert s[i..i + 4][1] == MARKER[1];
    }
    assert forall k :: 0 <= k < |s| ==> s[k] != '7';
  }

  /** The fixed flags of a compress run: add to a 7z archive, LZMA2 at the
      highest level with a 512 MiB dictionary, solid, progress on standard
      output, log level 3. */
  const COMPRESS_FLAGS: seq<string> := ["a", "-t7z", "-mx=9", "-m0=lzma2", "-md=512m", "-ms=on", "-bsp1", "-bb3"]

  /** The argument vector of the compress run. */
  function CompressArgs(input: string, outputDir: string, splitSize: string): (args: seq<string>)
    ensures |args| == 11 && args[..8] == COMPRESS_FLAGS && args[10] == input
  {
    COMPRESS_FLAGS + ["-v" + splitSize, Join(outputDir, Basename(input)) + ".7z", input]
  }

  /** Between the fixed flags and the input, the compress vector holds the
      volume flag carrying the split size verbatim and an archive in the
      output directory named after the input. */
  lemma CompressArgsLayout(input: string, outputDir: string, splitSize: string)
    ensures var args := CompressArgs(input, outputDir, splitSize);
      && args[8][..2] == "-v" && args[8][2..] == splitSize
      && args[9] == Join(outputDir, Basename(input) + ".7z")
  {
    var flag, archive := "-v" + splitSize, Join(outputDir, Basename(input)) + ".7z";
    var args := COMPRESS_FLAGS + [flag, archive, input];
    assert args[8] == flag && args[9] == archive && args[10] == input;
    assert args[..8] == COMPRESS_FLAGS;
    assert flag[..2] == "-v" && flag[2..] == splitSize;
    assert archive == Join(outputDir, Basename(input) + ".7z");
  }

  /** The archive the compress run names has the input's base name with
      `.7z` appended, and lies in the output directory. */
  lemma ArchiveName(input: string, outputDir: string, splitSize: string)
    ensures Basename(CompressArgs(input, outputDir, splitSize)[9]) == Basename(input) + ".7z"
  {
    CompressArgsLayout(input, outputDir, splitSize);
    var b := Basename(input);
    var name := b + ".7z";
    forall k | 0 <= k < |name| ensures name[k] != '/' {
      if k < |b| { assert name[k] == b[k]; } else { assert name[k] == ".7z"[k - |b|]; }
    }
    BasenameOfJoin(outputDir, name);
  }

  /** The volumes the engine names after that archive (`name.7z.001`, ...)
      are the entries the manifest picks up as parts. */
  lemma VolumesArePart(input: string, suffix: string)
    ensures IsPart(Basename(input) + MARKER + suffix)
  {
    var b := Basename(input);
    var v := b + MARKER + suffix;
    assert v[|b|..|b| + |MARKER|] == MARKER;
    assert OccursAt(v, MARKER, |b|);
  }

  /** The argument vector of the extract run: extract the first part, with the
      same progress and log flags. */
  function ExtractArgs(firstPart: string): (args: seq<string>)
    ensures |args| == 4 && args[1] == firstPart
  {
    ["x", firstPart, "-bsp1", "-bb3"]
  }
}
