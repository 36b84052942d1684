/**
  The two payload checks of `src/serein/distribution/inspect.py`, and what writing files to places
  that do not overlap leaves in the tree they read.
 */
module Inspect {
  import opened Text
  import opened Utf8
  import opened ExtractedTree
  import opened Payload
  import Json

  datatype Reason =
    | MissingFile | NotJson | MissingFields | WrongCommit | WrongRelease | WrongPointRelease | WrongArchitecture
    | NoEntries | Malformed | NotOnDisk(path: Path) | HashMismatch(path: Path) | NoWheel

  /** `Crash` is an exception the check does not turn into a finding. */
  datatype Finding = Pass | Fail(reason: Reason) | Crash

  const REQUIRED: set<string> := {"distribution", "source_commit", "base_release", "architecture", "build_schema"}

  predicate Differs(data: Json.Value, field: string, expected: Option<string>) {
    expected.Some? && data.Get(field) != Json.Str(expected.value)
  }

  /** A file that does not parse: bad JSON is reported, bytes that are not UTF-8 raise. */
  function Unparsed(bytes: seq<Byte>): Finding {
    if DecodeStrict(bytes).Some? then Fail(NotJson) else Crash
  }

  function CheckMediaMarker(fs: Fs, json: Json.Codec, path: Path, commit: Option<string>, release: Option<string>,
                            pointRelease: Option<string>, architecture: Option<string>): Finding
  {
    if !fs.IsFile(path) then Fail(MissingFile)
    else match json.loads(fs.Read(path))
      case None => Unparsed(fs.Read(path))
      case Some(data) =>
        if !data.Obj? then Crash
        else if !(REQUIRED <= data.fields.Keys) then Fail(MissingFields)
        else if Differs(data, "source_commit", commit) then Fail(WrongCommit)
        else if Differs(data, "base_release", release) then Fail(WrongRelease)
        else if Differs(data, "base_point_release", pointRelease) then Fail(WrongPointRelease)
        else if Differs(data, "architecture", architecture) then Fail(WrongArchitecture)
        else Pass
  }

  /** `tree_root / "serein" / "payload" / value`: an absolute value replaces what precedes it. */
  function EntryFile(value: string): Path {
    if StartsWith(value, "/") then value else PAYLOAD_ROOT + value
  }

  predicate IsWheel(value: string) {
    StartsWith(value, "packages/") && |value| >= 4 && value[|value| - 4..] == ".whl"
  }

  /** One manifest entry: well formed, on disk, and with the digest it declares. */
  function CheckEntry(fs: Fs, sha256: seq<Byte> -> string, entry: Json.Value): Finding {
    if !entry.Has("path") || !entry.Has("sha256") then Fail(Malformed)
    else if !entry.Get("path").Str? then Crash
    else
      var value := entry.Get("path").s;
      if !fs.IsFile(EntryFile(value)) then Fail(NotOnDisk(value))
      else if Json.Str(sha256(fs.Read(EntryFile(value)))) != entry.Get("sha256") then Fail(HashMismatch(value))
      else Pass
  }

  /** The first entry that does not pass decides. */
  function CheckEntries(fs: Fs, sha256: seq<Byte> -> string, entries: seq<Json.Value>): Finding {
    if entries == [] then Pass
    else if CheckEntry(fs, sha256, entries[0]) != Pass then CheckEntry(fs, sha256, entries[0])
    else CheckEntries(fs, sha256, entries[1..])
  }

  predicate IsWheelEntry(entry: Json.Value) {
    entry.Get("path").Str? && IsWheel(entry.Get("path").s)
  }

  predicate AnyWheel(entries: seq<Json.Value>) {
    exists i :: 0 <= i < |entries| && IsWheelEntry(entries[i])
  }

  function CheckPayloadManifest(fs: Fs, json: Json.Codec, sha256: seq<Byte> -> string, path: Path,
                                commit: Option<string>, requireWheel: bool): Finding
  {
    if !fs.IsFile(path) then Fail(MissingFile)
    else match json.loads(fs.Read(path))
      case None => Unparsed(fs.Read(path))
      case Some(data) =>
        if !data.Obj? then Crash
        else if Differs(data, "source_commit", commit) then Fail(WrongCommit)
        else if !data.Get("entries").Arr? || data.Get("entries").items == [] then Fail(NoEntries)
        else
          var entries := data.Get("entries").items;
          var all := CheckEntries(fs, sha256, entries);
          if all != Pass then all
          else if requireWheel && !AnyWheel(entries) then Fail(NoWheel)
          else Pass
  }

  lemma NextEntry(fs: Fs, sha256: seq<Byte> -> string, entries: seq<Json.Value>, i: nat)
    requires i < |entries|
    ensures CheckEntries(fs, sha256, entries[i..]) ==
      if CheckEntry(fs, sha256, entries[i]) != Pass then CheckEntry(fs, sha256, entries[i])
      else CheckEntries(fs, sha256, entries[i + 1..])
    ensures AnyWheel(entries[..i + 1]) <==> AnyWheel(entries[..i]) || IsWheelEntry(entries[i])
    ensures entries[0..] == entries
  {
    hide CheckEntry, IsWheelEntry;
    assert entries[i..][1..] == entries[i + 1..];
    assert entries[..i + 1] == entries[..i] + [entries[i]];
    if AnyWheel(entries[..i]) {
      var k :| 0 <= k < i && IsWheelEntry(entries[..i][k]);
      assert IsWheelEntry(entries[..i + 1][k]);
    }
    assert entries[..i + 1][i] == entries[i];
  }

  lemma NoWheelYet(entries: seq<Json.Value>)
    ensures !AnyWheel(entries[..0]) && entries[0..] == entries
  {
  }

  lemma NoEntriesLeft(fs: Fs, sha256: seq<Byte> -> string, entries: seq<Json.Value>)
    ensures entries[..|entries|] == entries && CheckEntries(fs, sha256, entries[|entries|..]) == Pass
  {
  }

  method CheckPayloadManifestOf(tree: Tree, json: Json.Codec, sha256: seq<Byte> -> string, path: Path,
                                commit: Option<string>, requireWheel: bool) returns (r: Finding)
    ensures r == CheckPayloadManifest(tree.View(), json, sha256, path, commit, requireWheel)
  {
    hide CheckEntries, AnyWheel, IsWheel, EntryFile, PAYLOAD_ROOT, Unparsed;
    if !tree.IsFile(path) {
      return Fail(MissingFile);
    }
    var loaded := json.loads(tree.Read(path));
    if loaded.None? {
      return Unparsed(tree.Read(path));
    }
    var data := loaded.value;
    if !data.Obj? {
      return Crash;
    }
    if Differs(data, "source_commit", commit) {
      return Fail(WrongCommit);
    }
    if !data.Get("entries").Arr? || data.Get("entries").items == [] {
      return Fail(NoEntries);
    }
    var entries := data.Get("entries").items;
    var sawWheel := false;
    NoWheelYet(entries);
    for i := 0 to |entries|
      invariant CheckEntries(tree.View(), sha256, entries) == CheckEntries(tree.View(), sha256, entries[i..])
      invariant sawWheel <==> AnyWheel(entries[..i])
    {
      NextEntry(tree.View(), sha256, entries, i);
      var entry := entries[i];
      if !entry.Has("path") || !entry.Has("sha256") {
        return Fail(Malformed);
      }
      if !entry.Get("path").Str? {
        return Crash;
      }
      var value := entry.Get("path").s;
      if IsWheel(value) {
        sawWheel := true;
      }
      if !tree.IsFile(EntryFile(value)) {
        return Fail(NotOnDisk(value));
      }
      if Json.Str(sha256(tree.Read(EntryFile(value)))) != entry.Get("sha256") {
        return Fail(HashMismatch(value));
      }
    }
    NoEntriesLeft(tree.View(), sha256, entries);
    r := if requireWheel && !sawWheel then Fail(NoWheel) else Pass;
  }

  lemma {:induction false} EntriesPass(fs: Fs, sha256: seq<Byte> -> string, entries: seq<Json.Value>)
    requires forall e :: e in entries ==> CheckEntry(fs, sha256, e) == Pass
    ensures CheckEntries(fs, sha256, entries) == Pass
    decreases |entries|
  {
    hide CheckEntry;
    if entries != [] { EntriesPass(fs, sha256, entries[1..]); }
  }

  lemma {:induction false} PassedEntries(fs: Fs, sha256: seq<Byte> -> string, entries: seq<Json.Value>, e: Json.Value)
    requires CheckEntries(fs, sha256, entries) == Pass && e in entries
    ensures CheckEntry(fs, sha256, e) == Pass
    decreases |entries|
  {
    hide CheckEntry;
    if e != entries[0] { PassedEntries(fs, sha256, entries[1..], e); }
  }

  ghost predicate ManifestGood(fs: Fs, sha256: seq<Byte> -> string, data: Json.Value, commit: Option<string>,
                               requireWheel: bool) {
    && data.Obj? && !Differs(data, "source_commit", commit)
    && data.Get("entries").Arr? && data.Get("entries").items != []
    && (forall e :: e in data.Get("entries").items ==> EntryGood(fs, sha256, e))
    && (requireWheel ==> exists e :: e in data.Get("entries").items && IsWheelEntry(e))
  }

  /** The entry names a file of the tree and declares its digest. */
  predicate EntryGood(fs: Fs, sha256: seq<Byte> -> string, e: Json.Value) {
    && e.Has("path") && e.Has("sha256") && e.Get("path").Str?
    && fs.IsFile(EntryFile(e.Get("path").s))
    && e.Get("sha256") == Json.Str(sha256(fs.Read(EntryFile(e.Get("path").s))))
  }

  /** The check passes if and only if the manifest is there, is good, and every entry of it is. */
  lemma ManifestPassMeaning(fs: Fs, json: Json.Codec, sha256: seq<Byte> -> string, path: Path, commit: Option<string>,
                            requireWheel: bool)
    ensures CheckPayloadManifest(fs, json, sha256, path, commit, requireWheel) == Pass <==>
      fs.IsFile(path) && json.loads(fs.Read(path)).Some?
        && ManifestGood(fs, sha256, json.loads(fs.Read(path)).value, commit, requireWheel)
  {
    hide CheckEntries, IsWheelEntry, EntryFile;
    if fs.IsFile(path) && json.loads(fs.Read(path)).Some? && json.loads(fs.Read(path)).value.Get("entries").Arr? {
      var entries := json.loads(fs.Read(path)).value.Get("entries").items;
      if CheckEntries(fs, sha256, entries) == Pass {
        forall e | e in entries ensures EntryGood(fs, sha256, e) { PassedEntries(fs, sha256, entries, e); }
      }
      if forall e :: e in entries ==> EntryGood(fs, sha256, e) {
        forall e | e in entries ensures CheckEntry(fs, sha256, e) == Pass { assert EntryGood(fs, sha256, e); }
        EntriesPass(fs, sha256, entries);
      }
      if e :| e in entries && IsWheelEntry(e) {
        var i :| 0 <= i < |entries| && entries[i] == e;
        assert AnyWheel(entries);
      }
    }
  }

  // ----- files that do not overlap -----

  /** Two paths inside the root that lead to two files, now or once they exist. */
  ghost predicate Apart(fs: Fs, p: Path, q: Path) {
    && fs.canon(p).Some? && fs.canon(q).Some? && fs.canon(p) != fs.canon(q)
    && (fs.IsFile(p) && fs.IsFile(q) ==> fs.IdOf(p) != fs.IdOf(q))
  }

  ghost predicate PairwiseApart(fs: Fs, files: seq<File>) {
    forall i, j :: 0 <= i < j < |files| ==> Apart(fs, files[i].path, files[j].path)
  }

  ghost predicate CanWrite(fs: Fs, f: File) {
    fs.canon(f.path).Some? && fs.Writable(f.path)
  }

  lemma WriteFileEffect(fs: Fs, f: File)
    requires fs.Valid() && CanWrite(fs, f)
    ensures var after := WriteFile(fs, f);
      after.Valid() && after.canon == fs.canon && after.IsFile(f.path) && after.Read(f.path) == f.data
  {
  }

  lemma WriteFileKeeps(fs: Fs, f: File, q: Path)
    requires fs.Valid() && CanWrite(fs, f) && fs.IsFile(q) && Apart(fs, q, f.path)
    ensures WriteFile(fs, f).IsFile(q) && WriteFile(fs, f).Read(q) == fs.Read(q)
  {
  }

  lemma WriteFileKeepsApart(fs: Fs, f: File, p: Path, q: Path)
    requires fs.Valid() && CanWrite(fs, f) && Apart(fs, p, q)
    ensures Apart(WriteFile(fs, f), p, q)
  {
  }

  /** A file none of the written paths leads to keeps its bytes. */
  lemma {:induction false} WriteFilesKeep(fs: Fs, files: seq<File>, q: Path)
    requires fs.Valid() && fs.IsFile(q) && forall f :: f in files ==> Apart(fs, q, f.path)
    ensures var after := WriteFiles(fs, files).0; after.Valid() && after.IsFile(q) && after.Read(q) == fs.Read(q)
    decreases |files|
  {
    hide WriteFile, Apart, Fs.Valid;
    if files != [] && CanWrite(fs, files[0]) {
      var f := files[0];
      WriteFileEffect(fs, f);
      WriteFileKeeps(fs, f, q);
      forall g | g in files[1..] ensures Apart(WriteFile(fs, f), q, g.path) {
        WriteFileKeepsApart(fs, f, q, g.path);
      }
      WriteFilesKeep(WriteFile(fs, f), files[1..], q);
    }
  }

  lemma ApartTail(fs: Fs, files: seq<File>)
    requires files != [] && fs.Valid() && CanWrite(fs, files[0]) && PairwiseApart(fs, files)
    ensures PairwiseApart(WriteFile(fs, files[0]), files[1..])
  {
    hide WriteFile, Apart, Fs.Valid;
    var rest := files[1..];
    forall i, j | 0 <= i < j < |rest| ensures Apart(WriteFile(fs, files[0]), rest[i].path, rest[j].path) {
      assert rest[i] == files[i + 1] && rest[j] == files[j + 1];
      WriteFileKeepsApart(fs, files[0], rest[i].path, rest[j].path);
    }
  }

  /** Files written to places that do not overlap are all there at the end, byte for byte. */
  lemma {:induction false} WriteFilesRead(fs: Fs, files: seq<File>, k: nat)
    requires fs.Valid() && PairwiseApart(fs, files) && k < |files|
    requires WriteFiles(fs, files).1.AllWritten?
    ensures var after := WriteFiles(fs, files).0;
      after.IsFile(files[k].path) && after.Read(files[k].path) == files[k].data
    decreases |files|
  {
    hide WriteFile, Apart, Fs.Valid;
    var f, rest := files[0], files[1..];
    var one := WriteFile(fs, f);
    WriteFileEffect(fs, f);
    ApartTail(fs, files);
    if k > 0 {
      WriteFilesRead(one, rest, k - 1);
    } else {
      forall g | g in rest ensures Apart(one, f.path, g.path) {
        var j :| 0 <= j < |rest| && g == rest[j];
        assert Apart(fs, files[0].path, files[j + 1].path);
        WriteFileKeepsApart(fs, f, f.path, g.path);
      }
      WriteFilesKeep(one, rest, f.path);
    }
  }

  lemma {:induction false} WriteFilesStayValid(fs: Fs, files: seq<File>)
    requires fs.Valid()
    ensures WriteFiles(fs, files).0.Valid() && WriteFiles(fs, files).0.canon == fs.canon
    decreases |files|
  {
    hide WriteFile, Fs.Valid;
    if files != [] && CanWrite(fs, files[0]) {
      WriteFileEffect(fs, files[0]);
      WriteFilesStayValid(WriteFile(fs, files[0]), files[1..]);
    }
  }

  lemma {:induction false} WriteFilesKeepApart(fs: Fs, files: seq<File>, p: Path, q: Path)
    requires fs.Valid() && Apart(fs, p, q)
    ensures Apart(WriteFiles(fs, files).0, p, q)
    decreases |files|
  {
    hide WriteFile, Apart, Fs.Valid;
    if files != [] && CanWrite(fs, files[0]) {
      WriteFileEffect(fs, files[0]);
      WriteFileKeepsApart(fs, files[0], p, q);
      WriteFilesKeepApart(WriteFile(fs, files[0]), files[1..], p, q);
    }
  }
}
