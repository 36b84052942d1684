/**
  Writing the overlay and the payload into the extracted tree: `overlay.py`, `payload.py` and
  `_copy_payload_into_tree` of `build.py` in `src/serein/distribution/`.
 */
module Payload {
  import opened Text
  import opened Utf8
  import opened ExtractedTree
  import Json
  import Listing

  // ----- writing files one after the other -----

  /** One file to write; a copy also takes over the mode of its source. */
  datatype File = File(path: Path, data: seq<Byte>, mode: Option<Mode>)

  datatype Written = AllWritten | LeavesRoot(path: Path) | NotWritable(path: Path)

  function WriteFile(fs: Fs, f: File): Fs
    requires fs.canon(f.path).Some?
  {
    var after := fs.Write(f.path, f.data);
    var c := after.canon(f.path).value;
    if f.mode.Some? && c in after.link && after.link[c] in after.nodes then
      after.(nodes := after.nodes[after.link[c] := after.nodes[after.link[c]].(mode := f.mode.value)])
    else after
  }

  /** Write the files in order, stopping at the first that cannot be written. */
  function WriteFiles(fs: Fs, files: seq<File>): (Fs, Written)
    decreases |files|
  {
    if files == [] then (fs, AllWritten)
    else
      var f := files[0];
      if fs.canon(f.path).None? then (fs, LeavesRoot(f.path))
      else if !fs.Writable(f.path) then (fs, NotWritable(f.path))
      else WriteFiles(WriteFile(fs, f), files[1..])
  }

  /** Writing a list is writing its first file and then, if that worked, the rest. */
  lemma WriteFirst(fs: Fs, files: seq<File>, i: nat)
    requires i < |files|
    ensures WriteFiles(fs, files[i..]) ==
      var one := WriteFiles(fs, [files[i]]);
      if one.1.AllWritten? then WriteFiles(one.0, files[i + 1..]) else one
  {
    hide WriteFile;
    assert [files[i]][1..] == [] && files[i..][1..] == files[i + 1..];
  }

  method WriteOne(tree: Tree, f: File) returns (r: Written)
    modifies tree
    ensures (tree.View(), r) == WriteFiles(old(tree.View()), [f])
  {
    assert [f][1..] == [];
    if tree.canon(f.path).None? {
      return LeavesRoot(f.path);
    }
    var ok := tree.WriteBytes(f.path, f.data, None);
    if !ok {
      return NotWritable(f.path);
    }
    if f.mode.Some? && tree.IsFile(f.path) {
      tree.Chmod(f.path, f.mode.value);
    }
    r := AllWritten;
  }

  // ----- the overlay -----

  const ALLOWLIST: set<string> := {".disk", "serein"}

  /** `relative.split("/", 1)[0]`. */
  function Top(p: Path): string {
    match Find(p, "/")
    case None => p
    case Some(i) => p[..i]
  }

  datatype Applied = Wrote(paths: seq<Path>) | OutsideAllowlist(path: Path) | Stopped(at: Written)

  /** The first source outside the allowlist, if any. */
  function FirstOutside(files: seq<File>): (r: Option<Path>)
    ensures r.None? <==> forall f :: f in files ==> Top(f.path) in ALLOWLIST
    ensures r.Some? ==> Top(r.value) !in ALLOWLIST
  {
    if files == [] then None
    else if Top(files[0].path) !in ALLOWLIST then Some(files[0].path)
    else FirstOutside(files[1..])
  }

  method PlanOverlay(files: seq<File>) returns (outside: Option<Path>)
    ensures outside == FirstOutside(files)
  {
    hide ALLOWLIST, Top;
    for i := 0 to |files|
      invariant FirstOutside(files) == FirstOutside(files[i..])
    {
      if Top(files[i].path) !in ALLOWLIST {
        return Some(files[i].path);
      }
      assert files[i..][1..] == files[i + 1..];
    }
    outside := None;
  }

  function Paths(files: seq<File>): (r: seq<Path>)
    ensures |r| == |files|
  {
    seq(|files|, i requires 0 <= i < |files| => files[i].path)
  }

  /**
    `apply_overlay`: plan everything first, then write.  A source outside the allowlist leaves the
    tree as it was; otherwise the files are written in order.
   */
  method ApplyOverlay(tree: Tree, files: seq<File>) returns (r: Applied)
    modifies tree
    ensures match FirstOutside(files)
      case Some(p) => r == OutsideAllowlist(p) && tree.View() == old(tree.View())
      case None =>
        var (after, written) := WriteFiles(old(tree.View()), files);
        tree.View() == after && r == if written.AllWritten? then Wrote(Paths(files)) else Stopped(written)
  {
    hide WriteFiles, FirstOutside, ALLOWLIST;
    var outside := PlanOverlay(files);
    if outside.Some? {
      return OutsideAllowlist(outside.value);
    }
    var written := [];
    for i := 0 to |files|
      invariant written == Paths(files[..i])
      invariant WriteFiles(old(tree.View()), files) == WriteFiles(tree.View(), files[i..])
    {
      WriteFirst(tree.View(), files, i);
      var one := WriteOne(tree, files[i]);
      if !one.AllWritten? {
        return Stopped(one);
      }
      assert Paths(files[..i + 1]) == Paths(files[..i]) + [files[i].path];
      written := written + [files[i].path];
    }
    assert files[..|files|] == files && files[|files|..] == [];
    NothingToWrite(tree.View());
    r := Wrote(written);
  }

  // ----- the payload -----

  datatype PayloadEntry = PayloadEntry(path: Path, sha256: string, size: nat)
  datatype Artifact = Artifact(entry: PayloadEntry, source: Path)
  datatype BaseImage = BaseImage(release: string, pointRelease: Option<string>, architecture: string)

  /** The files of the build host an artifact is made from. */
  type Host = map<Path, seq<Byte>>

  function EntryOf(sha256: seq<Byte> -> string, path: Path, data: seq<Byte>): PayloadEntry {
    PayloadEntry(path, sha256(data), |data|)
  }

  /** `collect_resource_artifacts` over the repository files its walk keeps. */
  function ResourceArtifacts(host: Host, sha256: seq<Byte> -> string, files: seq<Path>): (r: seq<Artifact>)
    requires forall f :: f in files ==> f in host
    ensures |r| == |files|
  {
    seq(|files|, i requires 0 <= i < |files| => Artifact(EntryOf(sha256, files[i], host[files[i]]), files[i]))
  }

  function WheelPath(name: string): Path {
    "packages/" + name
  }

  function WheelArtifact(host: Host, sha256: seq<Byte> -> string, source: Path, name: string): Artifact
    requires source in host
  {
    Artifact(EntryOf(sha256, WheelPath(name), host[source]), source)
  }

  const MARKER_PATH: Path := "serein/manifest.json"
  const MANIFEST_PATH: Path := "serein/payload-manifest.json"
  const PAYLOAD_ROOT: Path := "serein/payload/"

  /** `sorted(entries, key=path)`. */
  function InsertEntry(e: PayloadEntry, sorted: seq<PayloadEntry>): (r: seq<PayloadEntry>)
    ensures |r| == |sorted| + 1
    ensures forall x :: x in r <==> x == e || x in sorted
  {
    if sorted == [] || Listing.Before(e.path, sorted[0].path) then [e] + sorted
    else
      assert sorted == [sorted[0]] + sorted[1..];
      [sorted[0]] + InsertEntry(e, sorted[1..])
  }

  function SortedEntries(artifacts: seq<Artifact>): (r: seq<PayloadEntry>)
    ensures |r| == |artifacts|
    ensures forall a :: a in artifacts ==> a.entry in r
    ensures forall e :: e in r ==> exists a :: a in artifacts && a.entry == e
  {
    if artifacts == [] then []
    else
      assert artifacts == [artifacts[0]] + artifacts[1..];
      InsertEntry(artifacts[0].entry, SortedEntries(artifacts[1..]))
  }

  ghost predicate Ascending(entries: seq<PayloadEntry>) {
    forall i, j :: 0 <= i < j < |entries| ==> Listing.Before(entries[i].path, entries[j].path)
  }

  lemma {:induction false} InsertAscends(e: PayloadEntry, sorted: seq<PayloadEntry>)
    requires Ascending(sorted)
    ensures Ascending(InsertEntry(e, sorted))
    decreases |sorted|
  {
    hide Listing.Before;
    if sorted != [] {
      if Listing.Before(e.path, sorted[0].path) {
        forall x | x in sorted ensures Listing.Before(e.path, x.path) {
          var k :| 0 <= k < |sorted| && sorted[k] == x;
          if k > 0 { Listing.BeforeTransitive(e.path, sorted[0].path, x.path); }
        }
      } else {
        Listing.BeforeTotal(e.path, sorted[0].path);
        InsertAscends(e, sorted[1..]);
        forall x | x in InsertEntry(e, sorted[1..]) ensures Listing.Before(sorted[0].path, x.path) {
          if x != e {
            var k :| 0 <= k < |sorted| - 1 && sorted[1..][k] == x;
            assert sorted[k + 1] == x;
          }
        }
      }
    }
  }

  lemma {:induction false} SortedIsAscending(artifacts: seq<Artifact>)
    ensures Ascending(SortedEntries(artifacts))
    decreases |artifacts|
  {
    if artifacts != [] {
      SortedIsAscending(artifacts[1..]);
      InsertAscends(artifacts[0].entry, SortedEntries(artifacts[1..]));
    }
  }

  /** The manifest lists its entries by ascending path, in code points, whatever order the artifacts came in. */
  lemma EntriesAscend(artifacts: seq<Artifact>)
    ensures var r := SortedEntries(artifacts);
      forall i, j :: 0 <= i < j < |r| ==> r[i].path == r[j].path || Listing.Smaller(r[i].path, r[j].path)
  {
    hide SortedEntries, Listing.Before, Listing.Smaller;
    var r := SortedEntries(artifacts);
    SortedIsAscending(artifacts);
    forall i, j | 0 <= i < j < |r| ensures r[i].path == r[j].path || Listing.Smaller(r[i].path, r[j].path) {
      Listing.BeforeMeans(r[i].path, r[j].path);
    }
  }

  /** The entries of one path, in order. */
  function EntriesAt(entries: seq<PayloadEntry>, p: Path): seq<PayloadEntry> {
    if entries == [] then []
    else (if entries[0].path == p then [entries[0]] else []) + EntriesAt(entries[1..], p)
  }

  function EntriesOf(artifacts: seq<Artifact>): (r: seq<PayloadEntry>)
    ensures |r| == |artifacts|
  {
    seq(|artifacts|, i requires 0 <= i < |artifacts| => artifacts[i].entry)
  }

  lemma EntriesAtFirst(e: PayloadEntry, rest: seq<PayloadEntry>, p: Path)
    ensures EntriesAt([e] + rest, p) == (if e.path == p then [e] else []) + EntriesAt(rest, p)
  {
    assert ([e] + rest)[1..] == rest;
  }

  lemma {:induction false} InsertIsStable(e: PayloadEntry, sorted: seq<PayloadEntry>, p: Path)
    ensures EntriesAt(InsertEntry(e, sorted), p) == (if e.path == p then [e] else []) + EntriesAt(sorted, p)
    decreases |sorted|
  {
    hide Listing.Before, EntriesAt;
    if sorted == [] || Listing.Before(e.path, sorted[0].path) {
      EntriesAtFirst(e, sorted, p);
    } else {
      var first, rest := sorted[0], sorted[1..];
      Listing.BeforeTotal(e.path, e.path);
      assert e.path != first.path;
      InsertIsStable(e, rest, p);
      EntriesAtFirst(first, InsertEntry(e, rest), p);
      assert sorted == [first] + rest;
      EntriesAtFirst(first, rest, p);
    }
  }

  /** Sorting is stable: entries of one path keep the order of their artifacts, and none is lost or added. */
  lemma {:induction false} SortIsStable(artifacts: seq<Artifact>, p: Path)
    ensures EntriesAt(SortedEntries(artifacts), p) == EntriesAt(EntriesOf(artifacts), p)
    decreases |artifacts|
  {
    if artifacts != [] {
      SortIsStable(artifacts[1..], p);
      InsertIsStable(artifacts[0].entry, SortedEntries(artifacts[1..]), p);
      assert EntriesOf(artifacts)[1..] == EntriesOf(artifacts[1..]);
    }
  }

  function EntryJson(e: PayloadEntry): Json.Value {
    Json.Obj(map["path" := Json.Str(e.path), "sha256" := Json.Str(e.sha256), "size_bytes" := Json.Num(e.size)])
  }

  function TotalBytes(entries: seq<PayloadEntry>): nat {
    if entries == [] then 0 else entries[0].size + TotalBytes(entries[1..])
  }

  function ManifestJson(commit: string, roots: seq<string>, entries: seq<PayloadEntry>): Json.Value {
    Json.Obj(map[
      "schema_version" := Json.Num(1),
      "source_commit" := Json.Str(commit),
      "generated_from" := Json.Arr(seq(|roots|, i requires 0 <= i < |roots| => Json.Str(roots[i]))),
      "entry_count" := Json.Num(|entries|),
      "total_bytes" := Json.Num(TotalBytes(entries)),
      "entries" := Json.Arr(seq(|entries|, i requires 0 <= i < |entries| => EntryJson(entries[i])))])
  }

  function MarkerJson(commit: string, base: BaseImage): Json.Value {
    Json.Obj(map[
      "distribution" := Json.Str("serein"),
      "product" := Json.Str("Serein OS Alpha"),
      "source_commit" := Json.Str(commit),
      "base_release" := Json.Str(base.release),
      "base_point_release" := Json.OfOption(base.pointRelease),
      "architecture" := Json.Str(base.architecture),
      "build_schema" := Json.Num(1)])
  }

  /** Everything `_copy_payload_into_tree` writes, in order. */
  function PayloadFiles(host: Host, artifacts: seq<Artifact>, json: Json.Codec, commit: string, roots: seq<string>,
                        base: BaseImage): seq<File>
    requires forall a :: a in artifacts ==> a.source in host
  {
    ArtifactFiles(host, artifacts) +
    [File(MANIFEST_PATH, json.dumps(ManifestJson(commit, roots, SortedEntries(artifacts))), None),
     File(MARKER_PATH, json.dumps(MarkerJson(commit, base)), None)]
  }

  function ArtifactFiles(host: Host, artifacts: seq<Artifact>): (r: seq<File>)
    requires forall a :: a in artifacts ==> a.source in host
    ensures |r| == |artifacts|
  {
    seq(|artifacts|, i requires 0 <= i < |artifacts| =>
      File(PAYLOAD_ROOT + artifacts[i].entry.path, host[artifacts[i].source], None))
  }

  method CopyPayloadIntoTree(tree: Tree, host: Host, artifacts: seq<Artifact>, json: Json.Codec, commit: string,
                             roots: seq<string>, base: BaseImage) returns (r: Written)
    requires forall a :: a in artifacts ==> a.source in host
    modifies tree
    ensures (tree.View(), r) == WriteFiles(old(tree.View()), PayloadFiles(host, artifacts, json, commit, roots, base))
  {
    hide WriteFiles, ArtifactFiles, SortedEntries, ManifestJson, MarkerJson;
    ghost var files := PayloadFiles(host, artifacts, json, commit, roots, base);
    var n := |artifacts|;
    for i := 0 to n
      invariant WriteFiles(old(tree.View()), files) == WriteFiles(tree.View(), files[i..])
    {
      ArtifactFileAt(host, artifacts, i);
      WriteFirst(tree.View(), files, i);
      r := WriteOne(tree, File(PAYLOAD_ROOT + artifacts[i].entry.path, host[artifacts[i].source], None));
      if !r.AllWritten? {
        return;
      }
    }
    WriteFirst(tree.View(), files, n);
    r := WriteOne(tree, File(MANIFEST_PATH, json.dumps(ManifestJson(commit, roots, SortedEntries(artifacts))), None));
    if !r.AllWritten? {
      return;
    }
    WriteFirst(tree.View(), files, n + 1);
    r := WriteOne(tree, File(MARKER_PATH, json.dumps(MarkerJson(commit, base)), None));
    if r.AllWritten? {
      assert files[n + 2..] == [];
      NothingToWrite(tree.View());
    }
  }

  lemma NothingToWrite(fs: Fs)
    ensures WriteFiles(fs, []) == (fs, AllWritten)
  {
  }

  lemma ArtifactFileAt(host: Host, artifacts: seq<Artifact>, i: nat)
    requires i < |artifacts| && forall a :: a in artifacts ==> a.source in host
    ensures ArtifactFiles(host, artifacts)[i]
      == File(PAYLOAD_ROOT + artifacts[i].entry.path, host[artifacts[i].source], None)
  {
  }
}
