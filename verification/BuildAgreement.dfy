/**
  Build and inspector agree: what the build writes, the inspector accepts, and it still does after
  a successful QA transition exactly if the transition rewrites none of it.
 */
module BuildAgreement {
  import opened Text
  import opened Utf8
  import opened ExtractedTree
  import opened Catalog
  import opened QaTransition
  import opened Payload
  import opened Inspect
  import Json
  import Resources

  /** An artifact whose entry describes the bytes of its source, under a relative path. */
  ghost predicate Describes(a: Artifact, host: Host, sha256: seq<Byte> -> string) {
    && a.source in host
    && a.entry == EntryOf(sha256, a.entry.path, host[a.source])
    && !StartsWith(a.entry.path, "/")
  }

  /** The resources and the wheel of one build. */
  function ArtifactsOf(host: Host, sha256: seq<Byte> -> string, resources: seq<Path>, wheel: Path,
                       name: string): seq<Artifact>
    requires wheel in host && forall f :: f in resources ==> f in host
  {
    ResourceArtifacts(host, sha256, resources) + [WheelArtifact(host, sha256, wheel, name)]
  }

  lemma ArtifactsDescribe(host: Host, sha256: seq<Byte> -> string, resources: seq<Path>, wheel: Path, name: string)
    requires wheel in host && forall f :: f in resources ==> f in host && !StartsWith(f, "/")
    requires |name| >= 4 && name[|name| - 4..] == ".whl"
    ensures var all := ArtifactsOf(host, sha256, resources, wheel, name);
      && all != []
      && (forall a :: a in all ==> Describes(a, host, sha256))
      && IsWheel(all[|all| - 1].entry.path)
  {
    var path := WheelPath(name);
    assert path[..9] == "packages/" && path[|path| - 4..] == name[|name| - 4..];
    var all := ArtifactsOf(host, sha256, resources, wheel, name);
    forall a | a in all ensures Describes(a, host, sha256) {
      var i :| 0 <= i < |all| && a == all[i];
      if i < |resources| {
        assert resources[i] in resources;
        assert a == ResourceArtifacts(host, sha256, resources)[i];
      } else {
        assert path[0] == 'p';
      }
    }
  }

  /**
    The artifacts of the real walk: one for each kept repository file, with the collected entry, and
    the wheel last; every entry describes the bytes of its source.
   */
  lemma CollectedArtifacts(repo: Resources.Repo, roots: seq<string>, host: Host, sha256: seq<Byte> -> string,
                           wheel: Path, name: string)
    requires wheel in host && forall p :: p in repo.files ==> p in host && host[p] == repo.files[p]
    requires forall root, p :: p in repo.listing(root) ==> !StartsWith(p, "/")
    requires |name| >= 4 && name[|name| - 4..] == ".whl"
    ensures var paths := Resources.ResourcePaths(repo, roots);
      && (forall f :: f in paths ==> f in host && !StartsWith(f, "/"))
      && var all := ArtifactsOf(host, sha256, paths, wheel, name);
      && |all| == |paths| + 1 && IsWheel(all[|paths|].entry.path)
      && (forall a :: a in all ==> Describes(a, host, sha256))
      && (forall i :: 0 <= i < |paths| ==> all[i].entry == Resources.Entries(repo, sha256, paths)[i])
  {
    hide Resources.Kept, IsWheel, EntryOf;
    var paths := Resources.ResourcePaths(repo, roots);
    forall f | f in paths ensures f in host && !StartsWith(f, "/") && f in repo.files { KeptIsFile(repo, f); }
    ArtifactsDescribe(host, sha256, paths, wheel, name);
  }

  lemma KeptIsFile(repo: Resources.Repo, p: Path)
    requires Resources.Kept(repo, p)
    ensures p in repo.files
  {
  }

  // ----- the manifest check -----

  function EntryJsons(entries: seq<PayloadEntry>): (r: seq<Json.Value>)
    ensures |r| == |entries|
  {
    seq(|entries|, i requires 0 <= i < |entries| => EntryJson(entries[i]))
  }

  lemma ManifestFields(commit: string, roots: seq<string>, entries: seq<PayloadEntry>)
    ensures var m := ManifestJson(commit, roots, entries);
      && m.Obj? && m.Get("source_commit") == Json.Str(commit)
      && m.Get("entries") == Json.Arr(EntryJsons(entries))
  {
  }

  lemma EntryFields(e: PayloadEntry)
    ensures var j := EntryJson(e);
      j.Has("path") && j.Has("sha256") && j.Get("path") == Json.Str(e.path) && j.Get("sha256") == Json.Str(e.sha256)
  {
  }

  /** The entry of an artifact whose file is on disk with its source's bytes passes. */
  lemma WrittenEntryPasses(fs: Fs, host: Host, sha256: seq<Byte> -> string, a: Artifact)
    requires Describes(a, host, sha256)
    requires fs.IsFile(PAYLOAD_ROOT + a.entry.path) && fs.Read(PAYLOAD_ROOT + a.entry.path) == host[a.source]
    ensures CheckEntry(fs, sha256, EntryJson(a.entry)) == Pass
  {
    hide PAYLOAD_ROOT, EntryJson;
    EntryFields(a.entry);
  }

  lemma AllEntriesPass(fs: Fs, host: Host, sha256: seq<Byte> -> string, artifacts: seq<Artifact>)
    requires forall a :: a in artifacts ==> Describes(a, host, sha256)
    requires forall a :: a in artifacts ==>
      a.source in host && fs.IsFile(PAYLOAD_ROOT + a.entry.path)
        && fs.Read(PAYLOAD_ROOT + a.entry.path) == host[a.source]
    ensures CheckEntries(fs, sha256, EntryJsons(SortedEntries(artifacts))) == Pass
  {
    hide CheckEntry, CheckEntries, Describes, PAYLOAD_ROOT, EntryJson, SortedEntries;
    var entries := SortedEntries(artifacts);
    forall j | j in EntryJsons(entries) ensures CheckEntry(fs, sha256, j) == Pass {
      var i :| 0 <= i < |entries| && j == EntryJsons(entries)[i];
      assert entries[i] in entries;
      var a :| a in artifacts && a.entry == entries[i];
      WrittenEntryPasses(fs, host, sha256, a);
    }
    EntriesPass(fs, sha256, EntryJsons(entries));
  }

  lemma WheelIsSeen(artifacts: seq<Artifact>)
    requires artifacts != [] && IsWheel(artifacts[|artifacts| - 1].entry.path)
    ensures AnyWheel(EntryJsons(SortedEntries(artifacts)))
  {
    hide SortedEntries, IsWheel, EntryJson;
    var entries := SortedEntries(artifacts);
    var a := artifacts[|artifacts| - 1];
    assert a in artifacts;
    var i :| 0 <= i < |entries| && entries[i] == a.entry;
    EntryFields(a.entry);
    assert IsWheelEntry(EntryJsons(entries)[i]);
  }

  lemma PayloadIsWritten(fs: Fs, host: Host, artifacts: seq<Artifact>, json: Json.Codec, commit: string,
                         roots: seq<string>, base: BaseImage)
    requires fs.Valid() && forall a :: a in artifacts ==> a.source in host
    requires PairwiseApart(fs, PayloadFiles(host, artifacts, json, commit, roots, base))
    requires WriteFiles(fs, PayloadFiles(host, artifacts, json, commit, roots, base)).1.AllWritten?
    ensures var after := WriteFiles(fs, PayloadFiles(host, artifacts, json, commit, roots, base)).0;
      && (forall a :: a in artifacts ==>
           after.IsFile(PAYLOAD_ROOT + a.entry.path) && after.Read(PAYLOAD_ROOT + a.entry.path) == host[a.source])
      && after.IsFile(MANIFEST_PATH)
      && after.Read(MANIFEST_PATH) == json.dumps(ManifestJson(commit, roots, SortedEntries(artifacts)))
      && after.IsFile(MARKER_PATH) && after.Read(MARKER_PATH) == json.dumps(MarkerJson(commit, base))
  {
    hide WriteFiles, PairwiseApart, ManifestJson, MarkerJson, SortedEntries, PAYLOAD_ROOT, MANIFEST_PATH, MARKER_PATH,
      Fs.Valid;
    var files := PayloadFiles(host, artifacts, json, commit, roots, base);
    var after := WriteFiles(fs, files).0;
    var n := |artifacts|;
    forall a | a in artifacts
      ensures after.IsFile(PAYLOAD_ROOT + a.entry.path) && after.Read(PAYLOAD_ROOT + a.entry.path) == host[a.source]
    {
      var i :| 0 <= i < n && a == artifacts[i];
      WriteFilesRead(fs, files, i);
    }
    WriteFilesRead(fs, files, n);
    WriteFilesRead(fs, files, n + 1);
  }

  lemma MarkerPasses(fs: Fs, json: Json.Codec, commit: string, base: BaseImage)
    requires json.Faithful()
    requires fs.IsFile(MARKER_PATH) && fs.Read(MARKER_PATH) == json.dumps(MarkerJson(commit, base))
    ensures CheckMediaMarker(fs, json, MARKER_PATH, Some(commit), Some(base.release), base.pointRelease,
      Some(base.architecture)) == Pass
  {
    hide MARKER_PATH;
    var data := MarkerJson(commit, base);
    assert json.loads(json.dumps(data)) == Some(data);
    assert REQUIRED <= data.fields.Keys;
    assert data.Get("source_commit") == Json.Str(commit) && data.Get("base_release") == Json.Str(base.release);
    assert data.Get("architecture") == Json.Str(base.architecture)
      && data.Get("base_point_release") == Json.OfOption(base.pointRelease);
  }

  lemma ManifestPasses(fs: Fs, host: Host, sha256: seq<Byte> -> string, artifacts: seq<Artifact>, json: Json.Codec,
                       commit: string, roots: seq<string>)
    requires json.Faithful() && artifacts != [] && IsWheel(artifacts[|artifacts| - 1].entry.path)
    requires forall a :: a in artifacts ==> Describes(a, host, sha256)
    requires forall a :: a in artifacts ==>
      a.source in host && fs.IsFile(PAYLOAD_ROOT + a.entry.path)
        && fs.Read(PAYLOAD_ROOT + a.entry.path) == host[a.source]
    requires fs.IsFile(MANIFEST_PATH)
      && fs.Read(MANIFEST_PATH) == json.dumps(ManifestJson(commit, roots, SortedEntries(artifacts)))
    ensures CheckPayloadManifest(fs, json, sha256, MANIFEST_PATH, Some(commit), true) == Pass
  {
    hide ManifestJson, SortedEntries, PAYLOAD_ROOT, MANIFEST_PATH, CheckEntries, EntryJsons, AnyWheel, IsWheel,
      Describes;
    var entries := SortedEntries(artifacts);
    var data := ManifestJson(commit, roots, entries);
    assert json.loads(json.dumps(data)) == Some(data);
    ManifestFields(commit, roots, entries);
    AllEntriesPass(fs, host, sha256, artifacts);
    WheelIsSeen(artifacts);
  }

  /** Everything one build needs to write its payload. */
  datatype Build = Build(host: Host, sha256: seq<Byte> -> string, resources: seq<Path>, wheel: Path, wheelName: string,
                         json: Json.Codec, commit: string, roots: seq<string>, base: BaseImage)
  {
    ghost predicate Valid() {
      && json.Faithful()
      && wheel in host && (forall f :: f in resources ==> f in host && !StartsWith(f, "/"))
      && |wheelName| >= 4 && wheelName[|wheelName| - 4..] == ".whl"
    }

    ghost function Artifacts(): seq<Artifact>
      requires Valid()
    {
      ArtifactsOf(host, sha256, resources, wheel, wheelName)
    }

    ghost function Files(): seq<File>
      requires Valid()
    {
      ArtifactsDescribe(host, sha256, resources, wheel, wheelName);
      PayloadFiles(host, Artifacts(), json, commit, roots, base)
    }

    /** Both checks pass on `fs`, for the commit and the base image of this build. */
    ghost predicate Passes(fs: Fs) {
      && CheckMediaMarker(fs, json, MARKER_PATH, Some(commit), Some(base.release), base.pointRelease,
        Some(base.architecture)) == Pass
      && CheckPayloadManifest(fs, json, sha256, MANIFEST_PATH, Some(commit), true) == Pass
    }
  }

  lemma WrittenTreePasses(b: Build, fs: Fs)
    requires b.Valid() && fs.Valid() && PairwiseApart(fs, b.Files())
    requires WriteFiles(fs, b.Files()).1.AllWritten?
    ensures b.Passes(WriteFiles(fs, b.Files()).0)
  {
    hide WriteFiles, PairwiseApart, Describes, IsWheel, ArtifactsOf, PayloadFiles, CheckMediaMarker,
      CheckPayloadManifest, Fs.Valid;
    ArtifactsDescribe(b.host, b.sha256, b.resources, b.wheel, b.wheelName);
    SourcesKnown(b.Artifacts(), b.host, b.sha256);
    PayloadIsWritten(fs, b.host, b.Artifacts(), b.json, b.commit, b.roots, b.base);
    var after := WriteFiles(fs, b.Files()).0;
    MarkerPasses(after, b.json, b.commit, b.base);
    ManifestPasses(after, b.host, b.sha256, b.Artifacts(), b.json, b.commit, b.roots);
  }

  lemma SourcesKnown(artifacts: seq<Artifact>, host: Host, sha256: seq<Byte> -> string)
    requires forall a :: a in artifacts ==> Describes(a, host, sha256)
    ensures forall a :: a in artifacts ==> a.source in host
  {
  }

  lemma OverlayKeepsApart(fs: Fs, overlay: seq<File>, files: seq<File>)
    requires fs.Valid() && PairwiseApart(fs, files)
    ensures PairwiseApart(WriteFiles(fs, overlay).0, files)
  {
    hide WriteFiles, Apart, Fs.Valid;
    forall i, j | 0 <= i < j < |files| ensures Apart(WriteFiles(fs, overlay).0, files[i].path, files[j].path) {
      WriteFilesKeepApart(fs, overlay, files[i].path, files[j].path);
    }
  }

  /**
    Build/inspect agreement: for any overlay, and any resources and wheel whose destinations do not
    overlap, the tree after the overlay and the payload passes both checks for the same commit.
   */
  lemma BuildPassesInspection(b: Build, fs: Fs, overlay: seq<File>)
    requires b.Valid() && fs.Valid() && PairwiseApart(fs, b.Files())
    requires WriteFiles(WriteFiles(fs, overlay).0, b.Files()).1.AllWritten?
    ensures b.Passes(WriteFiles(WriteFiles(fs, overlay).0, b.Files()).0)
  {
    hide WriteFiles, PairwiseApart, Fs.Valid, Build.Files, Build.Passes, Build.Valid;
    OverlayKeepsApart(fs, overlay, b.Files());
    WriteFilesStayValid(fs, overlay);
    WrittenTreePasses(b, WriteFiles(fs, overlay).0);
  }

  // ----- after the QA transition -----

  ghost predicate SameFile(a: Fs, b: Fs, p: Path) {
    a.IsFile(p) && b.IsFile(p) && a.Read(p) == b.Read(p)
  }

  lemma MarkerStillPasses(a: Fs, b: Fs, json: Json.Codec, path: Path, commit: Option<string>, release: Option<string>,
                          pointRelease: Option<string>, architecture: Option<string>)
    requires SameFile(a, b, path)
    ensures CheckMediaMarker(b, json, path, commit, release, pointRelease, architecture)
         == CheckMediaMarker(a, json, path, commit, release, pointRelease, architecture)
  {
  }

  /** The paths a passing manifest check has read. */
  ghost function Inspected(fs: Fs, json: Json.Codec, path: Path): set<Path> {
    {path} +
    if !fs.IsFile(path) then {}
    else match json.loads(fs.Read(path))
      case None => {}
      case Some(data) =>
        if !data.Get("entries").Arr? then {}
        else set e | e in data.Get("entries").items && e.Get("path").Str? :: EntryFile(e.Get("path").s)
  }

  lemma ManifestStillPasses(a: Fs, b: Fs, json: Json.Codec, sha256: seq<Byte> -> string, path: Path,
                            commit: Option<string>, requireWheel: bool)
    requires CheckPayloadManifest(a, json, sha256, path, commit, requireWheel) == Pass
    requires forall p :: p in Inspected(a, json, path) && a.IsFile(p) ==> SameFile(a, b, p)
    ensures CheckPayloadManifest(b, json, sha256, path, commit, requireWheel) == Pass
  {
    hide CheckEntries, AnyWheel, EntryFile;
    assert path in Inspected(a, json, path);
    var entries := json.loads(a.Read(path)).value.Get("entries").items;
    forall e | e in entries ensures CheckEntry(b, sha256, e) == Pass {
      PassedEntries(a, sha256, entries, e);
      assert EntryFile(e.Get("path").s) in Inspected(a, json, path);
    }
    EntriesPass(b, sha256, entries);
  }

  /** The path does not resolve to the GRUB configuration or to the catalog. */
  ghost predicate KeptAway(fs: Fs, grub: Path, p: Path) {
    fs.canon(p) != Some(grub) && fs.canon(p) != Some(CATALOG)
  }

  /**
    A tree that passes still passes after the QA transition returns normally, as long as no
    inspected path resolves to one of the two files the transition rewrites.
   */
  lemma PassesAfterQa(b: Build, fs: Fs, lib: Library, faults: Faults)
    requires fs.Valid() && b.Passes(fs) && Injective(lib.sha256)
    requires Transition(fs, lib, faults).1.Done?
    requires forall p :: p in Inspected(fs, b.json, MANIFEST_PATH) + {MARKER_PATH} ==>
      KeptAway(fs, Transition(fs, lib, faults).1.grub, p)
    ensures b.Passes(Transition(fs, lib, faults).0)
  {
    hide Transition, Inspected, MARKER_PATH, MANIFEST_PATH, CATALOG, Injective, Fs.Valid;
    var (after, outcome) := Transition(fs, lib, faults);
    forall p | p in Inspected(fs, b.json, MANIFEST_PATH) + {MARKER_PATH} && fs.IsFile(p)
      ensures SameFile(fs, after, p)
    {
      assert KeptAway(fs, outcome.grub, p);
      UntouchedFile(fs, lib, faults, p);
    }
    MarkerStillPasses(fs, after, b.json, MARKER_PATH, Some(b.commit), Some(b.base.release), b.base.pointRelease,
      Some(b.base.architecture));
    ManifestStillPasses(fs, after, b.json, b.sha256, MANIFEST_PATH, Some(b.commit), true);
  }

  /**
    What the manifest check is for: when a tree passes, changing or removing any file its manifest
    lists, under the same manifest, makes it fail (SHA-256 injective).
   */
  lemma TamperingIsDetected(a: Fs, b: Fs, json: Json.Codec, sha256: seq<Byte> -> string, path: Path,
                            commit: Option<string>, requireWheel: bool, entry: Json.Value)
    requires Injective(sha256) && CheckPayloadManifest(a, json, sha256, path, commit, requireWheel) == Pass
    requires SameFile(a, b, path) && entry in json.loads(a.Read(path)).value.Get("entries").items
    requires entry.Get("path").Str? && !SameFile(a, b, EntryFile(entry.Get("path").s))
    ensures CheckPayloadManifest(b, json, sha256, path, commit, requireWheel) != Pass
  {
    hide CheckEntries, AnyWheel, EntryFile;
    var entries := json.loads(a.Read(path)).value.Get("entries").items;
    PassedEntries(a, sha256, entries, entry);
    if CheckPayloadManifest(b, json, sha256, path, commit, requireWheel) == Pass {
      PassedEntries(b, sha256, entries, entry);
    }
  }

  lemma ResolvesToConfig(fs: Fs, after: Fs, grub: Path, p: Path)
    requires fs.Valid() && fs.IsFile(p) && fs.IsFile(grub) && fs.canon(p) == Some(grub)
    requires after.canon == fs.canon && after.IsFile(grub) && after.Read(grub) != fs.Read(grub)
    ensures !SameFile(fs, after, p)
  {
    assert fs.canon(grub) == Some(grub);
  }

  /**
    The condition is needed: an entry whose path resolves to the configuration makes every
    successful transition fail the check, since the configuration's bytes always change.
   */
  lemma ConfigEntryFails(b: Build, fs: Fs, lib: Library, faults: Faults, entry: Json.Value)
    requires fs.Valid() && b.Passes(fs) && Injective(b.sha256) && Injective(lib.sha256)
    requires Transition(fs, lib, faults).1.Done?
    requires KeptAway(fs, Transition(fs, lib, faults).1.grub, MANIFEST_PATH)
    requires fs.IsFile(MANIFEST_PATH) && b.json.loads(fs.Read(MANIFEST_PATH)).Some?
    requires entry in b.json.loads(fs.Read(MANIFEST_PATH)).value.Get("entries").items && entry.Get("path").Str?
    requires fs.canon(EntryFile(entry.Get("path").s)) == Some(Transition(fs, lib, faults).1.grub)
    ensures !b.Passes(Transition(fs, lib, faults).0)
  {
    hide Transition, MANIFEST_PATH, CATALOG, Injective, Fs.Valid, EntryFile, CheckEntries, AnyWheel;
    var (after, outcome) := Transition(fs, lib, faults);
    UntouchedFile(fs, lib, faults, MANIFEST_PATH);
    ConfigChanges(fs, lib, faults);
    TransitionFrame(fs, lib, faults);
    var p := EntryFile(entry.Get("path").s);
    if fs.IsFile(p) { ResolvesToConfig(fs, after, outcome.grub, p); }
    TamperingIsDetected(fs, after, b.json, b.sha256, MANIFEST_PATH, Some(b.commit), true, entry);
  }

  // ----- what the inspection of a built tree reads -----

  /** The manifest of the build is on disk. */
  ghost predicate HoldsManifest(b: Build, fs: Fs)
    requires b.Valid()
  {
    && fs.IsFile(MANIFEST_PATH)
    && fs.Read(MANIFEST_PATH) == b.json.dumps(ManifestJson(b.commit, b.roots, SortedEntries(b.Artifacts())))
  }

  lemma WrittenManifest(b: Build, fs: Fs)
    requires b.Valid() && fs.Valid() && PairwiseApart(fs, b.Files())
    requires WriteFiles(fs, b.Files()).1.AllWritten?
    ensures HoldsManifest(b, WriteFiles(fs, b.Files()).0)
  {
    hide WriteFiles, PairwiseApart, Describes, IsWheel, ArtifactsOf, PayloadFiles, Fs.Valid, ManifestJson,
      SortedEntries;
    ArtifactsDescribe(b.host, b.sha256, b.resources, b.wheel, b.wheelName);
    SourcesKnown(b.Artifacts(), b.host, b.sha256);
    PayloadIsWritten(fs, b.host, b.Artifacts(), b.json, b.commit, b.roots, b.base);
  }

  ghost predicate IsPayloadPath(b: Build, p: Path)
    requires b.Valid()
  {
    exists f :: f in b.Files() && f.path == p
  }

  lemma ArtifactPath(b: Build, a: Artifact)
    requires b.Valid() && a in b.Artifacts()
    ensures EntryFile(a.entry.path) == PAYLOAD_ROOT + a.entry.path && IsPayloadPath(b, PAYLOAD_ROOT + a.entry.path)
  {
    hide ArtifactsOf, SortedEntries, ManifestJson, MarkerJson, PAYLOAD_ROOT;
    ArtifactsDescribe(b.host, b.sha256, b.resources, b.wheel, b.wheelName);
    SourcesKnown(b.Artifacts(), b.host, b.sha256);
    assert Describes(a, b.host, b.sha256);
    var i :| 0 <= i < |b.Artifacts()| && b.Artifacts()[i] == a;
    ArtifactFileAt(b.host, b.Artifacts(), i);
    assert b.Files()[i] in b.Files() && b.Files()[i].path == PAYLOAD_ROOT + a.entry.path;
  }

  lemma OwnPaths(b: Build)
    requires b.Valid()
    ensures IsPayloadPath(b, MANIFEST_PATH) && IsPayloadPath(b, MARKER_PATH)
  {
    hide ArtifactsOf, SortedEntries, ManifestJson, MarkerJson, MANIFEST_PATH, MARKER_PATH;
    ArtifactsDescribe(b.host, b.sha256, b.resources, b.wheel, b.wheelName);
    SourcesKnown(b.Artifacts(), b.host, b.sha256);
    var n := |b.Artifacts()|;
    assert b.Files()[n] in b.Files() && b.Files()[n].path == MANIFEST_PATH;
    assert b.Files()[n + 1] in b.Files() && b.Files()[n + 1].path == MARKER_PATH;
  }

  lemma ListedEntry(b: Build, j: Json.Value) returns (a: Artifact)
    requires b.Valid() && j in EntryJsons(SortedEntries(b.Artifacts()))
    ensures a in b.Artifacts() && j.Get("path") == Json.Str(a.entry.path)
  {
    hide ArtifactsOf, SortedEntries, EntryJson;
    var entries := SortedEntries(b.Artifacts());
    var i :| 0 <= i < |entries| && EntryJsons(entries)[i] == j;
    assert entries[i] in entries;
    a :| a in b.Artifacts() && a.entry == entries[i];
    EntryFields(a.entry);
  }

  lemma EntryListed(b: Build, a: Artifact) returns (j: Json.Value)
    requires b.Valid() && a in b.Artifacts()
    ensures j in EntryJsons(SortedEntries(b.Artifacts())) && j.Get("path") == Json.Str(a.entry.path)
  {
    hide ArtifactsOf, SortedEntries, EntryJson;
    var entries := SortedEntries(b.Artifacts());
    var i :| 0 <= i < |entries| && entries[i] == a.entry;
    j := EntryJsons(entries)[i];
    EntryFields(a.entry);
  }

  lemma LoadedEntries(b: Build, fs: Fs)
    requires b.Valid() && HoldsManifest(b, fs)
    ensures b.json.loads(fs.Read(MANIFEST_PATH)).Some?
    ensures b.json.loads(fs.Read(MANIFEST_PATH)).value.Get("entries")
      == Json.Arr(EntryJsons(SortedEntries(b.Artifacts())))
  {
    hide ArtifactsOf, SortedEntries, ManifestJson, EntryJsons, MANIFEST_PATH;
    ManifestFields(b.commit, b.roots, SortedEntries(b.Artifacts()));
  }

  /** Everything the inspection of a built tree reads is a file of the payload. */
  lemma InspectedArePayload(b: Build, fs: Fs, p: Path)
    requires b.Valid() && HoldsManifest(b, fs)
    requires p in Inspected(fs, b.json, MANIFEST_PATH) + {MARKER_PATH}
    ensures IsPayloadPath(b, p)
  {
    hide IsPayloadPath, HoldsManifest, MANIFEST_PATH, MARKER_PATH, EntryJsons, EntryFile, PAYLOAD_ROOT, Build.Valid,
      Build.Artifacts;
    OwnPaths(b);
    LoadedEntries(b, fs);
    if p != MANIFEST_PATH && p != MARKER_PATH {
      var e :| e in b.json.loads(fs.Read(MANIFEST_PATH)).value.Get("entries").items && e.Get("path").Str?
        && p == EntryFile(e.Get("path").s);
      var a := ListedEntry(b, e);
      ArtifactPath(b, a);
    }
  }
}
