/**
  What may become payload, as paths are written: the overlay's allowlist (`overlay.py`), the walk's
  exclusions (`payload.py`) and the sizes the manifest reports (`models.py`, all in
  `src/serein/distribution/`).
 */
module PayloadRules {
  import opened Text
  import opened Utf8
  import opened ExtractedTree
  import opened Payload
  import opened Resources
  import Json
  import Listing

  // ----- the overlay -----

  lemma TopSlash(p: Path, i: nat)
    requires Find(p, "/") == Some(i)
    ensures i < |p| && p[..i] + "/" <= p
  {
    assert p[i..i + 1] == "/" && p[..i + 1] == p[..i] + p[i..i + 1];
  }

  lemma TopIs(p: Path, top: string)
    requires '/' !in top
    ensures Top(p) == top <==> p == top || top + "/" <= p
  {
    hide Find;
    if Find(p, "/").Some? { TopSlash(p, Find(p, "/").value); }
    if p == top { NoSlash(p); }
    if top + "/" <= p {
      var rest := p[|top| + 1..];
      assert p == top + "/" + rest;
      FirstSlash(top, rest);
    }
  }

  /** An overlay file may go to two places: below `.disk` and below `serein`. */
  lemma AllowedTops(p: Path)
    ensures Top(p) in ALLOWLIST <==> p == ".disk" || p == "serein" || ".disk" + "/" <= p || "serein" + "/" <= p
  {
    hide Top;
    TopIs(p, ".disk");
    TopIs(p, "serein");
  }

  /** The path an overlay is refused for is that of its first file outside the two places. */
  lemma {:induction false} RefusedPath(files: seq<File>, p: Path)
    ensures FirstOutside(files) == Some(p) <==> exists i :: FirstOutsideAt(files, p, i)
    decreases |files|
  {
    hide Top, ALLOWLIST;
    if files != [] {
      var rest := files[1..];
      RefusedPath(rest, p);
      if Top(files[0].path) !in ALLOWLIST {
        if files[0].path == p { assert FirstOutsideAt(files, p, 0); }
      } else {
        forall i | FirstOutsideAt(rest, p, i) ensures FirstOutsideAt(files, p, i + 1) {
          forall j | 0 <= j < i + 1 ensures Top(files[j].path) in ALLOWLIST {
            if j > 0 { assert files[j] == rest[j - 1]; }
          }
        }
        forall i | FirstOutsideAt(files, p, i) ensures FirstOutsideAt(rest, p, i - 1) {
          forall j | 0 <= j < i - 1 ensures Top(rest[j].path) in ALLOWLIST { assert rest[j] == files[j + 1]; }
        }
      }
    }
  }

  ghost predicate FirstOutsideAt(files: seq<File>, p: Path, i: int) {
    && 0 <= i < |files| && files[i].path == p && Top(p) !in ALLOWLIST
    && forall j :: 0 <= j < i ==> Top(files[j].path) in ALLOWLIST
  }

  // ----- the walk -----

  lemma {:induction false} PartsOf(segments: seq<string>)
    requires AreSegments(segments)
    ensures Parts(Slashed(segments)) == segments
    decreases |segments|
  {
    hide Find;
    var a := segments[0];
    if |segments| == 1 {
      NoSlash(a);
    } else {
      var rest := Slashed(segments[1..]);
      FirstSlash(a, rest);
      PartsOf(segments[1..]);
      assert (a + "/" + rest)[..|a|] == a && (a + "/" + rest)[|a| + 1..] == rest;
    }
  }

  lemma {:induction false} DotFound(stem: string, extension: string)
    requires '.' !in extension
    ensures LastDot(stem + "." + extension) == Some(|stem|)
    decreases |extension|
  {
    var name := stem + "." + extension;
    if extension != "" {
      assert name[..|name| - 1] == stem + "." + extension[..|extension| - 1];
      DotFound(stem, extension[..|extension| - 1]);
    }
  }

  lemma {:induction false} DotAt(name: string)
    ensures match LastDot(name)
      case None => '.' !in name
      case Some(i) => i < |name| && name == name[..i] + "." + name[i + 1..] && '.' !in name[i + 1..]
    decreases |name|
  {
    if name != "" && name[|name| - 1] != '.' {
      var front, last := name[..|name| - 1], name[|name| - 1];
      DotAt(front);
      assert name == front + [last];
      if LastDot(front).Some? {
        var i := LastDot(front).value;
        assert name[..i] == front[..i] && name[i + 1..] == front[i + 1..] + [last];
      }
    } else if name != "" {
      assert name == name[..|name| - 1] + "." + "";
    }
  }

  /** The name ends in a dot and `extension`, with something before the dot. */
  ghost predicate HasExtension(name: string, extension: string) {
    exists stem :: stem != "" && name == stem + "." + extension
  }

  /** The suffix of a file name: its last dot and what follows, unless nothing precedes or follows the dot. */
  lemma SuffixMeaning(name: string, extension: string)
    requires '.' !in extension
    ensures Suffix(name) == "." + extension <==> extension != "" && HasExtension(name, extension)
  {
    hide LastDot;
    DotAt(name);
    if Suffix(name) == "." + extension {
      var i := LastDot(name).value;
      assert name[i..][1..] == name[i + 1..] && ("." + extension)[1..] == extension;
      assert name == name[..i] + "." + extension;
    }
    if stem :| stem != "" && name == stem + "." + extension {
      DotFound(stem, extension);
      assert name[|stem|..] == "." + extension;
    }
  }

  lemma ExcludedSuffix(name: string)
    ensures Suffix(name) in EXCLUDED_SUFFIXES <==>
      HasExtension(name, "pyc") || HasExtension(name, "pyo") || HasExtension(name, "log")
  {
    hide Suffix, HasExtension;
    SuffixMeaning(name, "pyc");
    SuffixMeaning(name, "pyo");
    SuffixMeaning(name, "log");
    assert "." + "pyc" == ".pyc" && "." + "pyo" == ".pyo" && "." + "log" == ".log";
  }

  /** The name of a directory that never becomes payload: version control, caches, environments and builds. */
  predicate Unwanted(name: string) {
    || name == ".git" || name == ".idea" || name == ".vscode"
    || name == "__pycache__" || name == ".pytest_cache" || name == ".mypy_cache" || name == ".ruff_cache"
    || name == "cache" || name == ".venv" || name == "venv" || name == "env" || name == "node_modules"
    || name == "build" || name == "dist"
  }

  lemma UnwantedNames(name: string)
    ensures name in EXCLUDED_NAMES <==> Unwanted(name)
  {
  }

  /**
    What the walk embeds: a file reached without leaving the repository, below no directory of a cache,
    an environment, a build or a version control system, and neither bytecode nor a log.
   */
  lemma KeptFiles(repo: Repo, segments: seq<string>)
    requires AreSegments(segments)
    ensures var p := Slashed(segments); var name := segments[|segments| - 1];
      Kept(repo, p) <==>
        && p in repo.files && repo.within(p) == Some(repo.resolve(p)) && (forall s :: s in segments ==> !Unwanted(s))
        && !HasExtension(name, "pyc") && !HasExtension(name, "pyo") && !HasExtension(name, "log")
  {
    hide Parts, Suffix, HasExtension, EXCLUDED_SUFFIXES, Slashed, EXCLUDED_NAMES, Unwanted;
    PartsOf(segments);
    ExcludedSuffix(segments[|segments| - 1]);
    forall s ensures s in EXCLUDED_NAMES <==> Unwanted(s) { UnwantedNames(s); }
  }

  // ----- the sizes -----

  /** The bytes of all sources together. */
  function SourceBytes(host: Host, artifacts: seq<Artifact>): nat
    requires forall a :: a in artifacts ==> a.source in host
  {
    if artifacts == [] then 0 else |host[artifacts[0].source]| + SourceBytes(host, artifacts[1..])
  }

  lemma {:induction false} TotalOfInsert(e: PayloadEntry, sorted: seq<PayloadEntry>)
    ensures TotalBytes(InsertEntry(e, sorted)) == e.size + TotalBytes(sorted)
    decreases |sorted|
  {
    hide Listing.Before;
    if sorted == [] || Listing.Before(e.path, sorted[0].path) {
      assert ([e] + sorted)[1..] == sorted;
    } else {
      TotalOfInsert(e, sorted[1..]);
      assert ([sorted[0]] + InsertEntry(e, sorted[1..]))[1..] == InsertEntry(e, sorted[1..]);
    }
  }

  lemma {:induction false} TotalOfSorted(host: Host, artifacts: seq<Artifact>)
    requires forall a :: a in artifacts ==> a.source in host && a.entry.size == |host[a.source]|
    ensures TotalBytes(SortedEntries(artifacts)) == SourceBytes(host, artifacts)
    decreases |artifacts|
  {
    if artifacts != [] {
      TotalOfSorted(host, artifacts[1..]);
      TotalOfInsert(artifacts[0].entry, SortedEntries(artifacts[1..]));
    }
  }

  /** The manifest reports how many files the payload has and how many bytes they take. */
  lemma ManifestCounts(host: Host, artifacts: seq<Artifact>, commit: string, roots: seq<string>)
    requires forall a :: a in artifacts ==> a.source in host && a.entry.size == |host[a.source]|
    ensures var m := ManifestJson(commit, roots, SortedEntries(artifacts));
      && m.Get("entry_count") == Json.Num(|artifacts|)
      && m.Get("total_bytes") == Json.Num(SourceBytes(host, artifacts))
  {
    TotalOfSorted(host, artifacts);
    hide SortedEntries, TotalBytes, SourceBytes;
  }

  // ----- what is written, and where -----

  /** A list of strings as a document. */
  ghost predicate ListOf(v: Json.Value, strings: seq<string>) {
    v.Arr? && |v.items| == |strings| && forall i :: 0 <= i < |strings| ==> v.items[i] == Json.Str(strings[i])
  }

  /** The document of one payload file: its path, and the digest and the length of its bytes. */
  ghost predicate FileDocument(v: Json.Value, path: Path, digest: string, size: nat) {
    v.Obj? && v.fields == map["path" := Json.Str(path), "sha256" := Json.Str(digest), "size_bytes" := Json.Num(size)]
  }

  lemma EntryDocument(sha256: seq<Byte> -> string, path: Path, data: seq<Byte>)
    ensures FileDocument(EntryJson(EntryOf(sha256, path, data)), path, sha256(data), |data|)
  {
  }

  /** The manifest has six fields: besides the counts, the schema, the commit, the resource roots and the entries. */
  lemma ManifestDocument(commit: string, roots: seq<string>, entries: seq<PayloadEntry>)
    ensures var m := ManifestJson(commit, roots, entries);
      && m.Obj? && m.fields.Keys == {"schema_version", "source_commit", "generated_from", "entry_count",
        "total_bytes", "entries"}
      && m.Get("schema_version") == Json.Num(1) && m.Get("source_commit") == Json.Str(commit)
      && ListOf(m.Get("generated_from"), roots)
      && m.Get("entries").Arr? && |m.Get("entries").items| == |entries|
      && forall i :: 0 <= i < |entries| ==>
           FileDocument(m.Get("entries").items[i], entries[i].path, entries[i].sha256, entries[i].size)
  {
    hide TotalBytes;
  }

  /** The marker has seven fields, three of which never change. */
  lemma MarkerDocument(commit: string, base: BaseImage)
    ensures var m := MarkerJson(commit, base);
      && m.Obj? && m.fields.Keys == {"distribution", "product", "source_commit", "base_release", "base_point_release",
        "architecture", "build_schema"}
      && m.Get("distribution") == Json.Str("serein") && m.Get("product") == Json.Str("Serein OS Alpha")
      && m.Get("build_schema") == Json.Num(1) && m.Get("source_commit") == Json.Str(commit)
      && m.Get("base_release") == Json.Str(base.release) && m.Get("architecture") == Json.Str(base.architecture)
      && m.Get("base_point_release") == Json.OfOption(base.pointRelease)
  {
  }

  /** A copy takes over the mode of its source; a document keeps the mode of the file it replaces, or is writable. */
  lemma ModeAfterWrite(fs: Fs, f: File)
    requires fs.Valid() && fs.canon(f.path).Some?
    ensures var after := WriteFile(fs, f);
      && after.IsFile(f.path) && after.Read(f.path) == f.data
      && (f.mode.Some? ==> after.nodes[after.IdOf(f.path)].mode == f.mode.value)
      && (f.mode.None? && fs.IsFile(f.path) ==>
           after.nodes[after.IdOf(f.path)].mode == fs.nodes[fs.IdOf(f.path)].mode)
      && (f.mode.None? && !fs.IsFile(f.path) ==> after.nodes[after.IdOf(f.path)].mode.w)
  {
  }

  ghost predicate Holds(f: File, path: Path, data: seq<Byte>) {
    f.path == path && f.data == data && f.mode.None?
  }

  /**
    What the payload step writes, in order: every resource below `serein/payload/` under its own path, the
    wheel in the directory for packages, the manifest and the marker.
   */
  lemma PayloadPlaces(host: Host, sha256: seq<Byte> -> string, resources: seq<Path>, wheel: Path, name: string,
                      json: Json.Codec, commit: string, roots: seq<string>, base: BaseImage)
    requires wheel in host && forall p :: p in resources ==> p in host
    ensures var all := ResourceArtifacts(host, sha256, resources) + [WheelArtifact(host, sha256, wheel, name)];
      var n := |resources|;
      (forall a :: a in all ==> a.source in host) &&
      var files := PayloadFiles(host, all, json, commit, roots, base);
      && |files| == n + 3
      && (forall i :: 0 <= i < n ==> Holds(files[i], "serein/payload/" + resources[i], host[resources[i]]))
      && Holds(files[n], "serein/payload/packages/" + name, host[wheel])
      && Holds(files[n + 1], "serein/payload-manifest.json",
           json.dumps(ManifestJson(commit, roots, SortedEntries(all))))
      && Holds(files[n + 2], "serein/manifest.json", json.dumps(MarkerJson(commit, base)))
  {
    hide ManifestJson, MarkerJson, SortedEntries;
    var (resourced, one) := (ResourceArtifacts(host, sha256, resources), WheelArtifact(host, sha256, wheel, name));
    var all := resourced + [one];
    forall a | a in all ensures a.source in host {
      var i :| 0 <= i < |all| && all[i] == a;
      if i < |resources| { assert resources[i] in resources; }
    }
    var files := PayloadFiles(host, all, json, commit, roots, base);
    forall i | 0 <= i < |resources|
      ensures Holds(files[i], "serein/payload/" + resources[i], host[resources[i]])
    {
      assert all[i] == resourced[i] && resources[i] in resources;
    }
    assert "serein/payload/" + ("packages/" + name) == "serein/payload/packages/" + name;
  }
}
