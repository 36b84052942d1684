/**
  Which repository files become payload: `collect_resource_entries` of
  `src/serein/distribution/payload.py`.
 */
module Resources {
  import opened Text
  import opened Utf8
  import opened ExtractedTree
  import opened Payload

  /**
    The repository as the walk sees it.  `listing` is `sorted(root.rglob("*"))` with paths relative
    to the repository, empty when the root is no directory; `files` holds what `is_file` accepts;
    `within` is `resolve_within`, nothing when a path escapes; `resolve` is `Path.resolve`.
   */
  datatype Repo = Repo(listing: string -> seq<Path>, files: Host, within: Path -> Option<Path>, resolve: Path -> Path)

  const EXCLUDED_NAMES: set<string> :=
    {".git", "__pycache__", ".pytest_cache", ".mypy_cache", ".ruff_cache", ".venv", "venv", "env", "node_modules",
     ".idea", ".vscode", "build", "dist", "cache"}

  const EXCLUDED_SUFFIXES: set<string> := {".pyc", ".pyo", ".log"}

  /** `PurePosixPath(p).parts` of a relative path. */
  function Parts(p: Path): (r: seq<string>)
    ensures r != []
  {
    match Find(p, "/")
    case None => [p]
    case Some(i) => [p[..i]] + Parts(p[i + 1..])
  }

  /** `name.rfind(".")`, or nothing. */
  function LastDot(name: string): Option<nat> {
    if name == "" then None
    else if name[|name| - 1] == '.' then Some(|name| - 1)
    else LastDot(name[..|name| - 1])
  }

  /** `Path.suffix` of a final component. */
  function Suffix(name: string): string {
    match LastDot(name)
    case None => ""
    case Some(i) => if 0 < i < |name| - 1 then name[i..] else ""
  }

  /** A file the walk embeds: not excluded, and reached without leaving the repository. */
  predicate Kept(repo: Repo, p: Path) {
    && p in repo.files
    && (forall part :: part in Parts(p) ==> part !in EXCLUDED_NAMES)
    && Suffix(Parts(p)[|Parts(p)| - 1]) !in EXCLUDED_SUFFIXES
    && repo.within(p) == Some(repo.resolve(p))
  }

  function KeptOf(repo: Repo, paths: seq<Path>): (r: seq<Path>)
    ensures forall p :: p in r <==> p in paths && Kept(repo, p)
  {
    if paths == [] then []
    else
      assert paths == paths[..|paths| - 1] + [paths[|paths| - 1]];
      KeptOf(repo, paths[..|paths| - 1]) + if Kept(repo, paths[|paths| - 1]) then [paths[|paths| - 1]] else []
  }

  /** The payload's resource files, root by root, in listing order. */
  function ResourcePaths(repo: Repo, roots: seq<string>): (r: seq<Path>)
    ensures forall p :: p in r <==> Kept(repo, p) && exists root :: root in roots && p in repo.listing(root)
  {
    if roots == [] then []
    else
      assert roots == roots[..|roots| - 1] + [roots[|roots| - 1]];
      ResourcePaths(repo, roots[..|roots| - 1]) + KeptOf(repo, repo.listing(roots[|roots| - 1]))
  }

  function Entries(repo: Repo, sha256: seq<Byte> -> string, paths: seq<Path>): (r: seq<PayloadEntry>)
    requires forall p :: p in paths ==> p in repo.files
    ensures |r| == |paths|
  {
    seq(|paths|, i requires 0 <= i < |paths| => EntryOf(sha256, paths[i], repo.files[paths[i]]))
  }

  lemma EntriesAppend(repo: Repo, sha256: seq<Byte> -> string, a: seq<Path>, p: Path)
    requires (forall q :: q in a ==> q in repo.files) && p in repo.files
    ensures Entries(repo, sha256, a + [p]) == Entries(repo, sha256, a) + [EntryOf(sha256, p, repo.files[p])]
  {
  }

  /**
    One entry, with the digest and size of its bytes, for exactly the kept files of the allowlisted
    roots, in the order of the walk.
   */
  method CollectResourceEntries(repo: Repo, sha256: seq<Byte> -> string, roots: seq<string>)
    returns (entries: seq<PayloadEntry>)
    ensures entries == Entries(repo, sha256, ResourcePaths(repo, roots))
  {
    hide EXCLUDED_NAMES, EXCLUDED_SUFFIXES, Parts, Suffix, KeptOf, EntryOf;
    entries := [];
    ghost var paths: seq<Path> := [];
    for i := 0 to |roots|
      invariant paths == ResourcePaths(repo, roots[..i]) && entries == Entries(repo, sha256, paths)
    {
      ghost var before := paths;
      var listed := repo.listing(roots[i]);
      KeptOfNone(repo);
      assert before + [] == before;
      for k := 0 to |listed|
        invariant paths == before + KeptOf(repo, listed[..k])
        invariant entries == Entries(repo, sha256, paths)
      {
        var path := listed[k];
        KeptOfNext(repo, listed, k);
        if path !in repo.files {
          continue;
        }
        var parts := Parts(path);
        if exists part :: part in parts && part in EXCLUDED_NAMES {
          continue;
        }
        if Suffix(parts[|parts| - 1]) in EXCLUDED_SUFFIXES {
          continue;
        }
        var resolved := repo.within(path);
        if resolved.None? || resolved.value != repo.resolve(path) {
          continue;
        }
        EntriesAppend(repo, sha256, paths, path);
        assert before + (KeptOf(repo, listed[..k]) + [path]) == paths + [path];
        paths := paths + [path];
        entries := entries + [EntryOf(sha256, path, repo.files[path])];
      }
      assert listed[..|listed|] == listed && roots[..i + 1][..i] == roots[..i];
    }
    assert roots[..|roots|] == roots;
  }

  lemma KeptOfNone(repo: Repo)
    ensures KeptOf(repo, []) == []
  {
  }

  lemma KeptOfNext(repo: Repo, paths: seq<Path>, k: nat)
    requires k < |paths|
    ensures paths[..0] == []
    ensures KeptOf(repo, paths[..k + 1]) == KeptOf(repo, paths[..k]) + if Kept(repo, paths[k]) then [paths[k]] else []
  {
    hide Kept;
    assert paths[..k + 1][..k] == paths[..k];
  }
}
