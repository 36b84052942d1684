/**
  The in-place QA transition: `transition_to_qa_in_place` of `src/serein/distribution/qa_boot.py`,
  over a tree in which several paths may read the same file.
 */
module QaTransition {
  import opened Text
  import opened Utf8
  import opened ExtractedTree
  import opened Catalog
  import Grub
  import GrubInstall

  /** The hash functions, as given. */
  datatype Library = Library(sha256: seq<Byte> -> string, md5: seq<Byte> -> string)

  datatype Reason = NoConfig | ConfigEscapes | NotDerivable | CatalogEscapes

  datatype Outcome =
    | Done(grub: Path, catalogUpdated: bool)
    | Blocked(reason: Reason)          // QaBootError
    | Mutation(changed: set<Path>)     // QaProtectedFileMutationError
    | Raised                           // any other exception

  const CANDIDATES: seq<Path> :=
    ["boot/grub/grub.cfg", "boot/grub/loopback.cfg", "EFI/boot/grub.cfg", "efi/boot/grub.cfg"]

  function FirstFile(fs: Fs, candidates: seq<Path>): (r: Option<Path>)
    ensures r.Some? ==> r.value in candidates && fs.IsFile(r.value)
    ensures r.None? ==> forall p :: p in candidates ==> !fs.IsFile(p)
  {
    if candidates == [] then None
    else if fs.IsFile(candidates[0]) then Some(candidates[0])
    else FirstFile(fs, candidates[1..])
  }

  function Manifest(fs: Fs, sha256: seq<Byte> -> string, excluded: set<Path>): map<Path, string> {
    map p | p in fs.Listed() && p !in excluded :: sha256(fs.Read(p))
  }

  /** Universal newlines: `read_text` turns `\r\n` and `\r` into `\n`. */
  function UniversalNewlines(s: string): string
    decreases |s|
  {
    if s == "" then ""
    else if "\r\n" <= s then "\n" + UniversalNewlines(s[2..])
    else (if s[0] == '\r' then "\n" else [s[0]]) + UniversalNewlines(s[1..])
  }

  datatype Patch = Patched(text: string) | Refused | Undecodable

  /** The new text of a GRUB configuration with these bytes. */
  function PatchOf(data: seq<Byte>): Patch {
    match DecodeStrict(data)
    case None => Undecodable
    case Some(raw) =>
      var text := UniversalNewlines(raw);
      match Grub.DeriveQaMenuentry(text)
      case Derived(entry, _, _) => Patched(Grub.InstallQaEntry(text, entry))
      case _ => Refused
  }

  function Changed(before: map<Path, string>, after: map<Path, string>): set<Path> {
    set p | p in before.Keys + after.Keys && (p !in before || p !in after || before[p] != after[p])
  }

  /**
    What goes wrong underneath: the files whose reads fail in the first and in the second manifest
    pass, whether reading the configuration fails, and what a failing write leaves behind.
   */
  datatype Faults = Faults(before: set<Path>, config: bool, grub: Option<seq<Byte>>, catalog: Option<seq<Byte>>,
    after: set<Path>)

  /** The manifest pass comes across a file it cannot read. */
  predicate Stuck(fs: Fs, excluded: set<Path>, unreadable: set<Path>) {
    exists p :: p in fs.Listed() && p !in excluded && p in unreadable
  }

  /** The whole transition. */
  function Transition(fs: Fs, lib: Library, faults: Faults): (Fs, Outcome) {
    match FirstFile(fs, CANDIDATES)
    case None => (fs, Blocked(NoConfig))
    case Some(grub) =>
      if Stuck(fs, {grub, CATALOG}, faults.before) then (fs, Raised)
      else if fs.canon(grub).None? then (fs, Blocked(ConfigEscapes))
      else if faults.config then (fs, Raised)
      else
        match PatchOf(fs.Read(grub))
        case Undecodable => (fs, Raised)
        case Refused => (fs, Blocked(NotDerivable))
        case Patched(text) =>
          if faults.grub.Some? then (fs.Put(grub, faults.grub.value), Raised)
          else Verified(fs, UpdateCatalog(fs.Put(grub, Encode(text)), lib.md5, grub, faults.catalog), lib, grub,
            faults.after)
  }

  /** The comparison of the two manifests that closes the transition. */
  function Verified(fs: Fs, updated: (Fs, Update), lib: Library, grub: Path, unreadable: set<Path>): (Fs, Outcome) {
    match updated.1
    case Escapes => (updated.0, Blocked(CatalogEscapes))
    case Crashed => (updated.0, Raised)
    case Updated(done) =>
      var before, after := Manifest(fs, lib.sha256, {grub, CATALOG}), Manifest(updated.0, lib.sha256, {grub, CATALOG});
      if Stuck(updated.0, {grub, CATALOG}, unreadable) then (updated.0, Raised)
      else (updated.0, if before == after then Done(grub, done) else Mutation(Changed(before, after)))
  }

  method ProtectedFileManifest(tree: Tree, sha256: seq<Byte> -> string, excluded: set<Path>, unreadable: set<Path>)
    returns (r: Option<map<Path, string>>)
    ensures r ==
      if Stuck(tree.View(), excluded, unreadable) then None
      else Some(Manifest(tree.View(), sha256, excluded))
  {
    hide *;
    var m: map<Path, string> := map[];
    var rest := tree.Listed();
    ghost var done: set<Path> := {};
    while rest != {}
      invariant done + rest == tree.Listed() && done !! rest
      invariant m.Keys == done - excluded
      invariant forall p :: p in m ==> p !in unreadable && m[p] == sha256(tree.Read(p))
      decreases |rest|
    {
      var path :| path in rest;
      if path !in excluded {
        if path in unreadable {
          IsStuck(tree.View(), excluded, unreadable, path);
          return None;
        }
        m := m[path := sha256(tree.Read(path))];
      }
      rest := rest - {path};
      done := done + {path};
    }
    assert done == tree.Listed();
    ManifestIs(tree.View(), sha256, excluded, unreadable, m);
    r := Some(m);
  }

  lemma IsStuck(fs: Fs, excluded: set<Path>, unreadable: set<Path>, p: Path)
    requires p in fs.Listed() && p !in excluded && p in unreadable
    ensures Stuck(fs, excluded, unreadable)
  {
  }

  lemma ManifestIs(fs: Fs, sha256: seq<Byte> -> string, excluded: set<Path>, unreadable: set<Path>,
                   m: map<Path, string>)
    requires m.Keys == fs.Listed() - excluded && forall p :: p in m ==> p !in unreadable && m[p] == sha256(fs.Read(p))
    ensures m == Manifest(fs, sha256, excluded) && !Stuck(fs, excluded, unreadable)
  {
  }

  method DiscoverGrubConfig(tree: Tree) returns (r: Option<Path>)
    ensures r == FirstFile(tree.View(), CANDIDATES)
  {
    for i := 0 to |CANDIDATES|
      invariant FirstFile(tree.View(), CANDIDATES) == FirstFile(tree.View(), CANDIDATES[i..])
    {
      if tree.IsFile(CANDIDATES[i]) {
        return Some(CANDIDATES[i]);
      }
      assert CANDIDATES[i..][1..] == CANDIDATES[i + 1..];
    }
    r := None;
  }

  method TransitionToQaInPlace(tree: Tree, lib: Library, faults: Faults)
    returns (r: Outcome)
    modifies tree
    ensures (tree.View(), r) == Transition(old(tree.View()), lib, faults)
  {
    hide PatchOf, Manifest, FirstFile, UpdateCatalog, Stuck;
    var found := DiscoverGrubConfig(tree);
    if found.None? {
      return Blocked(NoConfig);
    }
    var grub := found.value;
    var before := ProtectedFileManifest(tree, lib.sha256, {grub, CATALOG}, faults.before);
    if before.None? {
      return Raised;
    }
    if tree.canon(grub).None? {
      return Blocked(ConfigEscapes);
    }
    if faults.config {
      return Raised;
    }
    var patch := PatchOf(tree.Read(grub));
    if patch.Undecodable? {
      return Raised;
    }
    if patch.Refused? {
      return Blocked(NotDerivable);
    }
    var ok := tree.WriteGuarded(grub, Encode(patch.text), faults.grub);
    if !ok {
      return Raised;
    }
    var update := UpdateChecksumCatalogIfPresent(tree, lib.md5, grub, faults.catalog);
    if update.Escapes? {
      return Blocked(CatalogEscapes);
    }
    if update.Crashed? {
      return Raised;
    }
    var after := ProtectedFileManifest(tree, lib.sha256, {grub, CATALOG}, faults.after);
    if after.None? {
      return Raised;
    }
    r := if before == after then Done(grub, update.done) else Mutation(Changed(before.value, after.value));
  }

  // ----- what the transition writes -----

  /** `b` differs from `a` at most in the bytes of the inodes in `ids`. */
  ghost predicate OnlyData(a: Fs, b: Fs, ids: set<Id>) {
    && b == a.(nodes := b.nodes)
    && SameModes(a, b)
    && forall i :: i in a.nodes && i !in ids ==> b.nodes[i] == a.nodes[i]
  }

  /** The inodes of the configuration and of the catalog. */
  ghost function Targets(fs: Fs): set<Id> {
    (match FirstFile(fs, CANDIDATES)
     case Some(g) => if fs.canon(g).Some? then {fs.IdOf(g)} else {}
     case None => {}) +
    (if fs.IsFile(CATALOG) && fs.canon(CATALOG).Some? then {fs.IdOf(CATALOG)} else {})
  }

  lemma UpdateWrites(fs: Fs, md5: seq<Byte> -> string, modified: Path, fault: Option<seq<Byte>>)
    ensures OnlyData(fs, UpdateCatalog(fs, md5, modified, fault).0,
                     if fs.IsFile(CATALOG) && fs.canon(CATALOG).Some? then {fs.IdOf(CATALOG)} else {})
  {
    hide Document, Rewrite, LStripDotSlash, Encode, CatalogLines, AnyRefers;
  }

  /**
    On every exit, normal or raised, the transition has changed at most the bytes of the
    configuration and of the catalog: the same paths name the same files, and every file has its
    original mode.
   */
  lemma TransitionFrame(fs: Fs, lib: Library, faults: Faults)
    requires fs.Valid()
    ensures OnlyData(fs, Transition(fs, lib, faults).0, Targets(fs))
  {
    hide PatchOf, Manifest, FirstFile, UpdateCatalog, CATALOG, CANDIDATES, Encode, Fs.Valid;
    match FirstFile(fs, CANDIDATES)
    case None =>
    case Some(grub) =>
      if fs.canon(grub).Some? {
        match PatchOf(fs.Read(grub))
        case Patched(text) => WrittenFrame(fs, lib, grub, Encode(text), faults.catalog);
        case _ =>
      }
  }

  lemma WrittenFrame(fs: Fs, lib: Library, grub: Path, data: seq<Byte>, catalogFault: Option<seq<Byte>>)
    requires fs.Valid() && FirstFile(fs, CANDIDATES) == Some(grub) && fs.canon(grub).Some?
    ensures OnlyData(fs, UpdateCatalog(fs.Put(grub, data), lib.md5, grub, catalogFault).0, Targets(fs))
  {
    hide FirstFile, UpdateCatalog, CATALOG, CANDIDATES;
    PutKeepsFiles(fs, grub, data);
    UpdateWrites(fs.Put(grub, data), lib.md5, grub, catalogFault);
  }

  lemma FrameReads(a: Fs, b: Fs, ids: set<Id>)
    requires OnlyData(a, b, ids)
    ensures a.Listed() == b.Listed()
    ensures forall p :: a.IsFile(p) == b.IsFile(p)
    ensures forall p :: a.IsFile(p) && (a.canon(p).None? || a.IdOf(p) !in ids) ==> b.Read(p) == a.Read(p)
  {
    forall p ensures a.IsFile(p) == b.IsFile(p) {}
  }

  ghost predicate Injective(h: seq<Byte> -> string) {
    forall x, y :: h(x) == h(y) ==> x == y
  }

  /**
    Normal return means preservation: with a collision-free SHA-256, every listed path except the
    configuration and `md5sum.txt` reads exactly the bytes it read before.
   */
  lemma DoneMeansPreserved(fs: Fs, lib: Library, faults: Faults, p: Path)
    requires fs.Valid() && Injective(lib.sha256)
    requires Transition(fs, lib, faults).1.Done?
    requires p in fs.Listed() && p != CATALOG && p != Transition(fs, lib, faults).1.grub
    ensures var after := Transition(fs, lib, faults).0;
      after.IsFile(p) && after.Read(p) == fs.Read(p)
  {
    hide *;
    var (after, outcome) := Transition(fs, lib, faults);
    TransitionFrame(fs, lib, faults);
    FrameReads(fs, after, Targets(fs));
    DoneManifests(fs, lib, faults);
    SameManifestSameBytes(fs, after, lib.sha256, {outcome.grub, CATALOG}, p);
  }

  lemma SameManifestSameBytes(a: Fs, b: Fs, sha256: seq<Byte> -> string, excluded: set<Path>, p: Path)
    requires Injective(sha256) && Manifest(a, sha256, excluded) == Manifest(b, sha256, excluded)
    requires p in a.Listed() && p !in excluded
    ensures b.IsFile(p) && a.IsFile(p) && b.Read(p) == a.Read(p)
  {
    assert p in Manifest(a, sha256, excluded);
    assert p in Manifest(b, sha256, excluded);
  }

  lemma DoneManifests(fs: Fs, lib: Library, faults: Faults)
    requires Transition(fs, lib, faults).1.Done?
    ensures var (after, outcome) := Transition(fs, lib, faults);
      Manifest(fs, lib.sha256, {outcome.grub, CATALOG}) == Manifest(after, lib.sha256, {outcome.grub, CATALOG})
  {
    hide PatchOf, Manifest, FirstFile, UpdateCatalog, CATALOG, CANDIDATES, Encode;
  }

  /** No listed path other than the two excluded names reads an inode the transition writes. */
  ghost predicate NoAliases(fs: Fs) {
    match FirstFile(fs, CANDIDATES)
    case None => true
    case Some(grub) =>
      forall p :: p in fs.Listed() && p != grub && p != CATALOG && fs.canon(p).Some? ==> fs.IdOf(p) !in Targets(fs)
  }

  lemma MutationManifests(fs: Fs, lib: Library, faults: Faults) returns (grub: Path)
    requires Transition(fs, lib, faults).1.Mutation?
    ensures FirstFile(fs, CANDIDATES) == Some(grub) && fs.canon(grub).Some?
    ensures var (after, outcome) := Transition(fs, lib, faults);
      var x, y := Manifest(fs, lib.sha256, {grub, CATALOG}), Manifest(after, lib.sha256, {grub, CATALOG});
      x != y && outcome.changed == Changed(x, y)
  {
    hide PatchOf, Manifest, FirstFile, UpdateCatalog, CATALOG, CANDIDATES, Encode;
    grub := FirstFile(fs, CANDIDATES).value;
  }

  /**
    What a mutation error reports: at least one path, and each reported path is a listed, protected
    path that reads an inode the transition wrote, with a new digest.
   */
  lemma MutationMeansAlias(fs: Fs, lib: Library, faults: Faults)
    requires fs.Valid() && Transition(fs, lib, faults).1.Mutation?
    ensures var (after, outcome) := Transition(fs, lib, faults);
      && outcome.changed != {}
      && forall p :: p in outcome.changed ==>
        && p in fs.Listed() && p != CATALOG && fs.canon(p).Some? && fs.IdOf(p) in Targets(fs)
        && after.IsFile(p) && lib.sha256(after.Read(p)) != lib.sha256(fs.Read(p))
  {
    var (after, outcome) := Transition(fs, lib, faults);
    var grub := MutationManifests(fs, lib, faults);
    TransitionFrame(fs, lib, faults);
    FrameReads(fs, after, Targets(fs));
    hide Transition, FirstFile, Targets, CATALOG;
    var x, y := Manifest(fs, lib.sha256, {grub, CATALOG}), Manifest(after, lib.sha256, {grub, CATALOG});
    assert x.Keys == y.Keys;
    if Changed(x, y) == {} { SameIfUnchanged(x, y); }
  }

  lemma SameIfUnchanged(x: map<Path, string>, y: map<Path, string>)
    requires Changed(x, y) == {} && x.Keys == y.Keys
    ensures x == y
  {
    forall p | p in x ensures x[p] == y[p] {
      assert p !in Changed(x, y);
    }
  }

  /** Without aliasing the mutation error is unreachable. */
  lemma NoAliasNoMutation(fs: Fs, lib: Library, faults: Faults)
    requires fs.Valid() && NoAliases(fs)
    ensures !Transition(fs, lib, faults).1.Mutation?
  {
    if Transition(fs, lib, faults).1.Mutation? {
      var grub := MutationManifests(fs, lib, faults);
      MutationMeansAlias(fs, lib, faults);
      ChangedIsProtected(fs, Transition(fs, lib, faults).0, lib, grub);
    }
  }

  lemma ChangedIsProtected(fs: Fs, after: Fs, lib: Library, grub: Path)
    ensures grub !in Changed(Manifest(fs, lib.sha256, {grub, CATALOG}), Manifest(after, lib.sha256, {grub, CATALOG}))
  {
  }

  /**
    A blocked transition leaves the tree as it was, with one exception: a catalog that is a link
    out of the root is only noticed after the configuration has been rewritten.
   */
  lemma BlockedIsClean(fs: Fs, lib: Library, faults: Faults)
    requires Transition(fs, lib, faults).1.Blocked?
    ensures var (after, outcome) := Transition(fs, lib, faults);
      if outcome.reason == CatalogEscapes then
        exists g, text ::
          && FirstFile(fs, CANDIDATES) == Some(g) && fs.canon(g).Some?
          && PatchOf(fs.Read(g)) == Patched(text) && after == fs.Put(g, Encode(text))
      else after == fs
  {
    hide PatchOf, Manifest, FirstFile, CANDIDATES, Encode, Document, Rewrite, LStripDotSlash, CatalogLines, AnyRefers;
  }

  // ----- the catalog after the transition -----

  lemma CandidateChars(p: Path)
    requires p in CANDIDATES
    ensures p != "" && 'E' <= p[0] <= 'e' && forall c :: c in p ==> '.' <= c <= 'z'
  {
  }

  lemma PlainPath(p: Path)
    requires p != "" && 'E' <= p[0] <= 'e' && forall c :: c in p ==> '.' <= c <= 'z'
    ensures IsPlainPath(p) && LStripDotSlash(p) == p && p != CATALOG
  {
    assert CATALOG[0] == 'm';
  }

  lemma PlainCandidates(p: Path)
    requires p in CANDIDATES
    ensures IsPlainPath(p) && LStripDotSlash(p) == p && p != CATALOG
  {
    hide *;
    CandidateChars(p);
    PlainPath(p);
  }

  /** What the two writes did when the transition returns normally. */
  lemma DoneSteps(fs: Fs, lib: Library, faults: Faults) returns (data: seq<Byte>)
    requires Transition(fs, lib, faults).1.Done?
    ensures var (after, outcome) := Transition(fs, lib, faults);
      && outcome.grub in CANDIDATES && fs.IsFile(outcome.grub) && fs.canon(outcome.grub).Some?
      && UpdateCatalog(fs.Put(outcome.grub, data), lib.md5, outcome.grub, faults.catalog)
        == (after, Updated(outcome.catalogUpdated))
      && PatchOf(fs.Read(outcome.grub)).Patched? && data == Encode(PatchOf(fs.Read(outcome.grub)).text)
  {
    hide PatchOf, Manifest, UpdateCatalog, CATALOG, CANDIDATES, Encode;
    var grub := FirstFile(fs, CANDIDATES).value;
    data := Encode(PatchOf(fs.Read(grub)).text);
  }

  /** The catalog is a file of its own inside the root. */
  ghost predicate OwnCatalog(fs: Fs, grub: Path) {
    && fs.IsFile(grub) && fs.canon(grub).Some?
    && fs.IsFile(CATALOG) && fs.canon(CATALOG).Some? && fs.IdOf(CATALOG) != fs.IdOf(grub)
  }

  lemma UpdatedLines(fs: Fs, md5: seq<Byte> -> string, grub: Path, fault: Option<seq<Byte>>, i: nat)
    requires fs.Valid() && OwnCatalog(fs, grub) && grub in CANDIDATES
    requires forall b :: IsDigest(md5(b))
    requires UpdateCatalog(fs, md5, grub, fault).1.Updated?
    requires i < |CatalogLines(fs)|
    ensures var after := UpdateCatalog(fs, md5, grub, fault).0;
      && after.IsFile(CATALOG) && after.IsFile(grub) && after.Read(grub) == fs.Read(grub)
      && |CatalogLines(after)| == |CatalogLines(fs)|
      && CatalogLines(after)[i] ==
        if Refers(CatalogLines(fs)[i], grub) then NewLine(md5(fs.Read(grub)), grub) else CatalogLines(fs)[i]
  {
    PlainCandidates(grub);
    hide CANDIDATES, Refers, LStripDotSlash, NewLine, CATALOG, Encode, Decode, SplitLines, Document, IsPlainPath;
    var lines, digest := CatalogLines(fs), md5(fs.Read(grub));
    if AnyRefers(lines, grub) {
      SplitLinesHaveNoEnds(Decode(fs.Read(CATALOG)));
      RewrittenCatalog(lines, grub, digest);
      RewriteAt(lines, grub, digest, i);
      PutReads(fs, CATALOG, Encode(Document(Rewrite(lines, grub, digest))), CATALOG);
      PutReads(fs, CATALOG, Encode(Document(Rewrite(lines, grub, digest))), grub);
    }
  }

  /**
    The catalog after a normal return: the same number of lines in the same order; every line about
    the configuration holds the digest of its new bytes, and every other line keeps its text.
   */
  lemma CatalogLinesAfter(fs: Fs, lib: Library, faults: Faults, i: nat)
    requires fs.Valid() && Transition(fs, lib, faults).1.Done?
    requires OwnCatalog(fs, Transition(fs, lib, faults).1.grub)
    requires forall b :: IsDigest(lib.md5(b))
    requires i < |CatalogLines(fs)|
    ensures var (after, outcome) := Transition(fs, lib, faults);
      && after.IsFile(CATALOG) && after.IsFile(outcome.grub)
      && |CatalogLines(after)| == |CatalogLines(fs)|
      && CatalogLines(after)[i] ==
        if Refers(CatalogLines(fs)[i], outcome.grub) then NewLine(lib.md5(after.Read(outcome.grub)), outcome.grub)
        else CatalogLines(fs)[i]
  {
    hide Transition, UpdateCatalog, CANDIDATES, Refers, NewLine, CATALOG, Encode, Decode, SplitLines, PatchOf;
    var (after, outcome) := Transition(fs, lib, faults);
    var data := DoneSteps(fs, lib, faults);
    PutKeepsFiles(fs, outcome.grub, data);
    PutReads(fs, outcome.grub, data, CATALOG);
    PutReads(fs, outcome.grub, data, outcome.grub);
    UpdatedLines(fs.Put(outcome.grub, data), lib.md5, outcome.grub, faults.catalog, i);
  }

  /** The line does not list the catalog, and names the configuration only where it is read that way. */
  ghost predicate Honest(line: string, fs: Fs, grub: Path) {
    match SplitOnce(line)
    case None => true
    case Some((_, path)) =>
      var q := FileOf(path);
      fs.canon(q) != Some(CATALOG) && (fs.canon(q) == Some(grub) ==> Refers(line, grub))
  }

  /**
    Catalog maintenance: every line about the configuration is true after a normal return, and
    every line that was true before is still true, unless it lists the catalog itself or names the
    configuration by a path the updater does not recognise.
   */
  lemma CatalogStaysTrue(fs: Fs, lib: Library, faults: Faults, i: nat)
    requires fs.Valid() && Injective(lib.sha256) && Transition(fs, lib, faults).1.Done?
    requires OwnCatalog(fs, Transition(fs, lib, faults).1.grub)
    requires forall b :: IsDigest(lib.md5(b))
    requires i < |CatalogLines(fs)| && Honest(CatalogLines(fs)[i], fs, Transition(fs, lib, faults).1.grub)
    ensures var (after, outcome) := Transition(fs, lib, faults);
      && after.IsFile(CATALOG) && |CatalogLines(after)| == |CatalogLines(fs)|
      && (Refers(CatalogLines(fs)[i], outcome.grub) || Matches(CatalogLines(fs)[i], fs, lib.md5)
          ==> Matches(CatalogLines(after)[i], after, lib.md5))
  {
    hide Transition, CANDIDATES, NewLine, CATALOG, CatalogLines, FileOf, SplitOnce, Refers, Injective, IsDigest;
    var (after, outcome) := Transition(fs, lib, faults);
    var line := CatalogLines(fs)[i];
    CatalogLinesAfter(fs, lib, faults, i);
    if Refers(line, outcome.grub) {
      var data := DoneSteps(fs, lib, faults);
      PlainCandidates(outcome.grub);
      NewLineReads(lib.md5(after.Read(outcome.grub)), outcome.grub);
    } else if Matches(line, fs, lib.md5) {
      UntouchedFile(fs, lib, faults, FileOf(SplitOnce(line).value.1));
    }
  }

  /** A file under any path that does not resolve to the configuration or to the catalog. */
  lemma UntouchedFile(fs: Fs, lib: Library, faults: Faults, q: Path)
    requires fs.Valid() && Injective(lib.sha256) && Transition(fs, lib, faults).1.Done?
    requires fs.IsFile(q)
    requires fs.canon(q) != Some(CATALOG) && fs.canon(q) != Some(Transition(fs, lib, faults).1.grub)
    ensures var after := Transition(fs, lib, faults).0; after.IsFile(q) && after.Read(q) == fs.Read(q)
  {
    hide Transition, CATALOG, Injective, Targets;
    var after := Transition(fs, lib, faults).0;
    TransitionFrame(fs, lib, faults);
    FrameReads(fs, after, Targets(fs));
    match fs.canon(q)
    case None =>
    case Some(c) =>
      assert fs.canon(c) == Some(c) && c in fs.Listed();
      DoneMeansPreserved(fs, lib, faults, c);
  }

  // ----- the configuration always changes -----

  lemma {:induction false} UniversalKeepsLines(s: string)
    ensures |Grub.Lines(UniversalNewlines(s))| >= |Grub.Lines(s)|
    decreases |s|
  {
    hide Grub.UntilChar;
    if s != "" {
      Grub.LinesOfFirst(s);
      var t := UniversalNewlines(s);
      if "\r\n" <= s {
        Grub.LinesOfFirst(s[1..]);
        UniversalKeepsLines(s[2..]);
        assert t == "\n" + UniversalNewlines(s[2..]) && t[1..] == UniversalNewlines(s[2..]) && s[1..][1..] == s[2..];
      } else {
        UniversalKeepsLines(s[1..]);
        assert t[1..] == UniversalNewlines(s[1..]);
      }
      Grub.LinesOfFirst(t);
    }
  }

  /** The patched text has more lines than what the file held. */
  lemma PatchIsLonger(data: seq<Byte>)
    requires PatchOf(data).Patched?
    ensures DecodeStrict(data).Some? && |Grub.Lines(PatchOf(data).text)| > |Grub.Lines(DecodeStrict(data).value)|
  {
    hide Decode, Encode, Grub.Lines, Grub.InstallQaEntry, Grub.DeriveQaMenuentry, UniversalNewlines, Grub.Blank;
    var raw := DecodeStrict(data).value;
    var text := UniversalNewlines(raw);
    UniversalKeepsLines(raw);
    match Grub.DeriveQaMenuentry(text)
    case Derived(entry, _, _) => GrubInstall.PatchedLines(text, entry);
    case _ =>
  }

  /** A text with more lines is never what the file held. */
  lemma LongerIsNew(data: seq<Byte>, text: string)
    requires DecodeStrict(data).Some? && |Grub.Lines(text)| > |Grub.Lines(DecodeStrict(data).value)|
    ensures Encode(text) != data
  {
    hide Decode, Encode, Grub.Lines;
    RoundTrip(text);
  }

  lemma {:induction false} LinesSum(a: string, b: string)
    ensures |Grub.Lines(a + b)| == |Grub.Lines(a)| + |Grub.Lines(b)| - 1
    decreases |a|
  {
    hide Grub.UntilChar;
    if a == "" {
      assert a + b == b;
    } else {
      hide Grub.Lines;
      assert (a + b)[1..] == a[1..] + b;
      LinesSum(a[1..], b);
      Grub.LinesOfFirst(a);
      Grub.LinesOfFirst(a + b);
    }
  }

  lemma ShortLines()
    ensures |Grub.Lines("")| == 1 && |Grub.Lines("\n")| == 2
  {
    Grub.LinesOfFirst("\n");
    assert "\n"[1..] == "";
  }

  lemma {:induction false} DocumentIsLong(lines: seq<string>)
    ensures |Grub.Lines(Document(lines))| > |lines|
    decreases |lines|
  {
    hide Grub.Lines;
    ShortLines();
    if lines != [] {
      DocumentIsLong(lines[1..]);
      LinesSum(lines[0] + "\n", Document(lines[1..]));
      LinesSum(lines[0], "\n");
    }
  }

  /** `splitlines` cuts wherever a newline is. */
  lemma {:induction false} SplitLinesAreMany(s: string)
    ensures |SplitLines(s)| + 1 >= |Grub.Lines(s)|
    decreases |s|
  {
    hide Grub.Lines, TakeLine;
    ShortLines();
    if s != "" {
      var line := TakeLine(s);
      var rest := s[|line|..];
      assert s == line + rest;
      OneLineOnly(line);
      LinesSum(line, rest);
      if rest != "" {
        var n := if "\r\n" <= rest then 2 else 1;
        SplitLinesAreMany(rest[n..]);
        assert rest == rest[..n] + rest[n..];
        LinesSum(rest[..n], rest[n..]);
        EndIsShort(rest[..n]);
      }
    }
  }

  lemma OneLineOnly(line: string)
    requires forall c :: c in line ==> !IsLineEnd(c)
    ensures |Grub.Lines(line)| == 1
  {
    assert IsLineEnd('\n');
    hide IsLineEnd;
    assert '\n' !in line;
  }

  lemma EndIsShort(end: string)
    requires |end| == 1 || end == "\r\n"
    ensures |Grub.Lines(end)| <= 2
  {
    hide Grub.Lines;
    ShortLines();
    Grub.LinesOfFirst(end);
    if |end| == 2 {
      assert end[1..] == "\n";
    } else {
      assert end[1..] == "";
    }
  }

  /** Not even the update of a catalog that is a second name of the configuration makes it shorter. */
  lemma UpdateIsNew(fs: Fs, md5: seq<Byte> -> string, grub: Path, fault: Option<seq<Byte>>, held: seq<Byte>,
                    text: string)
    requires fs.Valid() && fs.IsFile(grub) && fs.canon(grub).Some? && fs.Read(grub) == Encode(text)
    requires DecodeStrict(held).Some? && |Grub.Lines(text)| > |Grub.Lines(DecodeStrict(held).value)|
    requires UpdateCatalog(fs, md5, grub, fault).1.Updated?
    ensures var after := UpdateCatalog(fs, md5, grub, fault).0; after.IsFile(grub) && after.Read(grub) != held
  {
    hide Decode, Encode, DecodeStrict, Grub.Lines, Document, Rewrite, LStripDotSlash, CATALOG, SplitLines, AnyRefers;
    LongerIsNew(held, text);
    if UpdateCatalog(fs, md5, grub, fault).1.done {
      var target := LStripDotSlash(grub);
      var lines := CatalogLines(fs);
      var rewritten := Document(Rewrite(lines, target, md5(fs.Read(target))));
      PutReads(fs, CATALOG, Encode(rewritten), grub);
      if fs.IdOf(CATALOG) == fs.IdOf(grub) {
        RoundTrip(text);
        SplitLinesAreMany(text);
        DocumentIsLong(Rewrite(lines, target, md5(fs.Read(target))));
        LongerIsNew(held, rewritten);
      }
    }
  }

  /** A normal return has always changed the bytes of the configuration. */
  lemma ConfigChanges(fs: Fs, lib: Library, faults: Faults)
    requires fs.Valid() && Transition(fs, lib, faults).1.Done?
    ensures var (after, outcome) := Transition(fs, lib, faults);
      && fs.IsFile(outcome.grub) && after.IsFile(outcome.grub) && after.Read(outcome.grub) != fs.Read(outcome.grub)
  {
    hide Transition, PatchOf, UpdateCatalog, CATALOG, CANDIDATES, Encode, DecodeStrict, Grub.Lines;
    var (after, outcome) := Transition(fs, lib, faults);
    var data := DoneSteps(fs, lib, faults);
    var patch := PatchOf(fs.Read(outcome.grub));
    PatchIsLonger(fs.Read(outcome.grub));
    PutKeepsFiles(fs, outcome.grub, data);
    PutReads(fs, outcome.grub, data, outcome.grub);
    UpdateIsNew(fs.Put(outcome.grub, data), lib.md5, outcome.grub, faults.catalog, fs.Read(outcome.grub), patch.text);
  }

  /**
    What the updater mistakes: `lstrip("./")` strips characters, not a prefix, so a correct line
    about the hidden file `.<path>` is taken for a line about `<path>`.
   */
  lemma HiddenFileIsMistaken(digest: string, target: Path)
    requires IsDigest(digest) && IsPlainPath(target)
    ensures var line := NewLine(digest, "." + target);
      Refers(line, target) && SplitOnce(line).Some? && FileOf(SplitOnce(line).value.1) == "." + target
  {
    hide *;
    var path := "./" + ("." + target);
    DigestChars(digest);
    DotDotPath(target);
    NewLineParts(digest, path);
    NewLineIs(digest, "." + target);
    RefersTo(NewLine(digest, "." + target), digest, path, target);
  }

  lemma RefersTo(line: string, digest: string, path: string, target: string)
    requires SplitOnce(line) == Some((digest, path)) && LStripDotSlash(Strip(path)) == target
    ensures Refers(line, target)
  {
  }

  lemma HiddenStrips(target: Path, hidden: Path, path: Path)
    requires target != "" && target[0] != '.' && target[0] != '/' && hidden == "." + target && path == "./" + hidden
    ensures LStripDotSlash(path) == target
  {
    assert path[1..] == "/" + hidden && path[1..][1..] == hidden && hidden[1..] == target;
    assert LStripDotSlash(hidden) == LStripDotSlash(target) == target;
    assert LStripDotSlash(path[1..]) == target;
  }

  lemma DotDotPath(target: Path)
    requires IsPlainPath(target)
    ensures var path := "./" + ("." + target);
      && path != "" && !IsSpace(path[0])
      && FileOf(path) == "." + target && LStripDotSlash(Strip(path)) == target
  {
    var hidden := "." + target;
    var path := "./" + hidden;
    assert path[|path| - 1] == target[|target| - 1] && target[|target| - 1] in target;
    assert !IsSpace('.');
    HiddenStrips(target, hidden, path);
    hide IsSpace, Strip, LStrip, RStrip, IsPlainPath, IsLineEnd, LStripDotSlash;
    StripNothing(path);
    assert path[2..] == hidden && path[..2] == "./";
  }
}
