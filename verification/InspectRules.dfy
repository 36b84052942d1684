/**
  When the two payload checks of `src/serein/distribution/inspect.py` pass, when they fail, and with
  which finding.
 */
module InspectRules {
  import opened Text
  import opened Utf8
  import opened ExtractedTree
  import opened Payload
  import opened Inspect
  import Json

  // ----- the media marker -----

  /** What the caller expects of the marker; nothing where it does not care. */
  datatype Expected = Expected(commit: Option<string>, release: Option<string>, pointRelease: Option<string>,
    architecture: Option<string>)

  /** The document has the expected text in this field, if one is expected. */
  predicate Agrees(data: Json.Value, field: string, expected: Option<string>) {
    expected.None? || data.Get(field) == Json.Str(expected.value)
  }

  datatype Condition = IsObject | HasFields | SameCommit | SameRelease | SamePointRelease | SameArchitecture

  predicate Holds(c: Condition, data: Json.Value, e: Expected) {
    match c
    case IsObject => data.Obj?
    case HasFields =>
      && data.Has("distribution") && data.Has("source_commit") && data.Has("base_release")
      && data.Has("architecture") && data.Has("build_schema")
    case SameCommit => Agrees(data, "source_commit", e.commit)
    case SameRelease => Agrees(data, "base_release", e.release)
    case SamePointRelease => Agrees(data, "base_point_release", e.pointRelease)
    case SameArchitecture => Agrees(data, "architecture", e.architecture)
  }

  /** The conditions in the order they are looked at, and what a marker that breaks one is found to be. */
  const CONDITIONS: seq<(Condition, Finding)> :=
    [(IsObject, Crash), (HasFields, Fail(MissingFields)), (SameCommit, Fail(WrongCommit)),
     (SameRelease, Fail(WrongRelease)), (SamePointRelease, Fail(WrongPointRelease)),
     (SameArchitecture, Fail(WrongArchitecture))]

  ghost predicate FirstBroken(data: Json.Value, e: Expected, n: int) {
    && 0 <= n < |CONDITIONS| && !Holds(CONDITIONS[n].0, data, e)
    && forall m :: 0 <= m < n ==> Holds(CONDITIONS[m].0, data, e)
  }

  lemma RequiredFields(data: Json.Value)
    requires data.Obj?
    ensures REQUIRED <= data.fields.Keys <==> forall e :: Holds(HasFields, data, e)
  {
    assert "distribution" in REQUIRED && "source_commit" in REQUIRED && "base_release" in REQUIRED;
    assert "architecture" in REQUIRED && "build_schema" in REQUIRED;
    assert Holds(HasFields, data, Expected(None, None, None, None)) <==> forall e :: Holds(HasFields, data, e);
  }

  function MarkerFinding(fs: Fs, json: Json.Codec, path: Path, e: Expected): Finding {
    CheckMediaMarker(fs, json, path, e.commit, e.release, e.pointRelease, e.architecture)
  }

  lemma DiffersOrAgrees(data: Json.Value, field: string, expected: Option<string>)
    ensures Differs(data, field, expected) <==> !Agrees(data, field, expected)
  {
  }

  lemma ConditionsAre(data: Json.Value, e: Expected, n: int)
    ensures FirstBroken(data, e, n) <==>
      match n
      case 0 => !Holds(IsObject, data, e)
      case 1 => Holds(IsObject, data, e) && !Holds(HasFields, data, e)
      case 2 => Holds(IsObject, data, e) && Holds(HasFields, data, e) && !Holds(SameCommit, data, e)
      case 3 =>
        && Holds(IsObject, data, e) && Holds(HasFields, data, e) && Holds(SameCommit, data, e)
        && !Holds(SameRelease, data, e)
      case 4 =>
        && Holds(IsObject, data, e) && Holds(HasFields, data, e) && Holds(SameCommit, data, e)
        && Holds(SameRelease, data, e) && !Holds(SamePointRelease, data, e)
      case 5 =>
        && Holds(IsObject, data, e) && Holds(HasFields, data, e) && Holds(SameCommit, data, e)
        && Holds(SameRelease, data, e) && Holds(SamePointRelease, data, e) && !Holds(SameArchitecture, data, e)
      case _ => false
  {
    hide Holds;
    var c := CONDITIONS;
    assert c[0].0 == IsObject && c[1].0 == HasFields && c[2].0 == SameCommit && c[3].0 == SameRelease;
    assert c[4].0 == SamePointRelease && c[5].0 == SameArchitecture && |c| == 6;
  }

  /**
    The marker check, for every file and every expectation: a file that is not there and one that does
    not parse are told apart, and of the six conditions on the document the first that is broken
    decides; the check passes if and only if none is.
   */
  lemma MarkerMeaning(fs: Fs, json: Json.Codec, path: Path, e: Expected)
    ensures MarkerFinding(fs, json, path, e) == Fail(MissingFile) <==> !fs.IsFile(path)
    ensures fs.IsFile(path) && json.loads(fs.Read(path)).None? ==>
      MarkerFinding(fs, json, path, e) == if DecodeStrict(fs.Read(path)).Some? then Fail(NotJson) else Crash
    ensures fs.IsFile(path) && json.loads(fs.Read(path)).Some? ==>
      var data := json.loads(fs.Read(path)).value;
      && (forall n :: FirstBroken(data, e, n) ==>
           0 <= n < |CONDITIONS| && MarkerFinding(fs, json, path, e) == CONDITIONS[n].1)
      && (MarkerFinding(fs, json, path, e) == Pass <==> forall c :: Holds(c, data, e))
  {
    hide Differs, FirstBroken, REQUIRED, DecodeStrict;
    if fs.IsFile(path) && json.loads(fs.Read(path)).Some? {
      var data := json.loads(fs.Read(path)).value;
      if data.Obj? { RequiredFields(data); }
      DiffersOrAgrees(data, "source_commit", e.commit);
      DiffersOrAgrees(data, "base_release", e.release);
      DiffersOrAgrees(data, "base_point_release", e.pointRelease);
      DiffersOrAgrees(data, "architecture", e.architecture);
      forall n | FirstBroken(data, e, n)
        ensures 0 <= n < |CONDITIONS| && MarkerFinding(fs, json, path, e) == CONDITIONS[n].1
      {
        ConditionsAre(data, e, n);
      }
      assert (forall c :: Holds(c, data, e)) <==>
        && Holds(IsObject, data, e) && Holds(HasFields, data, e) && Holds(SameCommit, data, e)
        && Holds(SameRelease, data, e) && Holds(SamePointRelease, data, e) && Holds(SameArchitecture, data, e);
    }
  }

  // ----- the payload manifest -----

  /** Where the file of an entry is looked for. */
  function Place(value: string): Path {
    if value != "" && value[0] == '/' then value else "serein/payload/" + value
  }

  lemma PlaceOf(value: string)
    ensures EntryFile(value) == Place(value)
  {
    assert StartsWith(value, "/") <==> value != "" && value[0] == '/';
  }

  /**
    One entry: it passes if it names a file by a text and declares that file's digest; otherwise the
    finding tells what is wrong, a path that is no text being a crash.
   */
  lemma EntryMeaning(fs: Fs, sha256: seq<Byte> -> string, entry: Json.Value, value: string)
    ensures var r := CheckEntry(fs, sha256, entry); var complete := entry.Has("path") && entry.Has("sha256");
      var named := complete && entry.Get("path") == Json.Str(value); var p := Place(value);
      && (r == Fail(Malformed) <==> !complete)
      && (r == Crash <==> complete && !entry.Get("path").Str?)
      && (r == Fail(NotOnDisk(value)) <==> named && !fs.IsFile(p))
      && (r == Fail(HashMismatch(value)) <==>
           named && fs.IsFile(p) && entry.Get("sha256") != Json.Str(sha256(fs.Read(p))))
      && (named ==>
           (r == Pass <==> fs.IsFile(p) && entry.Get("sha256") == Json.Str(sha256(fs.Read(p)))))
      && (r == Pass ==> complete && entry.Get("path").Str?)
  {
    hide EntryFile, Place;
    PlaceOf(value);
    if entry.Get("path").Str? { PlaceOf(entry.Get("path").s); }
  }

  ghost predicate FirstBad(fs: Fs, sha256: seq<Byte> -> string, entries: seq<Json.Value>, i: int) {
    && 0 <= i < |entries| && CheckEntry(fs, sha256, entries[i]) != Pass
    && forall j :: 0 <= j < i ==> CheckEntry(fs, sha256, entries[j]) == Pass
  }

  lemma {:induction false} FirstBadDecides(fs: Fs, sha256: seq<Byte> -> string, entries: seq<Json.Value>)
    ensures forall i :: FirstBad(fs, sha256, entries, i) ==>
      0 <= i < |entries| && CheckEntries(fs, sha256, entries) == CheckEntry(fs, sha256, entries[i])
    ensures (forall e :: e in entries ==> CheckEntry(fs, sha256, e) == Pass) ==>
      CheckEntries(fs, sha256, entries) == Pass
    decreases |entries|
  {
    hide CheckEntry;
    if entries != [] {
      var rest := entries[1..];
      FirstBadDecides(fs, sha256, rest);
      if CheckEntry(fs, sha256, entries[0]) == Pass {
        forall i | FirstBad(fs, sha256, entries, i) ensures i > 0 && FirstBad(fs, sha256, rest, i - 1) {
          forall j | 0 <= j < i - 1
            ensures CheckEntry(fs, sha256, rest[j]) == Pass { assert rest[j] == entries[j + 1]; }
        }
      }
    }
  }

  /** The two ends of a wheel's path do not overlap. */
  lemma EndsApart(value: string)
    requires "packages/" <= value && |value| >= 4 && value[|value| - 4..] == ".whl"
    ensures |value| >= 13
  {
    var n := |value| - 4;
    assert forall k :: 0 <= k < 4 ==> value[n..][k] == value[n + k];
    assert value[8] == "packages/"[8] == '/';
    assert forall k :: 0 <= k < 4 ==> ".whl"[k] != '/';
    assert forall i :: n <= i < n + 4 ==> value[i] == ".whl"[i - n];
  }

  /** A wheel lies below `packages` and is named so. */
  lemma WheelSyntax(value: string)
    ensures IsWheel(value) <==> exists name :: value == "packages/" + name + ".whl"
  {
    if IsWheel(value) {
      EndsApart(value);
      assert value == "packages/" + value[9..|value| - 4] + ".whl";
    }
    if name :| value == "packages/" + name + ".whl" {
      assert value[..9] == "packages/" && value[|value| - 4..] == ".whl";
    }
  }

  /**
    The manifest check of a document: the commit and the list come first, then the first entry that does
    not pass decides; only when all do is a wheel asked for.
   */
  lemma ManifestMeaning(fs: Fs, json: Json.Codec, sha256: seq<Byte> -> string, path: Path, commit: Option<string>,
                        requireWheel: bool)
    requires fs.IsFile(path) && json.loads(fs.Read(path)).Some?
    ensures var r := CheckPayloadManifest(fs, json, sha256, path, commit, requireWheel);
      var data := json.loads(fs.Read(path)).value;
      var listed := data.Get("entries").Arr? && data.Get("entries").items != [];
      && (!data.Obj? ==> r == Crash)
      && (data.Obj? && !Agrees(data, "source_commit", commit) ==> r == Fail(WrongCommit))
      && (data.Obj? && Agrees(data, "source_commit", commit) && !listed ==> r == Fail(NoEntries))
      && (data.Obj? && Agrees(data, "source_commit", commit) && listed ==>
           var entries := data.Get("entries").items;
           && (forall i :: FirstBad(fs, sha256, entries, i) ==>
                0 <= i < |entries| && r == CheckEntry(fs, sha256, entries[i]))
           && ((forall e :: e in entries ==> CheckEntry(fs, sha256, e) == Pass) ==>
                r == if requireWheel && !AnyWheel(entries) then Fail(NoWheel) else Pass))
  {
    hide CheckEntry, CheckEntries, AnyWheel, FirstBad, Differs, Agrees;
    var data := json.loads(fs.Read(path)).value;
    DiffersOrAgrees(data, "source_commit", commit);
    if data.Get("entries").Arr? {
      var entries := data.Get("entries").items;
      FirstBadDecides(fs, sha256, entries);
      forall i | FirstBad(fs, sha256, entries, i)
        ensures CheckEntries(fs, sha256, entries) != Pass
      {
        BadIsBad(fs, sha256, entries, i);
      }
    }
  }

  lemma BadIsBad(fs: Fs, sha256: seq<Byte> -> string, entries: seq<Json.Value>, i: int)
    requires FirstBad(fs, sha256, entries, i)
    ensures 0 <= i < |entries| && CheckEntry(fs, sha256, entries[i]) != Pass
  {
  }
}
