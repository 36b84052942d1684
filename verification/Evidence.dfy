/**
  Layer-B evidence (`src/serein/distribution/evidence.py`) and the closure gate
  (`src/serein/distribution/closure.py`).
 */
module Evidence {
  import opened Text
  import opened Utf8
  import opened StageStatus
  import Json

  type Value = Json.Value

  /** `LayerBEvidence`; a field typed `str | None` holds whatever JSON value it was given. */
  datatype LayerBEvidence = LayerBEvidence(
    sourceCommit: Value, failureStage: Value, failureReason: Value,
    baseFilename: Value, baseExpected: Value, baseActual: Value, baseVerified: bool,
    productionFilename: Value, productionSha: Value, productionBuild: Value, productionInspection: Value,
    qaTransition: Value, qaFilename: Value, qaSha: Value, qaBuild: Value, qaInspection: Value,
    qemuBoot: Value, bootMode: Value, firmware: Value, bootMarker: Value,
    diskAttached: bool, autoinstall: bool, schema: Value)
  {
    /** What `__post_init__` demands. */
    predicate Valid() {
      && Known(productionBuild) && Known(productionInspection) && Known(qaTransition)
      && Known(qaBuild) && Known(qaInspection) && Known(qemuBoot)
    }
  }

  predicate Known(v: Value) {
    v.Str? && IsStage(v.s)
  }

  /** Construction raises, so gives nothing, on an unknown stage value. */
  function Constructed(e: LayerBEvidence): Option<LayerBEvidence> {
    if e.Valid() then Some(e) else None
  }

  function EvidenceJson(e: LayerBEvidence): Value {
    Json.Obj(map[
      "schema_version" := e.schema,
      "source_commit" := e.sourceCommit,
      "failure_stage" := e.failureStage,
      "failure_reason" := e.failureReason,
      "base_filename" := e.baseFilename,
      "base_sha256_expected" := e.baseExpected,
      "base_sha256_actual" := e.baseActual,
      "base_verified" := Json.Bool(e.baseVerified),
      "production_iso_filename" := e.productionFilename,
      "production_iso_sha256" := e.productionSha,
      "production_build" := e.productionBuild,
      "production_inspection" := e.productionInspection,
      "qa_transition" := e.qaTransition,
      "qa_iso_filename" := e.qaFilename,
      "qa_iso_sha256" := e.qaSha,
      "qa_build" := e.qaBuild,
      "qa_inspection" := e.qaInspection,
      "qemu_boot" := e.qemuBoot,
      "qemu_boot_mode" := e.bootMode,
      "ovmf_firmware" := e.firmware,
      "boot_marker" := e.bootMarker,
      "target_disk_attached" := Json.Bool(e.diskAttached),
      "autoinstall_enabled" := Json.Bool(e.autoinstall)])
  }

  function StageIn(data: Value, name: string): Value {
    if data.Has(name) then data.Get(name) else Json.Str(NOT_PERFORMED)
  }

  /** `load_layer_b_evidence`: nothing when it raises. */
  function LoadEvidence(json: Json.Codec, text: seq<Byte>): Option<LayerBEvidence> {
    match json.loads(text)
    case None => None
    case Some(data) =>
      if !data.Has("source_commit") then None
      else Constructed(FieldsOf(data))
  }

  function FieldsOf(data: Value): LayerBEvidence {
    LayerBEvidence(
      data.Get("source_commit"), data.Get("failure_stage"), data.Get("failure_reason"),
      data.Get("base_filename"), data.Get("base_sha256_expected"), data.Get("base_sha256_actual"),
      Truthy(data.Get("base_verified")),
      data.Get("production_iso_filename"), data.Get("production_iso_sha256"),
      StageIn(data, "production_build"), StageIn(data, "production_inspection"),
      StageIn(data, "qa_transition"), data.Get("qa_iso_filename"), data.Get("qa_iso_sha256"),
      StageIn(data, "qa_build"), StageIn(data, "qa_inspection"),
      StageIn(data, "qemu_boot"), data.Get("qemu_boot_mode"), data.Get("ovmf_firmware"), data.Get("boot_marker"),
      Truthy(data.Get("target_disk_attached")), Truthy(data.Get("autoinstall_enabled")),
      if data.Has("schema_version") then data.Get("schema_version") else Json.Num(SCHEMA_VERSION))
  }

  const SCHEMA_VERSION := 3

  /** `bool(value)`; an absent field reads as null, which is false like the default. */
  predicate Truthy(v: Value) {
    match v
    case Null => false
    case Bool(b) => b
    case Num(n) => n != 0
    case Str(s) => s != ""
    case Arr(items) => items != []
    case Obj(fields) => fields.Keys != {}
  }

  /** The document has field `name` with value `v`. */
  predicate Holds(data: Value, name: string, v: Value) {
    data.Has(name) && data.Get(name) == v
  }

  lemma CommitFields(e: LayerBEvidence)
    ensures var data := EvidenceJson(e);
      && Holds(data, "source_commit", e.sourceCommit)
      && Holds(data, "schema_version", e.schema)
  {
  }

  lemma FailureFields(e: LayerBEvidence)
    ensures var data := EvidenceJson(e);
      && Holds(data, "failure_stage", e.failureStage)
      && Holds(data, "failure_reason", e.failureReason)
  {
  }

  lemma BaseFields(e: LayerBEvidence)
    ensures var data := EvidenceJson(e);
      && Holds(data, "base_filename", e.baseFilename)
      && Holds(data, "base_sha256_expected", e.baseExpected)
  {
  }

  lemma VerifiedFields(e: LayerBEvidence)
    ensures var data := EvidenceJson(e);
      && Holds(data, "base_sha256_actual", e.baseActual)
      && Holds(data, "base_verified", Json.Bool(e.baseVerified))
  {
  }

  lemma ProductionFields(e: LayerBEvidence)
    ensures var data := EvidenceJson(e);
      && Holds(data, "production_iso_filename", e.productionFilename)
      && Holds(data, "production_iso_sha256", e.productionSha)
      && Holds(data, "production_build", e.productionBuild)
      && Holds(data, "production_inspection", e.productionInspection)
  {
  }

  lemma QaFields(e: LayerBEvidence)
    ensures var data := EvidenceJson(e);
      && Holds(data, "qa_transition", e.qaTransition)
      && Holds(data, "qa_iso_filename", e.qaFilename)
      && Holds(data, "qa_iso_sha256", e.qaSha)
      && Holds(data, "qa_build", e.qaBuild)
      && Holds(data, "qa_inspection", e.qaInspection)
  {
  }

  lemma BootFields(e: LayerBEvidence)
    ensures var data := EvidenceJson(e);
      && Holds(data, "qemu_boot", e.qemuBoot)
      && Holds(data, "qemu_boot_mode", e.bootMode)
      && Holds(data, "ovmf_firmware", e.firmware)
      && Holds(data, "boot_marker", e.bootMarker)
  {
  }

  lemma FlagFields(e: LayerBEvidence)
    ensures var data := EvidenceJson(e);
      && Holds(data, "target_disk_attached", Json.Bool(e.diskAttached))
      && Holds(data, "autoinstall_enabled", Json.Bool(e.autoinstall))
  {
  }

  lemma EvidenceFields(e: LayerBEvidence)
    ensures FieldsOf(EvidenceJson(e)) == e && EvidenceJson(e).Has("source_commit")
  {
    hide EvidenceJson;
    CommitFields(e);
    FailureFields(e);
    BaseFields(e);
    VerifiedFields(e);
    ProductionFields(e);
    QaFields(e);
    BootFields(e);
    FlagFields(e);
  }

  /** Evidence survives write and load unchanged exactly when it can be constructed at all. */
  lemma EvidenceRoundTrip(json: Json.Codec, e: LayerBEvidence)
    requires json.Faithful()
    ensures LoadEvidence(json, json.dumps(EvidenceJson(e))) == Some(e) <==> e.Valid()
  {
    hide EvidenceJson, FieldsOf, LayerBEvidence.Valid;
    EvidenceFields(e);
    assert json.loads(json.dumps(EvidenceJson(e))) == Some(EvidenceJson(e));
  }

  // ----- the closure gate -----

  datatype Check =
    | SourceCommit | BaseVerified | ProductionBuild | ProductionInspection | QaTransition | QaBuild | QaInspection
    | QemuBoot | BootMode | BootMarker | NoDisk | NoAutoinstall

  predicate Says(v: Value, s: string) {
    v == Json.Str(s)
  }

  predicate Meets(e: LayerBEvidence, expected: string, c: Check) {
    match c
    case SourceCommit => Says(e.sourceCommit, expected)
    case BaseVerified => e.baseVerified
    case ProductionBuild => Says(e.productionBuild, PASS)
    case ProductionInspection => Says(e.productionInspection, PASS)
    case QaTransition => Says(e.qaTransition, PASS)
    case QaBuild => Says(e.qaBuild, PASS)
    case QaInspection => Says(e.qaInspection, PASS)
    case QemuBoot => Says(e.qemuBoot, PASS)
    case BootMode => Says(e.bootMode, "uefi")
    case BootMarker => Truthy(e.bootMarker)
    case NoDisk => !e.diskAttached
    case NoAutoinstall => !e.autoinstall
  }

  function Rank(c: Check): nat {
    match c
    case SourceCommit => 0
    case BaseVerified => 1
    case ProductionBuild => 2
    case ProductionInspection => 3
    case QaTransition => 4
    case QaBuild => 5
    case QaInspection => 6
    case QemuBoot => 7
    case BootMode => 8
    case BootMarker => 9
    case NoDisk => 10
    case NoAutoinstall => 11
  }

  /** The unmet checks among the first `n`, in order. */
  ghost predicate Unmet(failures: seq<Check>, e: LayerBEvidence, expected: string, n: nat) {
    && (forall c :: c in failures <==> Rank(c) < n && !Meets(e, expected, c))
    && forall i, j :: 0 <= i < j < |failures| ==> Rank(failures[i]) < Rank(failures[j])
  }

  lemma Next(failures: seq<Check>, e: LayerBEvidence, expected: string, c: Check)
    requires Unmet(failures, e, expected, Rank(c))
    ensures Unmet(if Meets(e, expected, c) then failures else failures + [c], e, expected, Rank(c) + 1)
  {
    hide Meets;
    forall d | Rank(d) == Rank(c) ensures d == c {}
    var longer := failures + [c];
    forall i | 0 <= i < |failures| ensures Rank(longer[i]) < Rank(c) {
      assert failures[i] in failures;
    }
  }

  lemma ChecksAre(e: LayerBEvidence, expected: string)
    ensures Rank(SourceCommit) == 0 && Meets(e, expected, SourceCommit) == Says(e.sourceCommit, expected)
    ensures Rank(BaseVerified) == 1 && Meets(e, expected, BaseVerified) == e.baseVerified
    ensures Rank(ProductionBuild) == 2 && Meets(e, expected, ProductionBuild) == Says(e.productionBuild, PASS)
    ensures Rank(ProductionInspection) == 3
      && Meets(e, expected, ProductionInspection) == Says(e.productionInspection, PASS)
    ensures Rank(QaTransition) == 4 && Meets(e, expected, QaTransition) == Says(e.qaTransition, PASS)
    ensures Rank(QaBuild) == 5 && Meets(e, expected, QaBuild) == Says(e.qaBuild, PASS)
    ensures Rank(QaInspection) == 6 && Meets(e, expected, QaInspection) == Says(e.qaInspection, PASS)
    ensures Rank(QemuBoot) == 7 && Meets(e, expected, QemuBoot) == Says(e.qemuBoot, PASS)
    ensures Rank(BootMode) == 8 && Meets(e, expected, BootMode) == Says(e.bootMode, "uefi")
    ensures Rank(BootMarker) == 9 && Meets(e, expected, BootMarker) == Truthy(e.bootMarker)
    ensures Rank(NoDisk) == 10 && Meets(e, expected, NoDisk) == !e.diskAttached
    ensures Rank(NoAutoinstall) == 11 && Meets(e, expected, NoAutoinstall) == !e.autoinstall
  {
    hide Says, Truthy;
  }

  /** `if not met: failures.append(c)`. */
  method AppendUnless(met: bool, failures: seq<Check>, c: Check, ghost e: LayerBEvidence, ghost expected: string)
    returns (r: seq<Check>)
    requires met == Meets(e, expected, c) && Unmet(failures, e, expected, Rank(c))
    ensures Unmet(r, e, expected, Rank(c) + 1)
  {
    hide *;
    Next(failures, e, expected, c);
    r := failures;
    if !met {
      r := failures + [c];
    }
  }

  /**
    `enforce_layer_b_closure`: the failures it raises with, each check that is not met once and in
    order; the gate is passed when there is none.
   */
  method EnforceLayerBClosure(e: LayerBEvidence, expected: string) returns (failures: seq<Check>)
    ensures forall c :: c in failures <==> !Meets(e, expected, c)
    ensures forall i, j :: 0 <= i < j < |failures| ==> Rank(failures[i]) < Rank(failures[j])
  {
    hide *;
    ChecksAre(e, expected);
    NoneUnmet(e, expected);
    failures := [];
    failures := AppendUnless(Says(e.sourceCommit, expected), failures, SourceCommit, e, expected);
    failures := AppendUnless(e.baseVerified, failures, BaseVerified, e, expected);
    failures := AppendUnless(Says(e.productionBuild, PASS), failures, ProductionBuild, e, expected);
    failures := AppendUnless(Says(e.productionInspection, PASS), failures, ProductionInspection, e, expected);
    failures := AppendUnless(Says(e.qaTransition, PASS), failures, QaTransition, e, expected);
    failures := AppendUnless(Says(e.qaBuild, PASS), failures, QaBuild, e, expected);
    failures := AppendUnless(Says(e.qaInspection, PASS), failures, QaInspection, e, expected);
    failures := AppendUnless(Says(e.qemuBoot, PASS), failures, QemuBoot, e, expected);
    failures := AppendUnless(Says(e.bootMode, "uefi"), failures, BootMode, e, expected);
    failures := AppendUnless(Truthy(e.bootMarker), failures, BootMarker, e, expected);
    failures := AppendUnless(!e.diskAttached, failures, NoDisk, e, expected);
    failures := AppendUnless(!e.autoinstall, failures, NoAutoinstall, e, expected);
    AllUnmet(failures, e, expected);
  }

  lemma NoneUnmet(e: LayerBEvidence, expected: string)
    ensures Unmet([], e, expected, 0)
  {
  }

  lemma AllUnmet(failures: seq<Check>, e: LayerBEvidence, expected: string)
    requires Unmet(failures, e, expected, 12)
    ensures forall c :: c in failures <==> !Meets(e, expected, c)
    ensures forall i, j :: 0 <= i < j < |failures| ==> Rank(failures[i]) < Rank(failures[j])
  {
    hide Meets;
    forall c: Check ensures Rank(c) < 12 {}
  }

  /** The gate is passed. */
  predicate Closes(e: LayerBEvidence, expected: string) {
    forall c :: Meets(e, expected, c)
  }

  /** What the gate asks for, condition by condition. */
  lemma ClosesMeaning(e: LayerBEvidence, expected: string)
    ensures Closes(e, expected) <==>
      && e.sourceCommit == Json.Str(expected) && e.baseVerified
      && e.productionBuild == Json.Str("pass") && e.productionInspection == Json.Str("pass")
      && e.qaTransition == Json.Str("pass") && e.qaBuild == Json.Str("pass") && e.qaInspection == Json.Str("pass")
      && e.qemuBoot == Json.Str("pass") && e.bootMode == Json.Str("uefi") && Truthy(e.bootMarker)
      && !e.diskAttached && !e.autoinstall
  {
    ChecksAre(e, expected);
    hide Truthy;
    if Closes(e, expected) {
      assert Meets(e, expected, SourceCommit) && Meets(e, expected, BaseVerified)
        && Meets(e, expected, ProductionBuild);
      assert Meets(e, expected, ProductionInspection) && Meets(e, expected, QaTransition)
        && Meets(e, expected, QaBuild);
      assert Meets(e, expected, QaInspection) && Meets(e, expected, QemuBoot) && Meets(e, expected, BootMode);
      assert Meets(e, expected, BootMarker) && Meets(e, expected, NoDisk) && Meets(e, expected, NoAutoinstall);
    }
  }

  /** Evidence that nothing was performed. */
  function NothingPerformed(commit: string): LayerBEvidence {
    var none := Json.Str("not_performed");
    LayerBEvidence(Json.Str(commit), Json.Null, Json.Null, Json.Null, Json.Null, Json.Null, false,
      Json.Null, Json.Null, none, none, none, Json.Null, Json.Null, none, none, none, Json.Null, Json.Null, Json.Null,
      false, false, Json.Num(3))
  }

  /** The document has the commit and no other field. */
  ghost predicate OnlyCommit(data: Value, commit: string) {
    forall name :: data.Has(name) == (name == "source_commit") &&
      data.Get(name) == if name == "source_commit" then Json.Str(commit) else Json.Null
  }

  lemma CommitOnly(commit: string)
    ensures OnlyCommit(Json.Obj(map["source_commit" := Json.Str(commit)]), commit)
  {
  }

  lemma SparseFields(data: Value, commit: string)
    requires OnlyCommit(data, commit)
    ensures FieldsOf(data) == NothingPerformed(commit) && data.Has("source_commit")
  {
    OtherNames();
    hide Json.Value.Has, Json.Value.Get;
  }

  lemma Loaded(json: Json.Codec, text: seq<Byte>, data: Value)
    requires json.loads(text) == Some(data) && data.Has("source_commit") && FieldsOf(data).Valid()
    ensures LoadEvidence(json, text) == Some(FieldsOf(data))
  {
    hide FieldsOf, LayerBEvidence.Valid, Json.Value.Has;
  }

  lemma NothingIsValid(commit: string)
    ensures NothingPerformed(commit).Valid()
  {
  }

  lemma DumpedAndLoaded(json: Json.Codec, data: Value)
    requires json.Faithful()
    ensures json.loads(json.dumps(data)) == Some(data)
  {
  }

  /** A document with nothing but a commit loads as evidence that nothing was performed. */
  lemma SparseEvidence(json: Json.Codec, commit: string)
    requires json.Faithful()
    ensures LoadEvidence(json, json.dumps(Json.Obj(map["source_commit" := Json.Str(commit)])))
      == Some(NothingPerformed(commit))
  {
    hide *;
    var data := Json.Obj(map["source_commit" := Json.Str(commit)]);
    DumpedAndLoaded(json, data);
    CommitOnly(commit);
    SparseFields(data, commit);
    NothingIsValid(commit);
    Loaded(json, json.dumps(data), data);
  }

  /** No other field is called like the commit. */
  lemma OtherNames()
    ensures forall name :: name in FIELDS ==> name != "source_commit"
  {
    assert forall name :: name in FIELDS ==> |name| != 13 || name[0] != 's';
  }

  const FIELDS: set<string> :=
    {"failure_stage", "failure_reason", "base_filename", "base_sha256_expected", "base_sha256_actual", "base_verified",
     "production_iso_filename", "production_iso_sha256", "production_build", "production_inspection", "qa_transition",
     "qa_iso_filename", "qa_iso_sha256", "qa_build", "qa_inspection", "qemu_boot", "qemu_boot_mode", "ovmf_firmware",
     "boot_marker", "target_disk_attached", "autoinstall_enabled", "schema_version"}
}
