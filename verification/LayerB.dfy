/**
  From a run to closure: `_cmd_evidence` merges what a run left behind into evidence, and a passed
  closure gate on that evidence says what the run did.
 */
module LayerB {
  import opened Text
  import opened Utf8
  import opened StageStatus
  import opened Evidence
  import opened RunBuild
  import opened RunHistory
  import opened BuildGuarantees
  import Json
  import ExtractedTree

  /** The command line, and the files it names (nothing when not named or not there). */
  datatype Args = Args(
    sourceCommit: string, failureStage: Option<string>, failureReason: Option<string>,
    baseFilename: Option<string>, baseExpected: Option<string>, baseActual: Option<string>,
    productionBuild: string, productionInspection: string, qaTransition: string, qaBuild: string, qaInspection: string,
    qemuBoot: string,
    productionManifest: Option<seq<Byte>>, qaManifest: Option<seq<Byte>>, bootResult: Option<seq<Byte>>,
    marker: Option<seq<Byte>>)

  /** `value or None`. */
  function OrNone(s: Option<string>): Value {
    match s
    case None => Json.Null
    case Some(v) => if v == "" then Json.Null else Json.Str(v)
  }

  /** An optional document: null when there is no file, nothing when it does not parse. */
  function LoadOptional(json: Json.Codec, file: Option<seq<Byte>>): Option<Value> {
    match file
    case None => Some(Json.Null)
    case Some(text) => json.loads(text)
  }

  /** `doc[name]`, which raises when the field is not there. */
  function Item(doc: Option<Value>, name: string): Option<Value> {
    if doc.Some? && doc.value.Has(name) then Some(doc.value.Get(name)) else None
  }

  /** `doc["output"][name] if doc else None`. */
  function OutputItem(doc: Value, name: string): Option<Value> {
    if Truthy(doc) then Item(Item(Some(doc), "output"), name) else Some(Json.Null)
  }

  /** The three stages, and where and why the run failed. */
  datatype Stages = Stages(production: Value, transition: Value, qa: Value, failureStage: Value, failureReason: Value)

  function FromFlags(a: Args): Stages {
    Stages(Json.Str(a.productionBuild), Json.Str(a.qaTransition), Json.Str(a.qaBuild),
           Json.OfOption(a.failureStage), Json.OfOption(a.failureReason))
  }

  /** The marker, where there is one, is the truth about the three stages. */
  function MergeStages(json: Json.Codec, a: Args): Option<Stages> {
    if a.marker.None? then Some(FromFlags(a))
    else
      match LoadStatus(json, a.marker)
      case None => None
      case Some(st) =>
        var why := Truthy(st.failureStage);
        Some(Stages(Json.Str(st.production), Json.Str(st.transition), Json.Str(st.qa),
                    if why then st.failureStage else FromFlags(a).failureStage,
                    if why then st.failureReason else FromFlags(a).failureReason))
  }

  /** `assemble_layer_b_evidence`: `base_verified` is derived, never given. */
  function Assemble(a: Args, st: Stages, pf: Value, ps: Value, qf: Value, qs: Value,
                    boot: Value, mode: Value, firmware: Value, marker: Value): Option<LayerBEvidence>
  {
    var (expected, actual) := (OrNone(a.baseExpected), OrNone(a.baseActual));
    Constructed(LayerBEvidence(
      Json.Str(a.sourceCommit), st.failureStage, st.failureReason,
      OrNone(a.baseFilename), expected, actual, expected != Json.Null && actual != Json.Null && expected == actual,
      pf, ps, st.production, Json.Str(a.productionInspection),
      st.transition, qf, qs, st.qa, Json.Str(a.qaInspection),
      boot, mode, firmware, marker, false, false, Json.Num(SCHEMA_VERSION)))
  }

  /** The evidence a run of the command assembles; nothing when it raises. */
  function Merge(json: Json.Codec, a: Args): Option<LayerBEvidence> {
    var prod, qa := LoadOptional(json, a.productionManifest), LoadOptional(json, a.qaManifest);
    var boot, stages := LoadOptional(json, a.bootResult), MergeStages(json, a);
    if prod.None? || qa.None? || boot.None? || stages.None? then None
    else
      var pf, ps := OutputItem(prod.value, "filename"), OutputItem(prod.value, "sha256");
      var qf, qs := OutputItem(qa.value, "filename"), OutputItem(qa.value, "sha256");
      var booted := Truthy(boot.value);
      var status := if booted then Item(boot, "status") else Some(Json.Str(a.qemuBoot));
      var mode := if booted then Item(boot, "boot_mode") else Some(Json.Null);
      var firmware := if booted then boot.value.Get("firmware") else Json.Null;
      var marker := if booted then Item(boot, "matched_marker") else Some(Json.Null);
      if pf.None? || ps.None? || qf.None? || qs.None? || status.None? || mode.None? || marker.None? then None
      else Assemble(a, stages.value, pf.value, ps.value, qf.value, qs.value, status.value, mode.value, firmware,
        marker.value)
  }

  /** `_cmd_evidence`: the bytes it writes, or nothing when it raises. */
  method CmdEvidence(json: Json.Codec, a: Args) returns (written: Option<seq<Byte>>)
    ensures written == match Merge(json, a)
      case None => None
      case Some(e) => Some(json.dumps(EvidenceJson(e)))
  {
    hide EvidenceJson, LoadStatus, OutputItem, Item, Assemble, Truthy, LoadOptional;
    var prod := LoadOptional(json, a.productionManifest);
    if prod.None? { return None; }
    var qa := LoadOptional(json, a.qaManifest);
    if qa.None? { return None; }
    var boot := LoadOptional(json, a.bootResult);
    if boot.None? { return None; }

    var failureStage, failureReason := Json.OfOption(a.failureStage), Json.OfOption(a.failureReason);
    var production, transition, qaBuild := a.productionBuild, a.qaTransition, a.qaBuild;
    if a.marker.Some? {
      var loaded := LoadStatus(json, a.marker);
      if loaded.None? { return None; }
      var status := loaded.value;
      production, transition, qaBuild := status.production, status.transition, status.qa;
      if Truthy(status.failureStage) {
        failureStage, failureReason := status.failureStage, status.failureReason;
      }
    }
    var stages := Stages(Json.Str(production), Json.Str(transition), Json.Str(qaBuild), failureStage, failureReason);

    var pf, ps := OutputItem(prod.value, "filename"), OutputItem(prod.value, "sha256");
    var qf, qs := OutputItem(qa.value, "filename"), OutputItem(qa.value, "sha256");
    var status, mode, firmware, marker := Some(Json.Str(a.qemuBoot)), Some(Json.Null), Json.Null, Some(Json.Null);
    if Truthy(boot.value) {
      status, mode, marker := Item(boot, "status"), Item(boot, "boot_mode"), Item(boot, "matched_marker");
      firmware := boot.value.Get("firmware");
    }
    if pf.None? || ps.None? || qf.None? || qs.None? || status.None? || mode.None? || marker.None? { return None; }
    var e := Assemble(a, stages, pf.value, ps.value, qf.value, qs.value, status.value, mode.value, firmware,
      marker.value);
    if e.None? { return None; }
    written := Some(json.dumps(EvidenceJson(e.value)));
  }

  /** `_cmd_closure_gate` on an evidence file. */
  ghost predicate GatePasses(json: Json.Codec, text: seq<Byte>, expected: string) {
    var e := LoadEvidence(json, text);
    e.Some? && Closes(e.value, expected)
  }

  /** What assembled evidence says about the stages, the base image and the commit. */
  lemma MergedFields(json: Json.Codec, a: Args)
    requires Merge(json, a).Some?
    ensures var e := Merge(json, a).value;
      && e.Valid() && MergeStages(json, a).Some?
      && e.sourceCommit == Json.Str(a.sourceCommit)
      && e.productionBuild == MergeStages(json, a).value.production
      && e.qaTransition == MergeStages(json, a).value.transition
      && e.qaBuild == MergeStages(json, a).value.qa
      && (e.baseVerified <==> OrNone(a.baseExpected) == OrNone(a.baseActual) != Json.Null)
      && e.baseFilename == OrNone(a.baseFilename)
      && e.baseExpected == OrNone(a.baseExpected) && e.baseActual == OrNone(a.baseActual)
      && e.productionInspection == Json.Str(a.productionInspection) && e.qaInspection == Json.Str(a.qaInspection)
      && !e.diskAttached && !e.autoinstall && e.schema == Json.Num(3)
  {
    hide EvidenceJson, MergeStages, OutputItem, Item, Truthy, LoadOptional, OrNone;
  }

  /** `doc["output"][name]`, or null for a document that is absent or empty. */
  function Traced(doc: Value, name: string): Value {
    if Truthy(doc) then doc.Get("output").Get(name) else Json.Null
  }

  /**
    Every artifact field is read from the one document it belongs to, a missing document gives
    nulls, and the flags decide about the failure only where the marker names none.
   */
  lemma MergedArtifacts(json: Json.Codec, a: Args, production: Value, qa: Value, boot: Value)
    requires Merge(json, a).Some?
    requires LoadOptional(json, a.productionManifest) == Some(production)
    requires LoadOptional(json, a.qaManifest) == Some(qa) && LoadOptional(json, a.bootResult) == Some(boot)
    ensures var e := Merge(json, a).value;
      && e.productionFilename == Traced(production, "filename") && e.productionSha == Traced(production, "sha256")
      && e.qaFilename == Traced(qa, "filename") && e.qaSha == Traced(qa, "sha256")
      && (if Truthy(boot) then
            && e.qemuBoot == boot.Get("status") && e.bootMode == boot.Get("boot_mode")
            && e.firmware == boot.Get("firmware") && e.bootMarker == boot.Get("matched_marker")
          else e.qemuBoot == Json.Str(a.qemuBoot) && e.bootMode == e.firmware == e.bootMarker == Json.Null)
    ensures var (e, st) := (Merge(json, a).value, LoadStatus(json, a.marker));
      if a.marker.Some? && Truthy(st.value.failureStage) then
        e.failureStage == st.value.failureStage && e.failureReason == st.value.failureReason
      else e.failureStage == Json.OfOption(a.failureStage) && e.failureReason == Json.OfOption(a.failureReason)
  {
    hide EvidenceJson, LoadStatus, LoadOptional, OrNone, Truthy, LayerBEvidence.Valid;
  }

  /** A build manifest that is there names its output file and digest. */
  predicate NamesOutput(doc: Value) {
    Truthy(doc) ==> doc.Has("output") && doc.Get("output").Has("filename") && doc.Get("output").Has("sha256")
  }

  /** A boot result that is there says how the boot ended. */
  predicate TellsBoot(doc: Value) {
    Truthy(doc) ==> doc.Has("status") && doc.Has("boot_mode") && doc.Has("matched_marker")
  }

  predicate StagesKnown(a: Args, st: Stages, boot: Value) {
    && Known(st.production) && Known(st.transition) && Known(st.qa)
    && IsStage(a.productionInspection) && IsStage(a.qaInspection)
    && (if Truthy(boot) then Known(boot.Get("status")) else IsStage(a.qemuBoot))
  }

  /**
    When evidence can be assembled at all: every document that is named and there parses and is complete,
    the marker loads, and each of the six stages has a known value.
   */
  lemma MergeDefined(json: Json.Codec, a: Args)
    ensures Merge(json, a).Some? <==>
      && LoadOptional(json, a.productionManifest).Some? && NamesOutput(LoadOptional(json, a.productionManifest).value)
      && LoadOptional(json, a.qaManifest).Some? && NamesOutput(LoadOptional(json, a.qaManifest).value)
      && LoadOptional(json, a.bootResult).Some? && TellsBoot(LoadOptional(json, a.bootResult).value)
      && MergeStages(json, a).Some?
      && StagesKnown(a, MergeStages(json, a).value, LoadOptional(json, a.bootResult).value)
  {
    hide EvidenceJson, MergeStages, Truthy, LoadOptional, OrNone, IsStage;
  }

  lemma GateReadsWhatWasWritten(json: Json.Codec, a: Args, expected: string)
    requires json.Faithful() && Merge(json, a).Some?
    ensures GatePasses(json, json.dumps(EvidenceJson(Merge(json, a).value)), expected) <==>
      Closes(Merge(json, a).value, expected)
  {
    hide Merge, EvidenceJson, LoadEvidence, Closes;
    MergedFields(json, a);
    EvidenceRoundTrip(json, Merge(json, a).value);
  }

  /**
    The whole chain: if the closure gate passes on the evidence written from the marker a run left,
    then in that run both images were rebuilt and both manifests recorded, in order, with the
    transition between them; the base hashes were given and equal; and the commit is the expected
    one.
   */
  lemma ClosureMeansCompleted(env: Env, tree: ExtractedTree.Fs, a: Args, expected: string)
    requires env.Valid() && a.marker.Some? && a.marker == Run(env, Start(tree)).0.marker
    requires Merge(env.b.json, a).Some?
    requires GatePasses(env.b.json, env.b.json.dumps(EvidenceJson(Merge(env.b.json, a).value)), expected)
    ensures CompletedInOrder(Run(env, Start(tree)).0.trace)
    ensures a.baseExpected.Some? && a.baseExpected == a.baseActual && a.baseExpected.value != ""
    ensures a.sourceCommit == expected
  {
    hide Run, Merge, EvidenceJson, CompletedInOrder, GatePasses, Env.Valid, LoadStatus;
    CodecIsFaithful(env);
    GateReadsWhatWasWritten(env.b.json, a, expected);
    var e := Merge(env.b.json, a).value;
    MergedFields(env.b.json, a);
    assert Meets(e, expected, Check.QaBuild) && Meets(e, expected, Check.SourceCommit)
      && Meets(e, expected, Check.BaseVerified);
    PassMeansCompleted(env, tree);
  }

  lemma CodecIsFaithful(env: Env)
    requires env.Valid()
    ensures env.b.json.Faithful()
  {
  }

  /** The checks that are not about the three stages of the build. */
  predicate OtherwiseMet(a: Args, e: LayerBEvidence, expected: string) {
    && a.sourceCommit == expected && OrNone(a.baseExpected) == OrNone(a.baseActual) != Json.Null
    && e.productionInspection == Json.Str(PASS) && e.qaInspection == Json.Str(PASS)
    && e.qemuBoot == Json.Str(PASS) && e.bootMode == Json.Str("uefi") && Truthy(e.bootMarker)
  }

  /** The gate asks for three passed stages, wherever they come from, and for the other checks. */
  lemma GateByStages(json: Json.Codec, a: Args, expected: string)
    requires Merge(json, a).Some?
    ensures MergeStages(json, a).Some?
    ensures var (e, st) := (Merge(json, a).value, MergeStages(json, a).value);
      Closes(e, expected) <==>
        st.production == st.transition == st.qa == Json.Str(PASS) && OtherwiseMet(a, e, expected)
  {
    hide Merge, MergeStages, Truthy, OrNone;
    MergedFields(json, a);
    var e := Merge(json, a).value;
    ChecksAre(e, expected);
    if Closes(e, expected) {
      assert Meets(e, expected, Check.ProductionBuild) && Meets(e, expected, Check.QaTransition)
        && Meets(e, expected, Check.QaBuild);
      assert Meets(e, expected, Check.SourceCommit) && Meets(e, expected, Check.BaseVerified);
      assert Meets(e, expected, Check.ProductionInspection) && Meets(e, expected, Check.QaInspection);
      assert Meets(e, expected, Check.QemuBoot) && Meets(e, expected, Check.BootMode)
        && Meets(e, expected, Check.BootMarker);
    }
  }

  /** The other way round: from a run whose marker shows all three passes, the gate decides on the other nine checks. */
  lemma GateAfterCompleteRun(json: Json.Codec, a: Args, expected: string)
    requires json.Faithful() && a.marker == Some(TextOf(json, ALL_PASS)) && Merge(json, a).Some?
    ensures Closes(Merge(json, a).value, expected) <==> OtherwiseMet(a, Merge(json, a).value, expected)
  {
    hide Merge, EvidenceJson, TextOf, OtherwiseMet, LoadStatus;
    MarkerRoundTrip(json, ALL_PASS);
    GateByStages(json, a, expected);
    assert MergeStages(json, a).value.qa == Json.Str(PASS);
  }

  /** Without a marker file the gate decides by the three flags and the other checks. */
  lemma GateWithoutMarker(json: Json.Codec, a: Args, expected: string)
    requires a.marker.None? && Merge(json, a).Some?
    ensures Closes(Merge(json, a).value, expected) <==>
      a.productionBuild == a.qaTransition == a.qaBuild == PASS && OtherwiseMet(a, Merge(json, a).value, expected)
  {
    hide Merge, OtherwiseMet;
    GateByStages(json, a, expected);
  }

  /** A boot result that passes. */
  function BootedJson(): Value {
    Json.Obj(map["status" := Json.Str(PASS), "boot_mode" := Json.Str("uefi"), "firmware" := Json.Null,
      "matched_marker" := Json.Str("login:")])
  }

  /**
    So the marker is what ties the gate to the run: a run that is refused before it begins
    leaves no marker, and there are arguments with which the gate passes all the same.
   */
  lemma FlagsAloneClose(env: Env, tree: ExtractedTree.Fs, expected: string) returns (a: Args)
    requires env.Valid() && Preflight(env).Some?
    ensures a.marker == None == Run(env, Start(tree)).0.marker && !CompletedInOrder(Run(env, Start(tree)).0.trace)
    ensures Merge(env.b.json, a).Some?
    ensures GatePasses(env.b.json, env.b.json.dumps(EvidenceJson(Merge(env.b.json, a).value)), expected)
  {
    hide EvidenceJson, GatePasses, Env.Valid, Merge, MergeStages, Closes, Preflight, BootedJson;
    a := Args(expected, None, None, None, Some("x"), Some("x"), PASS, PASS, PASS, PASS, PASS, PASS, None, None,
              Some(env.b.json.dumps(BootedJson())), None);
    CodecIsFaithful(env);
    FlagsMerge(env.b.json, a);
    GateWithoutMarker(env.b.json, a, expected);
    GateReadsWhatWasWritten(env.b.json, a, expected);
  }

  lemma FlagsMerge(json: Json.Codec, a: Args)
    requires json.Faithful() && a.marker.None? && a.productionManifest.None? && a.qaManifest.None?
    requires a.bootResult == Some(json.dumps(BootedJson()))
    requires a.productionBuild == a.productionInspection == a.qaTransition == PASS
    requires a.qaBuild == a.qaInspection == a.qemuBoot == PASS
    requires a.baseExpected == a.baseActual == Some("x")
    ensures Merge(json, a).Some? && OtherwiseMet(a, Merge(json, a).value, a.sourceCommit)
  {
    BootFieldsAre();
    hide BootedJson;
    assert json.loads(json.dumps(BootedJson())) == Some(BootedJson());
  }

  lemma BootFieldsAre()
    ensures var boot := BootedJson();
      && Truthy(boot) && Item(Some(boot), "status") == Some(Json.Str(PASS))
      && Item(Some(boot), "boot_mode") == Some(Json.Str("uefi"))
      && Item(Some(boot), "matched_marker") == Some(Json.Str("login:"))
  {
    assert "status" in BootedJson().fields.Keys;
  }
}
