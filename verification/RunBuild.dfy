/**
  `run_build` of `src/serein/distribution/build.py` as a protocol of steps that may fail.  Every
  external step is an oracle; the extracted tree, the stage marker and the cached base image are
  the state; the history records what happened.
 */
module RunBuild {
  import opened Text
  import opened Utf8
  import opened ExtractedTree
  import opened Payload
  import opened StageStatus
  import opened Rebuild
  import Json
  import Shlex
  import BuildAgreement
  import QaTransition

  const VOLUME_ID := "SEREIN_ALPHA"

  datatype Variant = Production | Qa

  /** The external commands; a rebuild packs the tree as it stands. */
  datatype Command = Extract | Report | Wheel | RebuildIso(variant: Variant, argv: seq<string>, content: Fs)

  /** What a marker write that failed leaves on disk. */
  datatype Left = Complete | Untouched | Garbled(bytes: seq<Byte>)

  datatype Event =
    | Ran(command: Command, ok: bool)
    | Recorded(variant: Variant)                    // build manifest and sha256 written
    | Transitioned(outcome: QaTransition.Outcome)
    | Marked(status: Status, left: Left)
    | Released                                      // the cached base ISO deleted

  /** `Interrupt` is what `except Exception` does not catch. */
  datatype Exn = Failure(reason: string) | Interrupt

  datatype Step =
    | LoadSpec | VerifyBase | ResetWorkspace | Extracting | Reporting | Overlaying | BuildingWheel | CheckingWheel
    | CopyingPayload | Rebuilding(variant: Variant) | Recording(variant: Variant) | Releasing

  /** What a message is about. */
  datatype Issue =
    | NoCommit | Iso(e: Shlex.IsoError) | Overlay(applied: Applied) | Copy(written: Written)
    | Transition(outcome: QaTransition.Outcome) | Unsafe(outcome: QaTransition.Outcome)

  /**
    One run's inputs and its environment: what each step raises, what the commands produce, and the
    debris a step that raises half way leaves in the tree.
   */
  datatype Env = Env(
    b: BuildAgreement.Build, ephemeral: bool, buildQa: bool,
    raises: Step -> Option<Exn>, markFault: Status -> Option<(Exn, Left)>, unclassified: Exn,
    says: Issue -> string,
    extracted: Fs, debris: Step -> Fs, report: string, overlay: seq<File>,
    lib: QaTransition.Library, faults: QaTransition.Faults,
    treeDir: string, outputs: Variant -> string)
  {
    ghost predicate Valid() {
      && b.Valid() && extracted.Valid()
      && forall st :: markFault(st).Some? && markFault(st).value.1.Garbled? ==>
        b.json.loads(markFault(st).value.1.bytes) == None
    }
  }

  datatype State = State(tree: Fs, trace: seq<Event>, marker: Option<seq<Byte>>, base: bool)
  {
    function Do(e: Event): State {
      this.(trace := trace + [e])
    }
  }

  datatype Attempt<T> = Got(value: T) | Threw(exn: Exn)

  /** `BuildResult`: whether there is a QA image, and why not if it was blocked. */
  datatype Media = Media(qa: bool, blocked: Option<string>)

  // ----- the marker -----

  const PRODUCTION_PASS := Status(PASS, NOT_PERFORMED, NOT_PERFORMED, Json.Null, Json.Null)
  const TRANSITION_PASS := Status(PASS, PASS, NOT_PERFORMED, Json.Null, Json.Null)
  const ALL_PASS := Status(PASS, PASS, PASS, Json.Null, Json.Null)

  function ProductionFail(reason: string): Status {
    Status(FAIL, NOT_PERFORMED, NOT_PERFORMED, Json.Str("production_build"), Json.Str(reason))
  }

  function TransitionFail(reason: string): Status {
    Status(PASS, FAIL, NOT_PERFORMED, Json.Str("qa_transition"), Json.Str(reason))
  }

  function QaFail(reason: string): Status {
    Status(PASS, PASS, FAIL, Json.Str("qa_build"), Json.Str(reason))
  }

  function FileLeft(json: Json.Codec, before: Option<seq<Byte>>, status: Status, left: Left): Option<seq<Byte>> {
    match left
    case Complete => Some(TextOf(json, status))
    case Untouched => before
    case Garbled(bytes) => Some(bytes)
  }

  function Mark(env: Env, s: State, status: Status): (State, Option<Exn>) {
    var (left, exn) :=
      if env.markFault(status).Some? then (env.markFault(status).value.1, Some(env.markFault(status).value.0))
      else (Complete, None);
    (s.(marker := FileLeft(env.b.json, s.marker, status, left)).Do(Marked(status, left)), exn)
  }

  /** `except Exception as exc: mark; raise`. */
  function MarkAndRaise(env: Env, s: State, status: string -> Status, exn: Exn): (State, Exn) {
    match exn
    case Interrupt => (s, exn)
    case Failure(reason) =>
      var (s1, fault) := Mark(env, s, status(reason));
      (s1, if fault.Some? then fault.value else exn)
  }

  // ----- production -----

  /** Extract the base image and read its boot flags. */
  function Unpack(env: Env, s: State): (State, Attempt<seq<string>>) {
    match env.raises(Extracting)
    case Some(e) => (s.(tree := env.debris(Extracting)).Do(Ran(Extract, false)), Threw(e))
    case None =>
      var s1 := s.(tree := env.extracted).Do(Ran(Extract, true));
      match env.raises(Reporting)
      case Some(e) => (s1.Do(Ran(Report, false)), Threw(e))
      case None =>
        (s1.Do(Ran(Report, true)),
         match Shlex.ParseReport(env.report)
         case Err(e) => Threw(Failure(env.says(Iso(e))))
         case Ok(flags) => Got(flags))
  }

  function Overlaid(env: Env, fs: Fs): (Fs, Applied) {
    match FirstOutside(env.overlay)
    case Some(p) => (fs, OutsideAllowlist(p))
    case None =>
      var (after, written) := WriteFiles(fs, env.overlay);
      (after, if written.AllWritten? then Wrote(Paths(env.overlay)) else Stopped(written))
  }

  ghost function Paid(env: Env, fs: Fs): (Fs, Written)
    requires env.Valid()
  {
    WriteFiles(fs, env.b.Files())
  }

  /** Overlay, wheel and payload. */
  ghost function Assemble(env: Env, s: State): (State, Option<Exn>)
    requires env.Valid()
  {
    match env.raises(Overlaying)
    case Some(e) => (s.(tree := env.debris(Overlaying)), Some(e))
    case None =>
      var (overlaid, applied) := Overlaid(env, s.tree);
      var s1 := s.(tree := overlaid);
      if !applied.Wrote? then (s1, Some(Failure(env.says(Overlay(applied)))))
      else
        match env.raises(BuildingWheel)
        case Some(e) => (s1.Do(Ran(Wheel, false)), Some(e))
        case None =>
          var s2 := s1.Do(Ran(Wheel, true));
          if env.raises(CheckingWheel).Some? then (s2, env.raises(CheckingWheel))
          else if env.raises(CopyingPayload).Some? then
            (s2.(tree := env.debris(CopyingPayload)), env.raises(CopyingPayload))
          else
            var (paid, written) := Paid(env, s2.tree);
            (s2.(tree := paid), if written.AllWritten? then None else Some(Failure(env.says(Copy(written)))))
  }

  /** Rebuild one image from the tree and record its manifest. */
  function RebuildAndRecord(env: Env, s: State, flags: seq<string>, v: Variant): (State, Option<Exn>) {
    match RebuildCommand(env.treeDir, flags, env.outputs(v), VOLUME_ID)
    case Err(e) => (s, Some(Failure(env.says(Iso(e)))))
    case Ok(argv) =>
      match env.raises(Rebuilding(v))
      case Some(e) => (s.Do(Ran(RebuildIso(v, argv, s.tree), false)), Some(e))
      case None =>
        var s1 := s.Do(Ran(RebuildIso(v, argv, s.tree), true));
        if env.raises(Recording(v)).Some? then (s1, env.raises(Recording(v))) else (s1.Do(Recorded(v)), None)
  }

  ghost function ProductionStage(env: Env, s: State): (State, Attempt<seq<string>>)
    requires env.Valid()
  {
    var (s1, flags) := Unpack(env, s);
    if flags.Threw? then (s1, flags)
    else
      var (s2, e2) := Assemble(env, s1);
      if e2.Some? then (s2, Threw(e2.value))
      else
        var (s3, e3) := RebuildAndRecord(env, s2, flags.value, Production);
        (s3, if e3.Some? then Threw(e3.value) else flags)
  }

  // ----- the rest of the run -----

  /** Release the base image if asked to, then return. */
  function Finish(env: Env, s: State, media: Media): (State, Attempt<Media>) {
    if !env.ephemeral then (s, Got(media))
    else if env.raises(Releasing).Some? then (s, Threw(env.raises(Releasing).value))
    else (s.(base := false).Do(Released), Got(media))
  }

  function QaStage(env: Env, s: State, flags: seq<string>): (State, Attempt<Media>) {
    var (s1, e) := RebuildAndRecord(env, s, flags, Qa);
    if e.Some? then
      var (s2, exn) := MarkAndRaise(env, s1, QaFail, e.value);
      (s2, Threw(exn))
    else
      var (s2, fault) := Mark(env, s1, ALL_PASS);
      if fault.Some? then (s2, Threw(fault.value)) else Finish(env, s2, Media(true, None))
  }

  /** The in-place transition; only two exception classes around it are caught. */
  function TransitionStage(env: Env, s: State, flags: seq<string>): (State, Attempt<Media>) {
    var (after, outcome) := QaTransition.Transition(s.tree, env.lib, env.faults);
    Classify(env, s.(tree := after).Do(Transitioned(outcome)), outcome, flags)
  }

  function Classify(env: Env, s: State, outcome: QaTransition.Outcome, flags: seq<string>): (State, Attempt<Media>) {
    var reason := env.says(Transition(outcome));
    match outcome
    case Raised => (s, Threw(env.unclassified))
    case Mutation(_) =>
      var (s1, fault) := Mark(env, s, TransitionFail(reason));
      (s1, Threw(if fault.Some? then fault.value else Failure(env.says(Unsafe(outcome)))))
    case Blocked(_) =>
      var (s1, fault) := Mark(env, s, TransitionFail(reason));
      if fault.Some? then (s1, Threw(fault.value)) else Finish(env, s1, Media(false, Some(reason)))
    case Done(_, _) =>
      var (s1, fault) := Mark(env, s, TRANSITION_PASS);
      if fault.Some? then (s1, Threw(fault.value)) else QaStage(env, s1, flags)
  }

  function AfterProduction(env: Env, s: State, flags: seq<string>): (State, Attempt<Media>) {
    var (s1, fault) := Mark(env, s, PRODUCTION_PASS);
    if fault.Some? then (s1, Threw(fault.value))
    else if !env.buildQa then Finish(env, s1, Media(false, None))
    else TransitionStage(env, s1, flags)
  }

  function Preflight(env: Env): Option<Exn> {
    if env.b.commit == "" then Some(Failure(env.says(NoCommit)))
    else if env.raises(LoadSpec).Some? then env.raises(LoadSpec)
    else if env.raises(VerifyBase).Some? then env.raises(VerifyBase)
    else env.raises(ResetWorkspace)
  }

  ghost function Run(env: Env, s: State): (State, Attempt<Media>)
    requires env.Valid()
  {
    if Preflight(env).Some? then (s, Threw(Preflight(env).value))
    else
      var (s1, flags) := ProductionStage(env, s);
      if flags.Threw? then
        var (s2, exn) := MarkAndRaise(env, s1, ProductionFail, flags.exn);
        (s2, Threw(exn))
      else AfterProduction(env, s1, flags.value)
  }

  // ----- the builder -----

  class Builder {
    var tree: Tree
    var marker: Option<seq<Byte>>
    var base: bool
    ghost var trace: seq<Event>

    constructor (tree: Tree, marker: Option<seq<Byte>>)
      ensures View() == State(tree.View(), [], marker, true) && this.tree == tree
    {
      this.tree, this.marker, base, trace := tree, marker, true, [];
    }

    ghost function View(): State
      reads this, tree
    {
      State(tree.View(), trace, marker, base)
    }

    method WriteStageStatus(env: Env, status: Status) returns (fault: Option<Exn>)
      modifies this
      ensures tree == old(tree) && (View(), fault) == Mark(env, old(View()), status)
    {
      var left := Complete;
      match env.markFault(status) {
        case None => fault := None;
        case Some((exn, l)) => left, fault := l, Some(exn);
      }
      marker := FileLeft(env.b.json, marker, status, left);
      trace := trace + [Marked(status, left)];
    }

    method ReleaseBase(env: Env, media: Media) returns (r: Attempt<Media>)
      modifies this
      ensures tree == old(tree) && (View(), r) == Finish(env, old(View()), media)
    {
      if env.ephemeral {
        if env.raises(Releasing).Some? {
          return Threw(env.raises(Releasing).value);
        }
        base := false;
        trace := trace + [Released];
      }
      r := Got(media);
    }

    method UnpackBase(env: Env) returns (r: Attempt<seq<string>>)
      modifies this
      ensures tree == old(tree) || fresh(tree)
      ensures (View(), r) == Unpack(env, old(View()))
    {
      hide Shlex.ParseReport;
      if env.raises(Extracting).Some? {
        tree := new Tree(env.debris(Extracting));
        trace := trace + [Ran(Extract, false)];
        return Threw(env.raises(Extracting).value);
      }
      tree := new Tree(env.extracted);
      trace := trace + [Ran(Extract, true)];
      if env.raises(Reporting).Some? {
        trace := trace + [Ran(Report, false)];
        return Threw(env.raises(Reporting).value);
      }
      trace := trace + [Ran(Report, true)];
      var flags := Shlex.ParseElToritoReport(env.report);
      match flags {
        case Err(e) => r := Threw(Failure(env.says(Iso(e))));
        case Ok(f) => r := Got(f);
      }
    }

    method AssembleTree(env: Env) returns (exn: Option<Exn>)
      requires env.Valid()
      modifies this, tree
      ensures tree == old(tree) || fresh(tree)
      ensures (View(), exn) == Assemble(env, old(View()))
    {
      hide WriteFiles, FirstOutside, PayloadFiles, BuildAgreement.ArtifactsOf, Paths;
      if env.raises(Overlaying).Some? {
        tree := new Tree(env.debris(Overlaying));
        return env.raises(Overlaying);
      }
      var applied := ApplyOverlay(tree, env.overlay);
      if !applied.Wrote? {
        return Some(Failure(env.says(Overlay(applied))));
      }
      if env.raises(BuildingWheel).Some? {
        trace := trace + [Ran(Wheel, false)];
        return env.raises(BuildingWheel);
      }
      trace := trace + [Ran(Wheel, true)];
      if env.raises(CheckingWheel).Some? {
        return env.raises(CheckingWheel);
      }
      if env.raises(CopyingPayload).Some? {
        tree := new Tree(env.debris(CopyingPayload));
        return env.raises(CopyingPayload);
      }
      var b := env.b;
      BuildAgreement.ArtifactsDescribe(b.host, b.sha256, b.resources, b.wheel, b.wheelName);
      var artifacts := BuildAgreement.ArtifactsOf(b.host, b.sha256, b.resources, b.wheel, b.wheelName);
      var written := CopyPayloadIntoTree(tree, b.host, artifacts, b.json, b.commit, b.roots, b.base);
      exn := if written.AllWritten? then None else Some(Failure(env.says(Copy(written))));
    }

    method RebuildImage(env: Env, flags: seq<string>, v: Variant) returns (exn: Option<Exn>)
      modifies this
      ensures tree == old(tree) && (View(), exn) == RebuildAndRecord(env, old(View()), flags, v)
    {
      hide RebuildCommand;
      var command := RebuildCommand(env.treeDir, flags, env.outputs(v), VOLUME_ID);
      match command {
        case Err(e) => return Some(Failure(env.says(Iso(e))));
        case Ok(argv) =>
          exn := env.raises(Rebuilding(v));
          trace := trace + [Ran(RebuildIso(v, argv, tree.View()), exn.None?)];
      }
      if exn.None? {
        exn := env.raises(Recording(v));
        if exn.None? {
          trace := trace + [Recorded(v)];
        }
      }
    }

    method BuildProduction(env: Env) returns (r: Attempt<seq<string>>)
      requires env.Valid()
      modifies this, tree
      ensures tree == old(tree) || fresh(tree)
      ensures (View(), r) == ProductionStage(env, old(View()))
    {
      hide Unpack, Assemble, RebuildAndRecord, Env.Valid;
      r := UnpackBase(env);
      if r.Threw? {
        return;
      }
      var exn := AssembleTree(env);
      if exn.Some? {
        return Threw(exn.value);
      }
      exn := RebuildImage(env, r.value, Production);
      if exn.Some? {
        return Threw(exn.value);
      }
    }

    method BuildQa(env: Env, flags: seq<string>) returns (r: Attempt<Media>)
      modifies this, tree
      ensures tree == old(tree) && (View(), r) == QaStage(env, old(View()), flags)
    {
      hide RebuildAndRecord, Mark, Finish;
      var exn := RebuildImage(env, flags, Qa);
      if exn.Some? {
        if exn.value.Failure? {
          var fault := WriteStageStatus(env, QaFail(exn.value.reason));
          if fault.Some? {
            return Threw(fault.value);
          }
        }
        return Threw(exn.value);
      }
      var fault := WriteStageStatus(env, ALL_PASS);
      if fault.Some? {
        return Threw(fault.value);
      }
      r := ReleaseBase(env, Media(true, None));
    }

    method TransitionAndBuildQa(env: Env, flags: seq<string>) returns (r: Attempt<Media>)
      modifies this, tree
      ensures tree == old(tree) && (View(), r) == TransitionStage(env, old(View()), flags)
    {
      hide QaTransition.Transition, Mark, Finish, QaStage;
      var outcome := QaTransition.TransitionToQaInPlace(tree, env.lib, env.faults);
      trace := trace + [Transitioned(outcome)];
      var reason := env.says(Transition(outcome));
      match outcome {
        case Raised =>
          r := Threw(env.unclassified);
        case Mutation(_) =>
          var fault := WriteStageStatus(env, TransitionFail(reason));
          r := Threw(if fault.Some? then fault.value else Failure(env.says(Unsafe(outcome))));
        case Blocked(_) =>
          var fault := WriteStageStatus(env, TransitionFail(reason));
          if fault.Some? {
            return Threw(fault.value);
          }
          r := ReleaseBase(env, Media(false, Some(reason)));
        case Done(_, _) =>
          var fault := WriteStageStatus(env, TRANSITION_PASS);
          if fault.Some? {
            return Threw(fault.value);
          }
          r := BuildQa(env, flags);
      }
    }

    method RunBuild(env: Env) returns (r: Attempt<Media>)
      requires env.Valid()
      modifies this, tree
      ensures (View(), r) == Run(env, old(View()))
    {
      hide ProductionStage, TransitionStage, Mark, Finish, Env.Valid;
      var refused := Preflight(env);
      if refused.Some? {
        return Threw(refused.value);
      }
      var flags := BuildProduction(env);
      if flags.Threw? {
        if flags.exn.Failure? {
          var fault := WriteStageStatus(env, ProductionFail(flags.exn.reason));
          if fault.Some? {
            return Threw(fault.value);
          }
        }
        return Threw(flags.exn);
      }
      var fault := WriteStageStatus(env, PRODUCTION_PASS);
      if fault.Some? {
        return Threw(fault.value);
      }
      if !env.buildQa {
        r := ReleaseBase(env, Media(false, None));
      } else {
        r := TransitionAndBuildQa(env, flags.value);
      }
    }
  }
}
