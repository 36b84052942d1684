/**
  How far a run of the build gets, in terms of what its steps do: when it is refused, when an image
  is recorded, what it throws, what it returns and which history it leaves.
 */
module RunSteps {
  import opened Text
  import opened StageStatus
  import opened RunBuild
  import opened RunHistory
  import opened BuildGuarantees
  import opened Rebuild
  import opened Payload
  import Json
  import Shlex
  import ExtractedTree
  import QaTransition

  /** Step `i` of the list raises, and none before it does. */
  ghost predicate FirstToRaise(env: Env, steps: seq<Step>, i: int) {
    && 0 <= i < |steps| && env.raises(steps[i]).Some?
    && forall j :: 0 <= j < i ==> env.raises(steps[j]).None?
  }

  // ----- before anything is touched -----

  const BEFORE: seq<Step> := [LoadSpec, VerifyBase, ResetWorkspace]

  lemma UnpackAdds(env: Env, s: State)
    ensures Unpack(env, s).0.trace != []
  {
    hide Shlex.ParseReport;
  }

  lemma Grows(env: Env, s: State)
    requires env.Valid()
    ensures |ProductionStage(env, s).0.trace| >= |Unpack(env, s).0.trace|
  {
    hide Unpack, Overlaid, Paid, RebuildCommand, Env.Valid;
  }

  lemma MarkGrows(env: Env, s: State, st: Status)
    ensures |RunBuild.Mark(env, s, st).0.trace| == |s.trace| + 1
  {
    hide FileLeft;
  }

  lemma RebuildExtends(env: Env, s: State, flags: seq<string>, v: Variant)
    ensures s.trace <= RebuildAndRecord(env, s, flags, v).0.trace
  {
    hide RebuildCommand;
  }

  lemma FinishExtends(env: Env, s: State, media: Media)
    ensures s.trace <= Finish(env, s, media).0.trace
  {
  }

  lemma MarkAdds(env: Env, s: State, st: Status)
    ensures s.trace + [Marked(st, MarkLeft(env, st))] == RunBuild.Mark(env, s, st).0.trace
    ensures s.trace <= RunBuild.Mark(env, s, st).0.trace
  {
    hide FileLeft;
  }

  lemma QaStageExtends(env: Env, s: State, flags: seq<string>)
    ensures s.trace <= QaStage(env, s, flags).0.trace
  {
    hide RebuildAndRecord, RunBuild.Mark, Finish;
    RebuildExtends(env, s, flags, Qa);
    var (s1, e) := RebuildAndRecord(env, s, flags, Qa);
    MarkAdds(env, s1, ALL_PASS);
    if e.Some? && e.value.Failure? { MarkAdds(env, s1, QaFail(e.value.reason)); }
    FinishExtends(env, RunBuild.Mark(env, s1, ALL_PASS).0, Media(true, None));
  }

  lemma ClassifyExtends(env: Env, s: State, outcome: QaTransition.Outcome, flags: seq<string>)
    ensures s.trace <= Classify(env, s, outcome, flags).0.trace
  {
    hide RunBuild.Mark, Finish, QaStage;
    var reason := env.says(Issue.Transition(outcome));
    MarkAdds(env, s, TransitionFail(reason));
    MarkAdds(env, s, TRANSITION_PASS);
    FinishExtends(env, RunBuild.Mark(env, s, TransitionFail(reason)).0, Media(false, Some(reason)));
    QaStageExtends(env, RunBuild.Mark(env, s, TRANSITION_PASS).0, flags);
  }

  lemma AfterExtends(env: Env, s: State, flags: seq<string>)
    ensures s.trace + [Marked(PRODUCTION_PASS, MarkLeft(env, PRODUCTION_PASS))]
      <= AfterProduction(env, s, flags).0.trace
  {
    hide RunBuild.Mark, Finish, Classify, QaTransition.Transition;
    MarkAdds(env, s, PRODUCTION_PASS);
    var s1 := RunBuild.Mark(env, s, PRODUCTION_PASS).0;
    FinishExtends(env, s1, Media(false, None));
    var (after, outcome) := QaTransition.Transition(s1.tree, env.lib, env.faults);
    ClassifyExtends(env, s1.(tree := after).Do(Transitioned(outcome)), outcome, flags);
  }

  /**
    A run is refused, and has then touched nothing, if and only if the commit is empty or one of the
    three steps before the extraction raises; the first of them to raise is what it throws.  So a run
    with any event in its history has had its base image verified.
   */
  lemma Refused(env: Env, tree: ExtractedTree.Fs)
    requires env.Valid()
    ensures var (s, r) := Run(env, Start(tree));
      && (s.trace == [] <==> env.b.commit == "" || exists i :: FirstToRaise(env, BEFORE, i))
      && (s.trace == [] ==> s == Start(tree))
      && (env.b.commit == "" ==> r == Threw(Failure(env.says(NoCommit))))
      && (env.b.commit != "" ==> forall i :: FirstToRaise(env, BEFORE, i) ==> r == Threw(env.raises(BEFORE[i]).value))
    ensures Run(env, Start(tree)).0.trace != [] ==> env.raises(VerifyBase).None?
  {
    hide ProductionStage, AfterProduction, Env.Valid, RunBuild.Mark;
    var s := Start(tree);
    if env.raises(LoadSpec).Some? {
      assert FirstToRaise(env, BEFORE, 0);
    } else if env.raises(VerifyBase).Some? {
      assert FirstToRaise(env, BEFORE, 1);
    } else if env.raises(ResetWorkspace).Some? {
      assert FirstToRaise(env, BEFORE, 2);
    }
    UnpackAdds(env, s);
    Grows(env, s);
    var (s1, flags) := ProductionStage(env, s);
    match flags
    case Got(f) => AfterExtends(env, s1, f);
    case Threw(e) =>
      if e.Failure? { MarkGrows(env, s1, ProductionFail(e.reason)); }
  }

  // ----- the production image -----

  const PRODUCING: seq<Step> :=
    [Extracting, Reporting, Overlaying, BuildingWheel, CheckingWheel, CopyingPayload, Rebuilding(Production),
     Recording(Production)]

  ghost predicate NoneRaises(env: Env, steps: seq<Step>) {
    forall x :: x in steps ==> env.raises(x).None?
  }

  ghost predicate OverlayFits(env: Env) {
    (forall f :: f in env.overlay ==> Top(f.path) in ALLOWLIST) && WriteFiles(env.extracted, env.overlay).1.AllWritten?
  }

  ghost predicate PayloadFits(env: Env)
    requires env.Valid()
  {
    WriteFiles(WriteFiles(env.extracted, env.overlay).0, env.b.Files()).1.AllWritten?
  }

  /** The boot flags of the report, and the command that rebuilds image `v` with them. */
  function FlagsOf(env: Env): seq<string> {
    match Shlex.ParseReport(env.report)
    case Ok(flags) => flags
    case Err(_) => []
  }

  predicate CommandFits(env: Env, v: Variant) {
    Shlex.ParseReport(env.report).Ok? && RebuildCommand(env.treeDir, FlagsOf(env), env.outputs(v), VOLUME_ID).Ok?
  }

  /** Everything the production image needs goes well. */
  ghost predicate Produces(env: Env)
    requires env.Valid()
  {
    && env.b.commit != "" && NoneRaises(env, BEFORE) && NoneRaises(env, PRODUCING)
    && OverlayFits(env) && PayloadFits(env) && CommandFits(env, Production)
  }

  lemma UnpackIff(env: Env, s: State)
    ensures var (after, r) := Unpack(env, s);
      && (r.Got? <==>
           env.raises(Extracting).None? && env.raises(Reporting).None? && Shlex.ParseReport(env.report).Ok?)
      && (r.Got? ==>
           && r.value == FlagsOf(env) && after.tree == env.extracted
           && after.trace == s.trace + [Ran(Extract, true), Ran(Report, true)])
  {
    hide Shlex.ParseReport;
    assert s.trace + [Ran(Extract, true)] + [Ran(Report, true)] == s.trace + [Ran(Extract, true), Ran(Report, true)];
  }

  lemma AssembleIff(env: Env, s: State)
    requires env.Valid() && s.tree == env.extracted
    ensures var (after, e) := Assemble(env, s);
      && (e.None? <==>
           && env.raises(Overlaying).None? && env.raises(BuildingWheel).None? && env.raises(CheckingWheel).None?
           && env.raises(CopyingPayload).None? && OverlayFits(env) && PayloadFits(env))
      && (e.None? ==> after.trace == s.trace + [Ran(Wheel, true)] && after.tree == Produced(env))
  {
    hide WriteFiles, Top, ALLOWLIST, Paths, Env.Valid, BuildAgreement.Build.Files;
  }

  lemma RebuildIff(env: Env, s: State, v: Variant)
    ensures var (after, e) := RebuildAndRecord(env, s, FlagsOf(env), v);
      && (Shlex.ParseReport(env.report).Ok? ==>
           (e.None? <==> CommandFits(env, v) && env.raises(Rebuilding(v)).None? && env.raises(Recording(v)).None?))
      && (e.None? ==>
           && RebuildCommand(env.treeDir, FlagsOf(env), env.outputs(v), VOLUME_ID).Ok? && after.tree == s.tree
           && after.trace == s.trace + [Ran(RebuildIso(v, Argv(env, FlagsOf(env), v), s.tree), true), Recorded(v)])
  {
    hide RebuildCommand, Shlex.ParseReport;
    var flags := FlagsOf(env);
    if RebuildCommand(env.treeDir, flags, env.outputs(v), VOLUME_ID).Ok? {
      var ran := Ran(RebuildIso(v, Argv(env, flags, v), s.tree), true);
      assert s.trace + [ran] + [Recorded(v)] == s.trace + [ran, Recorded(v)];
    }
  }

  /** What a production that goes well has done. */
  ghost function Producing(env: Env): seq<Event>
    requires env.Valid() && CommandFits(env, Production)
  {
    [Ran(Extract, true), Ran(Report, true)] + [Ran(Wheel, true)] +
    [Ran(RebuildIso(Production, Argv(env, FlagsOf(env), Production), Produced(env)), true), Recorded(Production)]
  }

  lemma ProductionIff(env: Env, s: State)
    requires env.Valid()
    ensures ProductionStage(env, s).1.Got? <==>
      NoneRaises(env, PRODUCING) && OverlayFits(env) && PayloadFits(env) && CommandFits(env, Production)
    ensures var (after, r) := ProductionStage(env, s);
      r.Got? ==>
        && r.value == FlagsOf(env) && after.tree == Produced(env)
        && CommandFits(env, Production) && after.trace == s.trace + Producing(env)
  {
    hide Unpack, Assemble, RebuildAndRecord, OverlayFits, PayloadFits, CommandFits, Produced, Argv, FlagsOf, Env.Valid,
      NoneRaises;
    UnpackIff(env, s);
    StepsOf(env);
    var (s1, r1) := Unpack(env, s);
    if CommandFits(env, Production) { FitsParses(env, Production); }
    if r1.Got? {
      AssembleIff(env, s1);
      var (s2, e2) := Assemble(env, s1);
      if e2.None? {
        RebuildIff(env, s2, Production);
        if RebuildAndRecord(env, s2, r1.value, Production).1.None? {
          var packed := Ran(RebuildIso(Production, Argv(env, FlagsOf(env), Production), Produced(env)), true);
          Regroup(s.trace, [Ran(Extract, true), Ran(Report, true)], [Ran(Wheel, true)], [packed, Recorded(Production)]);
        }
      }
    }
  }

  lemma Regroup(a: seq<Event>, b: seq<Event>, c: seq<Event>, d: seq<Event>)
    ensures a + b + c + d == a + (b + c + d)
  {
  }

  lemma FitsParses(env: Env, v: Variant)
    requires CommandFits(env, v)
    ensures Shlex.ParseReport(env.report).Ok?
    ensures RebuildCommand(env.treeDir, FlagsOf(env), env.outputs(v), VOLUME_ID).Ok?
  {
  }

  lemma StepsOf(env: Env)
    ensures NoneRaises(env, PRODUCING) <==>
      && env.raises(Extracting).None? && env.raises(Reporting).None? && env.raises(Overlaying).None?
      && env.raises(BuildingWheel).None? && env.raises(CheckingWheel).None? && env.raises(CopyingPayload).None?
      && env.raises(Rebuilding(Production)).None? && env.raises(Recording(Production)).None?
    ensures NoneRaises(env, BEFORE) <==>
      env.raises(LoadSpec).None? && env.raises(VerifyBase).None? && env.raises(ResetWorkspace).None?
  {
    assert Extracting in PRODUCING && Reporting in PRODUCING && Overlaying in PRODUCING && BuildingWheel in PRODUCING;
    assert CheckingWheel in PRODUCING && CopyingPayload in PRODUCING && Rebuilding(Production) in PRODUCING
      && Recording(Production) in PRODUCING;
    assert LoadSpec in BEFORE && VerifyBase in BEFORE && ResetWorkspace in BEFORE;
  }

  lemma PreflightIs(env: Env)
    ensures Preflight(env).None? <==> env.b.commit != "" && NoneRaises(env, BEFORE)
  {
    StepsOf(env);
  }

  /** A run that gets past production goes on from the production tree and the report's flags. */
  lemma RunGoesOn(env: Env, tree: ExtractedTree.Fs) returns (s: State)
    requires env.Valid() && Produces(env)
    ensures s == ProductionStage(env, Start(tree)).0 && s.tree == Produced(env) && s.marker == None
    ensures CommandFits(env, Production) && s.trace == Producing(env)
    ensures Run(env, Start(tree)) == AfterProduction(env, s, FlagsOf(env))
  {
    PreflightIs(env);
    ProductionIff(env, Start(tree));
    NoMarkerYet(env, Start(tree));
    hide ProductionStage, AfterProduction, Env.Valid, OverlayFits, PayloadFits, CommandFits, NoneRaises, Preflight,
      Produced, FlagsOf, Producing;
    s := ProductionStage(env, Start(tree)).0;
    assert [] + Producing(env) == Producing(env);
  }

  lemma NoMarkerYet(env: Env, s: State)
    requires env.Valid()
    ensures ProductionStage(env, s).0.marker == s.marker
  {
    hide Shlex.ParseReport, Overlaid, Paid, RebuildCommand, Env.Valid;
  }

  // ----- what is recorded -----

  lemma MarkSaw(env: Env, s: State, st: Status, k: Kind)
    ensures Saw(RunBuild.Mark(env, s, st).0.trace, k) <==> Saw(s.trace, k) || k == Kind.Mark
  {
    hide Saw, LastMark, FileAfter, FileLeft;
    var left := MarkLeft(env, st);
    AfterEvent(env.b.json, s.trace, Marked(st, left));
    assert Is(Marked(st, left), k) <==> k == Kind.Mark;
  }

  lemma FinishSaw(env: Env, s: State, media: Media, k: Kind)
    requires k != Release
    ensures Saw(Finish(env, s, media).0.trace, k) <==> Saw(s.trace, k)
  {
    hide Saw, LastMark, FileAfter;
    AfterEvent(env.b.json, s.trace, Released);
    assert !Is(Released, k);
  }

  lemma RebuildSaw(env: Env, s: State, flags: seq<string>)
    requires !Saw(s.trace, Manifested(Qa))
    ensures var (after, e) := RebuildAndRecord(env, s, flags, Qa); Saw(after.trace, Manifested(Qa)) <==> e.None?
  {
    hide Saw, LastMark, FileAfter, RebuildCommand;
    match RebuildCommand(env.treeDir, flags, env.outputs(Qa), VOLUME_ID)
    case Err(_) =>
    case Ok(argv) =>
      var ran := Ran(RebuildIso(Qa, argv, s.tree), env.raises(Rebuilding(Qa)).None?);
      AfterEvent(env.b.json, s.trace, ran);
      AfterEvent(env.b.json, s.trace + [ran], Recorded(Qa));
      assert !Is(ran, Manifested(Qa)) && Is(Recorded(Qa), Manifested(Qa));
  }

  lemma QaStageSaw(env: Env, s: State, flags: seq<string>)
    requires !Saw(s.trace, Manifested(Qa))
    ensures Saw(QaStage(env, s, flags).0.trace, Manifested(Qa)) <==> RebuildAndRecord(env, s, flags, Qa).1.None?
  {
    hide Saw, RebuildAndRecord, RunBuild.Mark, Finish;
    RebuildSaw(env, s, flags);
    var (s1, e) := RebuildAndRecord(env, s, flags, Qa);
    if e.None? {
      MarkSaw(env, s1, ALL_PASS, Manifested(Qa));
      FinishSaw(env, RunBuild.Mark(env, s1, ALL_PASS).0, Media(true, None), Manifested(Qa));
    } else if e.value.Failure? {
      MarkSaw(env, s1, QaFail(e.value.reason), Manifested(Qa));
    }
  }

  /** Everything between the production image and the QA rebuild goes well. */
  ghost predicate Switches(env: Env)
    requires env.Valid()
  {
    && env.markFault(PRODUCTION_PASS).None? && env.buildQa
    && Switched(env).1.Done? && env.markFault(TRANSITION_PASS).None?
  }

  ghost predicate QaProduces(env: Env)
    requires env.Valid()
  {
    && Produces(env) && Switches(env)
    && CommandFits(env, Qa) && env.raises(Rebuilding(Qa)).None? && env.raises(Recording(Qa)).None?
  }

  lemma ClassifySaw(env: Env, s: State, outcome: QaTransition.Outcome, flags: seq<string>)
    requires !Saw(s.trace, Manifested(Qa))
    ensures Saw(Classify(env, s, outcome, flags).0.trace, Manifested(Qa)) <==>
      && outcome.Done? && env.markFault(TRANSITION_PASS).None?
      && RebuildAndRecord(env, RunBuild.Mark(env, s, TRANSITION_PASS).0, flags, Qa).1.None?
  {
    var reason := env.says(Issue.Transition(outcome));
    MarkSaw(env, s, TransitionFail(reason), Manifested(Qa));
    MarkSaw(env, s, TRANSITION_PASS, Manifested(Qa));
    FinishSaw(env, RunBuild.Mark(env, s, TransitionFail(reason)).0, Media(false, Some(reason)), Manifested(Qa));
    QaStageSaw(env, RunBuild.Mark(env, s, TRANSITION_PASS).0, flags);
    MarkFaults(env, s, TRANSITION_PASS);
    hide Saw, RebuildAndRecord, RunBuild.Mark, Finish, QaStage;
  }

  lemma MarkFaults(env: Env, s: State, st: Status)
    ensures RunBuild.Mark(env, s, st).1.None? <==> env.markFault(st).None?
    ensures RunBuild.Mark(env, s, st).0.tree == s.tree
    ensures RunBuild.Mark(env, s, st).0.trace == s.trace + [Marked(st, MarkLeft(env, st))]
  {
    hide FileLeft;
  }

  lemma ProducingSaw(env: Env, tree: ExtractedTree.Fs)
    requires env.Valid()
    ensures var (s, r) := ProductionStage(env, Start(tree));
      && (r.Got? <==> Saw(s.trace, Manifested(Production))) && !Saw(s.trace, Manifested(Qa))
  {
    hide ProductionStage, Saw, Orderly, FileAfter, Env.Valid;
    StartIsSound(env, tree);
    ProductionSound(env, Start(tree));
    assert Manifested(Qa) !in PRODUCED;
  }

  lemma StartIsSound(env: Env, tree: ExtractedTree.Fs)
    ensures Sound(env, Start(tree))
  {
  }

  lemma TransitionSaw(env: Env, s: State, outcome: QaTransition.Outcome)
    requires !Saw(s.trace, Manifested(Qa))
    ensures !Saw(s.trace + [Transitioned(outcome)], Manifested(Qa))
  {
    hide Saw, LastMark, FileAfter;
    AfterEvent(env.b.json, s.trace, Transitioned(outcome));
    assert !Is(Transitioned(outcome), Manifested(Qa));
  }

  lemma AfterProductionSaw(env: Env, s: State)
    requires env.Valid() && s.tree == Produced(env) && !Saw(s.trace, Manifested(Qa)) && Produces(env)
    ensures Saw(AfterProduction(env, s, FlagsOf(env)).0.trace, Manifested(Qa)) <==> QaProduces(env)
  {
    hide Saw, RebuildAndRecord, RunBuild.Mark, Finish, Classify, QaTransition.Transition, Produced, Produces, FlagsOf,
      CommandFits, Env.Valid;
    MarkSaw(env, s, PRODUCTION_PASS, Manifested(Qa));
    MarkFaults(env, s, PRODUCTION_PASS);
    var s1 := RunBuild.Mark(env, s, PRODUCTION_PASS).0;
    FinishSaw(env, s1, Media(false, None), Manifested(Qa));
    var (after, outcome) := QaTransition.Transition(s1.tree, env.lib, env.faults);
    TransitionSaw(env, s1, outcome);
    var s2 := s1.(tree := after).Do(Transitioned(outcome));
    ClassifySaw(env, s2, outcome, FlagsOf(env));
    RebuildIff(env, RunBuild.Mark(env, s2, TRANSITION_PASS).0, Qa);
    ProducesParses(env);
  }

  lemma ProducesParses(env: Env)
    requires env.Valid() && Produces(env)
    ensures Shlex.ParseReport(env.report).Ok?
  {
    hide Env.Valid;
  }

  /**
    When an image is recorded, for every pattern of failures: the production image if and only if each
    step it needs goes well, and the QA image if and only if each step after that does too.
   */
  lemma RecordedIff(env: Env, tree: ExtractedTree.Fs)
    requires env.Valid()
    ensures var s := Run(env, Start(tree)).0;
      && (Saw(s.trace, Manifested(Production)) <==> Produces(env))
      && (Saw(s.trace, Manifested(Qa)) <==> QaProduces(env))
  {
    hide Saw, Run, Produces, QaProduces, Env.Valid, Orderly, FileAfter, Told, Earned;
    RunEnds(env, tree);
    if Produces(env) {
      ProducedIsSeen(env, tree);
    } else {
      NotProduced(env, tree);
      QaNeedsProduction(env);
    }
  }

  lemma QaNeedsProduction(env: Env)
    requires env.Valid() && !Produces(env)
    ensures !QaProduces(env)
  {
    hide Produces;
  }

  lemma ProducedIsSeen(env: Env, tree: ExtractedTree.Fs)
    requires env.Valid() && Produces(env)
    ensures var s := Run(env, Start(tree)).0;
      Saw(s.trace, Manifested(Production)) && (Saw(s.trace, Manifested(Qa)) <==> QaProduces(env))
  {
    hide Saw, Produces, QaProduces, Env.Valid, AfterProduction, ProductionStage, Run;
    var s := RunGoesOn(env, tree);
    ProducingSaw(env, tree);
    AfterProductionSaw(env, s);
    ProducesGets(env, tree);
    StillSeen(env, s, FlagsOf(env));
  }

  lemma ProducesGets(env: Env, tree: ExtractedTree.Fs)
    requires env.Valid() && Produces(env)
    ensures ProductionStage(env, Start(tree)).1.Got?
  {
    hide ProductionStage, OverlayFits, PayloadFits, CommandFits, NoneRaises, Env.Valid;
    ProductionIff(env, Start(tree));
  }

  lemma StillSeen(env: Env, s: State, flags: seq<string>)
    requires Saw(s.trace, Manifested(Production))
    ensures Saw(AfterProduction(env, s, flags).0.trace, Manifested(Production))
  {
    hide RebuildCommand, QaTransition.Transition, FileLeft, Saw;
    AfterExtends(env, s, flags);
    SawMore(s.trace, AfterProduction(env, s, flags).0.trace, Manifested(Production));
  }

  lemma SawMore(a: seq<Event>, b: seq<Event>, k: Kind)
    requires a <= b && Saw(a, k)
    ensures Saw(b, k)
  {
    var i :| 0 <= i < |a| && Is(a[i], k);
    assert b[i] == a[i];
  }

  lemma NotProduced(env: Env, tree: ExtractedTree.Fs)
    requires env.Valid() && !Produces(env)
    ensures var s := Run(env, Start(tree)).0;
      !Saw(s.trace, Manifested(Production)) && !Saw(s.trace, Manifested(Qa))
  {
    PreflightIs(env);
    ProductionIff(env, Start(tree));
    ProducingSaw(env, tree);
    hide Saw, ProductionStage, AfterProduction, Env.Valid, OverlayFits, PayloadFits, CommandFits, NoneRaises, Preflight,
      RunBuild.Mark;
    NothingYet([]);
    var (s1, r1) := ProductionStage(env, Start(tree));
    if Preflight(env).None? && r1.Threw? && r1.exn.Failure? {
      MarkSaw(env, s1, ProductionFail(r1.exn.reason), Manifested(Production));
      MarkSaw(env, s1, ProductionFail(r1.exn.reason), Manifested(Qa));
    }
  }

  // ----- what is returned -----

  ghost predicate CanFinish(env: Env) {
    env.ephemeral ==> env.raises(Releasing).None?
  }

  function Reason(env: Env, outcome: QaTransition.Outcome): string {
    env.says(Issue.Transition(outcome))
  }

  /** The transition ends in a way that lets the run return. */
  ghost predicate SwitchEnds(env: Env)
    requires env.Valid()
  {
    match Switched(env).1
    case Done(_, _) => QaProduces(env) && env.markFault(ALL_PASS).None?
    case Blocked(_) => env.markFault(TransitionFail(Reason(env, Switched(env).1))).None?
    case _ => false
  }

  lemma FinishReturns(env: Env, s: State, media: Media)
    ensures Finish(env, s, media).1.Got? <==> CanFinish(env)
    ensures Finish(env, s, media).1.Got? ==> Finish(env, s, media).1 == Got(media)
    ensures Finish(env, s, media).0.trace == s.trace + if env.ephemeral && CanFinish(env) then [Released] else []
  {
    assert s.trace + [] == s.trace;
  }

  lemma QaStageReturns(env: Env, s: State)
    requires Shlex.ParseReport(env.report).Ok?
    ensures QaStage(env, s, FlagsOf(env)).1.Got? <==>
      && CommandFits(env, Qa) && env.raises(Rebuilding(Qa)).None? && env.raises(Recording(Qa)).None?
      && env.markFault(ALL_PASS).None? && CanFinish(env)
    ensures var r := QaStage(env, s, FlagsOf(env)).1; r.Got? ==> r == Got(Media(true, None))
  {
    hide RebuildAndRecord, RunBuild.Mark, Finish, CommandFits, FlagsOf, CanFinish, Shlex.ParseReport;
    RebuildIff(env, s, Qa);
    var (s1, e) := RebuildAndRecord(env, s, FlagsOf(env), Qa);
    MarkFaults(env, s1, ALL_PASS);
    FinishReturns(env, RunBuild.Mark(env, s1, ALL_PASS).0, Media(true, None));
  }

  /** The transition with this outcome, and what follows it, lets the run return. */
  ghost predicate OutcomeEnds(env: Env, outcome: QaTransition.Outcome) {
    match outcome
    case Done(_, _) =>
      && env.markFault(TRANSITION_PASS).None? && env.markFault(ALL_PASS).None? && CommandFits(env, Qa)
      && env.raises(Rebuilding(Qa)).None? && env.raises(Recording(Qa)).None?
    case Blocked(_) => env.markFault(TransitionFail(Reason(env, outcome))).None?
    case _ => false
  }

  lemma ClassifyReturns(env: Env, s: State, outcome: QaTransition.Outcome)
    requires Shlex.ParseReport(env.report).Ok?
    ensures Classify(env, s, outcome, FlagsOf(env)).1.Got? <==> CanFinish(env) && OutcomeEnds(env, outcome)
    ensures var r := Classify(env, s, outcome, FlagsOf(env)).1;
      r.Got? ==> r == Got(if outcome.Done? then Media(true, None) else Media(false, Some(Reason(env, outcome))))
  {
    hide RunBuild.Mark, Finish, QaStage, CommandFits, FlagsOf, CanFinish, Shlex.ParseReport;
    var reason := env.says(Issue.Transition(outcome));
    MarkFaults(env, s, TransitionFail(reason));
    MarkFaults(env, s, TRANSITION_PASS);
    FinishReturns(env, RunBuild.Mark(env, s, TransitionFail(reason)).0, Media(false, Some(reason)));
    QaStageReturns(env, RunBuild.Mark(env, s, TRANSITION_PASS).0);
  }

  lemma AfterProductionReturns(env: Env, s: State)
    requires env.Valid() && s.tree == Produced(env) && Produces(env)
    ensures var r := AfterProduction(env, s, FlagsOf(env)).1;
      && (r.Got? <==>
           env.markFault(PRODUCTION_PASS).None? && CanFinish(env) && (env.buildQa ==> SwitchEnds(env)))
      && (r.Got? ==> r == Got(
        if !env.buildQa then Media(false, None)
        else if Switched(env).1.Done? then Media(true, None)
        else Media(false, Some(Reason(env, Switched(env).1)))))
  {
    hide RunBuild.Mark, Finish, Classify, QaTransition.Transition, Produced, Produces, FlagsOf, CommandFits, Env.Valid,
      CanFinish, Shlex.ParseReport, Reason;
    MarkFaults(env, s, PRODUCTION_PASS);
    var s1 := RunBuild.Mark(env, s, PRODUCTION_PASS).0;
    FinishReturns(env, s1, Media(false, None));
    var (after, outcome) := QaTransition.Transition(s1.tree, env.lib, env.faults);
    ProducesParses(env);
    ClassifyReturns(env, s1.(tree := after).Do(Transitioned(outcome)), outcome);
  }

  /**
    When a run returns, and what: production must have gone well, no marker write and no release may
    have failed, and a QA variant that was asked for must have been built or been cleanly blocked.
   */
  lemma RunReturns(env: Env, tree: ExtractedTree.Fs)
    requires env.Valid()
    ensures var r := Run(env, Start(tree)).1;
      && (r.Got? <==>
           Produces(env) && env.markFault(PRODUCTION_PASS).None? && CanFinish(env) && (env.buildQa ==> SwitchEnds(env)))
      && (r.Got? ==> r == Got(
        if !env.buildQa then Media(false, None)
        else if Switched(env).1.Done? then Media(true, None)
        else Media(false, Some(Reason(env, Switched(env).1)))))
  {
    hide AfterProduction, ProductionStage, Produced, FlagsOf, Env.Valid, CanFinish, SwitchEnds, Switched, Reason,
      RunBuild.Mark, Produces, Preflight;
    if Produces(env) {
      var s := RunGoesOn(env, tree);
      AfterProductionReturns(env, s);
    } else {
      ThrowsEarly(env, tree);
    }
  }

  lemma ThrowsEarly(env: Env, tree: ExtractedTree.Fs)
    requires env.Valid() && !Produces(env)
    ensures Run(env, Start(tree)).1.Threw?
  {
    PreflightIs(env);
    ProductionIff(env, Start(tree));
    hide ProductionStage, AfterProduction, Env.Valid, OverlayFits, PayloadFits, CommandFits, NoneRaises, Preflight,
      RunBuild.Mark;
  }

  // ----- the history of a complete run -----

  /** What follows the production image in a run that goes well to its end. */
  ghost function Completing(env: Env): seq<Event>
    requires env.Valid() && CommandFits(env, Qa)
  {
    [Marked(PRODUCTION_PASS, Complete)] + [Transitioned(Switched(env).1)] + [Marked(TRANSITION_PASS, Complete)] +
    [Ran(RebuildIso(Qa, Argv(env, FlagsOf(env), Qa), Switched(env).0), true), Recorded(Qa)] +
    [Marked(ALL_PASS, Complete)]
  }

  lemma QaStageHistory(env: Env, s: State)
    requires CommandFits(env, Qa) && env.raises(Rebuilding(Qa)).None? && env.raises(Recording(Qa)).None?
    requires env.markFault(ALL_PASS).None?
    ensures QaStage(env, s, FlagsOf(env)).0.trace ==
      s.trace + [Ran(RebuildIso(Qa, Argv(env, FlagsOf(env), Qa), s.tree), true), Recorded(Qa)]
        + [Marked(ALL_PASS, Complete)] + if env.ephemeral && CanFinish(env) then [Released] else []
  {
    FitsParses(env, Qa);
    hide RebuildAndRecord, RunBuild.Mark, Finish, CommandFits, FlagsOf, Argv, CanFinish;
    RebuildIff(env, s, Qa);
    var (s1, e) := RebuildAndRecord(env, s, FlagsOf(env), Qa);
    MarkFaults(env, s1, ALL_PASS);
    FinishReturns(env, RunBuild.Mark(env, s1, ALL_PASS).0, Media(true, None));
  }

  lemma Chain(a: seq<Event>, b: seq<Event>, c: seq<Event>, d: seq<Event>, e: seq<Event>, f: seq<Event>, g: seq<Event>)
    ensures a + b + c + d + e + f + g == a + (b + c + d + e + f) + g
  {
  }

  lemma AfterProductionHistory(env: Env, s: State)
    requires env.Valid() && s.tree == Produced(env) && QaProduces(env) && env.markFault(ALL_PASS).None?
    ensures CommandFits(env, Qa)
    ensures AfterProduction(env, s, FlagsOf(env)).0.trace ==
      s.trace + Completing(env) + if env.ephemeral && CanFinish(env) then [Released] else []
  {
    hide RunBuild.Mark, QaStage, QaTransition.Transition, Produced, Produces, FlagsOf, CommandFits, Env.Valid, Argv,
      CanFinish;
    FitsParses(env, Qa);
    MarkFaults(env, s, PRODUCTION_PASS);
    var s1 := RunBuild.Mark(env, s, PRODUCTION_PASS).0;
    var (after, outcome) := QaTransition.Transition(s1.tree, env.lib, env.faults);
    var s2 := s1.(tree := after).Do(Transitioned(outcome));
    MarkFaults(env, s2, TRANSITION_PASS);
    QaStageHistory(env, RunBuild.Mark(env, s2, TRANSITION_PASS).0);
    Chain(s.trace, [Marked(PRODUCTION_PASS, Complete)], [Transitioned(outcome)], [Marked(TRANSITION_PASS, Complete)],
      [Ran(RebuildIso(Qa, Argv(env, FlagsOf(env), Qa), after), true), Recorded(Qa)], [Marked(ALL_PASS, Complete)],
      if env.ephemeral && CanFinish(env) then [Released] else []);
  }

  /** The history of a run that goes well to its end, event by event. */
  lemma CompleteHistory(env: Env, tree: ExtractedTree.Fs)
    requires env.Valid() && QaProduces(env) && env.markFault(ALL_PASS).None?
    ensures CommandFits(env, Production) && CommandFits(env, Qa)
    ensures Run(env, Start(tree)).0.trace ==
      Producing(env) + Completing(env) + if env.ephemeral && CanFinish(env) then [Released] else []
  {
    hide AfterProduction, ProductionStage, Produced, FlagsOf, Env.Valid, CanFinish, Produces, CommandFits, Run,
      Completing, Producing;
    var s := RunGoesOn(env, tree);
    AfterProductionHistory(env, s);
  }

  // ----- what is thrown -----

  /** What stands between the steps and does not raise by itself went well up to step `i` of production. */
  ghost predicate Reaches(env: Env, i: int)
    requires env.Valid()
  {
    && env.b.commit != "" && NoneRaises(env, BEFORE)
    && (i > 1 ==> Shlex.ParseReport(env.report).Ok?)
    && (i > 2 ==> OverlayFits(env))
    && (i > 5 ==> PayloadFits(env) && CommandFits(env, Production))
  }

  /** An exception passes the marker on its way out. */
  function Passed(env: Env, exn: Exn): Exn {
    match exn
    case Interrupt => exn
    case Failure(reason) =>
      if env.markFault(ProductionFail(reason)).Some? then env.markFault(ProductionFail(reason)).value.0 else exn
  }

  lemma AssembleThrows(env: Env, s: State, i: int)
    requires env.Valid() && s.tree == env.extracted && 2 <= i < 6 && FirstToRaise(env, PRODUCING, i)
    requires i > 2 ==> OverlayFits(env)
    ensures Assemble(env, s).1 == env.raises(PRODUCING[i])
  {
    var p := PRODUCING;
    assert p[2] == Overlaying && p[3] == BuildingWheel && p[4] == CheckingWheel && p[5] == CopyingPayload;
    assert i > 2 ==> env.raises(p[2]).None?;
    assert i > 3 ==> env.raises(p[3]).None?;
    assert i > 4 ==> env.raises(p[4]).None?;
    hide WriteFiles, Top, ALLOWLIST, Paths, Env.Valid, BuildAgreement.Build.Files, Paid;
  }

  lemma RebuildThrows(env: Env, s: State, v: Variant)
    requires CommandFits(env, v)
    ensures env.raises(Rebuilding(v)).Some? ==>
      RebuildAndRecord(env, s, FlagsOf(env), v).1 == env.raises(Rebuilding(v))
    ensures env.raises(Rebuilding(v)).None? && env.raises(Recording(v)).Some? ==>
      RebuildAndRecord(env, s, FlagsOf(env), v).1 == env.raises(Recording(v))
  {
    hide RebuildCommand, Shlex.ParseReport, FlagsOf;
  }

  lemma UnpackThrows(env: Env, s: State)
    ensures env.raises(Extracting).Some? ==> Unpack(env, s).1 == Threw(env.raises(Extracting).value)
    ensures env.raises(Extracting).None? && env.raises(Reporting).Some? ==>
      Unpack(env, s).1 == Threw(env.raises(Reporting).value)
  {
    hide Shlex.ParseReport;
  }

  lemma QuietBefore(env: Env, i: int)
    requires 6 <= i && FirstToRaise(env, PRODUCING, i)
    ensures env.raises(Overlaying).None? && env.raises(BuildingWheel).None?
    ensures env.raises(CheckingWheel).None? && env.raises(CopyingPayload).None?
    ensures if i == 6 then env.raises(Rebuilding(Production)).Some?
      else env.raises(Rebuilding(Production)).None? && env.raises(Recording(Production)).Some?
    ensures i == 6 || i == 7
    ensures PRODUCING[i] == if i == 6 then Rebuilding(Production) else Recording(Production)
  {
    var p := PRODUCING;
    assert p[2] == Overlaying && p[3] == BuildingWheel && p[4] == CheckingWheel && p[5] == CopyingPayload;
    assert p[6] == Rebuilding(Production) && p[7] == Recording(Production) && |p| == 8;
    assert env.raises(p[2]).None? && env.raises(p[3]).None? && env.raises(p[4]).None? && env.raises(p[5]).None?;
    assert i > 6 ==> env.raises(p[6]).None?;
  }

  lemma LateThrows(env: Env, s: State, i: int)
    requires env.Valid() && s.tree == env.extracted && OverlayFits(env) && PayloadFits(env)
    requires CommandFits(env, Production) && 6 <= i && FirstToRaise(env, PRODUCING, i)
    ensures i < |PRODUCING|
    ensures var (after, e) := Assemble(env, s);
      e.None? && RebuildAndRecord(env, after, FlagsOf(env), Production).1 == env.raises(PRODUCING[i])
  {
    hide Assemble, RebuildAndRecord, OverlayFits, PayloadFits, CommandFits, Env.Valid, Produced, FirstToRaise,
      PRODUCING,
      FlagsOf;
    RaisesSomething(env, i);
    QuietBefore(env, i);
    AssembleIff(env, s);
    RebuildThrows(env, Assemble(env, s).0, Production);
  }

  lemma EarlyThrows(env: Env, s: State, i: int)
    requires FirstToRaise(env, PRODUCING, i)
    ensures i < 2 ==> Unpack(env, s).1 == Threw(env.raises(PRODUCING[i]).value)
    ensures i >= 2 ==> env.raises(Extracting).None? && env.raises(Reporting).None?
    ensures 0 <= i < 8
  {
    var p := PRODUCING;
    assert p[0] == Extracting && p[1] == Reporting && |p| == 8;
    assert i > 0 ==> env.raises(p[0]).None?;
    assert i > 1 ==> env.raises(p[1]).None?;
    hide Unpack;
    UnpackThrows(env, s);
  }

  lemma RaisesSomething(env: Env, i: int)
    requires FirstToRaise(env, PRODUCING, i)
    ensures 0 <= i < |PRODUCING| && env.raises(PRODUCING[i]).Some?
  {
  }

  lemma ProductionThrows(env: Env, s: State, i: int)
    requires env.Valid() && Reaches(env, i) && FirstToRaise(env, PRODUCING, i)
    ensures ProductionStage(env, s).1 == Threw(env.raises(PRODUCING[i]).value)
  {
    hide Unpack, Assemble, RebuildAndRecord, OverlayFits, PayloadFits, CommandFits, Env.Valid, NoneRaises, PRODUCING,
      FirstToRaise, FlagsOf, Produced;
    EarlyThrows(env, s, i);
    RaisesSomething(env, i);
    if i >= 2 {
      UnpackIff(env, s);
      var s1 := Unpack(env, s).0;
      if i < 6 { AssembleThrows(env, s1, i); } else { LateThrows(env, s1, i); }
    }
  }

  /**
    The first step of production to raise decides what the run throws, if everything between the steps
    went well so far: its exception, unless writing the marker about it fails too.
   */
  lemma FirstFailureIsThrown(env: Env, tree: ExtractedTree.Fs, i: int)
    requires env.Valid() && Reaches(env, i) && FirstToRaise(env, PRODUCING, i)
    ensures Run(env, Start(tree)).1 == Threw(Passed(env, env.raises(PRODUCING[i]).value))
  {
    PreflightIs(env);
    ProductionThrows(env, Start(tree), i);
    hide ProductionStage, AfterProduction, Env.Valid, Preflight, OverlayFits, PayloadFits, CommandFits, FileLeft,
      NoneRaises, FirstToRaise;
  }

  // ----- what the marker says about a failure -----

  /** The marker names the stage that failed and the reason, and names none when none failed. */
  ghost predicate NamedBy(env: Env, st: Status, r: Attempt<RunBuild.Media>, outcome: QaTransition.Outcome) {
    && (st.production == FAIL ==>
         r.Threw? && r.exn.Failure? && st.failureStage == Json.Str("production_build")
           && st.failureReason == Json.Str(r.exn.reason))
    && (st.transition == FAIL ==>
         st.failureStage == Json.Str("qa_transition") && st.failureReason == Json.Str(Reason(env, outcome)))
    && (st.qa == FAIL ==>
         r.Threw? && r.exn.Failure? && st.failureStage == Json.Str("qa_build")
           && st.failureReason == Json.Str(r.exn.reason))
    && (st.production != FAIL && st.transition != FAIL && st.qa != FAIL ==>
         st.failureStage == Json.Null && st.failureReason == Json.Null)
  }

  ghost predicate LastIsNamed(env: Env, s: State, r: Attempt<RunBuild.Media>, outcome: QaTransition.Outcome) {
    LastMark(s.trace).Some? ==> NamedBy(env, LastMark(s.trace).value.0, r, outcome)
  }

  lemma MarkIsLast(env: Env, s: State, st: Status)
    requires MarkersHold(env)
    ensures var (after, fault) := RunBuild.Mark(env, s, st);
      fault.None? && LastMark(after.trace) == Some((st, Complete))
  {
    hide FileLeft, LastMark, FileAfter, Saw;
    AfterEvent(env.b.json, s.trace, Marked(st, Complete));
  }

  lemma NoMark(env: Env, trace: seq<Event>, e: Event)
    requires !e.Marked?
    ensures LastMark(trace + [e]) == LastMark(trace)
  {
    hide LastMark, FileAfter, Saw;
    AfterEvent(env.b.json, trace, e);
  }

  lemma RebuildNoMark(env: Env, s: State, flags: seq<string>, v: Variant)
    ensures LastMark(RebuildAndRecord(env, s, flags, v).0.trace) == LastMark(s.trace)
  {
    hide RebuildCommand, LastMark;
    match RebuildCommand(env.treeDir, flags, env.outputs(v), VOLUME_ID)
    case Err(_) =>
    case Ok(argv) =>
      var ran := Ran(RebuildIso(v, argv, s.tree), env.raises(Rebuilding(v)).None?);
      NoMark(env, s.trace, ran);
      NoMark(env, s.trace + [ran], Recorded(v));
  }

  lemma FinishNoMark(env: Env, s: State, media: Media)
    ensures LastMark(Finish(env, s, media).0.trace) == LastMark(s.trace)
  {
    hide LastMark;
    NoMark(env, s.trace, Released);
  }

  lemma QaStageNamed(env: Env, s: State, flags: seq<string>, outcome: QaTransition.Outcome)
    requires MarkersHold(env) && LastMark(s.trace) == Some((TRANSITION_PASS, Complete))
    ensures LastIsNamed(env, QaStage(env, s, flags).0, QaStage(env, s, flags).1, outcome)
  {
    StagesDiffer();
    hide RebuildAndRecord, RunBuild.Mark, Finish, LastMark, MarkersHold, PASS, FAIL, NOT_PERFORMED;
    RebuildNoMark(env, s, flags, Qa);
    var (s1, e) := RebuildAndRecord(env, s, flags, Qa);
    MarkIsLast(env, s1, ALL_PASS);
    FinishNoMark(env, RunBuild.Mark(env, s1, ALL_PASS).0, Media(true, None));
    if e.Some? && e.value.Failure? { MarkIsLast(env, s1, QaFail(e.value.reason)); }
  }

  lemma ClassifyNamed(env: Env, s: State, outcome: QaTransition.Outcome, flags: seq<string>)
    requires MarkersHold(env) && LastMark(s.trace) == Some((PRODUCTION_PASS, Complete))
    ensures LastIsNamed(env, Classify(env, s, outcome, flags).0, Classify(env, s, outcome, flags).1, outcome)
  {
    StagesDiffer();
    hide RunBuild.Mark, Finish, LastMark, MarkersHold, QaStage, PASS, FAIL, NOT_PERFORMED;
    var reason := env.says(Issue.Transition(outcome));
    MarkIsLast(env, s, TransitionFail(reason));
    FinishNoMark(env, RunBuild.Mark(env, s, TransitionFail(reason)).0, Media(false, Some(reason)));
    MarkIsLast(env, s, TRANSITION_PASS);
    QaStageNamed(env, RunBuild.Mark(env, s, TRANSITION_PASS).0, flags, outcome);
  }

  lemma AfterProductionNamed(env: Env, s: State, flags: seq<string>)
    requires env.Valid() && MarkersHold(env) && s.tree == Produced(env)
    ensures LastIsNamed(env, AfterProduction(env, s, flags).0, AfterProduction(env, s, flags).1, Switched(env).1)
  {
    StagesDiffer();
    hide RunBuild.Mark, Finish, LastMark, MarkersHold, Classify, QaTransition.Transition, Produced, Env.Valid, PASS,
      FAIL, NOT_PERFORMED;
    MarkIsLast(env, s, PRODUCTION_PASS);
    MarkFaults(env, s, PRODUCTION_PASS);
    var s1 := RunBuild.Mark(env, s, PRODUCTION_PASS).0;
    FinishNoMark(env, s1, Media(false, None));
    var (after, outcome) := QaTransition.Transition(s1.tree, env.lib, env.faults);
    NoMark(env, s1.trace, Transitioned(outcome));
    ClassifyNamed(env, s1.(tree := after).Do(Transitioned(outcome)), outcome, flags);
  }

  lemma ProductionNamed(env: Env, s: State, exn: Exn, outcome: QaTransition.Outcome)
    requires MarkersHold(env) && LastMark(s.trace).None?
    ensures var (after, e) := MarkAndRaise(env, s, ProductionFail, exn); LastIsNamed(env, after, Threw(e), outcome)
  {
    StagesDiffer();
    hide RunBuild.Mark, LastMark, MarkersHold, PASS, FAIL, NOT_PERFORMED;
    if exn.Failure? { MarkIsLast(env, s, ProductionFail(exn.reason)); }
  }

  lemma ProducedUnmarked(env: Env, tree: ExtractedTree.Fs)
    requires env.Valid()
    ensures var (s, r) := ProductionStage(env, Start(tree));
      LastMark(s.trace).None? && (r.Got? ==> s.tree == Produced(env))
  {
    hide ProductionStage, LastMark, Env.Valid, OverlayFits, PayloadFits, CommandFits, NoneRaises, Produced, FlagsOf,
      Producing, Saw, Orderly, FileAfter;
    StartIsSound(env, tree);
    ProductionSound(env, Start(tree));
    ProductionIff(env, Start(tree));
  }

  lemma RunNamed(env: Env, tree: ExtractedTree.Fs)
    requires env.Valid() && MarkersHold(env)
    ensures LastIsNamed(env, Run(env, Start(tree)).0, Run(env, Start(tree)).1, Switched(env).1)
  {
    hide ProductionStage, AfterProduction, MarkAndRaise, Env.Valid, Preflight, LastIsNamed, MarkersHold, LastMark,
      Switched, Produced;
    ProducedUnmarked(env, tree);
    var (s1, flags) := ProductionStage(env, Start(tree));
    match flags {
      case Got(f) => AfterProductionNamed(env, s1, f);
      case Threw(e) => ProductionNamed(env, s1, e, Switched(env).1);
    }
    NothingNamed(env, tree, Run(env, Start(tree)).1, Switched(env).1);
  }

  lemma NothingNamed(env: Env, tree: ExtractedTree.Fs, r: Attempt<RunBuild.Media>, outcome: QaTransition.Outcome)
    ensures LastIsNamed(env, Start(tree), r, outcome)
  {
  }

  /**
    What the final marker says about a failure, when no marker write fails: the stage that failed and
    the reason, which is that of the exception thrown or of the transition that was refused.
   */
  lemma FailureIsNamed(env: Env, tree: ExtractedTree.Fs)
    requires env.Valid() && MarkersHold(env)
    ensures var (s, r) := Run(env, Start(tree));
      LoadStatus(env.b.json, s.marker).Some? && NamedBy(env, LoadStatus(env.b.json, s.marker).value, r, Switched(env).1)
  {
    hide Run, Switched, Env.Valid, LoadStatus, LastMark, Ended, NamedBy, MarkersHold, Told, Saw;
    RunEnds(env, tree);
    RunNamed(env, tree);
    var (s, r) := Run(env, Start(tree));
    FinalMarker(env, s, r);
    FreshIsNamed(env, r, Switched(env).1);
  }

  lemma FreshIsNamed(env: Env, r: Attempt<RunBuild.Media>, outcome: QaTransition.Outcome)
    ensures NamedBy(env, FRESH, r, outcome)
  {
    StagesDiffer();
  }
}
