/**
  What every run of the build keeps, for every pattern of step failures: the order of the steps,
  what the stage marker says at each point, and when the base image is released.
 */
module RunHistory {
  import opened Text
  import opened Utf8
  import opened StageStatus
  import opened RunBuild
  import opened Payload
  import opened Rebuild
  import Json
  import Shlex
  import ExtractedTree
  import QaTransition

  /** The landmarks of a run. */
  datatype Kind =
    | Unpacked | Reported | WheelBuilt | Rebuilt(variant: Variant) | Manifested(variant: Variant)
    | TransitionTried | TransitionPassed | TransitionCaught | Mark | Release

  predicate Is(e: Event, k: Kind) {
    match k
    case Unpacked => e == Ran(Extract, true)
    case Reported => e == Ran(Report, true)
    case WheelBuilt => e == Ran(Wheel, true)
    case Rebuilt(v) => e.Ran? && e.ok && e.command.RebuildIso? && e.command.variant == v
    case Manifested(v) => e == Recorded(v)
    case TransitionTried => e.Transitioned?
    case TransitionPassed => e.Transitioned? && e.outcome.Done?
    case TransitionCaught => e.Transitioned? && (e.outcome.Blocked? || e.outcome.Mutation?)
    case Mark => e.Marked?
    case Release => e.Released?
  }

  ghost predicate Saw(trace: seq<Event>, k: Kind) {
    exists i :: 0 <= i < |trace| && Is(trace[i], k)
  }

  function LastMark(trace: seq<Event>): Option<(Status, Left)> {
    if trace == [] then None
    else
      match trace[|trace| - 1]
      case Marked(status, left) => Some((status, left))
      case _ => LastMark(trace[..|trace| - 1])
  }

  /** The marker file after a run that started without one. */
  function FileAfter(json: Json.Codec, trace: seq<Event>): Option<seq<Byte>> {
    if trace == [] then None
    else
      var before := FileAfter(json, trace[..|trace| - 1]);
      match trace[|trace| - 1]
      case Marked(status, left) => FileLeft(json, before, status, left)
      case _ => before
  }

  lemma AfterEvent(json: Json.Codec, trace: seq<Event>, e: Event)
    ensures forall k :: Saw(trace + [e], k) <==> Saw(trace, k) || Is(e, k)
    ensures LastMark(trace + [e]) == if e.Marked? then Some((e.status, e.left)) else LastMark(trace)
    ensures FileAfter(json, trace + [e]) ==
      if e.Marked? then FileLeft(json, FileAfter(json, trace), e.status, e.left) else FileAfter(json, trace)
  {
    hide Is, FileLeft;
    var t := trace + [e];
    assert t[..|t| - 1] == trace && t[|trace|] == e;
    forall k ensures Saw(t, k) <==> Saw(trace, k) || Is(e, k) {
      if Saw(trace, k) {
        var i :| 0 <= i < |trace| && Is(trace[i], k);
        assert Is(t[i], k);
      }
      if Is(e, k) { assert Is(t[|trace|], k); }
      if Saw(t, k) {
        var i :| 0 <= i < |t| && Is(t[i], k);
        assert i < |trace| ==> Is(trace[i], k);
      }
    }
  }

  // ----- the order every history keeps -----

  /** The passes of `later` include those of `earlier`. */
  predicate Keeps(earlier: Status, later: Status) {
    && (earlier.production == PASS ==> later.production == PASS)
    && (earlier.transition == PASS ==> later.transition == PASS)
    && (earlier.qa == PASS ==> later.qa == PASS)
  }

  /** A marker written now tells exactly what has happened so far. */
  ghost predicate Earned(before: seq<Event>, st: Status) {
    && st.Valid()
    && (st.production == PASS <==> Saw(before, Manifested(Production)))
    && (st.transition == PASS <==> Saw(before, TransitionPassed))
    && (st.transition == FAIL <==> Saw(before, TransitionCaught))
    && (st.qa == PASS <==> Saw(before, Manifested(Qa)))
    && (st.qa != NOT_PERFORMED ==> st.transition == PASS)
    && (st.transition != NOT_PERFORMED ==> st.production == PASS)
  }

  /** When an event may follow a history. */
  ghost predicate MayFollow(before: seq<Event>, e: Event) {
    match e
    case Ran(command, _) =>
      && !Saw(before, Release)
      && (match command
          case Extract => before == []
          case Report => Saw(before, Unpacked)
          case Wheel => Saw(before, Reported)
          case RebuildIso(Production, _, _) => Saw(before, WheelBuilt) && !Saw(before, Mark)
          case RebuildIso(Qa, _, _) => Saw(before, TransitionPassed) && Saw(before, Manifested(Production)))
    case Recorded(v) => Saw(before, Rebuilt(v))
    case Transitioned(_) => Saw(before, Manifested(Production)) && LastMark(before) == Some((PRODUCTION_PASS, Complete))
    case Marked(st, _) =>
      && Earned(before, st)
      && (LastMark(before).Some? ==> LastMark(before).value.1.Complete? && Keeps(LastMark(before).value.0, st))
    case Released => !Saw(before, Release)
  }

  ghost predicate Orderly(trace: seq<Event>) {
    trace == [] || (Orderly(trace[..|trace| - 1]) && MayFollow(trace[..|trace| - 1], trace[|trace| - 1]))
  }

  lemma OrderlyStep(trace: seq<Event>, e: Event)
    requires Orderly(trace) && MayFollow(trace, e)
    ensures Orderly(trace + [e])
  {
    hide MayFollow;
    assert (trace + [e])[..|trace|] == trace;
  }

  function MarkLeft(env: Env, st: Status): Left {
    match env.markFault(st)
    case None => Complete
    case Some((_, left)) => left
  }

  ghost predicate Genuine(env: Env, trace: seq<Event>) {
    forall i :: 0 <= i < |trace| && trace[i].Marked? ==> trace[i].left == MarkLeft(env, trace[i].status)
  }

  /** The history, the marker and the base image agree. */
  ghost predicate Sound(env: Env, s: State) {
    && Orderly(s.trace) && Genuine(env, s.trace)
    && s.marker == FileAfter(env.b.json, s.trace)
    && (s.base <==> !Saw(s.trace, Release))
  }

  lemma Did(env: Env, s: State, e: Event)
    requires Sound(env, s) && MayFollow(s.trace, e) && !e.Marked? && !e.Released?
    ensures Sound(env, s.Do(e))
    ensures forall k :: Saw(s.Do(e).trace, k) <==> Saw(s.trace, k) || Is(e, k)
    ensures LastMark(s.Do(e).trace) == LastMark(s.trace)
  {
    hide MayFollow, Orderly, Saw, LastMark, FileAfter;
    AfterEvent(env.b.json, s.trace, e);
    OrderlyStep(s.trace, e);
    assert !Is(e, Release);
  }

  lemma DidMark(env: Env, s: State, st: Status)
    requires Sound(env, s) && Earned(s.trace, st)
    requires LastMark(s.trace).Some? ==> LastMark(s.trace).value.1.Complete? && Keeps(LastMark(s.trace).value.0, st)
    ensures var (after, fault) := RunBuild.Mark(env, s, st);
      && Sound(env, after) && after.tree == s.tree && after.trace == s.trace + [Marked(st, MarkLeft(env, st))]
      && (forall k :: Saw(after.trace, k) <==> Saw(s.trace, k) || k == Mark)
      && LastMark(after.trace) == Some((st, MarkLeft(env, st)))
      && (fault.None? <==> env.markFault(st).None?)
  {
    hide Orderly, Saw, LastMark, FileAfter, FileLeft, Earned, Keeps;
    var e := Marked(st, MarkLeft(env, st));
    AfterEvent(env.b.json, s.trace, e);
    OrderlyStep(s.trace, e);
    forall k ensures Is(e, k) <==> k == Mark {}
  }

  // ----- the stages keep it -----

  ghost predicate Only(trace: seq<Event>, kinds: set<Kind>) {
    forall k :: Saw(trace, k) ==> k in kinds
  }

  ghost predicate Exactly(trace: seq<Event>, kinds: set<Kind>) {
    forall k :: Saw(trace, k) <==> k in kinds
  }

  const ASSEMBLED: set<Kind> := {Unpacked, Reported, WheelBuilt}
  const PRODUCED: set<Kind> := ASSEMBLED + {Rebuilt(Production), Manifested(Production)}
  const SWITCHED: set<Kind> := PRODUCED + {Mark, TransitionTried, TransitionPassed}

  lemma NothingYet(trace: seq<Event>)
    requires trace == []
    ensures LastMark(trace).None? && forall k :: !Saw(trace, k)
  {
  }

  /** None of this is about the tree. */
  lemma TreeIsFree(env: Env, s: State, tree: ExtractedTree.Fs)
    requires Sound(env, s)
    ensures Sound(env, s.(tree := tree))
  {
  }

  lemma UnpackSound(env: Env, s: State)
    requires Sound(env, s) && s.trace == []
    ensures var (after, r) := Unpack(env, s);
      && Sound(env, after) && Only(after.trace, {Unpacked, Reported}) && LastMark(after.trace).None?
      && after.trace != []
      && (r.Got? ==> Exactly(after.trace, {Unpacked, Reported}) && after.tree == env.extracted)
  {
    hide Sound, Shlex.ParseReport, Saw, LastMark;
    NothingYet(s.trace);
    if env.raises(Extracting).Some? {
      TreeIsFree(env, s, env.debris(Extracting));
      Did(env, s.(tree := env.debris(Extracting)), Ran(Extract, false));
    } else {
      var s1 := s.(tree := env.extracted);
      TreeIsFree(env, s, env.extracted);
      Did(env, s1, Ran(Extract, true));
      Did(env, s1.Do(Ran(Extract, true)), Ran(Report, env.raises(Reporting).None?));
    }
  }

  lemma AssembleSound(env: Env, s: State)
    requires env.Valid() && Sound(env, s) && Exactly(s.trace, {Unpacked, Reported}) && LastMark(s.trace).None?
    ensures var (after, e) := Assemble(env, s);
      && Sound(env, after) && Only(after.trace, ASSEMBLED) && LastMark(after.trace).None? && |after.trace| >= |s.trace|
      && (e.None? ==>
            && Exactly(after.trace, ASSEMBLED) && Overlaid(env, s.tree).1.Wrote?
            && (after.tree, AllWritten) == Paid(env, Overlaid(env, s.tree).0))
  {
    hide Orderly, FileAfter, Saw, LastMark, Overlaid, Paid, Env.Valid;
    if env.raises(Overlaying).None? {
      var (overlaid, applied) := Overlaid(env, s.tree);
      Did(env, s.(tree := overlaid), Ran(Wheel, env.raises(BuildingWheel).None?));
    }
  }

  /** What a rebuild needs to have seen. */
  ghost predicate MayRebuild(trace: seq<Event>, v: Variant) {
    && !Saw(trace, Release)
    && match v
       case Production => Saw(trace, WheelBuilt) && !Saw(trace, Mark)
       case Qa => Saw(trace, TransitionPassed) && Saw(trace, Manifested(Production))
  }

  lemma RebuildSound(env: Env, s: State, flags: seq<string>, v: Variant)
    requires Sound(env, s) && MayRebuild(s.trace, v) && !Saw(s.trace, Manifested(v))
    ensures var (after, e) := RebuildAndRecord(env, s, flags, v);
      && Sound(env, after) && LastMark(after.trace) == LastMark(s.trace) && |after.trace| >= |s.trace|
      && (forall k :: k !in {Rebuilt(v), Manifested(v)} ==> (Saw(after.trace, k) <==> Saw(s.trace, k)))
      && (e.None? <==> Saw(after.trace, Manifested(v)))
      && (e.None? ==>
            && Saw(after.trace, Rebuilt(v)) && after.tree == s.tree
            && RebuildCommand(env.treeDir, flags, env.outputs(v), VOLUME_ID).Ok?
            && var argv := RebuildCommand(env.treeDir, flags, env.outputs(v), VOLUME_ID).value;
               after.trace == s.trace + [Ran(RebuildIso(v, argv, s.tree), true), Recorded(v)])
  {
    hide Orderly, FileAfter, Saw, LastMark, RebuildCommand;
    match RebuildCommand(env.treeDir, flags, env.outputs(v), VOLUME_ID)
    case Err(_) =>
    case Ok(argv) =>
      var ran := Ran(RebuildIso(v, argv, s.tree), env.raises(Rebuilding(v)).None?);
      Did(env, s, ran);
      if env.raises(Rebuilding(v)).None? && env.raises(Recording(v)).None? {
        Did(env, s.Do(ran), Recorded(v));
        assert s.trace + [ran] + [Recorded(v)] == s.trace + [ran, Recorded(v)];
      }
  }

  lemma ProductionSound(env: Env, s: State)
    requires env.Valid() && Sound(env, s) && s.trace == []
    ensures var (after, r) := ProductionStage(env, s);
      && Sound(env, after) && Only(after.trace, PRODUCED) && LastMark(after.trace).None? && after.trace != []
      && (r.Got? <==> Saw(after.trace, Manifested(Production)))
      && (r.Got? ==> Exactly(after.trace, PRODUCED))
  {
    hide Orderly, FileAfter, Saw, LastMark, Unpack, Assemble, RebuildAndRecord, Env.Valid, Overlaid, Paid;
    UnpackSound(env, s);
    assert Manifested(Production) !in ASSEMBLED && Manifested(Production) in PRODUCED;
    var (s1, r1) := Unpack(env, s);
    if r1.Got? {
      AssembleSound(env, s1);
      var (s2, e2) := Assemble(env, s1);
      if e2.None? {
        RebuildSound(env, s2, r1.value, Production);
        var (s3, e3) := RebuildAndRecord(env, s2, r1.value, Production);
        assert ProductionStage(env, s) == (s3, if e3.Some? then Threw(e3.value) else r1);
      } else {
        assert ProductionStage(env, s) == (s2, Threw(e2.value));
        assert !Saw(s2.trace, Manifested(Production));
      }
    }
  }

  // ----- the end of a run -----

  /** No marker write fails. */
  ghost predicate MarkersHold(env: Env) {
    forall st :: env.markFault(st).None?
  }

  /** The last marker of a run that ended with `r` tells how far it got. */
  ghost predicate Told(trace: seq<Event>, r: Attempt<Media>) {
    match LastMark(trace)
    case None => !Saw(trace, Manifested(Production)) && r.Threw? && (trace == [] || r.exn.Interrupt?)
    case Some((st, left)) =>
      && left.Complete? && Earned(trace, st)
      && (st.production == FAIL <==> !Saw(trace, Manifested(Production)) && r.Threw? && r.exn.Failure?)
      && (st.qa == FAIL <==> Saw(trace, TransitionPassed) && !Saw(trace, Manifested(Qa)) && r.Threw? && r.exn.Failure?)
  }

  ghost predicate Ended(env: Env, s: State, r: Attempt<Media>) {
    && Sound(env, s)
    && (Saw(s.trace, Release) <==> env.ephemeral && r.Got?)
    && (Saw(s.trace, Release) ==> s.trace != [] && s.trace[|s.trace| - 1] == Released)
    && (r.Got? ==>
          && LastMark(s.trace).Some? && LastMark(s.trace).value.1.Complete?
          && Earned(s.trace, LastMark(s.trace).value.0)
          && Saw(s.trace, Manifested(Production))
          && (r.value.qa <==> Saw(s.trace, Manifested(Qa)))
          && (r.value.blocked.Some? <==> Saw(s.trace, TransitionCaught)))
    && (MarkersHold(env) ==> Told(s.trace, r))
  }

  lemma FinishSound(env: Env, s: State, media: Media)
    requires Sound(env, s) && !Saw(s.trace, Release)
    requires Saw(s.trace, Manifested(Production))
    requires media.qa <==> Saw(s.trace, Manifested(Qa))
    requires media.blocked.Some? <==> Saw(s.trace, TransitionCaught)
    requires LastMark(s.trace).Some? && LastMark(s.trace).value.1.Complete?
    requires var st := LastMark(s.trace).value.0; Earned(s.trace, st) && st.production != FAIL && st.qa != FAIL
    requires Saw(s.trace, TransitionPassed) ==> Saw(s.trace, Manifested(Qa))
    ensures Ended(env, Finish(env, s, media).0, Finish(env, s, media).1)
  {
    hide Orderly, FileAfter, Saw, LastMark, Status.Valid, PASS, FAIL, NOT_PERFORMED;
    if env.ephemeral && env.raises(Releasing).None? {
      AfterEvent(env.b.json, s.trace, Released);
      OrderlyStep(s.trace, Released);
    }
  }

  lemma QaStageSound(env: Env, s: State, flags: seq<string>)
    requires Sound(env, s) && Exactly(s.trace, SWITCHED) && LastMark(s.trace) == Some((TRANSITION_PASS, Complete))
    ensures Ended(env, QaStage(env, s, flags).0, QaStage(env, s, flags).1)
  {
    hide Orderly, FileAfter, Saw, LastMark, RebuildAndRecord, RunBuild.Mark, Finish, Ended, Sound;
    StagesDiffer();
    RebuildSound(env, s, flags, Qa);
    var (s1, e) := RebuildAndRecord(env, s, flags, Qa);
    if e.None? {
      DidMark(env, s1, ALL_PASS);
      if env.markFault(ALL_PASS).None? {
        FinishSound(env, RunBuild.Mark(env, s1, ALL_PASS).0, Media(true, None));
      } else {
        ThrewSound(env, RunBuild.Mark(env, s1, ALL_PASS).0, QaStage(env, s, flags).1);
      }
    } else if e.value.Failure? {
      DidMark(env, s1, QaFail(e.value.reason));
      ThrewSound(env, RunBuild.Mark(env, s1, QaFail(e.value.reason)).0, QaStage(env, s, flags).1);
    } else {
      ThrewSound(env, s1, QaStage(env, s, flags).1);
    }
  }

  lemma ThrewSound(env: Env, s: State, r: Attempt<Media>)
    requires Sound(env, s) && !Saw(s.trace, Release) && r.Threw? && (MarkersHold(env) ==> Told(s.trace, r))
    ensures Ended(env, s, r)
  {
  }

  /** The transition has been tried on a production that passed. */
  ghost predicate Tried(env: Env, s: State, outcome: QaTransition.Outcome) {
    && Sound(env, s) && LastMark(s.trace) == Some((PRODUCTION_PASS, Complete))
    && forall k :: Saw(s.trace, k) <==> k in PRODUCED || k == Mark || Is(Transitioned(outcome), k)
  }

  lemma CaughtSound(env: Env, s: State, outcome: QaTransition.Outcome, flags: seq<string>)
    requires Tried(env, s, outcome) && (outcome.Mutation? || outcome.Blocked?)
    ensures Ended(env, Classify(env, s, outcome, flags).0, Classify(env, s, outcome, flags).1)
  {
    hide Orderly, FileAfter, Saw, LastMark, RunBuild.Mark, Finish, Ended, Sound, QaStage;
    StagesDiffer();
    var reason := env.says(Issue.Transition(outcome));
    DidMark(env, s, TransitionFail(reason));
    var after := RunBuild.Mark(env, s, TransitionFail(reason)).0;
    if outcome.Blocked? && env.markFault(TransitionFail(reason)).None? {
      FinishSound(env, after, Media(false, Some(reason)));
    } else {
      ThrewSound(env, after, Classify(env, s, outcome, flags).1);
    }
  }

  lemma DoneSound(env: Env, s: State, outcome: QaTransition.Outcome, flags: seq<string>)
    requires Tried(env, s, outcome) && outcome.Done?
    ensures Ended(env, Classify(env, s, outcome, flags).0, Classify(env, s, outcome, flags).1)
  {
    hide Orderly, FileAfter, Saw, LastMark, RunBuild.Mark, Finish, Ended, Sound, QaStage;
    StagesDiffer();
    DidMark(env, s, TRANSITION_PASS);
    var after := RunBuild.Mark(env, s, TRANSITION_PASS).0;
    if env.markFault(TRANSITION_PASS).None? {
      QaStageSound(env, after, flags);
    } else {
      ThrewSound(env, after, Classify(env, s, outcome, flags).1);
    }
  }

  lemma UncaughtSound(env: Env, s: State, outcome: QaTransition.Outcome, flags: seq<string>)
    requires Tried(env, s, outcome) && outcome.Raised?
    ensures Ended(env, Classify(env, s, outcome, flags).0, Classify(env, s, outcome, flags).1)
  {
    hide Orderly, FileAfter, Saw, LastMark, Ended, Sound;
    StagesDiffer();
    ThrewSound(env, s, Classify(env, s, outcome, flags).1);
  }

  lemma ClassifySound(env: Env, s: State, outcome: QaTransition.Outcome, flags: seq<string>)
    requires Tried(env, s, outcome)
    ensures Ended(env, Classify(env, s, outcome, flags).0, Classify(env, s, outcome, flags).1)
  {
    hide *;
    match outcome
    case Raised => UncaughtSound(env, s, outcome, flags);
    case Done(_, _) => DoneSound(env, s, outcome, flags);
    case _ => CaughtSound(env, s, outcome, flags);
  }

  lemma AfterProductionSound(env: Env, s: State, flags: seq<string>)
    requires Sound(env, s) && Exactly(s.trace, PRODUCED) && LastMark(s.trace).None?
    ensures Ended(env, AfterProduction(env, s, flags).0, AfterProduction(env, s, flags).1)
  {
    hide Orderly, FileAfter, Saw, LastMark, RunBuild.Mark, Finish, Ended, Sound, Classify, QaTransition.Transition, Is;
    StagesDiffer();
    DidMark(env, s, PRODUCTION_PASS);
    var s1 := RunBuild.Mark(env, s, PRODUCTION_PASS).0;
    if env.markFault(PRODUCTION_PASS).Some? {
      ThrewSound(env, s1, AfterProduction(env, s, flags).1);
    } else if !env.buildQa {
      FinishSound(env, s1, Media(false, None));
    } else {
      var (after, outcome) := QaTransition.Transition(s1.tree, env.lib, env.faults);
      var s2 := s1.(tree := after);
      SameSound(env, s1, s2);
      Did(env, s2, Transitioned(outcome));
      ClassifySound(env, s2.Do(Transitioned(outcome)), outcome, flags);
    }
  }

  lemma SameSound(env: Env, s: State, t: State)
    requires Sound(env, s) && t == s.(tree := t.tree)
    ensures Sound(env, t)
  {
  }

  /** The state a run starts from: no marker, the base image in the cache, nothing done. */
  function Start(tree: ExtractedTree.Fs): State {
    State(tree, [], None, true)
  }

  /** Every run, whatever fails, keeps the order, the marker and the base image in agreement. */
  lemma RunEnds(env: Env, tree: ExtractedTree.Fs)
    requires env.Valid()
    ensures Ended(env, Run(env, Start(tree)).0, Run(env, Start(tree)).1)
  {
    hide AfterProduction, ProductionStage, RunBuild.Mark, Env.Valid, Preflight;
    var s := Start(tree);
    assert Sound(env, s);
    if Preflight(env).None? {
      ProductionSound(env, s);
      var (s1, flags) := ProductionStage(env, s);
      if flags.Got? {
        AfterProductionSound(env, s1, flags.value);
      } else {
        ProductionFailed(env, s1, flags.exn);
      }
    }
  }

  lemma ProductionFailed(env: Env, s: State, exn: Exn)
    requires Sound(env, s) && Only(s.trace, PRODUCED) && LastMark(s.trace).None?
      && !Saw(s.trace, Manifested(Production)) && s.trace != []
    ensures var (after, e) := MarkAndRaise(env, s, ProductionFail, exn); Ended(env, after, Threw(e))
  {
    hide Orderly, FileAfter, Saw, LastMark, RunBuild.Mark, Ended, Sound;
    StagesDiffer();
    match exn
    case Interrupt => ThrewSound(env, s, Threw(exn));
    case Failure(reason) =>
      DidMark(env, s, ProductionFail(reason));
      var (after, e) := MarkAndRaise(env, s, ProductionFail, exn);
      ThrewSound(env, after, Threw(e));
  }
}
