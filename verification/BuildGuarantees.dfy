/**
  What `run_build` guarantees over all its runs.
 */
module BuildGuarantees {
  import opened Text
  import opened Utf8
  import opened StageStatus
  import opened RunBuild
  import opened RunHistory
  import opened Rebuild
  import opened Payload
  import Json
  import Shlex
  import ExtractedTree
  import Catalog
  import QaTransition
  import BuildAgreement
  import Inspect

  // ----- any point of a history -----

  lemma {:induction false} OrderlyAt(trace: seq<Event>, k: nat)
    requires Orderly(trace) && k < |trace|
    ensures Orderly(trace[..k]) && MayFollow(trace[..k], trace[k])
    decreases |trace|
  {
    hide MayFollow;
    if k < |trace| - 1 {
      OrderlyAt(trace[..|trace| - 1], k);
      assert trace[..|trace| - 1][..k] == trace[..k];
    }
  }

  lemma PrefixStep(json: Json.Codec, trace: seq<Event>, k: nat)
    requires k < |trace|
    ensures forall x :: Saw(trace[..k + 1], x) <==> Saw(trace[..k], x) || Is(trace[k], x)
    ensures LastMark(trace[..k + 1]) ==
      if trace[k].Marked? then Some((trace[k].status, trace[k].left))
      else LastMark(trace[..k])
    ensures FileAfter(json, trace[..k + 1]) ==
      if trace[k].Marked? then FileLeft(json, FileAfter(json, trace[..k]), trace[k].status, trace[k].left)
      else FileAfter(json, trace[..k])
  {
    hide Saw, LastMark, FileAfter, Is;
    assert trace[..k + 1] == trace[..k] + [trace[k]];
    AfterEvent(json, trace[..k], trace[k]);
  }

  lemma {:induction false} FileOfLastMark(json: Json.Codec, trace: seq<Event>)
    ensures LastMark(trace).None? ==> FileAfter(json, trace).None?
    ensures LastMark(trace).Some? && LastMark(trace).value.1.Complete? ==>
      FileAfter(json, trace) == Some(TextOf(json, LastMark(trace).value.0))
    decreases |trace|
  {
    if trace != [] && !trace[|trace| - 1].Marked? { FileOfLastMark(json, trace[..|trace| - 1]); }
  }

  /** A landmark seen in a history happened at some point of it. */
  lemma Happened(trace: seq<Event>, x: Kind) returns (i: nat)
    requires Saw(trace, x)
    ensures i < |trace| && Is(trace[i], x)
  {
    i :| i < |trace| && Is(trace[i], x);
  }

  // ----- the base image -----

  lemma NoSecondRelease(trace: seq<Event>, i: nat)
    requires Orderly(trace) && i < |trace| - 1 && trace[i].Released?
    ensures !trace[|trace| - 1].Released?
  {
    assert Is(trace[..|trace| - 1][i], Release);
  }

  /**
    The base image is released at most once, only in an ephemeral build, only as the last step of a
    run that returns normally; so no extract, report or rebuild command follows.
   */
  lemma ReleaseDiscipline(env: Env, tree: ExtractedTree.Fs)
    requires env.Valid()
    ensures var (s, r) := Run(env, Start(tree));
      && (!s.base <==> env.ephemeral && r.Got?)
      && (forall i :: 0 <= i < |s.trace| && s.trace[i].Released? ==> env.ephemeral && r.Got? && i == |s.trace| - 1)
  {
    hide Run, Orderly, FileAfter, Earned, Told, LastMark, Env.Valid;
    RunEnds(env, tree);
    var (s, r) := Run(env, Start(tree));
    forall i | 0 <= i < |s.trace| && s.trace[i].Released? ensures env.ephemeral && r.Got? && i == |s.trace| - 1 {
      assert Is(s.trace[i], Release);
      if i < |s.trace| - 1 { NoSecondRelease(s.trace, i); }
    }
  }

  // ----- the marker -----

  /** Every stage the marker reports has happened, and in the pipeline's order. */
  ghost predicate Truthful(trace: seq<Event>, st: Status) {
    && (st.production == PASS ==> Saw(trace, Manifested(Production)))
    && (st.transition == PASS ==> Saw(trace, TransitionPassed))
    && (st.transition == FAIL ==> Saw(trace, TransitionCaught))
    && (st.qa == PASS ==> Saw(trace, Manifested(Qa)))
    && (st.qa != NOT_PERFORMED ==> st.transition == PASS)
    && (st.transition != NOT_PERFORMED ==> st.production == PASS)
  }

  /** What a reader of the marker sees after the first `k` events. */
  function ShownAt(env: Env, trace: seq<Event>, k: nat): Option<Status>
    requires k <= |trace|
  {
    LoadStatus(env.b.json, FileAfter(env.b.json, trace[..k]))
  }

  lemma ShownStep(env: Env, trace: seq<Event>, k: nat)
    requires env.Valid() && Orderly(trace) && Genuine(env, trace) && k < |trace|
    ensures !trace[k].Marked? ==> ShownAt(env, trace, k + 1) == ShownAt(env, trace, k)
    ensures trace[k].Marked? ==>
      match trace[k].left
      case Complete => ShownAt(env, trace, k + 1) == Some(trace[k].status)
      case Untouched => ShownAt(env, trace, k + 1) == ShownAt(env, trace, k)
      case Garbled(_) => ShownAt(env, trace, k + 1) == None
  {
    hide Orderly, FileAfter, LoadStatus, Saw, LastMark, Keeps;
    PrefixStep(env.b.json, trace, k);
    if trace[k].Marked? {
      OrderlyAt(trace, k);
      MarkerRoundTrip(env.b.json, trace[k].status);
      if trace[k].left.Garbled? { Unreadable(env.b.json, trace[k].left.bytes); }
    }
  }

  lemma Unreadable(json: Json.Codec, bytes: seq<Byte>)
    requires json.loads(bytes) == None
    ensures LoadStatus(json, Some(bytes)) == None
  {
  }

  lemma {:induction false} ShownIsTruthful(env: Env, trace: seq<Event>, k: nat)
    requires env.Valid() && Orderly(trace) && Genuine(env, trace) && k <= |trace|
    ensures ShownAt(env, trace, k).Some? ==> Truthful(trace[..k], ShownAt(env, trace, k).value)
    decreases k
  {
    hide Orderly, Genuine, Saw, LastMark, Env.Valid, ShownAt;
    StagesDiffer();
    if k == 0 {
      NothingShown(env, trace);
    } else {
      ShownIsTruthful(env, trace, k - 1);
      ShownStep(env, trace, k - 1);
      PrefixStep(env.b.json, trace, k - 1);
      OrderlyAt(trace, k - 1);
    }
  }

  lemma NothingShown(env: Env, trace: seq<Event>)
    ensures ShownAt(env, trace, 0) == Some(FRESH)
  {
  }

  /** At every point of every run the marker, if readable, is truthful. */
  lemma MarkerIsTruthful(env: Env, tree: ExtractedTree.Fs, k: nat)
    requires env.Valid() && k <= |Run(env, Start(tree)).0.trace|
    ensures var s := Run(env, Start(tree)).0;
      && (ShownAt(env, s.trace, k).Some? ==> Truthful(s.trace[..k], ShownAt(env, s.trace, k).value))
      && s.marker == FileAfter(env.b.json, s.trace)
  {
    hide Run, Orderly, FileAfter, Saw, LastMark, Env.Valid, Told, Earned, Truthful, ShownAt;
    RunEnds(env, tree);
    ShownIsTruthful(env, Run(env, Start(tree)).0.trace, k);
  }

  lemma LastMarkIsShown(env: Env, trace: seq<Event>, k: nat)
    requires env.Valid() && k <= |trace|
    requires LastMark(trace[..k]).Some? ==>
      LastMark(trace[..k]).value.1.Complete? && LastMark(trace[..k]).value.0.Valid()
    ensures ShownAt(env, trace, k) ==
      if LastMark(trace[..k]).Some? then Some(LastMark(trace[..k]).value.0)
      else Some(FRESH)
  {
    hide LastMark, FileAfter;
    FileOfLastMark(env.b.json, trace[..k]);
    if LastMark(trace[..k]).Some? { MarkerRoundTrip(env.b.json, LastMark(trace[..k]).value.0); }
  }

  lemma {:induction false} LastMarkIsValid(trace: seq<Event>)
    requires Orderly(trace)
    ensures LastMark(trace).Some? ==> LastMark(trace).value.0.Valid()
    decreases |trace|
  {
    hide Saw, Keeps;
    if trace != [] { LastMarkIsValid(trace[..|trace| - 1]); }
  }

  lemma {:induction false} PassesStay(env: Env, trace: seq<Event>, i: nat, j: nat)
    requires env.Valid() && Orderly(trace) && Genuine(env, trace) && i <= j <= |trace|
    requires ShownAt(env, trace, i).Some? && ShownAt(env, trace, j).Some?
    ensures Keeps(ShownAt(env, trace, i).value, ShownAt(env, trace, j).value)
    decreases j
  {
    hide Orderly, Genuine, Saw, LastMark, Env.Valid, ShownAt, Earned, IsStage;
    StagesDiffer();
    if i < j {
      ShownStep(env, trace, j - 1);
      OrderlyAt(trace, j - 1);
      var e := trace[j - 1];
      if e.Marked? && e.left.Complete? {
        LastMarkIsValid(trace[..j - 1]);
        LastMarkIsShown(env, trace, j - 1);
      }
      PassesStay(env, trace, i, j - 1);
    }
  }

  /** In every run, a pass the marker shows at one point is shown by every later readable marker. */
  lemma NoPassRetracted(env: Env, tree: ExtractedTree.Fs, i: nat, j: nat)
    requires env.Valid() && i <= j <= |Run(env, Start(tree)).0.trace|
    requires ShownAt(env, Run(env, Start(tree)).0.trace, i).Some?
      && ShownAt(env, Run(env, Start(tree)).0.trace, j).Some?
    ensures var trace := Run(env, Start(tree)).0.trace;
      Keeps(ShownAt(env, trace, i).value, ShownAt(env, trace, j).value)
  {
    hide Run, Orderly, FileAfter, Saw, LastMark, Env.Valid, Told, Earned, ShownAt, Keeps;
    RunEnds(env, tree);
    PassesStay(env, Run(env, Start(tree)).0.trace, i, j);
  }

  /**
    When no marker write fails, the final marker says exactly how far the run got, exception class
    by exception class: a stage is marked failed only for an exception that was caught, and is left
    as "not performed" by any other.
   */
  lemma MarkerTellsTheRun(env: Env, tree: ExtractedTree.Fs)
    requires env.Valid() && MarkersHold(env)
    ensures var (s, r) := Run(env, Start(tree));
      && LoadStatus(env.b.json, s.marker).Some?
      && var st := LoadStatus(env.b.json, s.marker).value;
      && (st.production == PASS <==> Saw(s.trace, Manifested(Production)))
      && (st.production == FAIL <==>
        s.trace != [] && !Saw(s.trace, Manifested(Production)) && r.Threw? && r.exn.Failure?)
      && (st.transition == PASS <==> Saw(s.trace, TransitionPassed))
      && (st.transition == FAIL <==> Saw(s.trace, TransitionCaught))
      && (st.qa == PASS <==> Saw(s.trace, Manifested(Qa)))
      && (st.qa == FAIL <==>
        Saw(s.trace, TransitionPassed) && !Saw(s.trace, Manifested(Qa)) && r.Threw? && r.exn.Failure?)
  {
    hide Run, Orderly, FileAfter, Saw, LastMark, Env.Valid, LoadStatus, ShownAt;
    RunEnds(env, tree);
    var (s, r) := Run(env, Start(tree));
    FinalMarker(env, s, r);
    StagesDiffer();
  }

  lemma FinalMarker(env: Env, s: State, r: Attempt<RunBuild.Media>)
    requires env.Valid() && MarkersHold(env) && Ended(env, s, r)
    ensures Told(s.trace, r)
    ensures LoadStatus(env.b.json, s.marker) ==
      if LastMark(s.trace).Some? then Some(LastMark(s.trace).value.0)
      else Some(FRESH)
    ensures LastMark(s.trace).Some? ==> s.trace != []
    ensures LastMark(s.trace).None? ==>
      !Saw(s.trace, Manifested(Production)) && !Saw(s.trace, TransitionPassed) && !Saw(s.trace, TransitionCaught)
        && !Saw(s.trace, Manifested(Qa))
  {
    hide Orderly, FileAfter, Saw, LastMark, LoadStatus;
    assert s.trace[..|s.trace|] == s.trace;
    LastMarkIsValid(s.trace);
    LastMarkIsShown(env, s.trace, |s.trace|);
    if LastMark(s.trace).None? { Unswitched(s.trace); }
    if s.trace == [] { NothingYet(s.trace); }
  }

  /** What a landmark needs to have seen before it. */
  function Needs(x: Kind): Option<Kind> {
    match x
    case Reported => Some(Unpacked)
    case WheelBuilt => Some(Reported)
    case Rebuilt(Production) => Some(WheelBuilt)
    case TransitionTried | TransitionPassed | TransitionCaught => Some(Manifested(Production))
    case Rebuilt(Qa) => Some(TransitionPassed)
    case Manifested(v) => Some(Rebuilt(v))
    case _ => None
  }

  lemma NeededEarlier(trace: seq<Event>, i: nat, x: Kind) returns (j: nat)
    requires Orderly(trace) && i < |trace| && Is(trace[i], x) && Needs(x).Some?
    ensures j < i && Is(trace[j], Needs(x).value)
  {
    hide Orderly, Saw, Earned, LastMark;
    OrderlyAt(trace, i);
    j := Happened(trace[..i], Needs(x).value);
  }

  lemma Unswitched(trace: seq<Event>)
    requires Orderly(trace) && !Saw(trace, Manifested(Production))
    ensures !Saw(trace, TransitionPassed) && !Saw(trace, TransitionCaught) && !Saw(trace, Manifested(Qa))
  {
    hide Orderly, Is;
    forall x | x == TransitionPassed || x == TransitionCaught ensures !Saw(trace, x) {
      if Saw(trace, x) {
        var i := Happened(trace, x);
        var j := NeededEarlier(trace, i, x);
      }
    }
    if Saw(trace, Manifested(Qa)) {
      var i := Happened(trace, Manifested(Qa));
      var j := NeededEarlier(trace, i, Manifested(Qa));
      var k := NeededEarlier(trace, j, Rebuilt(Qa));
    }
  }

  // ----- what a complete run produced -----

  /** The eight landmarks of a complete run, each before the next. */
  ghost predicate CompletedInOrder(trace: seq<Event>) {
    exists e, r, w, p, m, t, q, n :: Landmarks(trace, e, r, w, p, m, t, q, n)
  }

  ghost predicate Landmarks(trace: seq<Event>, e: nat, r: nat, w: nat, p: nat, m: nat, t: nat, q: nat, n: nat) {
    && e < r < w < p < m < t < q < n < |trace|
    && Is(trace[e], Unpacked) && Is(trace[r], Reported) && Is(trace[w], WheelBuilt)
    && Is(trace[p], Rebuilt(Production)) && Is(trace[m], Manifested(Production))
    && Is(trace[t], TransitionPassed)
    && Is(trace[q], Rebuilt(Qa)) && Is(trace[n], Manifested(Qa))
  }

  /** A recorded QA image means the whole pipeline went before it, in order. */
  lemma QaMeansCompleted(trace: seq<Event>)
    requires Orderly(trace) && Saw(trace, Manifested(Qa))
    ensures CompletedInOrder(trace)
  {
    hide Orderly, Is;
    var n := Happened(trace, Manifested(Qa));
    var q := NeededEarlier(trace, n, Manifested(Qa));
    var t := NeededEarlier(trace, q, Rebuilt(Qa));
    var m := NeededEarlier(trace, t, TransitionPassed);
    var p := NeededEarlier(trace, m, Manifested(Production));
    var w := NeededEarlier(trace, p, Rebuilt(Production));
    var r := NeededEarlier(trace, w, WheelBuilt);
    var e := NeededEarlier(trace, r, Reported);
    assert Landmarks(trace, e, r, w, p, m, t, q, n);
  }

  /** A marker that shows `qa_build=pass` at any point was earned by a complete pipeline. */
  lemma PassMeansCompleted(env: Env, tree: ExtractedTree.Fs)
    requires env.Valid()
    ensures var s := Run(env, Start(tree)).0;
      LoadStatus(env.b.json, s.marker).Some? && LoadStatus(env.b.json, s.marker).value.qa == PASS ==>
        CompletedInOrder(s.trace)
  {
    hide Run, Orderly, FileAfter, Saw, LastMark, Env.Valid, Told, Earned, CompletedInOrder, LoadStatus;
    var s := Run(env, Start(tree)).0;
    RunEnds(env, tree);
    MarkerIsTruthful(env, tree, |s.trace|);
    assert s.trace[..|s.trace|] == s.trace;
    if LoadStatus(env.b.json, s.marker).Some? && LoadStatus(env.b.json, s.marker).value.qa == PASS {
      QaMeansCompleted(s.trace);
    }
  }

  // ----- the two images -----

  /** The tree the production image is packed from. */
  ghost function Produced(env: Env): ExtractedTree.Fs
    requires env.Valid()
  {
    WriteFiles(WriteFiles(env.extracted, env.overlay).0, env.b.Files()).0
  }

  /** The tree the QA image is packed from, and how the transition ended. */
  ghost function Switched(env: Env): (ExtractedTree.Fs, QaTransition.Outcome)
    requires env.Valid()
  {
    QaTransition.Transition(Produced(env), env.lib, env.faults)
  }

  function Argv(env: Env, flags: seq<string>, v: Variant): seq<string>
    requires RebuildCommand(env.treeDir, flags, env.outputs(v), VOLUME_ID).Ok?
  {
    RebuildCommand(env.treeDir, flags, env.outputs(v), VOLUME_ID).value
  }

  ghost predicate Packed(env: Env, s: State, flags: seq<string>, v: Variant, content: ExtractedTree.Fs) {
    && RebuildCommand(env.treeDir, flags, env.outputs(v), VOLUME_ID).Ok?
    && Ran(RebuildIso(v, Argv(env, flags, v), content), true) in s.trace
  }

  lemma UnpackGot(env: Env, s: State)
    requires Unpack(env, s).1.Got?
    ensures var (after, r) := Unpack(env, s);
      Shlex.ParseReport(env.report) == Shlex.Ok(r.value) && after.tree == env.extracted
  {
    hide Shlex.ParseReport;
  }

  lemma AssembleDone(env: Env, s: State)
    requires env.Valid() && s.tree == env.extracted && Assemble(env, s).1.None?
    ensures var overlaid := WriteFiles(env.extracted, env.overlay).0;
      Assemble(env, s).0.tree == Produced(env) && WriteFiles(overlaid, env.b.Files()).1.AllWritten?
  {
    hide WriteFiles, FirstOutside, Paths;
  }

  lemma RebuildDone(env: Env, s: State, flags: seq<string>, v: Variant)
    requires RebuildAndRecord(env, s, flags, v).1.None?
    ensures var after := RebuildAndRecord(env, s, flags, v).0;
      && after.tree == s.tree && Packed(env, after, flags, v, s.tree)
  {
    hide RebuildCommand;
  }

  lemma ProductionGot(env: Env, s: State)
    requires env.Valid() && ProductionStage(env, s).1.Got?
    ensures var (after, r) := ProductionStage(env, s);
      && Shlex.ParseReport(env.report) == Shlex.Ok(r.value)
      && after.tree == Produced(env) && Packed(env, after, r.value, Production, Produced(env))
      && WriteFiles(WriteFiles(env.extracted, env.overlay).0, env.b.Files()).1.AllWritten?
  {
    hide Unpack, Assemble, RebuildAndRecord, Produced, WriteFiles, Packed, Shlex.ParseReport;
    UnpackGot(env, s);
    var (s1, r1) := Unpack(env, s);
    AssembleDone(env, s1);
    RebuildDone(env, Assemble(env, s1).0, r1.value, Production);
  }

  /** A run only adds to its history. */
  ghost predicate Extends(s: State, t: State) {
    s.trace <= t.trace
  }

  lemma MarkExtends(env: Env, s: State, st: Status)
    ensures Extends(s, RunBuild.Mark(env, s, st).0) && RunBuild.Mark(env, s, st).0.tree == s.tree
  {
  }

  lemma QaStageGot(env: Env, s: State, flags: seq<string>)
    requires QaStage(env, s, flags).1.Got?
    ensures var (after, _) := QaStage(env, s, flags); Extends(s, after) && Packed(env, after, flags, Qa, s.tree)
  {
    hide RebuildCommand, Argv, TextOf;
    RebuildDone(env, s, flags, Qa);
  }

  lemma StillPacked(env: Env, s: State, t: State, flags: seq<string>, v: Variant, content: ExtractedTree.Fs)
    requires Packed(env, s, flags, v, content) && Extends(s, t)
    ensures Packed(env, t, flags, v, content)
  {
  }

  lemma AfterProductionGot(env: Env, s: State, flags: seq<string>)
    requires env.Valid() && s.tree == Produced(env)
    requires var r := AfterProduction(env, s, flags).1; r.Got? && r.value.qa
    ensures var after := AfterProduction(env, s, flags).0;
      Extends(s, after) && Switched(env).1.Done? && Packed(env, after, flags, Qa, Switched(env).0)
  {
    hide QaStage, Packed, QaTransition.Transition, Produced, RunBuild.Mark, Env.Valid;
    MarkExtends(env, s, PRODUCTION_PASS);
    var s1 := RunBuild.Mark(env, s, PRODUCTION_PASS).0;
    var (after, outcome) := QaTransition.Transition(s1.tree, env.lib, env.faults);
    var s2 := s1.(tree := after).Do(Transitioned(outcome));
    assert Extends(s1, s2);
    MarkExtends(env, s2, TRANSITION_PASS);
    QaStageGot(env, RunBuild.Mark(env, s2, TRANSITION_PASS).0, flags);
  }

  /** A run that returns a QA image packed both images from the report's own boot flags. */
  lemma ImagesOf(env: Env, tree: ExtractedTree.Fs) returns (flags: seq<string>)
    requires env.Valid()
    requires var r := Run(env, Start(tree)).1; r.Got? && r.value.qa
    ensures var s := Run(env, Start(tree)).0;
      && Shlex.ParseReport(env.report) == Shlex.Ok(flags)
      && WriteFiles(WriteFiles(env.extracted, env.overlay).0, env.b.Files()).1.AllWritten?
      && Switched(env).1.Done?
      && Packed(env, s, flags, Production, Produced(env)) && Packed(env, s, flags, Qa, Switched(env).0)
  {
    hide ProductionStage, AfterProduction, Packed, Produced, Switched, WriteFiles, Env.Valid, Shlex.ParseReport;
    ProductionGot(env, Start(tree));
    var (s1, r1) := ProductionStage(env, Start(tree));
    flags := r1.value;
    AfterProductionGot(env, s1, flags);
    StillPacked(env, s1, AfterProduction(env, s1, flags).0, flags, Production, Produced(env));
  }

  lemma ProducedPasses(env: Env)
    requires env.Valid() && Inspect.PairwiseApart(env.extracted, env.b.Files())
    requires WriteFiles(WriteFiles(env.extracted, env.overlay).0, env.b.Files()).1.AllWritten?
    ensures Produced(env).Valid() && env.b.Passes(Produced(env)) && Produced(env).canon == env.extracted.canon
    ensures BuildAgreement.HoldsManifest(env.b, Produced(env))
  {
    hide WriteFiles, Inspect.PairwiseApart, ExtractedTree.Fs.Valid, BuildAgreement.Build.Passes,
      BuildAgreement.Build.Files,
      BuildAgreement.HoldsManifest;
    BuildAgreement.BuildPassesInspection(env.b, env.extracted, env.overlay);
    var overlaid := WriteFiles(env.extracted, env.overlay).0;
    Inspect.WriteFilesStayValid(env.extracted, env.overlay);
    Inspect.WriteFilesStayValid(overlaid, env.b.Files());
    BuildAgreement.OverlayKeepsApart(env.extracted, env.overlay, env.b.Files());
    BuildAgreement.WrittenManifest(env.b, overlaid);
  }

  /** The configuration the transition will patch: the first candidate in the production tree. */
  ghost function Config(env: Env): Option<ExtractedTree.Path>
    requires env.Valid()
  {
    QaTransition.FirstFile(Produced(env), QaTransition.CANDIDATES)
  }

  /** The place of a payload file is neither the catalog nor the configuration to be patched. */
  ghost predicate PlacedApart(env: Env, p: ExtractedTree.Path)
    requires env.Valid()
  {
    && env.extracted.canon(p) != Some(Catalog.CATALOG)
    && (Config(env).Some? ==> env.extracted.canon(p) != Config(env))
  }

  ghost predicate PayloadKeptAway(env: Env)
    requires env.Valid()
  {
    forall p :: BuildAgreement.IsPayloadPath(env.b, p) ==> PlacedApart(env, p)
  }

  lemma ConfigIsPatched(env: Env)
    requires env.Valid() && Switched(env).1.Done?
    ensures Config(env) == Some(Switched(env).1.grub)
  {
    hide QaTransition.PatchOf, QaTransition.FirstFile, Catalog.UpdateCatalog, Produced, Env.Valid,
      QaTransition.Manifest, QaTransition.Stuck,
      QaTransition.CANDIDATES, Catalog.CATALOG;
  }

  lemma SwitchedPasses(env: Env)
    requires env.Valid() && Produced(env).Valid() && env.b.Passes(Produced(env))
      && Produced(env).canon == env.extracted.canon
    requires BuildAgreement.HoldsManifest(env.b, Produced(env))
    requires QaTransition.Injective(env.lib.sha256) && PayloadKeptAway(env) && Switched(env).1.Done?
    ensures env.b.Passes(Switched(env).0)
  {
    hide Produced, BuildAgreement.Build.Passes, ExtractedTree.Fs.Valid, QaTransition.Transition, QaTransition.Injective,
      Config,
      BuildAgreement.Inspected, BuildAgreement.HoldsManifest, BuildAgreement.IsPayloadPath, Env.Valid, MARKER_PATH,
      MANIFEST_PATH, Catalog.CATALOG;
    ConfigIsPatched(env);
    BuildIsValid(env);
    forall p | p in BuildAgreement.Inspected(Produced(env), env.b.json, MANIFEST_PATH) + {MARKER_PATH}
      ensures BuildAgreement.KeptAway(Produced(env), Switched(env).1.grub, p)
    {
      BuildAgreement.InspectedArePayload(env.b, Produced(env), p);
      assert PlacedApart(env, p);
    }
    BuildAgreement.PassesAfterQa(env.b, Produced(env), env.lib, env.faults);
  }

  lemma SwitchedFails(env: Env, a: Artifact)
    requires env.Valid() && Produced(env).Valid() && env.b.Passes(Produced(env))
      && Produced(env).canon == env.extracted.canon
    requires BuildAgreement.HoldsManifest(env.b, Produced(env))
    requires QaTransition.Injective(env.lib.sha256) && QaTransition.Injective(env.b.sha256)
    requires Switched(env).1.Done? && PlacedApart(env, MANIFEST_PATH)
    requires a in env.b.Artifacts() && env.extracted.canon(PAYLOAD_ROOT + a.entry.path) == Config(env)
    ensures !env.b.Passes(Switched(env).0)
  {
    hide Produced, BuildAgreement.Build.Passes, BuildAgreement.Build.Artifacts, ExtractedTree.Fs.Valid,
      QaTransition.Transition,
      QaTransition.Injective, Config, BuildAgreement.HoldsManifest, BuildAgreement.IsPayloadPath, Env.Valid,
      MANIFEST_PATH, PAYLOAD_ROOT, Catalog.CATALOG, BuildAgreement.EntryJsons, Inspect.EntryFile;
    ConfigIsPatched(env);
    BuildIsValid(env);
    BuildAgreement.LoadedEntries(env.b, Produced(env));
    var j := BuildAgreement.EntryListed(env.b, a);
    BuildAgreement.ArtifactPath(env.b, a);
    ManifestIsFile(env);
    BuildAgreement.ConfigEntryFails(env.b, Produced(env), env.lib, env.faults, j);
  }

  lemma BuildIsValid(env: Env)
    requires env.Valid()
    ensures env.b.Valid()
  {
  }

  lemma ManifestIsFile(env: Env)
    requires env.Valid() && BuildAgreement.HoldsManifest(env.b, Produced(env))
    ensures Produced(env).IsFile(MANIFEST_PATH)
  {
  }

  ghost predicate ReturnsQa(env: Env, tree: ExtractedTree.Fs)
    requires env.Valid()
  {
    var r := Run(env, Start(tree)).1;
    r.Got? && r.value.qa
  }

  ghost predicate PackedBoth(env: Env, tree: ExtractedTree.Fs, flags: seq<string>)
    requires env.Valid()
  {
    var s := Run(env, Start(tree)).0;
    Packed(env, s, flags, Production, Produced(env)) && Packed(env, s, flags, Qa, Switched(env).0)
  }

  ghost predicate AgreeOutside(production: ExtractedTree.Fs, qa: ExtractedTree.Fs, outcome: QaTransition.Outcome) {
    && outcome.Done?
    && forall p :: p in production.Listed() && p != Catalog.CATALOG && p != outcome.grub ==>
      qa.IsFile(p) && qa.Read(p) == production.Read(p)
  }

  lemma ReturnedImages(env: Env, tree: ExtractedTree.Fs) returns (flags: seq<string>)
    requires env.Valid() && ReturnsQa(env, tree)
    ensures Shlex.ParseReport(env.report) == Shlex.Ok(flags) && PackedBoth(env, tree, flags) && Switched(env).1.Done?
    ensures WriteFiles(WriteFiles(env.extracted, env.overlay).0, env.b.Files()).1.AllWritten?
  {
    hide Run, Produced, Switched, Packed, WriteFiles, Env.Valid, Shlex.ParseReport;
    flags := ImagesOf(env, tree);
  }

  lemma SwitchedAgrees(env: Env)
    requires env.Valid() && Produced(env).Valid() && QaTransition.Injective(env.lib.sha256) && Switched(env).1.Done?
    ensures AgreeOutside(Produced(env), Switched(env).0, Switched(env).1)
  {
    hide Produced, Env.Valid, QaTransition.Transition, QaTransition.Injective, ExtractedTree.Fs.Valid, Catalog.CATALOG;
    var production, qa := Produced(env), Switched(env).0;
    forall p | p in production.Listed() && p != Catalog.CATALOG && p != Switched(env).1.grub
      ensures qa.IsFile(p) && qa.Read(p) == production.Read(p)
    {
      QaTransition.DoneMeansPreserved(production, env.lib, env.faults, p);
    }
  }

  /** The volume ID the rebuild of one image sets. */
  function VolumeIdOf(env: Env, flags: seq<string>, v: Variant): Option<string> {
    match RebuildCommand(env.treeDir, flags, env.outputs(v), VOLUME_ID)
    case Ok(argv) => VolumeId(argv, None)
    case Err(_) => None
  }

  lemma Volume(env: Env, tree: ExtractedTree.Fs, flags: seq<string>, v: Variant)
    requires env.Valid() && PackedBoth(env, tree, flags) && env.outputs(v) !in OWNED
    ensures VolumeIdOf(env, flags, v) == Some("SEREIN_ALPHA")
  {
    assert VOLUME_ID == "SEREIN_ALPHA";
    hide VolumeId, RebuildCommand, OWNED, VOLUME_ID, Run, Produced, Switched, Env.Valid;
    OneEffectiveVolumeId(env.treeDir, flags, env.outputs(v), VOLUME_ID);
  }

  /**
    The two images of one run: whatever the base image and the overlay hold, a run that returns a QA
    image has packed a production tree and a QA tree that both pass the media marker and payload
    checks for this commit, with the report's own boot flags and the one volume ID, and the two
    trees read the same everywhere but in the GRUB configuration and the catalog.
   */
  lemma BothImagesAgree(env: Env, tree: ExtractedTree.Fs) returns (flags: seq<string>)
    requires env.Valid() && ReturnsQa(env, tree)
    requires Inspect.PairwiseApart(env.extracted, env.b.Files())
    requires QaTransition.Injective(env.lib.sha256) && PayloadKeptAway(env)
    ensures Shlex.ParseReport(env.report) == Shlex.Ok(flags)
    ensures PackedBoth(env, tree, flags)
    ensures env.b.Passes(Produced(env)) && env.b.Passes(Switched(env).0)
    ensures AgreeOutside(Produced(env), Switched(env).0, Switched(env).1)
    ensures forall v :: env.outputs(v) !in OWNED ==> VolumeIdOf(env, flags, v) == Some("SEREIN_ALPHA")
  {
    hide *;
    flags := ReturnedImages(env, tree);
    ProducedPasses(env);
    SwitchedPasses(env);
    SwitchedAgrees(env);
    forall v | env.outputs(v) !in OWNED ensures VolumeIdOf(env, flags, v) == Some("SEREIN_ALPHA") {
      Volume(env, tree, flags, v);
    }
  }

  /**
    The condition on the places is needed: if one artifact's place resolves to the configuration to
    be patched, the QA image of every run that returns one fails the inspection.
   */
  lemma PayloadOnConfigFails(env: Env, tree: ExtractedTree.Fs, a: Artifact)
    requires env.Valid() && ReturnsQa(env, tree)
    requires Inspect.PairwiseApart(env.extracted, env.b.Files())
    requires QaTransition.Injective(env.lib.sha256) && QaTransition.Injective(env.b.sha256)
    requires PlacedApart(env, MANIFEST_PATH)
    requires a in env.b.Artifacts() && env.extracted.canon(PAYLOAD_ROOT + a.entry.path) == Config(env)
    ensures env.b.Passes(Produced(env)) && !env.b.Passes(Switched(env).0)
  {
    hide *;
    var flags := ReturnedImages(env, tree);
    ConfigIsPatched(env);
    ProducedPasses(env);
    SwitchedFails(env, a);
  }
}
