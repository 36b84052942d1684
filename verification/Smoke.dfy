/**
  The boot-smoke loop of `src/serein/distribution/bootsmoke.py`: poll a growing serial log while
  QEMU runs, decide, and never leave the process behind.
 */
module Smoke {
  import opened Text
  import opened BootLog
  import opened TailWindow
  import opened Utf8

  datatype Event =
    | Read(text: string)
    | Polled(code: Option<int>)
    | Clock(now: real)
    | Slept
    | Terminated
    | Waited(done: bool)
    | Killed

  datatype Outcome =
    | Undecided
    | Passed(marker: string)
    | Exited(code: int)
    | TimedOut
    | NoEvidence           // a match with an empty marker: `BootSmokeResult` refuses to be a pass

  /** What the environment answers, call by call: log reads, process polls, clock reads, waits. */
  datatype Environment = Environment(
    log: nat -> string, poll: nat -> Option<int>, clock: nat -> real, wait: nat -> bool)
  {
    /** Each sleep advances the clock by at least the poll interval. */
    ghost predicate SleepsAdvance(interval: real) {
      clock(0) <= clock(1) && forall k: nat {:trigger clock(k)} :: k > 0 ==> clock(k) + interval <= clock(k + 1)
    }

    /** What iteration `k` of the loop decides: log first, then process, then deadline. */
    function Decide(k: nat, markers: seq<string>, timeout: int): Outcome {
      match EvaluateBootLog(log(k), markers)
      case Some(m) => if m == "" then NoEvidence else Passed(m)
      case None =>
        match poll(k)
        case Some(code) => Exited(code)
        case None => if clock(k + 1) >= clock(0) + timeout as real then TimedOut else Undecided
    }

    ghost predicate EndsAt(n: nat, markers: seq<string>, timeout: int) {
      && Decide(n, markers, timeout) != Undecided
      && forall k: nat :: k < n ==> Decide(k, markers, timeout) == Undecided
    }
  }

  /** The process was seen exited, or both terminate and kill were issued. */
  ghost predicate Stopped(trace: seq<Event>) {
    (exists i :: 0 <= i < |trace| && SawExit(trace[i])) || (Terminated in trace && Killed in trace)
  }

  predicate SawExit(e: Event) {
    (e.Polled? && e.code.Some?) || e == Waited(true)
  }

  function TerminateEvents(poll: Option<int>, first: bool, second: bool): (events: seq<Event>)
    ensures Stopped(events)
  {
    if poll.Some? then SeenAt([Polled(poll)], 0)
    else if first then SeenAt([Polled(poll), Terminated, Waited(true)], 2)
    else [Polled(poll), Terminated, Waited(false), Killed, Waited(second)]
  }

  /** How many waits terminating takes. */
  function WaitsTaken(poll: Option<int>, first: bool): nat {
    if poll.Some? then 0 else if first then 1 else 2
  }

  function SeenAt(events: seq<Event>, i: nat): (r: seq<Event>)
    requires i < |events| && SawExit(events[i])
    ensures r == events && Stopped(r)
  {
    events
  }

  lemma StoppedLater(a: seq<Event>, b: seq<Event>)
    requires Stopped(b)
    ensures Stopped(a + b)
  {
    if i :| 0 <= i < |b| && SawExit(b[i]) {
      assert (a + b)[|a| + i] == b[i];
    }
  }

  /** `n` poll intervals, as repeated addition. */
  ghost function Times(n: nat, interval: real): real {
    if n == 0 then 0.0 else Times(n - 1, interval) + interval
  }

  lemma {:induction false} TimesIsProduct(n: nat, interval: real)
    ensures Times(n, interval) == n as real * interval
  {
    if n > 0 {
      TimesIsProduct(n - 1, interval);
      var m := (n - 1) as real;
      assert n as real == m + 1.0;
      assert (m + 1.0) * interval == m * interval + interval;
    }
  }

  /** A number of poll intervals that covers the timeout. */
  ghost function Bound(timeout: int, interval: real): (n: nat)
    requires interval > 0.0
    ensures Times(n, interval) >= timeout as real
  {
    var q := timeout as real / interval;
    var n: nat := if timeout <= 0 then 0 else q.Floor + 1;
    TimesIsProduct(n, interval);
    assert timeout > 0 ==> n as real * interval >= q * interval;
    n
  }

  // ----- the history of a run -----

  /** What `n` iterations that decide nothing do: read, poll, look at the clock, sleep. */
  function Iterations(env: Environment, n: nat): seq<Event> {
    if n == 0 then []
    else Iterations(env, n - 1) + [Read(env.log(n - 1)), Polled(env.poll(n - 1)), Clock(env.clock(n)), Slept]
  }

  /** What the iteration that decides does. */
  function Deciding(env: Environment, n: nat, markers: seq<string>): seq<Event> {
    if EvaluateBootLog(env.log(n), markers).Some? then
      [Read(env.log(n))] + TerminateEvents(env.poll(n), env.wait(0), env.wait(1))
    else if env.poll(n).Some? then [Read(env.log(n)), Polled(env.poll(n))]
    else
      [Read(env.log(n)), Polled(None), Clock(env.clock(n + 1))]
        + TerminateEvents(env.poll(n + 1), env.wait(0), env.wait(1))
  }

  /** The polls and the waits that are used up when the loop is left. */
  function PollsUsed(env: Environment, n: nat, markers: seq<string>): nat {
    if EvaluateBootLog(env.log(n), markers).Some? || env.poll(n).Some? then n + 1 else n + 2
  }

  function WaitsUsed(env: Environment, n: nat, markers: seq<string>): nat {
    if EvaluateBootLog(env.log(n), markers).Some? then WaitsTaken(env.poll(n), env.wait(0))
    else if env.poll(n).Some? then 0
    else WaitsTaken(env.poll(n + 1), env.wait(0))
  }

  /** The loop, when iteration `n` decides. */
  function Monitoring(env: Environment, n: nat, markers: seq<string>): seq<Event> {
    [Clock(env.clock(0))] + Iterations(env, n) + Deciding(env, n, markers)
  }

  /** The whole run: the loop, and the termination that follows it on every way out. */
  function History(env: Environment, n: nat, markers: seq<string>): seq<Event> {
    var (p, w) := (PollsUsed(env, n, markers), WaitsUsed(env, n, markers));
    Monitoring(env, n, markers) + TerminateEvents(env.poll(p), env.wait(w), env.wait(w + 1))
  }

  lemma DecidingIs(env: Environment, n: nat, markers: seq<string>)
    ensures EvaluateBootLog(env.log(n), markers).Some? ==>
      && Deciding(env, n, markers) == [Read(env.log(n))] + TerminateEvents(env.poll(n), env.wait(0), env.wait(1))
      && PollsUsed(env, n, markers) == n + 1 && WaitsUsed(env, n, markers) == WaitsTaken(env.poll(n), env.wait(0))
    ensures EvaluateBootLog(env.log(n), markers).None? && env.poll(n).Some? ==>
      && Deciding(env, n, markers) == [Read(env.log(n)), Polled(env.poll(n))]
      && PollsUsed(env, n, markers) == n + 1 && WaitsUsed(env, n, markers) == 0
    ensures EvaluateBootLog(env.log(n), markers).None? && env.poll(n).None? ==>
      && Deciding(env, n, markers) == [Read(env.log(n)), Polled(None), Clock(env.clock(n + 1))]
        + TerminateEvents(env.poll(n + 1), env.wait(0), env.wait(1))
      && PollsUsed(env, n, markers) == n + 2 && WaitsUsed(env, n, markers) == WaitsTaken(env.poll(n + 1), env.wait(0))
  {
    hide EvaluateBootLog, TerminateEvents;
  }

  lemma NextIteration(env: Environment, n: nat, before: seq<Event>)
    ensures before + Iterations(env, 0) == before
    ensures before + Iterations(env, n) + [Read(env.log(n))] + [Polled(env.poll(n))] + [Clock(env.clock(n + 1))]
        + [Slept] == before + Iterations(env, n + 1)
  {
    assert Iterations(env, 0) == [];
  }

  /** The events of the last iteration, one by one, added to what went before. */
  lemma LastIteration(x: seq<Event>, read: Event, poll: Event, clock: Event, end: seq<Event>)
    ensures x + [read] + end == x + ([read] + end)
    ensures x + [read] + [poll] == x + [read, poll]
    ensures x + [read] + [poll] + [clock] + end == x + ([read, poll, clock] + end)
  {
  }

  lemma Decided(env: Environment, n: nat, markers: seq<string>, timeout: int)
    ensures env.Decide(n, markers, timeout) ==
      match EvaluateBootLog(env.log(n), markers)
      case Some(m) => if m == "" then NoEvidence else Passed(m)
      case None =>
        match env.poll(n)
        case Some(code) => Exited(code)
        case None => if env.clock(n + 1) >= env.clock(0) + timeout as real then TimedOut else Undecided
  {
  }

  /** No iteration after the one that decides is begun, and none before it decides. */
  lemma OnlyTheEndDecides(env: Environment, n: nat, end: nat, markers: seq<string>, timeout: int)
    requires env.EndsAt(end, markers, timeout) && n <= end
    ensures env.Decide(n, markers, timeout) != Undecided <==> n == end
  {
  }

  lemma SleepAdvances(env: Environment, interval: real, k: nat)
    requires env.SleepsAdvance(interval)
    ensures env.clock(k) + (if k == 0 then 0.0 else interval) <= env.clock(k + 1)
  {
  }

  class Session {
    const env: Environment
    var trace: seq<Event>
    var readCount: nat
    var pollCount: nat
    var tickCount: nat
    var waitCount: nat

    constructor (env: Environment)
      ensures this.env == env && trace == [] && readCount == pollCount == tickCount == waitCount == 0
    {
      this.env := env;
      trace, readCount, pollCount, tickCount, waitCount := [], 0, 0, 0, 0;
    }

    method ReadLog() returns (text: string)
      modifies this`trace, this`readCount
      ensures text == env.log(old(readCount)) && readCount == old(readCount) + 1
      ensures trace == old(trace) + [Read(text)]
    {
      text := env.log(readCount);
      trace, readCount := trace + [Read(text)], readCount + 1;
    }

    method Poll() returns (code: Option<int>)
      modifies this`trace, this`pollCount
      ensures code == env.poll(old(pollCount)) && pollCount == old(pollCount) + 1
      ensures trace == old(trace) + [Polled(code)]
    {
      code := env.poll(pollCount);
      trace, pollCount := trace + [Polled(code)], pollCount + 1;
    }

    method Now() returns (now: real)
      modifies this`trace, this`tickCount
      ensures now == env.clock(old(tickCount)) && tickCount == old(tickCount) + 1
      ensures trace == old(trace) + [Clock(now)]
    {
      now := env.clock(tickCount);
      trace, tickCount := trace + [Clock(now)], tickCount + 1;
    }

    method Wait() returns (done: bool)
      modifies this`trace, this`waitCount
      ensures done == env.wait(old(waitCount)) && waitCount == old(waitCount) + 1
      ensures trace == old(trace) + [Waited(done)]
    {
      done := env.wait(waitCount);
      trace, waitCount := trace + [Waited(done)], waitCount + 1;
    }

    /** Terminate, wait a bounded grace period, kill if still alive, wait again. */
    method Terminate()
      modifies this`trace, this`pollCount, this`waitCount
      ensures trace == old(trace) +
          TerminateEvents(env.poll(old(pollCount)), env.wait(old(waitCount)), env.wait(old(waitCount) + 1))
      ensures pollCount == old(pollCount) + 1
      ensures waitCount == old(waitCount) + WaitsTaken(env.poll(old(pollCount)), env.wait(old(waitCount)))
    {
      hide Stopped;
      var code := Poll();
      if code.Some? {
        return;
      }
      trace := trace + [Terminated];
      var done := Wait();
      if done {
        return;
      }
      trace := trace + [Killed];
      var gone := Wait();
    }

    /** The `while True` loop inside the `try`; `end` is the iteration that decides. */
    method Monitor(markers: seq<string>, timeout: int, ghost end: nat) returns (r: Outcome)
      requires readCount == pollCount == tickCount == waitCount == 0
      requires env.EndsAt(end, markers, timeout)
      modifies this
      ensures r == env.Decide(end, markers, timeout)
      ensures trace == old(trace) + Monitoring(env, end, markers)
      ensures readCount == end + 1
      ensures pollCount == PollsUsed(env, end, markers) && waitCount == WaitsUsed(env, end, markers)
    {
      hide *;
      var start := Now();
      var deadline := start + timeout as real;
      ghost var n: nat := 0;
      NextIteration(env, 0, trace);
      while true
        invariant readCount == pollCount == n && tickCount == n + 1 && waitCount == 0
        invariant trace == old(trace) + [Clock(env.clock(0))] + Iterations(env, n)
        invariant n <= end && deadline == env.clock(0) + timeout as real
        decreases end - n
      {
        Decided(env, n, markers, timeout);
        OnlyTheEndDecides(env, n, end, markers, timeout);
        DecidingIs(env, n, markers);
        NextIteration(env, n, old(trace) + [Clock(env.clock(0))]);
        MonitoringIs(env, n, markers, old(trace));
        LastIteration(trace, Read(env.log(n)), Polled(env.poll(n)), Clock(env.clock(n + 1)),
          TerminateEvents(env.poll(n), env.wait(0), env.wait(1)));
        LastIteration(trace, Read(env.log(n)), Polled(None), Clock(env.clock(n + 1)),
          TerminateEvents(env.poll(n + 1), env.wait(0), env.wait(1)));
        var text := ReadLog();
        var marker := EvaluateBootLog(text, markers);
        if marker.Some? {
          Terminate();
          return if marker.value == "" then NoEvidence else Passed(marker.value);
        }
        var code := Poll();
        if code.Some? {
          return Exited(code.value);
        }
        var now := Now();
        if now >= deadline {
          Terminate();
          return TimedOut;
        }
        trace := trace + [Slept];
        n := n + 1;
      }
    }

    /**
      `run_boot_smoke` from the moment the process runs, in every environment in which some
      iteration decides: the result is the decision of the first that does, and what it did is read,
      poll and look at the clock once per iteration and then make sure that the process is gone.
     */
    method Run(markers: seq<string>, timeout: int, ghost end: nat) returns (r: Outcome)
      requires readCount == pollCount == tickCount == waitCount == 0
      requires env.EndsAt(end, markers, timeout)
      modifies this
      ensures r == env.Decide(end, markers, timeout)
      ensures readCount == end + 1
      ensures trace == old(trace) + History(env, end, markers)
    {
      hide *;
      r := Monitor(markers, timeout, end);
      Terminate();
      HistoryIs(env, end, markers, old(trace));
    }
  }

  lemma MonitoringIs(env: Environment, n: nat, markers: seq<string>, before: seq<Event>)
    ensures before + Monitoring(env, n, markers)
      == before + [Clock(env.clock(0))] + Iterations(env, n) + Deciding(env, n, markers)
  {
    hide Iterations, Deciding;
  }

  lemma HistoryIs(env: Environment, n: nat, markers: seq<string>, before: seq<Event>)
    ensures var (p, w) := (PollsUsed(env, n, markers), WaitsUsed(env, n, markers));
      before + History(env, n, markers) == before + Monitoring(env, n, markers)
        + TerminateEvents(env.poll(p), env.wait(w), env.wait(w + 1))
  {
    hide Monitoring, TerminateEvents, PollsUsed, WaitsUsed;
  }

  /** However the run ends, the process was seen exited, or terminated and killed. */
  lemma ProcessIsGone(env: Environment, n: nat, markers: seq<string>)
    ensures Stopped(History(env, n, markers))
  {
    hide Monitoring, PollsUsed, WaitsUsed, TerminateEvents, Stopped;
    var (p, w) := (PollsUsed(env, n, markers), WaitsUsed(env, n, markers));
    StoppedLater(Monitoring(env, n, markers), TerminateEvents(env.poll(p), env.wait(w), env.wait(w + 1)));
  }

  // ----- the order of terminate and kill -----

  /** A terminate follows a poll that saw the process running, a kill a terminate and a wait that ran out. */
  ghost predicate Graceful(events: seq<Event>) {
    && (forall i :: 0 <= i < |events| && events[i] == Terminated ==> After(events, i, [Polled(None)]))
    && (forall i :: 0 <= i < |events| && events[i] == Killed ==>
         After(events, i, [Polled(None), Terminated, Waited(false)]))
  }

  ghost predicate After(events: seq<Event>, i: int, before: seq<Event>) {
    |before| <= i <= |events| && events[i - |before|..i] == before
  }

  lemma GracefulAppend(a: seq<Event>, b: seq<Event>)
    requires Graceful(a) && Graceful(b)
    ensures Graceful(a + b)
  {
    var all := a + b;
    forall i, before | 0 <= i < |a| && After(a, i, before) ensures After(all, i, before) {
      assert all[i - |before|..i] == a[i - |before|..i];
    }
    forall i, before | 0 <= i < |b| && After(b, i, before) ensures After(all, |a| + i, before) {
      assert all[|a| + i - |before|..|a| + i] == b[i - |before|..i];
    }
    forall i | 0 <= i < |all| && all[i] == Terminated ensures After(all, i, [Polled(None)]) {
      if i >= |a| { assert b[i - |a|] == Terminated; }
    }
    forall i | 0 <= i < |all| && all[i] == Killed ensures After(all, i, [Polled(None), Terminated, Waited(false)]) {
      if i >= |a| { assert b[i - |a|] == Killed; }
    }
  }

  lemma TerminatingIsGraceful(poll: Option<int>, first: bool, second: bool)
    ensures Graceful(TerminateEvents(poll, first, second))
  {
    hide Stopped;
    var e := TerminateEvents(poll, first, second);
    if poll.None? {
      assert e[0..1] == [Polled(None)];
      if !first { assert e[0..3] == [Polled(None), Terminated, Waited(false)]; }
    }
  }

  lemma QuietIsGraceful(events: seq<Event>)
    requires Terminated !in events && Killed !in events
    ensures Graceful(events)
  {
  }

  lemma {:induction false} IterationsAreQuiet(env: Environment, n: nat)
    ensures Terminated !in Iterations(env, n) && Killed !in Iterations(env, n)
  {
    if n > 0 { IterationsAreQuiet(env, n - 1); }
  }

  /** In every run the process is terminated only while it runs, and killed only when it outlived the grace period. */
  lemma KillIsTheLastResort(env: Environment, n: nat, markers: seq<string>)
    ensures Graceful(History(env, n, markers))
  {
    hide Graceful, Iterations, TerminateEvents, EvaluateBootLog, WaitsTaken;
    var (p, w) := (PollsUsed(env, n, markers), WaitsUsed(env, n, markers));
    IterationsAreQuiet(env, n);
    QuietIsGraceful([Clock(env.clock(0))] + Iterations(env, n));
    QuietIsGraceful([Read(env.log(n))]);
    QuietIsGraceful([Read(env.log(n)), Polled(env.poll(n))]);
    QuietIsGraceful([Read(env.log(n)), Polled(None), Clock(env.clock(n + 1))]);
    TerminatingIsGraceful(env.poll(n), env.wait(0), env.wait(1));
    TerminatingIsGraceful(env.poll(n + 1), env.wait(0), env.wait(1));
    TerminatingIsGraceful(env.poll(p), env.wait(w), env.wait(w + 1));
    GracefulAppend([Read(env.log(n))], TerminateEvents(env.poll(n), env.wait(0), env.wait(1)));
    GracefulAppend([Read(env.log(n)), Polled(None), Clock(env.clock(n + 1))],
      TerminateEvents(env.poll(n + 1), env.wait(0), env.wait(1)));
    assert Graceful(Deciding(env, n, markers));
    GracefulAppend([Clock(env.clock(0))] + Iterations(env, n), Deciding(env, n, markers));
    GracefulAppend(Monitoring(env, n, markers), TerminateEvents(env.poll(p), env.wait(w), env.wait(w + 1)));
  }

  // ----- the loop ends -----

  lemma {:induction false} ClockAfter(env: Environment, interval: real, k: nat)
    requires env.SleepsAdvance(interval)
    ensures env.clock(0) + Times(k, interval) <= env.clock(k + 1)
    decreases k
  {
    hide Environment.SleepsAdvance;
    SleepAdvances(env, interval, k);
    if k > 0 {
      ClockAfter(env, interval, k - 1);
    }
  }

  lemma {:induction false} FirstDecision(env: Environment, k: nat, markers: seq<string>, timeout: int) returns (n: nat)
    requires env.Decide(k, markers, timeout) != Undecided
    ensures n <= k && env.EndsAt(n, markers, timeout)
    decreases k
  {
    hide Environment.Decide;
    if j: nat :| j < k && env.Decide(j, markers, timeout) != Undecided {
      n := FirstDecision(env, j, markers, timeout);
    } else {
      n := k;
    }
  }

  /**
    With a clock that every sleep advances by at least the poll interval some iteration decides,
    and within ceil(timeout / interval) + 1 iterations: all but the last began in time.
   */
  lemma LoopEnds(env: Environment, markers: seq<string>, timeout: int, interval: real) returns (n: nat)
    requires interval > 0.0 && env.SleepsAdvance(interval)
    ensures env.EndsAt(n, markers, timeout)
    ensures n > 0 ==> (n - 1) as real * interval < timeout as real
  {
    hide Environment.SleepsAdvance, EvaluateBootLog;
    var bound := Bound(timeout, interval);
    ClockAfter(env, interval, bound);
    n := FirstDecision(env, bound, markers, timeout);
    if n > 0 {
      ClockAfter(env, interval, n - 1);
      assert env.Decide(n - 1, markers, timeout) == Undecided;
      TimesIsProduct(n - 1, interval);
    }
  }

  // ----- the verdict, over every environment -----

  ghost predicate NoEndBefore(env: Environment, k: nat, timeout: int) {
    forall j: nat :: j < k ==> env.poll(j).None? && env.clock(j + 1) < env.clock(0) + timeout as real
  }

  lemma UndecidedBefore(env: Environment, n: nat, markers: seq<string>, timeout: int)
    requires env.EndsAt(n, markers, timeout)
    ensures NoEndBefore(env, n, timeout)
  {
    hide EvaluateBootLog;
    forall j: nat | j < n ensures env.poll(j).None? && env.clock(j + 1) < env.clock(0) + timeout as real {
      assert env.Decide(j, markers, timeout) == Undecided;
    }
  }

  lemma {:induction false} FirstMarker(env: Environment, k: nat, markers: seq<string>, timeout: int) returns (n: nat)
    requires EvaluateBootLog(env.log(k), markers).Some? && NoEndBefore(env, k, timeout)
    ensures n <= k && env.EndsAt(n, markers, timeout) && EvaluateBootLog(env.log(n), markers).Some?
    decreases k
  {
    hide EvaluateBootLog;
    if j: nat :| j < k && EvaluateBootLog(env.log(j), markers).Some? {
      n := FirstMarker(env, j, markers, timeout);
    } else {
      n := k;
    }
  }

  /**
    The result is a pass if and only if some read shows a marker and no earlier iteration saw the
    process exited or the deadline passed: a marker wins ties.
   */
  lemma PassMeaning(env: Environment, markers: seq<string>, timeout: int)
    requires "" !in markers
    ensures (exists n: nat :: env.EndsAt(n, markers, timeout) && env.Decide(n, markers, timeout).Passed?) <==>
      exists k: nat :: EvaluateBootLog(env.log(k), markers).Some? && NoEndBefore(env, k, timeout)
  {
    hide EvaluateBootLog;
    forall k: nat ensures EvaluateBootLog(env.log(k), markers) != Some("") { NoEmptyMatch(env.log(k), markers); }
    if n: nat :| env.EndsAt(n, markers, timeout) && env.Decide(n, markers, timeout).Passed? {
      assert EvaluateBootLog(env.log(n), markers).Some?;
      UndecidedBefore(env, n, markers, timeout);
    }
    if k: nat :| EvaluateBootLog(env.log(k), markers).Some? && NoEndBefore(env, k, timeout) {
      var n := FirstMarker(env, k, markers, timeout);
      assert env.Decide(n, markers, timeout).Passed?;
    }
  }

  ghost predicate NoMarkerUpTo(env: Environment, n: nat, markers: seq<string>) {
    forall j: nat :: j <= n ==> EvaluateBootLog(env.log(j), markers).None?
  }

  lemma NoMarkerSoFar(env: Environment, n: nat, markers: seq<string>, timeout: int)
    requires env.EndsAt(n, markers, timeout) && EvaluateBootLog(env.log(n), markers).None?
    ensures NoMarkerUpTo(env, n, markers)
  {
    hide EvaluateBootLog;
    forall j: nat | j <= n ensures EvaluateBootLog(env.log(j), markers).None? {
      if j < n { assert env.Decide(j, markers, timeout) == Undecided; }
    }
  }

  lemma UndecidedSoFar(env: Environment, n: nat, markers: seq<string>, timeout: int)
    requires NoMarkerUpTo(env, n, markers) && NoEndBefore(env, n, timeout)
    ensures forall k: nat :: k < n ==> env.Decide(k, markers, timeout) == Undecided
  {
    hide EvaluateBootLog;
  }

  /**
    The other two endings.  An exit is reported, with the code that was polled, if and only if no read
    so far shows a marker and nothing ended the run before; it wins over a deadline passed in the same
    iteration.  A timeout needs the process still running and the deadline passed.
   */
  lemma EndMeaning(env: Environment, markers: seq<string>, timeout: int, n: nat)
    ensures forall code :: env.EndsAt(n, markers, timeout) && env.Decide(n, markers, timeout) == Exited(code) <==>
      NoMarkerUpTo(env, n, markers) && NoEndBefore(env, n, timeout) && env.poll(n) == Some(code)
    ensures env.EndsAt(n, markers, timeout) && env.Decide(n, markers, timeout) == TimedOut <==>
      && NoMarkerUpTo(env, n, markers) && NoEndBefore(env, n, timeout)
      && env.poll(n).None? && env.clock(n + 1) >= env.clock(0) + timeout as real
  {
    hide EvaluateBootLog, NoMarkerUpTo, NoEndBefore;
    if env.EndsAt(n, markers, timeout) {
      UndecidedBefore(env, n, markers, timeout);
      if EvaluateBootLog(env.log(n), markers).None? { NoMarkerSoFar(env, n, markers, timeout); }
    }
    if NoMarkerUpTo(env, n, markers) && NoEndBefore(env, n, timeout) {
      UndecidedSoFar(env, n, markers, timeout);
      NoMarkerAt(env, n, markers);
    }
  }

  lemma NoMarkerAt(env: Environment, n: nat, markers: seq<string>)
    requires NoMarkerUpTo(env, n, markers)
    ensures EvaluateBootLog(env.log(n), markers).None?
  {
  }

  lemma {:induction false} LegacyFinds(markers: seq<string>, log: string, m: string)
    requires m in markers && Contains(log, m)
    ensures EvaluateLegacy(markers, log).Some?
    decreases |markers|
  {
    if Find(log, markers[0]).None? {
      assert m in markers[1..];
      LegacyFinds(markers[1..], log, m);
    }
  }

  /**
    Polling tails is enough: if the log grows slowly enough between reads and shows a legacy marker
    by read `k`, and nothing ended the run before read `k`, then the run ends in a match by read `k`.
   */
  lemma PollingFindsLegacyMarkers(env: Environment, markers: seq<string>, timeout: int, m: string,
                                  log: seq<Byte>, sizes: seq<nat>, k: nat)
    requires m in markers && IsShowable(m)
    requires Grows(sizes, log) && PollsOftenEnough(sizes, |Encode(m)|) && |sizes| == k + 1
    requires forall i: nat :: i <= k ==> env.log(i) == ReadTail(log[..sizes[i]])
    requires NoEndBefore(env, k, timeout)
    requires Contains(Decode(log[..sizes[k]]), m)
    ensures exists n: nat :: n <= k && env.EndsAt(n, markers, timeout) && EvaluateBootLog(env.log(n), markers).Some?
  {
    hide Decode, Window, StripAnsi, EvaluateTargets;
    TailsSeeWhatTheLogShows(log, sizes, m);
    var i :| 0 <= i < |sizes| && Contains(ReadTail(log[..sizes[i]]), m);
    LegacyFinds(markers, env.log(i), m);
    var n := FirstMarker(env, i, markers, timeout);
  }
}
