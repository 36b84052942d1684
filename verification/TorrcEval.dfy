/**
  The torrc evaluator: the flat stream of lines is an ordered program of `set`, `append` and
  `clear` commands.  The meaning of an option is stated here without state; the loops of
  `_evaluate_multi_value` and `_evaluate_scalar` compute it.
 */
module TorrcEval {
  import opened Text
  import opened Torrc
  import opened TorrcInlining
  import opened TorrcLoops

  datatype Op = Set | Append | Clear
  datatype Directive = Directive(op: Op, name: string, value: Option<string>)

  // ----- parsing one line -----

  predicate IsLetter(c: char) {
    'a' <= c <= 'z' || 'A' <= c <= 'Z'
  }

  predicate IsNameChar(c: char) {
    IsLetter(c) || '0' <= c <= '9'
  }

  function TakeName(s: string): (r: string)
    ensures r <= s && (|r| < |s| ==> !IsNameChar(s[|r|]))
  {
    if s == "" || !IsNameChar(s[0]) then "" else [s[0]] + TakeName(s[1..])
  }

  /** `^([+/]?)([A-Za-z][A-Za-z0-9]*)(?:\s+(.*))?$`, then the value stripped. */
  function ParseDirective(line: string): Option<Directive> {
    var op := if StartsWith(line, "+") then Append else if StartsWith(line, "/") then Clear else Set;
    var body := if op == Set then line else line[1..];
    var name := TakeName(body);
    var rest := body[|name|..];
    if name == "" || !IsLetter(name[0]) then None
    else if rest == "" then Some(Directive(op, name, None))
    else if IsSpace(rest[0]) then Some(Directive(op, name, Some(Strip(rest))))
    else None
  }

  function Directives(lines: seq<string>): seq<Directive> {
    if lines == [] then []
    else
      Directives(lines[..|lines| - 1]) +
      match ParseDirective(lines[|lines| - 1])
      case None => []
      case Some(d) => [d]
  }

  method ParsedDirectives(lines: seq<string>) returns (ds: seq<Directive>)
    ensures ds == Directives(lines)
  {
    hide ParseDirective;
    ds := [];
    for i := 0 to |lines|
      invariant ds == Directives(lines[..i])
    {
      assert lines[..i + 1][..i] == lines[..i];
      match ParseDirective(lines[i]) {
        case Some(d) => ds := ds + [d];
        case None =>
      }
    }
    assert lines[..|lines|] == lines;
  }

  // ----- what an option means -----

  predicate Mentions(d: Directive, name: string) {
    Lower(d.name) == Lower(name)
  }

  predicate Enabling(value: Option<string>) {
    value.Some? && value.value != "0" && value.value != ""
  }

  /** Entry `i` sets or appends an enabling value and no later `clear` of the option removes it. */
  ghost predicate EnabledAt(ds: seq<Directive>, name: string, i: int) {
    && 0 <= i < |ds|
    && Mentions(ds[i], name) && ds[i].op != Clear && Enabling(ds[i].value)
    && forall k :: i < k < |ds| && Mentions(ds[k], name) ==> ds[k].op != Clear
  }

  /** A multi-value option: unknown iff never mentioned, else whether some surviving entry enables it. */
  ghost function MultiValue(ds: seq<Directive>, name: string): Option<bool> {
    if forall i :: 0 <= i < |ds| ==> !Mentions(ds[i], name) then None
    else Some(exists i :: EnabledAt(ds, name, i))
  }

  ghost predicate LastMention(ds: seq<Directive>, name: string, i: int) {
    0 <= i < |ds| && Mentions(ds[i], name) && forall k :: i < k < |ds| ==> !Mentions(ds[k], name)
  }

  /** A scalar option: only its last matching directive counts, and a `clear` there means unknown. */
  function ScalarOf(d: Directive): Option<bool> {
    if d.op == Clear then None else Some(Enabling(d.value))
  }

  function EntryText(value: Option<string>): string {
    match value case None => "" case Some(v) => v
  }

  predicate AnyEnabling(entries: seq<string>) {
    exists k :: 0 <= k < |entries| && Enabling(Some(entries[k]))
  }

  lemma EnabledNext(ds: seq<Directive>, name: string)
    requires ds != []
    ensures var front, d := ds[..|ds| - 1], ds[|ds| - 1];
      (exists i :: EnabledAt(ds, name, i)) <==>
        if !Mentions(d, name) then exists i :: EnabledAt(front, name, i)
        else d.op != Clear && (Enabling(d.value) || exists i :: EnabledAt(front, name, i))
  {
    var front, d, n := ds[..|ds| - 1], ds[|ds| - 1], |ds| - 1;
    forall i | EnabledAt(front, name, i) && (Mentions(d, name) ==> d.op != Clear)
      ensures EnabledAt(ds, name, i)
    {
      forall k | i < k < |ds| && Mentions(ds[k], name) ensures ds[k].op != Clear {
        if k < n { assert ds[k] == front[k]; }
      }
    }
    if Mentions(d, name) && d.op != Clear && Enabling(d.value) {
      assert EnabledAt(ds, name, n);
    }
    forall i | EnabledAt(ds, name, i) && i < n
      ensures EnabledAt(front, name, i)
    {
      forall k | i < k < |front| && Mentions(front[k], name) ensures front[k].op != Clear {
        assert front[k] == ds[k];
      }
    }
  }

  method EvaluateMultiValue(ds: seq<Directive>, name: string) returns (r: Option<bool>)
    ensures r == MultiValue(ds, name)
  {
    hide Lower;
    var entries, mentioned := [], false;
    for i := 0 to |ds|
      invariant mentioned <==> exists j :: 0 <= j < i && Mentions(ds[j], name)
      invariant AnyEnabling(entries) <==> exists j :: EnabledAt(ds[..i], name, j)
    {
      var d := ds[i];
      assert ds[..i + 1][..i] == ds[..i];
      EnabledNext(ds[..i + 1], name);
      if !Mentions(d, name) {
        continue;
      }
      mentioned := true;
      if d.op == Clear {
        entries := [];
      } else {
        AnyEnablingNext(entries, EntryText(d.value));
        entries := entries + [EntryText(d.value)];
      }
    }
    assert ds[..|ds|] == ds;
    r := if !mentioned then None else Some(AnyEnabling(entries));
  }

  lemma AnyEnablingNext(entries: seq<string>, e: string)
    ensures AnyEnabling(entries + [e]) <==> AnyEnabling(entries) || Enabling(Some(e))
  {
    var all := entries + [e];
    assert all[|entries|] == e;
    forall k | 0 <= k < |entries| ensures all[k] == entries[k] {}
  }

  lemma LastMentionNext(ds: seq<Directive>, name: string)
    requires ds != []
    ensures var n := |ds| - 1; forall j :: LastMention(ds, name, j) ==>
      if Mentions(ds[n], name) then j == n else LastMention(ds[..n], name, j)
  {
    var n := |ds| - 1;
    forall j | LastMention(ds, name, j) && !Mentions(ds[n], name) ensures LastMention(ds[..n], name, j) {
      forall k | j < k < n ensures !Mentions(ds[..n][k], name) { assert ds[..n][k] == ds[k]; }
    }
  }

  /** What a scalar option means in a stream: the last matching directive decides. */
  ghost predicate ScalarMeans(ds: seq<Directive>, name: string, r: Option<bool>) {
    && ((forall i :: 0 <= i < |ds| ==> !Mentions(ds[i], name)) ==> r == None)
    && (forall i :: LastMention(ds, name, i) ==> r == ScalarOf(ds[i]))
  }

  lemma ScalarNext(ds: seq<Directive>, d: Directive, name: string, r: Option<bool>)
    requires ScalarMeans(ds, name, r)
    ensures ScalarMeans(ds + [d], name, if Mentions(d, name) then ScalarOf(d) else r)
  {
    hide Lower, ScalarOf;
    var all := ds + [d];
    assert all[..|all| - 1] == ds && all[|ds|] == d;
    forall i | 0 <= i < |ds| ensures all[i] == ds[i] {}
    LastMentionNext(all, name);
  }

  lemma NoDirectives(name: string)
    ensures ScalarMeans([], name, None)
  {
  }

  method EvaluateScalar(ds: seq<Directive>, name: string) returns (r: Option<bool>)
    ensures ScalarMeans(ds, name, r)
  {
    hide Mentions, ScalarMeans;
    var lastValue: Option<string>, mentioned := None, false;
    NoDirectives(name);
    for i := 0 to |ds|
      invariant ScalarMeans(ds[..i], name, if mentioned then Some(Enabling(lastValue)) else None)
    {
      var d := ds[i];
      assert ds[..i + 1] == ds[..i] + [d];
      ScalarNext(ds[..i], d, name, if mentioned then Some(Enabling(lastValue)) else None);
      if !Mentions(d, name) {
        continue;
      }
      if d.op == Clear {
        lastValue, mentioned := None, false;
      } else {
        lastValue, mentioned := d.value, true;
      }
    }
    assert ds[..|ds|] == ds;
    r := if mentioned then Some(Enabling(lastValue)) else None;
  }

  // ----- executing the include tree as a program -----

  ghost function RunLines<S>(step: (S, string) -> S, st: S, lines: seq<string>): S {
    if lines == [] then st else step(RunLines(step, st, lines[..|lines| - 1]), lines[|lines| - 1])
  }

  lemma {:induction false} RunAppend<S>(step: (S, string) -> S, st: S, a: seq<string>, b: seq<string>)
    ensures RunLines(step, st, a + b) == RunLines(step, RunLines(step, st, a), b)
    decreases |b|
  {
    if b == [] {
      assert a + b == a;
    } else {
      assert (a + b)[..|a + b| - 1] == a + b[..|b| - 1];
      RunAppend(step, st, a, b[..|b| - 1]);
    }
  }

  /**
    The torrc as a program: a line is a command, an include is a call of the named file in the
    caller's state.  No ancestor set and no depth cap; nothing if a call nests deeper than `n`.
   */
  ghost function Program<S>(w: World, p: Path, n: nat, step: (S, string) -> S, st: S): Option<S>
    decreases n, 1, 0
  {
    if !w.InRoot(p) then Some(st)
    else if n == 0 then None
    else ProgramItems(w, Items(w, p), n - 1, step, st)
  }

  ghost function ProgramItems<S>(w: World, items: seq<Item>, n: nat, step: (S, string) -> S, st: S): Option<S>
    decreases n, 2, |items|
  {
    if items == [] then Some(st)
    else
      match ProgramItems(w, items[..|items| - 1], n, step, st)
      case None => None
      case Some(before) =>
        match items[|items| - 1]
        case Line(t) => Some(step(before, t))
        case Call(q) => Program(w, q, n, step, before)
        case Guard(_) => Some(before)
  }

  lemma {:induction false} ProgramIsRun<S>(w: World, p: Path, n: nat, step: (S, string) -> S, st: S)
    requires Inline(w, p, n).Some?
    ensures Program(w, p, n, step, st) == Some(RunLines(step, st, Inline(w, p, n).value))
    decreases n, 1, 0
  {
    hide Items;
    if w.InRoot(p) {
      ProgramItemsIsRun(w, Items(w, p), n - 1, step, st);
    }
  }

  lemma {:induction false} ProgramItemsIsRun<S>(w: World, items: seq<Item>, n: nat, step: (S, string) -> S, st: S)
    requires InlineItems(w, items, n).Some?
    ensures ProgramItems(w, items, n, step, st) == Some(RunLines(step, st, InlineItems(w, items, n).value))
    decreases n, 2, |items|
  {
    hide Items;
    if items != [] {
      var front, last := items[..|items| - 1], items[|items| - 1];
      ProgramItemsIsRun(w, front, n, step, st);
      var lines := InlineItems(w, front, n).value;
      RunAppend(step, st, lines, InlineItem(w, last, n).value);
      match last
      case Line(t) => RunOne(step, RunLines(step, st, lines), t);
      case Call(q) => ProgramIsRun(w, q, n, step, RunLines(step, st, lines));
      case Guard(_) =>
    }
  }

  lemma RunOne<S>(step: (S, string) -> S, st: S, t: string)
    ensures RunLines(step, st, [t]) == step(st, t)
  {
    assert [t][..0] == [];
  }

  /** The main file is there, no chain from it has more than 8 hops, and no guard meets a link loop. */
  ghost predicate Flattens(w: World) {
    && w.IsFile(MainFile(w))
    && ChainsAtMost(w, MainFile(w), MAX_INCLUDE_DEPTH + 1)
    && !LoopAhead(w, MainFile(w), {}, MAX_INCLUDE_DEPTH + 1)
  }

  /**
    Evaluating the flattened stream equals executing the include tree as an ordered program, for
    every command interpreter `step`.
   */
  lemma FlatteningPreservesMeaning<S>(w: World, n: nat, step: (S, string) -> S, st: S)
    requires Flattens(w) && n > MAX_INCLUDE_DEPTH
    ensures Effective(w).Some? && Program(w, MainFile(w), n, step, st) == Some(RunLines(step, st, Effective(w).value))
  {
    hide LoopAhead, ChainsAtMost, Program, Inline, Read;
    ReadingIsInlining(w, MainFile(w), n);
    InliningFinishes(w, MainFile(w), MAX_INCLUDE_DEPTH + 1);
    InlineMonotone(w, MainFile(w), MAX_INCLUDE_DEPTH + 1, n);
    ProgramIsRun(w, MainFile(w), n, step, st);
  }

  // ----- the state of one multi-value option as a command interpreter -----

  datatype Entries = Entries(mentioned: bool, values: seq<string>)

  ghost function MultiStep(name: string): (Entries, string) -> Entries {
    (st: Entries, line: string) =>
      match ParseDirective(line)
      case None => st
      case Some(d) =>
        if !Mentions(d, name) then st
        else if d.op == Clear then Entries(true, [])
        else Entries(true, st.values + [EntryText(d.value)])
  }

  ghost function MultiResult(st: Entries): Option<bool> {
    if st.mentioned then Some(AnyEnabling(st.values)) else None
  }

  lemma {:induction false} MultiMachine(lines: seq<string>, name: string)
    ensures var st := RunLines(MultiStep(name), Entries(false, []), lines);
      && MultiResult(st) == MultiValue(Directives(lines), name)
      && (AnyEnabling(st.values) <==> exists i :: EnabledAt(Directives(lines), name, i))
  {
    hide ParseDirective, Lower;
    if lines != [] {
      var front := lines[..|lines| - 1];
      MultiMachine(front, name);
      match ParseDirective(lines[|lines| - 1])
      case None => assert Directives(lines) == Directives(front);
      case Some(d) =>
        var st := RunLines(MultiStep(name), Entries(false, []), front);
        var ds := Directives(front);
        assert Directives(lines) == ds + [d];
        assert (ds + [d])[..|ds|] == ds;
        EnabledNext(ds + [d], name);
        MentionedNext(ds, d, name);
        AnyEnablingNext(st.values, EntryText(d.value));
    }
  }

  lemma MentionedNext(ds: seq<Directive>, d: Directive, name: string)
    ensures MultiValue(ds + [d], name).Some? <==> MultiValue(ds, name).Some? || Mentions(d, name)
  {
    var all := ds + [d];
    assert all[|ds|] == d;
    forall i | 0 <= i < |ds| ensures all[i] == ds[i] {}
  }

  /**
    Executing the include tree with the entry list of one option as state, and reading the option
    off at the end, gives the meaning of that option in the flattened stream.
   */
  lemma IncludeTreeMeansMultiValue(w: World, name: string)
    requires Flattens(w)
    ensures var st := Program(w, MainFile(w), MAX_INCLUDE_DEPTH + 1, MultiStep(name), Entries(false, []));
      && Effective(w).Some? && st.Some?
      && MultiResult(st.value) == MultiValue(Directives(Effective(w).value), name)
  {
    hide Effective, MultiResult, MultiValue, Program, Flattens;
    FlatteningPreservesMeaning(w, MAX_INCLUDE_DEPTH + 1, MultiStep(name), Entries(false, []));
    MultiMachine(Effective(w).value, name);
  }

  // ----- the state of one scalar option as a command interpreter -----

  ghost function ScalarStep(name: string): (Option<bool>, string) -> Option<bool> {
    (st: Option<bool>, line: string) =>
      match ParseDirective(line)
      case None => st
      case Some(d) => if Mentions(d, name) then ScalarOf(d) else st
  }

  lemma {:induction false} ScalarMachine(lines: seq<string>, name: string)
    ensures ScalarMeans(Directives(lines), name, RunLines(ScalarStep(name), None, lines))
  {
    hide ParseDirective, Lower, ScalarMeans;
    if lines == [] {
      NoDirectives(name);
    } else {
      var front := lines[..|lines| - 1];
      ScalarMachine(front, name);
      match ParseDirective(lines[|lines| - 1])
      case None => assert Directives(lines) == Directives(front);
      case Some(d) => ScalarNext(Directives(front), d, name, RunLines(ScalarStep(name), None, front));
    }
  }

  /** The same for a scalar option: running the include tree gives what its last directive says. */
  lemma IncludeTreeMeansScalar(w: World, name: string)
    requires Flattens(w)
    ensures var st := Program(w, MainFile(w), MAX_INCLUDE_DEPTH + 1, ScalarStep(name), None);
      Effective(w).Some? && st.Some? && ScalarMeans(Directives(Effective(w).value), name, st.value)
  {
    hide Effective, ScalarMeans, Program, Flattens;
    FlatteningPreservesMeaning(w, MAX_INCLUDE_DEPTH + 1, ScalarStep(name), None);
    ScalarMachine(Effective(w).value, name);
  }

  // ----- usability -----

  datatype Confidence = High | Medium | Low

  function TorUsable(binaryInstalled: bool, runtimePresent: Option<bool>, runtimeActive: Option<bool>,
                     socksConfigured: Option<bool>, listener: Option<bool>): (r: (Option<bool>, Confidence))
    ensures r.0 == Some(true) <==>
      binaryInstalled && runtimePresent == Some(true) && runtimeActive == Some(true) &&
      socksConfigured != Some(false) && listener == Some(true)
    ensures r.0 == None <==>
      binaryInstalled && (runtimePresent == None || (runtimePresent == Some(true) && runtimeActive == Some(true) &&
      socksConfigured != Some(false) && listener != Some(true)))
  {
    if !binaryInstalled then (Some(false), High)
    else if runtimePresent == None then (None, Low)
    else if !runtimePresent.value then (Some(false), Medium)
    else if runtimeActive.None? || !runtimeActive.value then (Some(false), High)
    else if socksConfigured == Some(false) then (Some(false), High)
    else if listener == Some(true) then (Some(true), Medium)
    else (None, Low)
  }

  /**
    A `clear` of an option with no enabling entry after it switches the option off for good: with
    `/SocksPort` last, no unit state and no listener evidence makes Tor usable.
   */
  lemma FinalClearDisables(ds: seq<Directive>, j: nat, binaryInstalled: bool, runtimePresent: Option<bool>,
                           runtimeActive: Option<bool>, listener: Option<bool>)
    requires j < |ds| && Mentions(ds[j], "SocksPort") && ds[j].op == Clear
    requires forall k :: j < k < |ds| && Mentions(ds[k], "SocksPort") && ds[k].op != Clear ==> !Enabling(ds[k].value)
    ensures MultiValue(ds, "SocksPort") == Some(false)
    ensures TorUsable(binaryInstalled, runtimePresent, runtimeActive, MultiValue(ds, "SocksPort"),
      listener).0 != Some(true)
  {
    forall i | 0 <= i < j ensures !EnabledAt(ds, "SocksPort", i) {
      assert Mentions(ds[j], "SocksPort") && ds[j].op == Clear;
    }
  }

  // ----- parse_tor_config -----

  datatype TorConfig = TorConfig(present: bool, socksPort: Option<bool>, controlPort: Option<bool>,
    transPort: Option<bool>, dnsPort: Option<bool>, cookieAuthentication: Option<bool>, dataDirectory: bool,
    bridges: bool)

  function DropOperators(s: string): string {
    if s != "" && (s[0] == '+' || s[0] == '/') then DropOperators(s[1..]) else s
  }

  predicate IsBridge(line: string) {
    StartsWith(Lower(DropOperators(line)), "bridge ")
  }

  /** What the configuration read from `lines` says. */
  ghost predicate ConfigMeans(c: TorConfig, present: bool, lines: seq<string>) {
    var ds := Directives(lines);
    && (c.present <==> present || lines != [])
    && c.socksPort == MultiValue(ds, "SocksPort")
    && c.controlPort == MultiValue(ds, "ControlPort")
    && c.transPort == MultiValue(ds, "TransPort")
    && c.dnsPort == MultiValue(ds, "DNSPort")
    && ScalarMeans(ds, "CookieAuthentication", c.cookieAuthentication)
    && (exists v :: ScalarMeans(ds, "DataDirectory", v) && c.dataDirectory == (v == Some(true)))
    && (c.bridges <==> exists l :: l in lines && IsBridge(l))
  }

  method ParseTorConfig(w: World) returns (r: Option<TorConfig>)
    ensures r.None? <==> Effective(w).None?
    ensures r.Some? ==> ConfigMeans(r.value, w.IsFile(MainFile(w)), Effective(w).value)
  {
    hide Effective, MultiValue, ScalarMeans;
    var mainPresent := w.IsFile(MainFile(w));
    var read := EffectiveTorrcLines(w);
    if read.None? {
      return None;
    }
    var lines := read.value;
    var ds := ParsedDirectives(lines);
    var socks := EvaluateMultiValue(ds, "SocksPort");
    var control := EvaluateMultiValue(ds, "ControlPort");
    var cookie := EvaluateScalar(ds, "CookieAuthentication");
    var trans := EvaluateMultiValue(ds, "TransPort");
    var dns := EvaluateMultiValue(ds, "DNSPort");
    var data := EvaluateScalar(ds, "DataDirectory");
    r := Some(TorConfig(mainPresent || lines != [], socks, control, trans, dns, cookie, data == Some(true),
                        exists l :: l in lines && IsBridge(l)));
  }
}
