/**
  Recognising a positive boot marker in a serial log: `_strip_ansi` and `evaluate_boot_log` of
  `src/serein/distribution/bootsmoke.py`.
 */
module BootLog {
  import opened Text

  const ESC := '\U{1B}'

  // ----- control sequences: ESC [ parameters intermediates final -----

  predicate IsParameter(c: char) {
    '0' <= c <= '9' || c == ';' || c == '?'
  }

  predicate IsIntermediate(c: char) {
    ' ' <= c <= '/'
  }

  predicate IsFinal(c: char) {
    '@' <= c <= '~'
  }

  function SkipParameters(s: string): (r: string)
    ensures |r| <= |s|
  {
    if s != "" && IsParameter(s[0]) then SkipParameters(s[1..]) else s
  }

  function SkipIntermediates(s: string): (r: string)
    ensures |r| <= |s|
  {
    if s != "" && IsIntermediate(s[0]) then SkipIntermediates(s[1..]) else s
  }

  /** What follows the control sequence at the start of `s`, if a complete one stands there. */
  function AfterSequence(s: string): (r: Option<string>)
    ensures r.Some? ==> |r.value| < |s|
  {
    if |s| < 2 || s[0] != ESC || s[1] != '[' then None
    else
      var rest := SkipIntermediates(SkipParameters(s[2..]));
      if rest != "" && IsFinal(rest[0]) then Some(rest[1..]) else None
  }

  function StripAnsi(s: string): (r: string)
    decreases |s|
  {
    if s == "" then ""
    else match AfterSequence(s)
      case Some(rest) => StripAnsi(rest)
      case None => [s[0]] + StripAnsi(s[1..])
  }

  /** Decorated text: its own characters, with complete control sequences inserted anywhere. */
  datatype Piece = Char(c: char) | Sequence(parameters: string, intermediates: string, final: char) {
    ghost predicate Valid() {
      match this
      case Char(c) => c != ESC
      case Sequence(p, i, f) =>
        (forall c :: c in p ==> IsParameter(c)) && (forall c :: c in i ==> IsIntermediate(c)) && IsFinal(f)
    }

    function Render(): string {
      match this
      case Char(c) => [c]
      case Sequence(p, i, f) => [ESC, '['] + p + i + [f]
    }

    function Visible(): string {
      if this.Char? then [c] else ""
    }
  }

  function Render(pieces: seq<Piece>): string {
    if pieces == [] then "" else pieces[0].Render() + Render(pieces[1..])
  }

  function Visible(pieces: seq<Piece>): string {
    if pieces == [] then "" else pieces[0].Visible() + Visible(pieces[1..])
  }

  lemma {:induction false} SkipAllParameters(p: string, rest: string)
    requires forall c :: c in p ==> IsParameter(c)
    requires rest != "" && !IsParameter(rest[0])
    ensures SkipParameters(p + rest) == rest
    decreases |p|
  {
    if p == "" {
      assert p + rest == rest;
    } else {
      assert (p + rest)[1..] == p[1..] + rest;
      SkipAllParameters(p[1..], rest);
    }
  }

  lemma {:induction false} SkipAllIntermediates(i: string, rest: string)
    requires forall c :: c in i ==> IsIntermediate(c)
    requires rest != "" && !IsIntermediate(rest[0])
    ensures SkipIntermediates(i + rest) == rest
    decreases |i|
  {
    if i == "" {
      assert i + rest == rest;
    } else {
      assert (i + rest)[1..] == i[1..] + rest;
      SkipAllIntermediates(i[1..], rest);
    }
  }

  lemma SequenceIsRecognised(piece: Piece, rest: string)
    requires piece.Sequence? && piece.Valid()
    ensures AfterSequence(piece.Render() + rest) == Some(rest)
  {
    var Sequence(p, i, f) := piece;
    var tail := [f] + rest;
    SkipAllIntermediates(i, tail);
    if i == "" { assert i + tail == tail; }
    SkipAllParameters(p, i + tail);
    hide *;
    RenderedSequence(piece, rest);
    AfterParts(p + (i + tail), tail);
  }

  lemma RenderedSequence(piece: Piece, rest: string)
    requires piece.Sequence?
    ensures var Sequence(p, i, f) := piece;
      piece.Render() + rest == [ESC, '['] + (p + (i + ([f] + rest)))
  {
  }

  lemma AfterParts(body: string, tail: string)
    requires SkipIntermediates(SkipParameters(body)) == tail && tail != "" && IsFinal(tail[0])
    ensures AfterSequence([ESC, '['] + body) == Some(tail[1..])
  {
    hide SkipParameters, SkipIntermediates;
    assert ([ESC, '['] + body)[2..] == body;
  }

  /** Decorating ESC-free text with any complete control sequences and stripping returns the text. */
  lemma {:induction false} StripUndoesDecoration(pieces: seq<Piece>)
    requires forall p :: p in pieces ==> p.Valid()
    ensures StripAnsi(Render(pieces)) == Visible(pieces)
    decreases |pieces|
  {
    if pieces != [] {
      var rest := Render(pieces[1..]);
      StripUndoesDecoration(pieces[1..]);
      match pieces[0]
      case Char(c) =>
        assert Render(pieces) == [c] + rest && Render(pieces)[1..] == rest;
        assert pieces[0].Valid();
      case Sequence(_, _, _) =>
        SequenceIsRecognised(pieces[0], rest);
        assert "" + Visible(pieces[1..]) == Visible(pieces[1..]);
    }
  }

  lemma {:induction false} StripKeepsPlainText(s: string)
    requires ESC !in s
    ensures StripAnsi(s) == s
    decreases |s|
  {
    if s != "" { StripKeepsPlainText(s[1..]); }
  }

  /** Stripping is not idempotent: removing a sequence can leave the two halves of another one. */
  lemma StripIsNotIdempotent()
    ensures var s := [ESC, ESC, '[', 'm', '[', 'm'];
      StripAnsi(s) == [ESC, '[', 'm'] && StripAnsi(StripAnsi(s)) == ""
  {
    var s := [ESC, ESC, '[', 'm', '[', 'm'];
    var m := Sequence("", "", 'm');
    var inner := [ESC, '[', 'm'];
    assert s[1] != '[' && AfterSequence(s) == None;
    assert s[1..] == m.Render() + "[m";
    SequenceIsRecognised(m, "[m");
    StripKeepsPlainText("[m");
    assert inner == m.Render() + "";
    SequenceIsRecognised(m, "");
  }

  // ----- the target patterns -----

  datatype Elem = Lit(c: char) | Spaces(least: nat) | MaybeDot

  /** The length of the match of `pattern` at the start of `s`. */
  function MatchHere(pattern: seq<Elem>, s: string): (r: Option<nat>)
    ensures r.Some? ==> r.value <= |s|
  {
    if pattern == [] then Some(0)
    else match pattern[0]
      case Lit(c) =>
        if s != "" && FoldCase(s[0]) == FoldCase(c) then Plus(1, MatchHere(pattern[1..], s[1..])) else None
      case Spaces(least) =>
        var n := LeadingSpaces(s);
        if n < least then None else Plus(n, MatchHere(pattern[1..], s[n..]))
      case MaybeDot =>
        if s != "" && s[0] == '.' then Plus(1, MatchHere(pattern[1..], s[1..])) else MatchHere(pattern[1..], s)
  }

  function Plus(n: nat, r: Option<nat>): Option<nat> {
    match r case None => None case Some(m) => Some(n + m)
  }

  /** The first match: its start and its length. */
  function Search(pattern: seq<Elem>, s: string): (r: Option<(nat, nat)>)
    ensures r.Some? ==> r.value.0 + r.value.1 <= |s|
    decreases |s|
  {
    match MatchHere(pattern, s)
    case Some(n) => Some((0, n))
    case None =>
      if s == "" then None
      else match Search(pattern, s[1..])
        case None => None
        case Some((i, n)) => Some((i + 1, n))
  }

  function Lits(s: string): seq<Elem> {
    seq(|s|, i requires 0 <= i < |s| => Lit(s[i]))
  }

  /** `Reached target\s+<unit>\s*-\s*<description>\.?`, ignoring case. */
  function TargetPattern(target: string, description: string): seq<Elem> {
    Lits("Reached target") + [Spaces(1)] + Lits(target) + [Spaces(0), Lit('-'), Spaces(0)] + Lits(description) +
      [MaybeDot]
  }

  function TargetPatterns(): seq<seq<Elem>> {
    [TargetPattern("basic.target", "Basic System"),
     TargetPattern("multi-user.target", "Multi-User System"),
     TargetPattern("graphical.target", "Graphical Interface")]
  }

  /** `" ".join(text.split())`. */
  function JoinWords(s: string): string
    decreases |s|
  {
    var t := LStrip(s);
    if t == "" then ""
    else
      var n := WordLength(t);
      var rest := LStrip(t[n..]);
      if rest == "" then t[..n] else t[..n] + " " + JoinWords(rest)
  }

  function WordLength(s: string): (n: nat)
    ensures n <= |s|
    ensures s != "" && !IsSpace(s[0]) ==> n > 0
  {
    if s == "" || IsSpace(s[0]) then 0 else 1 + WordLength(s[1..])
  }

  /** The first pattern with a match in already stripped text, and the matched line. */
  function EvaluateTargets(patterns: seq<seq<Elem>>, normalized: string): Option<string> {
    if patterns == [] then None
    else match Search(patterns[0], normalized)
      case Some((i, n)) => Some(JoinWords(normalized[i..i + n]))
      case None => EvaluateTargets(patterns[1..], normalized)
  }

  function EvaluateLegacy(markers: seq<string>, log: string): Option<string> {
    if markers == [] then None
    else if Find(log, markers[0]).Some? then Some(markers[0])
    else EvaluateLegacy(markers[1..], log)
  }

  /** The matched marker, or nothing: `evaluate_boot_log`. */
  function EvaluateBootLog(log: string, markers: seq<string>): Option<string> {
    match EvaluateLegacy(markers, log)
    case Some(m) => Some(m)
    case None => EvaluateTargets(TargetPatterns(), StripAnsi(log))
  }

  // ----- what a match means -----

  /** `form` is one way to write `pattern`. */
  predicate Spells(pattern: seq<Elem>, form: string) {
    if pattern == [] then form == ""
    else match pattern[0]
      case Lit(c) => form != "" && FoldCase(form[0]) == FoldCase(c) && Spells(pattern[1..], form[1..])
      case Spaces(least) => exists n :: least <= n <= |form| && SpacesThen(pattern[1..], form, n)
      case MaybeDot => Spells(pattern[1..], form) || (form != "" && form[0] == '.' && Spells(pattern[1..], form[1..]))
  }

  predicate SpacesThen(pattern: seq<Elem>, form: string, n: nat)
    requires n <= |form|
    decreases pattern
  {
    (forall i :: 0 <= i < n ==> IsSpace(form[i])) && Spells(pattern, form[n..])
  }

  /** Every run of white space is followed by a literal that cannot itself be white space. */
  predicate SpacesAreDelimited(pattern: seq<Elem>) {
    forall i :: 0 <= i < |pattern| && pattern[i].Spaces? ==>
      i + 1 < |pattern| && pattern[i + 1].Lit? && Solid(pattern[i + 1].c)
  }

  predicate Solid(c: char) {
    '!' <= c <= '~'
  }

  lemma SolidFold(c: char, d: char)
    requires Solid(c) && FoldCase(d) == FoldCase(c)
    ensures !IsSpace(d)
  {
  }

  lemma {:induction false} MatchIsSpelling(pattern: seq<Elem>, s: string)
    requires MatchHere(pattern, s).Some?
    ensures Spells(pattern, s[..MatchHere(pattern, s).value])
    decreases pattern
  {
    var n := MatchHere(pattern, s).value;
    if pattern != [] {
      match pattern[0]
      case Lit(c) =>
        MatchIsSpelling(pattern[1..], s[1..]);
        assert s[..n][1..] == s[1..][..n - 1];
      case Spaces(least) =>
        var k := LeadingSpaces(s);
        MatchIsSpelling(pattern[1..], s[k..]);
        assert s[..n][k..] == s[k..][..n - k];
        assert SpacesThen(pattern[1..], s[..n], k);
      case MaybeDot =>
        if s != "" && s[0] == '.' {
          MatchIsSpelling(pattern[1..], s[1..]);
          assert s[..n][1..] == s[1..][..n - 1];
        } else {
          MatchIsSpelling(pattern[1..], s);
        }
    }
  }

  lemma TailDelimited(pattern: seq<Elem>)
    requires pattern != [] && SpacesAreDelimited(pattern)
    ensures SpacesAreDelimited(pattern[1..])
  {
    var t := pattern[1..];
    forall i | 0 <= i < |t| && t[i].Spaces? ensures i + 1 < |t| && t[i + 1].Lit? && Solid(t[i + 1].c) {
      assert t[i] == pattern[i + 1];
    }
  }

  /** A spelling is recognised whatever follows it (a final dot may extend the match). */
  lemma {:induction false} SpellingMatches(pattern: seq<Elem>, form: string, rest: string)
    requires Spells(pattern, form) && SpacesAreDelimited(pattern)
    requires forall i :: 0 <= i < |pattern| && pattern[i].MaybeDot? ==> i == |pattern| - 1
    ensures MatchHere(pattern, form + rest).Some?
    decreases pattern
  {
    var s := form + rest;
    if pattern != [] {
      TailDelimited(pattern);
      match pattern[0]
      case Lit(c) =>
        assert s[1..] == form[1..] + rest;
        SpellingMatches(pattern[1..], form[1..], rest);
      case Spaces(least) =>
        var n :| least <= n <= |form| && SpacesThen(pattern[1..], form, n);
        var next := form[n..];
        assert pattern[1].Lit? && pattern[1..][0] == pattern[1];
        assert Spells(pattern[1..], next);
        SolidFold(pattern[1].c, next[0]);
        LeadingSpacesOf(s, n);
        assert s[n..] == next + rest;
        SpellingMatches(pattern[1..], next, rest);
      case MaybeDot =>
        assert pattern[1..] == [];
    }
  }

  lemma {:induction false} SearchFinds(pattern: seq<Elem>, s: string, i: nat)
    requires i <= |s| && MatchHere(pattern, s[i..]).Some?
    ensures Search(pattern, s).Some?
    decreases |s|
  {
    if i == 0 {
      assert s[0..] == s;
    } else {
      assert s[1..][i - 1..] == s[i..];
      SearchFinds(pattern, s[1..], i - 1);
    }
  }

  lemma {:induction false} SearchSound(pattern: seq<Elem>, s: string)
    requires Search(pattern, s).Some?
    ensures var (i, n) := Search(pattern, s).value; Spells(pattern, s[i..i + n])
    decreases |s|
  {
    match MatchHere(pattern, s)
    case Some(n) => MatchIsSpelling(pattern, s);
    case None =>
      SearchSound(pattern, s[1..]);
      var (i, n) := Search(pattern, s[1..]).value;
      assert s[i + 1..i + 1 + n] == s[1..][i..i + n];
  }

  /** Some spelling of `pattern` occurs in `s`. */
  ghost predicate Occurs(pattern: seq<Elem>, s: string) {
    exists i, j :: SpelledAt(pattern, s, i, j)
  }

  predicate SpelledAt(pattern: seq<Elem>, s: string, i: int, j: int) {
    0 <= i <= j <= |s| && Spells(pattern, s[i..j])
  }

  lemma SearchMeaning(pattern: seq<Elem>, s: string)
    requires SpacesAreDelimited(pattern)
    requires forall i :: 0 <= i < |pattern| && pattern[i].MaybeDot? ==> i == |pattern| - 1
    ensures Search(pattern, s).Some? <==> Occurs(pattern, s)
  {
    if Search(pattern, s).Some? {
      SearchSound(pattern, s);
      var (i, n) := Search(pattern, s).value;
      assert SpelledAt(pattern, s, i, i + n);
    }
    if Occurs(pattern, s) {
      var i, j :| SpelledAt(pattern, s, i, j);
      assert s[i..] == s[i..j] + s[j..];
      SpellingMatches(pattern, s[i..j], s[j..]);
      SearchFinds(pattern, s, i);
    }
  }

  lemma TargetPatternShape(target: string, description: string)
    requires target != "" && Solid(target[0]) && description != "" && Solid(description[0])
    ensures var p := TargetPattern(target, description);
      SpacesAreDelimited(p) && forall i :: 0 <= i < |p| && p[i].MaybeDot? ==> i == |p| - 1
  {
    var p := TargetPattern(target, description);
    var t := |target|;
    assert forall i :: 0 <= i < |p| && p[i].Spaces? ==> i == 14 || i == 15 + t || i == 17 + t;
    assert p[15] == Lit(target[0]) && p[16 + t] == Lit('-') && p[18 + t] == Lit(description[0]);
  }

  /**
    The target layer on decorated text: whatever complete control sequences are inserted into
    ESC-free text, the verdict and the matched line are those of the undecorated text, and the
    verdict is positive exactly when one of the three reached-target events occurs in it.
   */
  lemma TargetVerdict(pieces: seq<Piece>)
    requires forall p :: p in pieces ==> p.Valid()
    ensures EvaluateTargets(TargetPatterns(), StripAnsi(Render(pieces)))
      == EvaluateTargets(TargetPatterns(), Visible(pieces))
    ensures EvaluateTargets(TargetPatterns(), StripAnsi(Render(pieces))).Some? <==>
      exists k :: 0 <= k < 3 && Occurs(TargetPatterns()[k], Visible(pieces))
  {
    hide Occurs, Search, TargetPattern;
    StripUndoesDecoration(pieces);
    var s := Visible(pieces);
    var ps := TargetPatterns();
    TargetPatternShape("basic.target", "Basic System");
    TargetPatternShape("multi-user.target", "Multi-User System");
    TargetPatternShape("graphical.target", "Graphical Interface");
    SearchMeaning(ps[0], s);
    SearchMeaning(ps[1], s);
    SearchMeaning(ps[2], s);
    assert ps[1..][0] == ps[1] && ps[1..][1..][0] == ps[2] && ps[1..][1..][1..] == [];
    assert EvaluateTargets(ps[1..][1..], s).Some? <==> Search(ps[2], s).Some?;
    assert EvaluateTargets(ps[1..], s).Some? <==> Search(ps[1], s).Some? || Search(ps[2], s).Some?;
  }

  lemma FoundOnOneSide(log: string, start: nat, end: nat, marker: string)
    requires start <= end <= |log| && Contains(log[start..end], marker)
    ensures Contains(log, marker)
  {
    var i :| At(log[start..end], i, marker);
    SubSlice(log, start, end, i, i + |marker|);
    assert At(log, start + i, marker);
  }

  lemma NotAcross(log: string, n: nat, marker: string, i: nat)
    requires n < |log| && log[n] == ESC && ESC !in marker && At(log, i, marker)
    ensures i + |marker| <= n || n < i
  {
    forall k | 0 <= k < |marker| ensures marker[k] == log[i + k] && marker[k] != ESC {
      assert log[i..i + |marker|][k] == log[i + k];
    }
  }

  /**
    The legacy layer reads raw text: a marker is found around an escape character exactly if it is
    found on one side of it, so a control sequence inside a marker hides it, whatever the log.
   */
  lemma LegacyLayerIsRaw(log: string, n: nat, marker: string)
    requires n < |log| && log[n] == ESC && marker != "" && ESC !in marker
    ensures Contains(log, marker) <==> Contains(log[..n], marker) || Contains(log[n + 1..], marker)
  {
    var m := |marker|;
    assert log[n + 1..] == log[n + 1..|log|] && log[..n] == log[0..n];
    if Contains(log[..n], marker) { FoundOnOneSide(log, 0, n, marker); }
    if Contains(log[n + 1..], marker) { FoundOnOneSide(log, n + 1, |log|, marker); }
    if i :| At(log, i, marker) {
      NotAcross(log, n, marker, i);
      if i + m <= n {
        SubSlice(log, 0, n, i, i + m);
        assert At(log[..n], i, marker);
      } else {
        SubSlice(log, n + 1, |log|, i - n - 1, i - n - 1 + m);
        assert At(log[n + 1..], i - n - 1, marker);
      }
    }
  }

  // ----- a match is never empty -----

  predicate StartsSolid(pattern: seq<Elem>) {
    pattern != [] && pattern[0].Lit? && Solid(pattern[0].c)
  }

  lemma {:induction false} SearchIsWord(pattern: seq<Elem>, s: string)
    requires StartsSolid(pattern) && Search(pattern, s).Some?
    ensures var (i, n) := Search(pattern, s).value; n > 0 && !IsSpace(s[i])
    decreases |s|
  {
    if MatchHere(pattern, s).Some? {
      SolidFold(pattern[0].c, s[0]);
    } else {
      SearchIsWord(pattern, s[1..]);
    }
  }

  lemma JoinWordsOf(s: string)
    requires s != "" && !IsSpace(s[0])
    ensures JoinWords(s) != ""
  {
    assert WordLength(s) > 0;
  }

  lemma {:induction false} TargetsAreNotEmpty(patterns: seq<seq<Elem>>, s: string)
    requires forall p :: p in patterns ==> StartsSolid(p)
    ensures EvaluateTargets(patterns, s) != Some("")
    decreases |patterns|
  {
    hide Search, JoinWords;
    if patterns != [] {
      match Search(patterns[0], s)
      case None => TargetsAreNotEmpty(patterns[1..], s);
      case Some((i, n)) =>
        SearchIsWord(patterns[0], s);
        JoinWordsOf(s[i..i + n]);
    }
  }

  lemma {:induction false} LegacyIsAMarker(markers: seq<string>, log: string)
    requires EvaluateLegacy(markers, log).Some?
    ensures EvaluateLegacy(markers, log).value in markers
    decreases |markers|
  {
    if Find(log, markers[0]).None? { LegacyIsAMarker(markers[1..], log); }
  }

  /** With no empty marker asked for, a match is a non-empty text. */
  lemma NoEmptyMatch(log: string, markers: seq<string>)
    requires "" !in markers
    ensures EvaluateBootLog(log, markers) != Some("")
  {
    if EvaluateLegacy(markers, log).Some? { LegacyIsAMarker(markers, log); }
    assert forall p :: p in TargetPatterns() ==> StartsSolid(p);
    hide TargetPatterns, EvaluateLegacy;
    TargetsAreNotEmpty(TargetPatterns(), StripAnsi(log));
  }
}
