/**
  What `evaluate_boot_log` of `src/serein/distribution/bootsmoke.py` answers, for every log: which
  text counts as a reached-target event, and what is reported as the evidence.
 */
module BootVerdict {
  import opened Text
  import opened BootLog

  // ----- control sequences -----

  lemma {:induction false} ParametersBefore(s: string) returns (p: string)
    ensures s == p + SkipParameters(s) && forall c :: c in p ==> IsParameter(c)
    decreases |s|
  {
    p := "";
    if s != "" && IsParameter(s[0]) {
      var more := ParametersBefore(s[1..]);
      p := [s[0]] + more;
    }
  }

  lemma {:induction false} IntermediatesBefore(s: string) returns (i: string)
    ensures s == i + SkipIntermediates(s) && forall c :: c in i ==> IsIntermediate(c)
    decreases |s|
  {
    i := "";
    if s != "" && IsIntermediate(s[0]) {
      var more := IntermediatesBefore(s[1..]);
      i := [s[0]] + more;
    }
  }

  /** A control sequence is recognised exactly where a complete one is spelled. */
  lemma SequenceMeaning(s: string, rest: string)
    ensures AfterSequence(s) == Some(rest) <==>
      exists piece: Piece :: piece.Sequence? && piece.Valid() && s == piece.Render() + rest
  {
    hide Piece.Render, SkipParameters, SkipIntermediates;
    if AfterSequence(s) == Some(rest) {
      var p := ParametersBefore(s[2..]);
      var t := SkipParameters(s[2..]);
      var i := IntermediatesBefore(t);
      var u := SkipIntermediates(t);
      var piece := Sequence(p, i, u[0]);
      RenderedSequence(piece, rest);
      assert u == [u[0]] + rest && t == i + u && s[2..] == p + t && s == [ESC, '['] + s[2..];
      assert piece.Valid();
    }
    forall piece: Piece | piece.Sequence? && piece.Valid() && s == piece.Render() + rest
      ensures AfterSequence(s) == Some(rest)
    {
      SequenceIsRecognised(piece, rest);
    }
  }

  /** The bytes of a sequence are those of section 5.4 of ECMA-48, as far as the program knows them. */
  lemma SequencesInUse()
    ensures Sequence("", "", 'm').Valid() && Sequence("0;1;39", "", 'm').Valid() && Sequence("?25", "", 'h').Valid()
    ensures Sequence("2", " ", 'q').Valid() && Sequence("", "!", 'p').Valid() && Sequence("2", "", 'J').Valid()
    ensures forall c :: IsParameter(c) || IsIntermediate(c) || IsFinal(c) <==>
      ' ' <= c <= '9' || c == ';' || '?' <= c <= '~'
  {
  }

  // ----- reached-target events -----

  /** The unit and the description of the three events that count, in the order they are looked for. */
  const EVENTS: seq<(string, string)> :=
    [("basic.target", "Basic System"),
     ("multi-user.target", "Multi-User System"),
     ("graphical.target", "Graphical Interface")]

  /** One way to write an event: its words in any case, and the white space between them. */
  datatype Wording = Wording(head: string, gap: string, target: string, left: string, right: string,
                             description: string, dot: string)
  {
    function Text(): string {
      head + (gap + (target + (left + ("-" + (right + (description + dot))))))
    }

    /** The evidence that is reported: every run of white space is one blank. */
    function Line(): string {
      head + (" " + (target + (Blank(left) + ("-" + (Blank(right) + (description + dot))))))
    }

    ghost predicate Says(event: (string, string)) {
      && Fold(head) == Fold("Reached target") && Fold(target) == Fold(event.0) && Fold(description) == Fold(event.1)
      && gap != "" && AllSpaces(gap) && AllSpaces(left) && AllSpaces(right) && (dot == "" || dot == ".")
    }
  }

  function Blank(gap: string): string {
    if gap == "" then "" else " "
  }

  // ----- a pattern matches the wordings of its event -----

  lemma {:induction false} LitsSpell(word: string, pattern: seq<Elem>, form: string)
    ensures Spells(Lits(word) + pattern, form) <==>
      |form| >= |word| && Fold(form[..|word|]) == Fold(word) && Spells(pattern, form[|word|..])
    decreases |word|
  {
    hide FoldCase;
    var all := Lits(word) + pattern;
    if word == "" {
      assert all == pattern && form[0..] == form;
    } else {
      assert all[0] == Lit(word[0]) && all[1..] == Lits(word[1..]) + pattern;
      if form != "" {
        LitsSpell(word[1..], pattern, form[1..]);
        if |form| >= |word| { FoldCons(form[..|word|], word); }
      }
    }
  }

  lemma FoldCons(a: string, b: string)
    requires |a| == |b| > 0
    ensures Fold(a) == Fold(b) <==> FoldCase(a[0]) == FoldCase(b[0]) && Fold(a[1..]) == Fold(b[1..])
    ensures a[1..] == a[1..|a|]
  {
    hide FoldCase;
    if Fold(a) == Fold(b) {
      assert forall i :: 0 <= i < |a| - 1 ==> Fold(a[1..])[i] == Fold(a)[i + 1] && Fold(b[1..])[i] == Fold(b)[i + 1];
      assert Fold(a)[0] == Fold(b)[0];
    }
    if FoldCase(a[0]) == FoldCase(b[0]) && Fold(a[1..]) == Fold(b[1..]) {
      forall i | 0 <= i < |a| ensures Fold(a)[i] == Fold(b)[i] {
        if i > 0 { assert Fold(a[1..])[i - 1] == Fold(b[1..])[i - 1]; }
      }
    }
  }

  lemma SpacesSpelled(least: nat, pattern: seq<Elem>, form: string) returns (gap: string, rest: string)
    requires Spells([Spaces(least)] + pattern, form)
    ensures form == gap + rest && |gap| >= least && AllSpaces(gap) && Spells(pattern, rest)
  {
    var all := [Spaces(least)] + pattern;
    assert all[1..] == pattern;
    var n :| least <= n <= |form| && SpacesThen(pattern, form, n);
    gap, rest := form[..n], form[n..];
  }

  lemma SpacesSpell(least: nat, pattern: seq<Elem>, gap: string, rest: string)
    requires |gap| >= least && AllSpaces(gap) && Spells(pattern, rest)
    ensures Spells([Spaces(least)] + pattern, gap + rest)
  {
    var all, form := [Spaces(least)] + pattern, gap + rest;
    assert all[1..] == pattern && form[|gap|..] == rest;
    forall i | 0 <= i < |gap| ensures IsSpace(form[i]) { assert form[i] == gap[i] && gap[i] in gap; }
    assert SpacesThen(pattern, form, |gap|);
  }

  lemma DotSpell(form: string)
    ensures Spells([MaybeDot], form) <==> form == "" || form == "."
  {
    assert [MaybeDot][1..] == [];
    if form != "" && form[0] == '.' && form[1..] == "" { assert form == "."; }
  }

  lemma DashSpell(pattern: seq<Elem>, form: string)
    ensures Spells([Lit('-')] + pattern, form) <==> form != "" && form[0] == '-' && Spells(pattern, form[1..])
  {
    assert ([Lit('-')] + pattern)[1..] == pattern;
  }

  /** The pattern of an event, in pieces. */
  function Tail(event: (string, string)): seq<Elem> {
    [Spaces(0)] + ([Lit('-')] + ([Spaces(0)] + (Lits(event.1) + [MaybeDot])))
  }

  lemma PatternParts(event: (string, string))
    ensures TargetPattern(event.0, event.1) == Lits("Reached target") + ([Spaces(1)] + (Lits(event.0) + Tail(event)))
  {
    hide Lits;
  }

  lemma TailSpelled(event: (string, string), form: string)
    returns (left: string, right: string, description: string, dot: string)
    requires Spells(Tail(event), form)
    ensures form == left + ("-" + (right + (description + dot)))
    ensures AllSpaces(left) && AllSpaces(right) && Fold(description) == Fold(event.1) && (dot == "" || dot == ".")
  {
    hide Spells, Lits, AllSpaces, Fold;
    var rest, more;
    left, rest := SpacesSpelled(0, [Lit('-')] + ([Spaces(0)] + (Lits(event.1) + [MaybeDot])), form);
    DashSpell([Spaces(0)] + (Lits(event.1) + [MaybeDot]), rest);
    right, more := SpacesSpelled(0, Lits(event.1) + [MaybeDot], rest[1..]);
    LitsSpell(event.1, [MaybeDot], more);
    description, dot := more[..|event.1|], more[|event.1|..];
    DotSpell(dot);
    assert more == description + dot && rest == "-" + (right + more);
  }

  lemma TailSpells(event: (string, string), left: string, right: string, description: string, dot: string)
    requires AllSpaces(left) && AllSpaces(right) && Fold(description) == Fold(event.1) && (dot == "" || dot == ".")
    ensures Spells(Tail(event), left + ("-" + (right + (description + dot))))
  {
    FoldLength(description, event.1);
    hide Spells, Lits, AllSpaces, Fold;
    var more := description + dot;
    assert more[..|event.1|] == description && more[|event.1|..] == dot;
    DotSpell(dot);
    LitsSpell(event.1, [MaybeDot], more);
    SpacesSpell(0, Lits(event.1) + [MaybeDot], right, more);
    var rest := "-" + (right + more);
    assert rest[1..] == right + more;
    DashSpell([Spaces(0)] + (Lits(event.1) + [MaybeDot]), rest);
    SpacesSpell(0, [Lit('-')] + ([Spaces(0)] + (Lits(event.1) + [MaybeDot])), left, rest);
  }

  lemma FoldLength(a: string, b: string)
    requires Fold(a) == Fold(b)
    ensures |a| == |b|
  {
    assert |Fold(a)| == |a| && |Fold(b)| == |b|;
  }

  lemma PatternSpelled(event: (string, string), form: string) returns (w: Wording)
    requires Spells(TargetPattern(event.0, event.1), form)
    ensures w.Says(event) && form == w.Text()
  {
    PatternParts(event);
    hide Spells, Lits, AllSpaces, Fold, TargetPattern, Tail;
    var t := Lits(event.0) + Tail(event);
    LitsSpell("Reached target", [Spaces(1)] + t, form);
    var head := form[..|"Reached target"|];
    var gap, rest := SpacesSpelled(1, t, form[|head|..]);
    LitsSpell(event.0, Tail(event), rest);
    var target := rest[..|event.0|];
    var left, right, description, dot := TailSpelled(event, rest[|event.0|..]);
    w := Wording(head, gap, target, left, right, description, dot);
    assert form == head + form[|head|..] && rest == target + rest[|event.0|..];
  }

  lemma PatternSpells(event: (string, string), w: Wording)
    requires w.Says(event)
    ensures Spells(TargetPattern(event.0, event.1), w.Text())
  {
    PatternParts(event);
    FoldLength(w.head, "Reached target");
    FoldLength(w.target, event.0);
    hide Spells, Lits, AllSpaces, Fold, TargetPattern, Tail;
    TailSpells(event, w.left, w.right, w.description, w.dot);
    var tail := w.left + ("-" + (w.right + (w.description + w.dot)));
    var rest := w.target + tail;
    assert rest[..|event.0|] == w.target && rest[|event.0|..] == tail;
    LitsSpell(event.0, Tail(event), rest);
    SpacesSpell(1, Lits(event.0) + Tail(event), w.gap, rest);
    var form := w.Text();
    assert form == w.head + (w.gap + rest);
    assert form[..|w.head|] == w.head && form[|w.head|..] == w.gap + rest;
    LitsSpell("Reached target", [Spaces(1)] + (Lits(event.0) + Tail(event)), form);
  }

  // ----- where an event is reached -----

  ghost predicate ReachedAt(s: string, k: nat, w: Wording, i: int) {
    k < |EVENTS| && w.Says(EVENTS[k]) && At(s, i, w.Text())
  }

  ghost predicate Reached(s: string, k: nat) {
    exists w, i :: ReachedAt(s, k, w, i)
  }

  lemma PatternsAre()
    ensures |TargetPatterns()| == |EVENTS| == 3
    ensures forall k :: 0 <= k < 3 ==> TargetPatterns()[k] == TargetPattern(EVENTS[k].0, EVENTS[k].1)
    ensures forall k :: 0 <= k < 3 ==>
      EVENTS[k].0 != "" && Solid(EVENTS[k].0[0]) && EVENTS[k].1 != "" && Solid(EVENTS[k].1[0])
  {
    hide TargetPattern;
  }

  lemma OccursIsReached(s: string, k: nat)
    requires k < 3
    ensures Occurs(TargetPatterns()[k], s) <==> Reached(s, k)
  {
    hide Spells, TargetPattern, TargetPatterns, Wording.Says, Wording.Text;
    PatternsAre();
    var pattern := TargetPatterns()[k];
    if i, j :| SpelledAt(pattern, s, i, j) {
      var w := PatternSpelled(EVENTS[k], s[i..j]);
      assert ReachedAt(s, k, w, i);
    }
    if w, i :| ReachedAt(s, k, w, i) {
      PatternSpells(EVENTS[k], w);
      assert SpelledAt(pattern, s, i, i + |w.Text()|);
    }
  }

  // ----- the reported line -----

  /** Every run of white space written as one blank. */
  function Squeeze(s: string): string
    decreases |s|
  {
    if s == "" then "" else if IsSpace(s[0]) then " " + Squeeze(LStrip(s[1..])) else [s[0]] + Squeeze(s[1..])
  }

  lemma {:induction false} SqueezeWord(word: string, rest: string)
    requires forall c :: c in word ==> !IsSpace(c)
    ensures Squeeze(word + rest) == word + Squeeze(rest)
    decreases |word|
  {
    hide IsSpace;
    if word == "" {
      assert word + rest == rest;
    } else {
      assert (word + rest)[1..] == word[1..] + rest && word[0] in word;
      SqueezeWord(word[1..], rest);
    }
  }

  lemma SqueezeGap(gap: string, rest: string)
    requires AllSpaces(gap) && rest != "" && !IsSpace(rest[0])
    ensures Squeeze(gap + rest) == Blank(gap) + Squeeze(rest)
  {
    hide IsSpace;
    if gap == "" {
      assert gap + rest == rest;
    } else {
      assert (gap + rest)[1..] == gap[1..] + rest && gap[0] in gap;
      LStripPadded(gap[1..], rest);
      assert LStrip(rest) == rest;
    }
  }

  lemma {:induction false} WordEnds(s: string)
    ensures var n := WordLength(s);
      (forall c :: c in s[..n] ==> !IsSpace(c)) && (n < |s| ==> IsSpace(s[n]))
    decreases |s|
  {
    hide IsSpace;
    if s != "" && !IsSpace(s[0]) {
      WordEnds(s[1..]);
      var n := WordLength(s);
      assert s[..n] == [s[0]] + s[1..][..n - 1];
    }
  }

  lemma NothingAfter(s: string, n: nat)
    requires n <= |s| && Trimmed(s) && AllSpaces(s[n..])
    ensures s[..n] == s
  {
    if n < |s| { LastIsSpace(s, n); }
  }

  lemma LastIsSpace(s: string, n: nat)
    requires n < |s| && AllSpaces(s[n..])
    ensures IsSpace(s[|s| - 1])
  {
    assert s[n..][|s| - 1 - n] == s[|s| - 1];
  }

  lemma {:induction false} JoinIsSqueeze(s: string)
    requires Trimmed(s)
    ensures JoinWords(s) == Squeeze(s)
    decreases |s|
  {
    hide IsSpace, WordLength;
    assert Squeeze("") == "";
    if s != "" {
      var n := WordLength(s);
      WordEnds(s);
      assert LStrip(s) == s && n > 0 by { assert n == WordLength(s); }
      var gap := LStripParts(s[n..]);
      var rest := LStrip(s[n..]);
      assert s == s[..n] + s[n..];
      SqueezeWord(s[..n], s[n..]);
      if rest == "" {
        assert s[n..] == gap;
        NothingAfter(s, n);
      } else {
        assert gap != "" by { if n < |s| { assert (gap + rest)[0] == s[n]; } }
        assert rest[|rest| - 1] == s[|s| - 1];
        SqueezeGap(gap, rest);
        JoinIsSqueeze(rest);
      }
    }
  }

  /** Solid characters and single blanks between them. */
  predicate Spaced(literal: string) {
    forall i :: 0 <= i < |literal| ==> Solid(literal[i]) || BlankThenSolid(literal, i)
  }

  predicate BlankThenSolid(literal: string, i: nat) {
    i + 1 < |literal| && literal[i] == ' ' && Solid(literal[i + 1])
  }

  lemma SpacedTail(literal: string)
    requires literal != "" && Spaced(literal)
    ensures Spaced(literal[1..])
  {
    var t := literal[1..];
    forall i | 0 <= i < |t| ensures Solid(t[i]) || BlankThenSolid(t, i) {
      assert t[i] == literal[i + 1] && (Solid(literal[i + 1]) || BlankThenSolid(literal, i + 1));
    }
  }

  lemma BlankFolds(c: char)
    ensures FoldCase(c) == FoldCase(' ') <==> c == ' '
    ensures IsSpace(' ')
  {
  }

  lemma FirstIsBlank(literal: string)
    requires literal != "" && Spaced(literal) && !Solid(literal[0])
    ensures BlankThenSolid(literal, 0)
  {
  }

  lemma {:induction false} SqueezeSpelled(word: string, literal: string, rest: string)
    requires Fold(word) == Fold(literal) && Spaced(literal)
    ensures Squeeze(word + rest) == word + Squeeze(rest)
    decreases |word|
  {
    FoldLength(word, literal);
    if word == "" {
      assert word + rest == rest;
    } else {
      var s := word + rest;
      assert s[1..] == word[1..] + rest;
      FoldCons(word, literal);
      SpacedTail(literal);
      hide FoldCase, IsSpace, Spaced;
      SqueezeSpelled(word[1..], literal[1..], rest);
      BlankFolds(word[0]);
      if Solid(literal[0]) {
        SolidFold(literal[0], word[0]);
      } else {
        FirstIsBlank(literal);
        FoldCons(word[1..], literal[1..]);
        SolidFold(literal[1], word[1]);
        assert LStrip(s[1..]) == s[1..];
      }
    }
  }

  lemma SolidStart(word: string, literal: string)
    requires Fold(word) == Fold(literal) && literal != "" && Solid(literal[0])
    ensures word != "" && !IsSpace(word[0])
  {
    FoldLength(word, literal);
    FoldCons(word, literal);
    SolidFold(literal[0], word[0]);
  }

  lemma SolidEnd(word: string, literal: string)
    requires Fold(word) == Fold(literal) && literal != "" && 'a' <= literal[|literal| - 1] <= 'z'
    ensures word != "" && !IsSpace(word[|word| - 1]) && word[|word| - 1] != '.'
  {
    FoldLength(word, literal);
    var n := |word| - 1;
    assert Fold(word)[n] == Fold(literal)[n];
  }

  ghost predicate GoodEvent(event: (string, string)) {
    var (unit, description) := event;
    && unit != "" && Solid(unit[0]) && Spaced(unit)
    && description != "" && Solid(description[0]) && Spaced(description)
    && 'a' <= description[|description| - 1] <= 'z'
  }

  lemma BasicIsGood()
    ensures Spaced("Reached target") && Solid("Reached target"[0]) && GoodEvent(("basic.target", "Basic System"))
  {
  }

  lemma MultiUserIsGood()
    ensures GoodEvent(("multi-user.target", "Multi-User System"))
  {
  }

  lemma GraphicalIsGood()
    ensures GoodEvent(("graphical.target", "Graphical Interface"))
  {
  }

  lemma EventsAreGood(k: nat)
    requires k < 3
    ensures GoodEvent(EVENTS[k]) && Spaced("Reached target") && Solid("Reached target"[0])
  {
    hide Spaced, GoodEvent, Solid;
    BasicIsGood();
    MultiUserIsGood();
    GraphicalIsGood();
  }

  lemma EndLine(event: (string, string), description: string, dot: string)
    requires GoodEvent(event) && Fold(description) == Fold(event.1) && (dot == "" || dot == ".")
    ensures var end := description + dot;
      && Squeeze(end) == end && end != "" && !IsSpace(end[0]) && !IsSpace(end[|end| - 1])
      && (dot == "" <==> end[|end| - 1] != '.')
  {
    SolidStart(description, event.1);
    SolidEnd(description, event.1);
    assert !IsSpace('.');
    hide IsSpace, Fold, Solid, Spaced, FoldCase;
    SqueezeSpelled(description, event.1, dot);
    SqueezeWord(dot, "");
    assert dot + "" == dot && Squeeze("") == "";
  }

  lemma DashLine(left: string, right: string, end: string)
    requires AllSpaces(left) && AllSpaces(right) && end != "" && !IsSpace(end[0]) && Squeeze(end) == end
    ensures Squeeze(left + ("-" + (right + end))) == Blank(left) + ("-" + (Blank(right) + end))
  {
    assert !IsSpace('-');
    hide IsSpace, Squeeze, AllSpaces, Blank;
    SqueezeGap(right, end);
    SqueezeWord("-", right + end);
    SqueezeGap(left, "-" + (right + end));
  }

  lemma LineOf(k: nat, w: Wording)
    requires k < 3 && w.Says(EVENTS[k])
    ensures JoinWords(w.Text()) == w.Line() && w.Text() != ""
    ensures w.dot == "" <==> w.Text()[|w.Text()| - 1] != '.'
  {
    var e := EVENTS[k];
    EventsAreGood(k);
    SolidStart(w.head, "Reached target");
    SolidStart(w.target, e.0);
    hide EVENTS, IsSpace, Fold, Solid, Spaced, AllSpaces, FoldCase;
    EndLine(e, w.description, w.dot);
    DashLine(w.left, w.right, w.description + w.dot);
    var tail := w.left + ("-" + (w.right + (w.description + w.dot)));
    SqueezeSpelled(w.target, e.0, tail);
    SqueezeGap(w.gap, w.target + tail);
    SqueezeSpelled(w.head, "Reached target", w.gap + (w.target + tail));
    LastOfText(w);
    assert Blank(w.gap) == " " by { hide Squeeze; }
    JoinIsSqueeze(w.Text());
  }

  lemma LastOfText(w: Wording)
    requires w.head != "" && w.description + w.dot != ""
    ensures var (t, end) := (w.Text(), w.description + w.dot);
      t != "" && t[0] == w.head[0] && t[|t| - 1] == end[|end| - 1]
  {
    var end := w.description + w.dot;
    var front := w.head + (w.gap + (w.target + (w.left + ("-" + w.right))));
    assert w.Text() == front + end;
  }

  // ----- the verdict -----

  lemma {:induction false} LegacyMeaning(markers: seq<string>, log: string)
    ensures EvaluateLegacy(markers, log).None? <==> forall m :: m in markers ==> !Contains(log, m)
    ensures EvaluateLegacy(markers, log).Some? ==>
      exists j :: 0 <= j < |markers| && FirstMarker(markers, log, j) && markers[j] == EvaluateLegacy(markers, log).value
    decreases |markers|
  {
    hide Contains;
    if markers != [] {
      FoundOrNot(log, markers[0]);
      LegacyMeaning(markers[1..], log);
      if Find(log, markers[0]).Some? {
        assert FirstMarker(markers, log, 0);
      } else if EvaluateLegacy(markers[1..], log).Some? {
        var j :| 0 <= j < |markers| - 1 && FirstMarker(markers[1..], log, j)
          && markers[1..][j] == EvaluateLegacy(markers[1..], log).value;
        forall i | 0 <= i < j + 1 ensures !Contains(log, markers[i]) {
          if i > 0 { assert markers[i] == markers[1..][i - 1]; }
        }
        assert FirstMarker(markers, log, j + 1);
      }
    }
  }

  lemma FoundOrNot(log: string, m: string)
    ensures Find(log, m).Some? <==> Contains(log, m)
  {
  }

  /** `markers[j]` is in the log and no earlier marker is. */
  ghost predicate FirstMarker(markers: seq<string>, log: string, j: int) {
    0 <= j < |markers| && Contains(log, markers[j]) && forall i :: 0 <= i < j ==> !Contains(log, markers[i])
  }

  /** The words of the slice that a pattern matches first. */
  function Evidence(pattern: seq<Elem>, s: string): Option<string> {
    match Search(pattern, s)
    case None => None
    case Some((i, n)) => Some(JoinWords(s[i..i + n]))
  }

  lemma FirstTarget(patterns: seq<seq<Elem>>, s: string)
    requires patterns != []
    ensures EvaluateTargets(patterns, s) ==
      if Search(patterns[0], s).Some? then Evidence(patterns[0], s) else EvaluateTargets(patterns[1..], s)
  {
    hide Search, JoinWords;
  }

  lemma TargetsAre(ps: seq<seq<Elem>>, s: string)
    requires |ps| == 3
    ensures EvaluateTargets(ps, s) ==
      if Search(ps[0], s).Some? then Evidence(ps[0], s)
      else if Search(ps[1], s).Some? then Evidence(ps[1], s)
      else if Search(ps[2], s).Some? then Evidence(ps[2], s)
      else None
  {
    FirstTarget(ps, s);
    FirstTarget(ps[1..], s);
    FirstTarget(ps[2..], s);
    assert ps[1..][1..] == ps[2..] && ps[2..][1..] == [] && EvaluateTargets([], s) == None;
    hide EvaluateTargets, Evidence, Search;
  }

  lemma FoundIsReached(s: string, k: nat)
    requires k < 3
    ensures Search(TargetPatterns()[k], s).Some? <==> Reached(s, k)
  {
    hide Occurs, Search, TargetPattern, Reached;
    PatternsAre();
    TargetPatternShape(EVENTS[k].0, EVENTS[k].1);
    SearchMeaning(TargetPatterns()[k], s);
    OccursIsReached(s, k);
  }

  lemma SomeEvent(s: string)
    ensures EvaluateTargets(TargetPatterns(), s).Some? <==> exists k :: 0 <= k < 3 && Reached(s, k)
  {
    hide EvaluateTargets, Search, TargetPatterns, Reached, JoinWords;
    PatternsAre();
    TargetsAre(TargetPatterns(), s);
    forall k | 0 <= k < 3 ensures Search(TargetPatterns()[k], s).Some? <==> Reached(s, k) { FoundIsReached(s, k); }
    if EvaluateTargets(TargetPatterns(), s).Some? {
      var k := if Search(TargetPatterns()[0], s).Some? then 0 else if Search(TargetPatterns()[1], s).Some? then
        1 else 2;
      assert Reached(s, k);
    }
    if k :| 0 <= k < 3 && Reached(s, k) {
      assert Search(TargetPatterns()[k], s).Some?;
    }
  }

  /**
    When a boot counts as successful, for every log and every list of markers: a marker is somewhere
    in the log, or one of the three reached-target events is in the log without its control sequences.
   */
  lemma VerdictMeaning(log: string, markers: seq<string>)
    ensures EvaluateBootLog(log, markers).Some? <==>
      (exists m :: m in markers && Contains(log, m)) || exists k :: 0 <= k < 3 && Reached(StripAnsi(log), k)
  {
    hide EvaluateLegacy, EvaluateTargets, TargetPatterns, Reached, Contains, StripAnsi;
    LegacyMeaning(markers, log);
    SomeEvent(StripAnsi(log));
    assert EvaluateBootLog(log, markers).Some?
      <==> EvaluateLegacy(markers, log).Some? || EvaluateTargets(TargetPatterns(), StripAnsi(log)).Some?;
  }

  /** The evidence of the first layer is the first marker, in the caller's order, that the log contains. */
  lemma MarkerEvidence(log: string, markers: seq<string>) returns (j: nat)
    requires exists m :: m in markers && Contains(log, m)
    ensures FirstMarker(markers, log, j) && EvaluateBootLog(log, markers) == Some(markers[j])
  {
    hide EvaluateLegacy, EvaluateTargets, Contains, StripAnsi;
    LegacyMeaning(markers, log);
    j :| FirstMarker(markers, log, j) && markers[j] == EvaluateLegacy(markers, log).value;
  }

  lemma {:induction false} SearchFirst(pattern: seq<Elem>, s: string)
    requires Search(pattern, s).Some?
    ensures var (i, n) := Search(pattern, s).value;
      MatchHere(pattern, s[i..]) == Some(n) && forall j :: 0 <= j < i ==> MatchHere(pattern, s[j..]).None?
    decreases |s|
  {
    hide MatchHere;
    assert s[0..] == s;
    if MatchHere(pattern, s).None? {
      SearchFirst(pattern, s[1..]);
      var (i, n) := Search(pattern, s[1..]).value;
      assert s[1..][i..] == s[i + 1..];
      forall j | 0 <= j < i + 1 ensures MatchHere(pattern, s[j..]).None? {
        if j > 0 { assert s[1..][j - 1..] == s[j..]; }
      }
    }
  }

  lemma {:induction false} DotIsTaken(front: seq<Elem>, s: string)
    requires MatchHere(front + [MaybeDot], s).Some?
    ensures var n := MatchHere(front + [MaybeDot], s).value;
      (n > 0 && s[n - 1] == '.') || n == |s| || s[n] != '.'
    decreases |front|
  {
    hide FoldCase, IsSpace;
    var all := front + [MaybeDot];
    if front == [] {
      assert all[1..] == [];
    } else {
      assert all[1..] == front[1..] + [MaybeDot];
      match front[0]
      case Lit(_) => DotIsTaken(front[1..], s[1..]);
      case Spaces(_) => DotIsTaken(front[1..], s[LeadingSpaces(s)..]);
      case MaybeDot => DotIsTaken(front[1..], if s != "" && s[0] == '.' then s[1..] else s);
    }
  }

  lemma PatternEnds(event: (string, string)) returns (front: seq<Elem>)
    ensures TargetPattern(event.0, event.1) == front + [MaybeDot]
  {
    var p := TargetPattern(event.0, event.1);
    front := p[..|p| - 1];
  }

  lemma ReachedMatches(s: string, k: nat, w: Wording, i: nat)
    requires k < 3 && ReachedAt(s, k, w, i)
    ensures MatchHere(TargetPatterns()[k], s[i..]).Some?
  {
    hide Spells, TargetPattern, Wording.Says, Wording.Text, MatchHere, TargetPatterns;
    PatternsAre();
    PatternSpells(EVENTS[k], w);
    TargetPatternShape(EVENTS[k].0, EVENTS[k].1);
    var t := w.Text();
    assert s[i..] == t + s[i + |t|..];
    SpellingMatches(TargetPatterns()[k], t, s[i + |t|..]);
  }

  /** The wording of event `k` at `i` is the one that is found: nothing stands before it, and it takes its full stop. */
  ghost predicate FoundAt(s: string, k: nat, w: Wording, i: int) {
    && ReachedAt(s, k, w, i)
    && (forall v, j :: j < i ==> !ReachedAt(s, k, v, j))
    && (w.dot == "" ==> !At(s, i + |w.Text()|, "."))
  }

  lemma EvidenceOf(s: string, k: nat) returns (w: Wording, i: nat)
    requires k < 3 && Search(TargetPatterns()[k], s).Some?
    ensures FoundAt(s, k, w, i) && Evidence(TargetPatterns()[k], s) == Some(w.Line())
  {
    hide Spells, TargetPattern, TargetPatterns, Wording.Says, Wording.Text, Wording.Line, MatchHere, JoinWords, Search;
    PatternsAre();
    var pattern := TargetPatterns()[k];
    var n := Search(pattern, s).value.1;
    i := Search(pattern, s).value.0;
    SearchFirst(pattern, s);
    SearchSound(pattern, s);
    w := PatternSpelled(EVENTS[k], s[i..i + n]);
    LineOf(k, w);
    forall v, j | j < i ensures !ReachedAt(s, k, v, j) {
      if ReachedAt(s, k, v, j) { ReachedMatches(s, k, v, j); }
    }
    var front := PatternEnds(EVENTS[k]);
    DotIsTaken(front, s[i..]);
    assert i + n < |s| ==> s[i..][n] == s[i + n];
    assert n > 0 ==> s[i..i + n][n - 1] == s[i..][n - 1];
    if At(s, i + n, ".") { DotAt(s, i + n); }
  }

  lemma DotAt(s: string, k: nat)
    requires At(s, k, ".")
    ensures k < |s| && s[k] == '.'
  {
    assert s[k..k + 1][0] == '.';
  }

  /**
    The evidence of the second layer, for a log without a marker: the first of the three events that is
    reached anywhere, where it is reached first, its white space written as single blanks.
   */
  lemma EventEvidence(log: string, markers: seq<string>) returns (k: nat, w: Wording, i: nat)
    requires (forall m :: m in markers ==> !Contains(log, m)) && EvaluateBootLog(log, markers).Some?
    ensures k < 3 && FoundAt(StripAnsi(log), k, w, i) && EvaluateBootLog(log, markers) == Some(w.Line())
    ensures forall j: nat :: j < k ==> !Reached(StripAnsi(log), j)
  {
    hide EvaluateLegacy, EvaluateTargets, Search, TargetPattern, Reached, Contains, StripAnsi, FoundAt, Wording.Line,
      Evidence;
    var s := StripAnsi(log);
    LegacyMeaning(markers, log);
    TargetsAre(TargetPatterns(), s);
    FoundIsReached(s, 0);
    FoundIsReached(s, 1);
    FoundIsReached(s, 2);
    k := if Reached(s, 0) then 0 else if Reached(s, 1) then 1 else 2;
    w, i := EvidenceOf(s, k);
  }

  /**
    Decorated text without a marker: whatever complete control sequences are inserted into ESC-free
    text, the answer is that of the plain text to the events alone.
   */
  lemma DecoratedVerdict(pieces: seq<Piece>, markers: seq<string>)
    requires forall p :: p in pieces ==> p.Valid()
    requires forall m :: m in markers ==> !Contains(Render(pieces), m)
    ensures EvaluateBootLog(Render(pieces), markers) == EvaluateBootLog(Visible(pieces), [])
    ensures (forall m :: m in markers ==> !Contains(Visible(pieces), m)) ==>
      EvaluateBootLog(Render(pieces), markers) == EvaluateBootLog(Visible(pieces), markers)
  {
    hide EvaluateTargets, TargetPatterns, Contains, EvaluateLegacy, Render, Visible, StripAnsi;
    StripUndoesDecoration(pieces);
    VisibleIsPlain(pieces);
    StripKeepsPlainText(Visible(pieces));
    LegacyMeaning(markers, Render(pieces));
    LegacyMeaning(markers, Visible(pieces));
    LegacyMeaning([], Visible(pieces));
  }

  lemma {:induction false} VisibleIsPlain(pieces: seq<Piece>)
    requires forall p :: p in pieces ==> p.Valid()
    ensures ESC !in Visible(pieces)
    decreases |pieces|
  {
    if pieces != [] {
      VisibleIsPlain(pieces[1..]);
      assert pieces[0].Valid();
    }
  }
}
