/**
  The GRUB grammar the rewrite and the scan rely on, as it is written: menu headers, `linux` and
  `initrd` lines, and which entry the QA entry is derived from (`_MENUENTRY_RE`, `_LINUX_LINE_RE`,
  `_INITRD_LINE_RE` and `derive_qa_menuentry` of `src/serein/distribution/qa_boot.py`).
 */
module GrubSyntax {
  import opened Text
  import opened Grub
  import opened GrubInstall
  import opened GrubScan

  lemma FoldedPrefix(s: string, w: string)
    ensures MatchWord(s, w) <==> |w| <= |s| && Fold(s[..|w|]) == Fold(w)
  {
    hide FoldCase;
    if |w| <= |s| {
      assert forall i :: 0 <= i < |w| ==> Fold(s[..|w|])[i] == FoldCase(s[i]) && Fold(w)[i] == FoldCase(w[i]);
    }
  }

  // ----- menu headers -----

  /** The parts of a header: the word, white space, the title between two quotes, and all up to a brace. */
  datatype Spelled = Spelled(word: string, gap: string, open: char, title: string, close: char, middle: string)
  {
    ghost predicate Valid() {
      && Fold(word) == Fold("menuentry") && gap != "" && AllSpaces(gap)
      && IsQuote(open) && NoQuotes(title) && IsQuote(close) && '{' !in middle
    }

    function Text(): string {
      word + (gap + ([open] + (title + ([close] + (middle + "{")))))
    }
  }

  lemma {:induction false} LeadingSpacesThen(gap: string, rest: string)
    requires AllSpaces(gap) && rest != "" && !IsSpace(rest[0])
    ensures LeadingSpaces(gap + rest) == |gap|
  {
    var s := gap + rest;
    forall i | 0 <= i < |gap| ensures IsSpace(s[i]) { assert s[i] == gap[i] && gap[i] in gap; }
    assert s[|gap|] == rest[0];
    LeadingSpacesOf(s, |gap|);
  }

  lemma QuoteIsSolid(c: char)
    requires IsQuote(c)
    ensures !IsSpace(c)
  {
  }

  lemma FoldKeepsLength(a: string, b: string)
    requires Fold(a) == Fold(b)
    ensures |a| == |b|
  {
    assert |Fold(a)| == |a| && |Fold(b)| == |b|;
  }

  lemma CutAt(s: string, a: string, b: string, c: string)
    requires s == a + (b + c)
    ensures s == (a + b) + c && s[|a|..] == b + c && s[|a|..|a| + |b|] == b && s[|a| + |b|..] == c
  {
  }

  lemma SpelledCuts(p: Spelled, rest: string) returns (open: nat, close: nat, brace: nat)
    ensures open == |p.word| + |p.gap| && close == open + 1 + |p.title| && brace == close + 1 + |p.middle|
    ensures var s := p.Text() + rest;
      && |p.Text()| == brace + 1 && |s| > brace
      && s == p.word + s[|p.word|..]
      && s[|p.word|..] == p.gap + s[open..] && s[open] == p.open
      && s[open + 1..] == p.title + s[close..] && s[close] == p.close
      && s[close + 1..] == p.middle + ("{" + rest) && s[open + 1..close] == p.title
  {
    var end := p.middle + ("{" + rest);
    var s := p.Text() + rest;
    var a := p.word + p.gap;
    var b := a + [p.open];
    var c := b + p.title;
    open, close := |a|, |c|;
    brace := close + 1 + |p.middle|;
    AllParts(p, rest);
    hide Spelled.Text;
    CutAt(s, p.word, p.gap, [p.open] + (p.title + ([p.close] + end)));
    CutAt(s, a, [p.open], p.title + ([p.close] + end));
    CutAt(s, b, p.title, [p.close] + end);
    CutAt(s, c, [p.close], end);
  }

  lemma AllParts(p: Spelled, rest: string)
    ensures p.Text() + rest == p.word + (p.gap + ([p.open] + (p.title + ([p.close] + (p.middle + ("{" + rest))))))
    ensures |p.Text()| == |p.word| + |p.gap| + 1 + |p.title| + 1 + |p.middle| + 1
  {
  }

  lemma WordStarts(p: Spelled, s: string)
    requires p.Valid() && |s| >= |p.word| && s == p.word + s[|p.word|..]
    ensures |p.word| == 9 && MatchWord(s, "menuentry")
  {
    FoldKeepsLength(p.word, "menuentry");
    FoldedPrefix(s, "menuentry");
    hide Fold, MatchWord;
    assert s[..9] == p.word;
  }

  lemma GapEnds(p: Spelled, s: string, open: nat)
    requires p.Valid() && 9 <= open < |s| && s[9..] == p.gap + s[open..] && s[open] == p.open
    ensures |p.gap| > 0 && LeadingSpaces(s[9..]) == |p.gap| && IsQuote(s[open])
  {
    QuoteIsSolid(p.open);
    hide IsSpace, Fold, LeadingSpaces, IsQuote;
    LeadingSpacesThen(p.gap, s[open..]);
  }

  lemma TitleEnds(p: Spelled, s: string, open: nat, close: nat)
    requires p.Valid() && open < close < |s| && s[open + 1..] == p.title + s[close..] && s[close] == p.close
    ensures UntilQuote(s[open + 1..]) == |p.title|
  {
    hide IsSpace, Fold, UntilQuote, IsQuote;
    UntilQuoteOf(p.title, s[close..]);
  }

  lemma MiddleEnds(p: Spelled, s: string, close: nat, rest: string)
    requires p.Valid() && close < |s| && s[close + 1..] == p.middle + ("{" + rest)
    ensures UntilChar(s[close + 1..], '{') == |p.middle|
  {
    hide IsSpace, Fold, UntilChar, IsQuote;
    UntilInside(p.middle, rest, '{');
    assert p.middle + ("{" + rest) == p.middle + ['{'] + rest;
  }

  lemma HeaderFrom(s: string, open: nat, close: nat, brace: nat)
    requires MatchWord(s, "menuentry") && 9 < open < close < brace < |s| && IsQuote(s[open])
    requires open == 9 + LeadingSpaces(s[9..]) && close == open + 1 + UntilQuote(s[open + 1..])
    requires brace == close + 1 + UntilChar(s[close + 1..], '{')
    ensures HeaderAt(s, open, close, brace)
  {
    hide MatchWord, LeadingSpaces, UntilQuote, UntilChar, IsQuote;
  }

  lemma SpelledIsMatched(p: Spelled, rest: string)
    requires p.Valid()
    ensures MatchMenu(p.Text() + rest) == Some(Header(p.title, |p.Text()|))
  {
    hide *;
    var s := p.Text() + rest;
    var open, close, brace := SpelledCuts(p, rest);
    WordStarts(p, s);
    GapEnds(p, s, open);
    TitleEnds(p, s, open, close);
    MiddleEnds(p, s, close, rest);
    HeaderFrom(s, open, close, brace);
    HeaderIs(s, open, close, brace);
  }

  lemma MatchedIsSpelled(s: string) returns (p: Spelled, rest: string)
    requires MatchMenu(s).Some?
    ensures p.Valid() && s == p.Text() + rest && MatchMenu(s).value == Header(p.title, |p.Text()|)
  {
    var open, close, brace := HeaderOf(s);
    HeaderBounds(s, open, close, brace);
    HeaderIs(s, open, close, brace);
    FoldedPrefix(s, "menuentry");
    QuoteAt(s, open, close, brace);
    p := Spelled(s[..9], s[9..open], s[open], s[open + 1..close], s[close], s[close + 1..brace]);
    rest := s[brace + 1..];
    hide *;
    SixParts(s, open, close, brace);
  }

  lemma QuoteAt(s: string, open: nat, close: nat, brace: nat)
    requires HeaderAt(s, open, close, brace)
    ensures 9 < open < close < brace < |s|
    ensures AllSpaces(s[9..open]) && IsQuote(s[open]) && NoQuotes(s[open + 1..close]) && IsQuote(s[close])
    ensures '{' !in s[close + 1..brace] && s[brace] == '{'
  {
    hide MatchWord, IsSpace, IsQuote, LeadingSpaces, UntilQuote, UntilChar;
    var gap, title, middle := s[9..open], s[open + 1..close], s[close + 1..brace];
    forall i | 0 <= i < |gap| ensures IsSpace(gap[i]) { assert s[9..][i] == gap[i]; }
    forall i | 0 <= i < |title| ensures !IsQuote(title[i]) { assert s[open + 1..][i] == title[i]; }
    forall i | 0 <= i < |middle| ensures middle[i] != '{' { assert s[close + 1..][i] == middle[i]; }
    assert s[open + 1..][close - open - 1] == s[close] && s[close + 1..][brace - close - 1] == s[brace];
  }

  lemma SixParts(s: string, open: nat, close: nat, brace: nat)
    requires 9 < open < close < brace < |s| && s[brace] == '{'
    ensures var p := Spelled(s[..9], s[9..open], s[open], s[open + 1..close], s[close], s[close + 1..brace]);
      s == p.Text() + s[brace + 1..] && |p.Text()| == brace + 1
  {
    assert s[close + 1..brace + 1] == s[close + 1..brace] + "{";
    assert s[close..brace + 1] == [s[close]] + s[close + 1..brace + 1];
    assert s[open + 1..brace + 1] == s[open + 1..close] + s[close..brace + 1];
    assert s[open..brace + 1] == [s[open]] + s[open + 1..brace + 1];
    assert s[9..brace + 1] == s[9..open] + s[open..brace + 1];
    assert s[..brace + 1] == s[..9] + s[9..brace + 1];
  }

  /** A menu header is matched exactly where one is spelled, with the title between its quotes. */
  lemma HeaderSyntax(s: string, h: Header)
    ensures MatchMenu(s) == Some(h) <==>
      exists p: Spelled, rest :: p.Valid() && s == p.Text() + rest && h == Header(p.title, |p.Text()|)
  {
    hide MatchMenu, Spelled.Valid, Spelled.Text;
    if MatchMenu(s) == Some(h) {
      var p, rest := MatchedIsSpelled(s);
    }
    forall p: Spelled, rest | p.Valid() && s == p.Text() + rest && h == Header(p.title, |p.Text()|)
      ensures MatchMenu(s) == Some(h)
    {
      SpelledIsMatched(p, rest);
    }
  }

  // ----- cutting a configuration into entries -----

  /** No header begins before position `n` of `s`. */
  ghost predicate NoneBefore(s: string, n: nat)
    requires n <= |s|
  {
    forall i :: 0 <= i < n ==> MatchMenu(s[i..]).None?
  }

  /** `c` is `s` cut at its leftmost header, the rest cut in the same way. */
  ghost predicate CutLeftmost(s: string, c: Config) {
    var n := |c.preamble|;
    && n <= |s| && s[..n] == c.preamble && NoneBefore(s, n)
    && (c.entries == [] ==> n == |s|)
    && (c.entries != [] ==>
      && MatchMenu(s[n..]).Some? && MatchMenu(s[n..]).value.title == c.entries[0].title
      && Split(s[n + MatchMenu(s[n..]).value.length..]) == Config(c.entries[0].body, c.entries[1..]))
  }

  lemma NoneBeforeTail(s: string, n: nat)
    requires s != "" && MatchMenu(s).None? && n <= |s| - 1 && NoneBefore(s[1..], n)
    ensures NoneBefore(s, n + 1)
  {
    hide MatchMenu;
    forall i | 0 <= i < n + 1 ensures MatchMenu(s[i..]).None? {
      if i == 0 { assert s[0..] == s; } else { assert s[1..][i - 1..] == s[i..]; }
    }
  }

  lemma TailSlices(s: string, n: nat)
    requires s != "" && n <= |s| - 1
    ensures s[1..][n..] == s[n + 1..] && s[..n + 1] == [s[0]] + s[1..][..n]
  {
  }

  lemma CutLater(s: string, c: Config)
    requires s != "" && MatchMenu(s).None? && CutLeftmost(s[1..], c)
    ensures CutLeftmost(s, Config([s[0]] + c.preamble, c.entries))
  {
    hide MatchMenu, Split, NoneBefore;
    var n := |c.preamble|;
    NoneBeforeTail(s, n);
    TailSlices(s, n);
    if c.entries != [] { TailSlices(s, n + MatchMenu(s[n + 1..]).value.length); }
  }

  lemma CutHere(s: string)
    requires MatchMenu(s).Some?
    ensures CutLeftmost(s, Split(s))
  {
    hide MatchMenu;
    assert s[0..] == s;
  }

  /**
    The entries of a configuration: the text before the leftmost header, then that header's title, and
    what follows cut in the same way; without a header everything is preamble.
   */
  lemma {:induction false} SplitMeaning(s: string)
    ensures CutLeftmost(s, Split(s))
    decreases |s|
  {
    hide MatchMenu, CutLeftmost;
    if s == "" {
      NothingToCut();
    } else if MatchMenu(s).Some? {
      CutHere(s);
    } else {
      SplitMeaning(s[1..]);
      CutLater(s, Split(s[1..]));
    }
  }

  lemma NothingToCut()
    ensures CutLeftmost("", Split(""))
  {
  }

  // ----- directives -----

  lemma MatchedParts(name: string, s: string) returns (lead: string, keyword: string, more: string)
    requires MatchDirective(name, s).Some?
    ensures s == lead + (keyword + more) && GoodKeyword(name, keyword) && forall c :: c in lead ==> IsSpace(c)
    ensures MatchDirective(name, s) == MatchGap(name, lead, keyword, more)
  {
    hide IsSpace, LeadingSpaces, MatchGap;
    var n := LeadingSpaces(s);
    var rest := s[n..];
    var k := KeywordLength(name, rest);
    lead, keyword, more := s[..n], rest[..k], rest[k..];
    hide MatchWord, KeywordLength;
    assert rest == keyword + more && s == lead + rest;
  }

  lemma MatchedText(name: string, s: string) returns (rest: string)
    requires MatchDirective(name, s).Some?
    ensures s == MatchDirective(name, s).value.Text() + rest && (rest == "" || rest[0] == '\n')
  {
    hide *;
    var lead, keyword, more := MatchedParts(name, s);
    rest := GapText(name, lead, keyword, more);
    TextIs(MatchDirective(name, s).value, rest);
  }

  lemma TextIs(d: Directive, rest: string)
    ensures d.Text() + rest == d.lead + (d.keyword + (d.gap + (d.path + (d.args + rest))))
  {
  }

  lemma GapText(name: string, lead: string, keyword: string, more: string) returns (rest: string)
    requires GoodKeyword(name, keyword) && forall c :: c in lead ==> IsSpace(c)
    requires MatchGap(name, lead, keyword, more).Some?
    ensures var d := MatchGap(name, lead, keyword, more).value;
      && d.lead == lead && d.keyword == keyword
      && more == d.gap + (d.path + (d.args + rest)) && (rest == "" || rest[0] == '\n')
  {
    hide IsSpace, LeadingSpaces, TakeNonSpace, RestOfLine, MatchWord, GoodKeyword;
    var g := LeadingSpaces(more);
    var path := TakeNonSpace(more[g..]);
    var tail := more[g + |path|..];
    rest := LineTail(tail);
    PathThenTail(more, g, path);
  }

  lemma PathThenTail(more: string, g: nat, path: string)
    requires g <= |more| && path <= more[g..]
    ensures more == more[..g] + (path + more[g + |path|..])
  {
    assert more[g..] == path + more[g + |path|..];
  }

  lemma LineTail(s: string) returns (rest: string)
    ensures s == RestOfLine(s) + rest && (rest == "" || rest[0] == '\n')
  {
    hide UntilChar;
    rest := s[UntilChar(s, '\n')..];
  }

  /** A line is a directive exactly when it spells one, up to the end of the line. */
  lemma DirectiveSyntax(name: string, s: string, d: Directive)
    requires name == "linux" || name == "initrd"
    ensures MatchDirective(name, s) == Some(d) <==>
      GoodDirective(name, d) && exists rest :: s == d.Text() + rest && (rest == "" || rest[0] == '\n')
  {
    hide MatchDirective, GoodDirective, Directive.Text;
    if MatchDirective(name, s) == Some(d) {
      var rest := MatchedText(name, s);
    }
    if GoodDirective(name, d) {
      forall rest | s == d.Text() + rest && (rest == "" || rest[0] == '\n') ensures MatchDirective(name, s) == Some(d) {
        DirectiveRoundTrip(name, d, rest);
      }
    }
  }

  /** A line of `s` begins at `p`. */
  predicate LineStart(s: string, p: int) {
    0 <= p <= |s| && (p == 0 || s[p - 1] == '\n')
  }

  ghost predicate FirstDirectiveAt(name: string, s: string, d: Directive, p: int) {
    && LineStart(s, p) && MatchDirective(name, s[p..]) == Some(d)
    && forall q :: 0 <= q < p && LineStart(s, q) ==> MatchDirective(name, s[q..]).None?
  }

  lemma {:induction false} FindFrom(name: string, s: string, k: nat)
    requires k <= |s|
    ensures match FindDirective(name, s[k..], LineStart(s, k))
      case Some(d) =>
        exists p :: k <= p <= |s| && LineStart(s, p) && MatchDirective(name, s[p..]) == Some(d)
          && forall q :: k <= q < p && LineStart(s, q) ==> MatchDirective(name, s[q..]).None?
      case None => forall q :: k <= q <= |s| && LineStart(s, q) ==> MatchDirective(name, s[q..]).None?
    decreases |s| - k
  {
    hide MatchDirective, GoodDirective;
    if k < |s| {
      assert s[k..][1..] == s[k + 1..];
      FindFrom(name, s, k + 1);
    }
  }

  /** The directive of an entry is the one on the first line that spells any. */
  lemma FirstDirective(name: string, s: string, d: Directive)
    ensures FindDirective(name, s, true) == Some(d) <==> exists p :: FirstDirectiveAt(name, s, d, p)
    ensures FindDirective(name, s, true).None? <==> forall p :: LineStart(s, p) ==> MatchDirective(name, s[p..]).None?
  {
    hide MatchDirective, GoodDirective, FindDirective;
    assert s[0..] == s;
    FindFrom(name, s, 0);
    match FindDirective(name, s, true)
    case None =>
    case Some(e) =>
      var p :| 0 <= p <= |s| && LineStart(s, p) && MatchDirective(name, s[p..]) == Some(e)
        && forall q :: 0 <= q < p && LineStart(s, q) ==> MatchDirective(name, s[q..]).None?;
      assert FirstDirectiveAt(name, s, e, p);
      if p2 :| FirstDirectiveAt(name, s, d, p2) {
        assert p2 == p;
      }
  }

  // ----- which entry the QA entry is derived from -----

  predicate HasBoth(e: Entry) {
    FindDirective("linux", e.body, true).Some? && FindDirective("initrd", e.body, true).Some?
  }

  /** Entry `k` is the first with both lines. */
  ghost predicate FirstBoth(entries: seq<Entry>, k: int) {
    0 <= k < |entries| && HasBoth(entries[k]) && forall j :: 0 <= j < k ==> !HasBoth(entries[j])
  }

  const QA_HEADER := "menuentry \"" + "Serein Alpha (qa-serial-boot-smoke)" + "\" {"

  /** The QA entry made of the two lines of `e`. */
  ghost predicate MadeFrom(d: Derived, e: Entry) {
    && d.Derived? && FindDirective("linux", e.body, true) == Some(d.kernel)
    && FindDirective("initrd", e.body, true) == Some(d.initrd)
    && Lines(d.text) == [QA_HEADER]
      + Lines(d.kernel.(args := QaArgs(d.kernel.args)).Text()) + Lines(d.initrd.Text()) + ["}", ""]
  }

  lemma HeaderText()
    ensures QA_HEADER == "menuentry \"" + QA_ENTRY_TITLE + "\" {"
  {
  }

  lemma EntryText(kernel: Directive, initrd: Directive)
    ensures Lines(QaEntry(kernel, initrd))
      == [QA_HEADER] + Lines(kernel.(args := QaArgs(kernel.args)).Text()) + Lines(initrd.Text()) + ["}", ""]
  {
    hide *;
    HeaderText();
    EntryLines(kernel.(args := QaArgs(kernel.args)).Text(), initrd.Text());
    EntryIs(QA_HEADER, kernel, initrd);
  }

  lemma EntryIs(title: string, kernel: Directive, initrd: Directive)
    requires title == "menuentry \"" + QA_ENTRY_TITLE + "\" {"
    ensures QaEntry(kernel, initrd)
      == title + "\n" + kernel.(args := QaArgs(kernel.args)).Text() + "\n" + initrd.Text() + "\n}\n"
  {
    hide QaArgs, Directive.Text, QA_ENTRY_TITLE;
    assert title + "\n" == "menuentry \"" + QA_ENTRY_TITLE + "\" {\n";
  }

  lemma {:induction false} DeriveFromFirst(entries: seq<Entry>)
    requires entries != []
    ensures (forall e :: e in entries ==> !HasBoth(e)) ==> DeriveFrom(entries) == NoKernelAndInitrd
    ensures forall k :: FirstBoth(entries, k) ==>
      if Contains(QaArgs(FindDirective("linux", entries[k].body, true).value.args), "autoinstall") then
        DeriveFrom(entries) == Autoinstall
      else MadeFrom(DeriveFrom(entries), entries[k])
    decreases |entries|
  {
    hide FindDirective, QaArgs, QaEntry, Lines, Directive.Text, GoodDirective, Contains;
    if HasBoth(entries[0]) {
      var kernel, initrd := FindDirective("linux", entries[0].body, true),
        FindDirective("initrd", entries[0].body, true);
      EntryText(kernel.value, initrd.value);
      FindIsContains(QaArgs(kernel.value.args), "autoinstall");
      assert forall k :: FirstBoth(entries, k) ==> k == 0;
    } else {
      var rest := entries[1..];
      forall k | FirstBoth(entries, k) ensures FirstBoth(rest, k - 1) && rest[k - 1] == entries[k] {
        forall j | 0 <= j < k - 1 ensures !HasBoth(rest[j]) { assert rest[j] == entries[j + 1]; }
      }
      if rest != [] { DeriveFromFirst(rest); }
    }
  }

  /**
    Where the QA entry comes from: the first entry that has both a kernel and an initrd line.  Without
    entries, without such an entry, or with `autoinstall` in its rewritten arguments, it is refused.
   */
  lemma DeriveMeaning(text: string)
    ensures var (entries, d) := (Split(text).entries, DeriveQaMenuentry(text));
      && (entries == [] ==> d == NoMenuEntry)
      && (entries != [] && (forall e :: e in entries ==> !HasBoth(e)) ==> d == NoKernelAndInitrd)
      && forall k :: FirstBoth(entries, k) ==>
        if Contains(QaArgs(FindDirective("linux", entries[k].body, true).value.args), "autoinstall") then
          d == Autoinstall
        else MadeFrom(d, entries[k])
  {
    hide Split, HasBoth, MadeFrom, DeriveFrom, FindDirective, QaArgs, Contains;
    var entries := Split(text).entries;
    if entries != [] { DeriveFromFirst(entries); }
  }

  lemma {:induction false} SomeFirst(entries: seq<Entry>) returns (k: int)
    requires exists e :: e in entries && HasBoth(e)
    ensures FirstBoth(entries, k)
    decreases |entries|
  {
    hide HasBoth;
    if HasBoth(entries[0]) {
      k := 0;
    } else {
      var rest := entries[1..];
      var e :| e in entries && HasBoth(e);
      assert e in rest;
      var i := SomeFirst(rest);
      k := i + 1;
      forall j | 0 <= j < k ensures !HasBoth(entries[j]) { if j > 0 { assert entries[j] == rest[j - 1]; } }
    }
  }

  /** So a derived entry is made from the first entry with both lines, and its arguments do not say autoinstall. */
  lemma DerivedFrom(text: string) returns (k: int)
    requires DeriveQaMenuentry(text).Derived?
    ensures var (entries, d) := (Split(text).entries, DeriveQaMenuentry(text));
      FirstBoth(entries, k) && MadeFrom(d, entries[k]) && !Contains(QaArgs(d.kernel.args), "autoinstall")
  {
    hide Split, HasBoth, DeriveFrom, FindDirective, QaArgs, Contains, Lines, Directive.Text;
    DeriveMeaning(text);
    k := SomeFirst(Split(text).entries);
  }

  // ----- the autoinstall scan -----

  /** A title marks its entry as one for QA or automation if it contains one of four words, in any case. */
  lemma QaTitles(title: string)
    ensures IsQaTitle(title) <==>
      || Contains(Lower(title), "qa") || Contains(Lower(title), "automation")
      || Contains(Lower(title), "boot-smoke") || Contains(Lower(title), "test")
  {
    hide Find, Lower, Contains;
    FindIsContains(Lower(title), "qa");
    FindIsContains(Lower(title), "automation");
    FindIsContains(Lower(title), "boot-smoke");
    FindIsContains(Lower(title), "test");
    assert QA_MARKERS[0] == "qa" && QA_MARKERS[1] == "automation" && QA_MARKERS[2] == "boot-smoke"
      && QA_MARKERS[3] == "test" && |QA_MARKERS| == 4;
  }

  /** The entry mentions autoinstall and its title is not marked. */
  ghost predicate Reportable(e: Entry) {
    Contains(e.body, "autoinstall") && !IsQaTitle(e.title)
  }

  lemma FlaggedIsReportable(e: Entry)
    ensures Flagged(e) <==> Reportable(e)
  {
    hide Find, IsQaTitle, Contains;
    FindIsContains(e.body, "autoinstall");
  }

  /**
    What the scan reports: for a text without entries, whether it mentions autoinstall at all; else the
    titles of the entries that mention it and are not marked.
   */
  lemma ScanMeaning(text: string)
    ensures Split(text).entries == [] ==> Scan(text) == if Contains(text, "autoinstall") then [NoEntries] else []
    ensures var entries := Split(text).entries; entries != [] ==>
      forall f :: f in Scan(text) <==>
        exists i :: 0 <= i < |entries| && Reportable(entries[i]) && f == OnEntry(entries[i].title)
  {
    hide Split, Find, Reportable, Contains, FlaggedIn, Flagged;
    var entries := Split(text).entries;
    FindIsContains(text, "autoinstall");
    forall e: Entry ensures Flagged(e) <==> Reportable(e) { FlaggedIsReportable(e); }
    forall f: Finding ensures f in FlaggedIn(entries) <==>
      exists i :: 0 <= i < |entries| && Reportable(entries[i]) && f == OnEntry(entries[i].title)
    {
      FlaggedMember(entries, f);
    }
  }

  /** The findings keep the order of the entries. */
  lemma {:induction false} FindingsInOrder(a: seq<Entry>, b: seq<Entry>)
    ensures FlaggedIn(a + b) == FlaggedIn(a) + FlaggedIn(b)
    decreases |b|
  {
    hide Flagged;
    if b == [] {
      assert a + b == a;
    } else {
      assert (a + b)[..|a + b| - 1] == a + b[..|b| - 1];
      FindingsInOrder(a, b[..|b| - 1]);
    }
  }
}
