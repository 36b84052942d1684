/**
  The autoinstall scan of `src/serein/distribution/safety.py`, and how a text whose menu headers
  stand on single lines is cut into entries line by line.
 */
module GrubScan {
  import opened Text
  import opened Grub

  const AUTOINSTALL := "autoinstall"
  const QA_MARKERS: seq<string> := ["qa", "automation", "boot-smoke", "test"]

  datatype Finding = NoEntries | OnEntry(title: string)

  predicate IsQaTitle(title: string) {
    exists i :: 0 <= i < |QA_MARKERS| && Find(Lower(title), QA_MARKERS[i]).Some?
  }

  predicate Flagged(e: Entry) {
    Find(e.body, AUTOINSTALL).Some? && !IsQaTitle(e.title)
  }

  function FlaggedIn(entries: seq<Entry>): seq<Finding> {
    if entries == [] then []
    else
      FlaggedIn(entries[..|entries| - 1]) +
      (if Flagged(entries[|entries| - 1]) then [OnEntry(entries[|entries| - 1].title)] else [])
  }

  function Scan(text: string): seq<Finding> {
    var entries := Split(text).entries;
    if entries == [] then (if Find(text, AUTOINSTALL).Some? then [NoEntries] else []) else FlaggedIn(entries)
  }

  method ScanBootConfigForDefaultAutoinstall(text: string) returns (findings: seq<Finding>)
    ensures findings == Scan(text)
  {
    findings := [];
    var entries := Split(text).entries;
    if entries == [] {
      if Find(text, AUTOINSTALL).Some? {
        findings := findings + [NoEntries];
      }
      return;
    }
    for i := 0 to |entries|
      invariant findings == FlaggedIn(entries[..i])
    {
      assert entries[..i + 1][..i] == entries[..i];
      if Find(entries[i].body, AUTOINSTALL).None? {
        continue;
      }
      if !IsQaTitle(entries[i].title) {
        findings := findings + [OnEntry(entries[i].title)];
      }
    }
    assert entries[..|entries|] == entries;
  }

  // ----- cutting a text line by line -----

  /** Every occurrence of the word menuentry in the line belongs to a complete header of the line. */
  predicate Closed(line: string)
    decreases |line|
  {
    if line == "" then true
    else match MatchMenu(line)
      case Some(h) => Closed(line[h.length..])
      case None => !MatchWord(line, "menuentry") && Closed(line[1..])
  }

  /** The word menuentry does not occur in the line. */
  predicate Plain(line: string)
    decreases |line|
  {
    line == "" || (!MatchWord(line, "menuentry") && Plain(line[1..]))
  }

  function Join(a: Config, b: Config): Config {
    if a.entries == [] then Config(a.preamble + "\n" + b.preamble, b.entries)
    else
      var last := a.entries[|a.entries| - 1];
      Config(a.preamble, a.entries[..|a.entries| - 1] + [Entry(last.title, last.body + "\n" + b.preamble)] + b.entries)
  }

  function SplitAll(lines: seq<string>): Config
    requires lines != []
  {
    if |lines| == 1 then Split(lines[0]) else Join(Split(lines[0]), SplitAll(lines[1..]))
  }

  lemma {:induction false} LeadingSpacesExtend(s: string, x: string)
    requires LeadingSpaces(s) < |s|
    ensures LeadingSpaces(s + x) == LeadingSpaces(s)
    decreases |s|
  {
    assert (s + x)[1..] == s[1..] + x;
    if IsSpace(s[0]) { LeadingSpacesExtend(s[1..], x); }
  }

  lemma {:induction false} UntilQuoteExtend(s: string, x: string)
    requires UntilQuote(s) < |s|
    ensures UntilQuote(s + x) == UntilQuote(s)
    decreases |s|
  {
    assert (s + x)[1..] == s[1..] + x;
    if !IsQuote(s[0]) { UntilQuoteExtend(s[1..], x); }
  }

  lemma {:induction false} UntilCharExtend(s: string, x: string, c: char)
    requires UntilChar(s, c) < |s|
    ensures UntilChar(s + x, c) == UntilChar(s, c)
    decreases |s|
  {
    assert (s + x)[1..] == s[1..] + x;
    if s[0] != c { UntilCharExtend(s[1..], x, c); }
  }

  lemma WordExtends(s: string, x: string)
    requires MatchWord(s, "menuentry")
    ensures MatchWord(s + x, "menuentry")
  {
    assert forall i :: 0 <= i < 9 ==> (s + x)[i] == s[i];
  }

  lemma ExtendedAt(s: string, x: string, i: nat, j: nat)
    requires i <= j <= |s|
    ensures (s + x)[j..] == s[j..] + x && (s + x)[i..j] == s[i..j]
    ensures i < |s| ==> (s + x)[i] == s[i]
  {
  }

  /** The opening quote, the closing quote and the brace of a header at the start of `s`. */
  predicate HeaderAt(s: string, open: nat, close: nat, brace: nat) {
    && MatchWord(s, "menuentry")
    && 9 < open < close < brace < |s|
    && open == 9 + LeadingSpaces(s[9..]) && IsQuote(s[open])
    && close == open + 1 + UntilQuote(s[open + 1..])
    && brace == close + 1 + UntilChar(s[close + 1..], '{')
  }

  lemma HeaderOf(s: string) returns (open: nat, close: nat, brace: nat)
    requires MatchMenu(s).Some?
    ensures HeaderAt(s, open, close, brace)
  {
    hide MatchWord, LeadingSpaces, UntilQuote, UntilChar, IsSpace, IsQuote;
    open := 9 + LeadingSpaces(s[9..]);
    close := open + 1 + UntilQuote(s[open + 1..]);
    brace := close + 1 + UntilChar(s[close + 1..], '{');
  }

  lemma HeaderIs(s: string, open: nat, close: nat, brace: nat)
    requires HeaderAt(s, open, close, brace)
    ensures MatchMenu(s) == Some(Header(s[open + 1..close], brace + 1))
  {
    hide MatchWord, LeadingSpaces, UntilQuote, UntilChar, IsSpace, IsQuote;
  }

  lemma HeaderBounds(s: string, open: nat, close: nat, brace: nat)
    requires HeaderAt(s, open, close, brace)
    ensures 9 < open < close < brace < |s| && MatchWord(s, "menuentry")
    ensures LeadingSpaces(s[9..]) < |s| - 9 && UntilQuote(s[open + 1..]) < |s| - open - 1
      && UntilChar(s[close + 1..], '{') < |s| - close - 1
  {
    hide MatchWord, LeadingSpaces, UntilQuote, UntilChar, IsQuote;
  }

  lemma HeaderMoves(s: string, t: string, open: nat, close: nat, brace: nat)
    requires HeaderAt(s, open, close, brace)
    requires |t| >= |s| && MatchWord(t, "menuentry") && t[open] == s[open]
    requires LeadingSpaces(t[9..]) == LeadingSpaces(s[9..]) && UntilQuote(t[open + 1..]) == UntilQuote(s[open + 1..])
    requires UntilChar(t[close + 1..], '{') == UntilChar(s[close + 1..], '{')
    ensures HeaderAt(t, open, close, brace)
  {
    hide MatchWord, LeadingSpaces, UntilQuote, UntilChar, IsQuote;
  }

  lemma ScansExtend(s: string, x: string, k: nat)
    requires k <= |s|
    ensures LeadingSpaces(s[k..]) < |s| - k ==> LeadingSpaces((s + x)[k..]) == LeadingSpaces(s[k..])
    ensures UntilQuote(s[k..]) < |s| - k ==> UntilQuote((s + x)[k..]) == UntilQuote(s[k..])
    ensures UntilChar(s[k..], '{') < |s| - k ==> UntilChar((s + x)[k..], '{') == UntilChar(s[k..], '{')
  {
    hide *;
    ExtendedAt(s, x, k, k);
    if LeadingSpaces(s[k..]) < |s| - k { LeadingSpacesExtend(s[k..], x); }
    if UntilQuote(s[k..]) < |s| - k { UntilQuoteExtend(s[k..], x); }
    if UntilChar(s[k..], '{') < |s| - k { UntilCharExtend(s[k..], x, '{'); }
  }

  lemma HeaderExtends(s: string, x: string, open: nat, close: nat, brace: nat)
    requires HeaderAt(s, open, close, brace)
    ensures HeaderAt(s + x, open, close, brace)
  {
    hide *;
    HeaderBounds(s, open, close, brace);
    WordExtends(s, x);
    ExtendedAt(s, x, open, open + 1);
    ScansExtend(s, x, 9);
    ScansExtend(s, x, open + 1);
    ScansExtend(s, x, close + 1);
    HeaderMoves(s, s + x, open, close, brace);
  }

  /** A complete header is the same header whatever follows it. */
  lemma MatchMenuExtends(s: string, x: string)
    requires MatchMenu(s).Some?
    ensures MatchMenu(s + x) == MatchMenu(s)
  {
    hide *;
    var open, close, brace := HeaderOf(s);
    HeaderIs(s, open, close, brace);
    HeaderExtends(s, x, open, close, brace);
    HeaderIs(s + x, open, close, brace);
    HeaderBounds(s, open, close, brace);
    ExtendedAt(s, x, open + 1, close);
  }

  lemma NoWordAcross(s: string, x: string)
    requires !MatchWord(s, "menuentry")
    ensures !MatchWord(s + "\n" + x, "menuentry")
  {
    var t := s + "\n" + x;
    if |s| < 9 {
      assert t[|s|] == '\n' && FoldCase('\n') == '\n';
    } else {
      assert forall i :: 0 <= i < 9 ==> t[i] == s[i];
    }
  }

  lemma NoWordIn(s: string)
    requires s == ""
    ensures !MatchWord(s, "menuentry")
  {
  }

  lemma NoMenu(s: string)
    requires !MatchWord(s, "menuentry")
    ensures MatchMenu(s).None?
  {
  }

  lemma JoinCons(title: string, a: Config, b: Config)
    ensures var j := Join(a, b);
      Join(Config("", [Entry(title, a.preamble)] + a.entries), b) == Config("", [Entry(title, j.preamble)] + j.entries)
  {
    var all := [Entry(title, a.preamble)] + a.entries;
    if a.entries == [] {
      assert all[..0] == [];
    } else {
      assert all[..|all| - 1] == [Entry(title, a.preamble)] + a.entries[..|a.entries| - 1];
    }
  }

  lemma JoinPrefix(c: char, a: Config, b: Config)
    ensures var j := Join(a, b);
      Join(Config([c] + a.preamble, a.entries), b) == Config([c] + j.preamble, j.entries)
  {
    assert [c] + a.preamble + "\n" + b.preamble == [c] + (a.preamble + "\n" + b.preamble);
  }

  /** Cutting commutes with joining lines, if the first line is closed. */
  lemma {:induction false} SplitClosed(a: string, b: string)
    requires Closed(a)
    ensures Split(a + "\n" + b) == Join(Split(a), Split(b))
    decreases |a|
  {
    hide MatchMenu, MatchWord, Join;
    var s := a + "\n" + b;
    if a == "" {
      NoWordIn(a);
      NoWordAcross(a, b);
      NoMenu(s);
      assert s[1..] == b;
      assert [s[0]] + Split(b).preamble == "" + "\n" + Split(b).preamble;
      assert Join(Split(a), Split(b))
        == Config("" + "\n" + Split(b).preamble, Split(b).entries) by { JoinEmpty(Split(b)); }
    } else {
      match MatchMenu(a)
      case Some(h) =>
        assert s == a + ("\n" + b);
        MatchMenuExtends(a, "\n" + b);
        SplitClosed(a[h.length..], b);
        assert s[h.length..] == a[h.length..] + "\n" + b;
        JoinCons(h.title, Split(a[h.length..]), Split(b));
      case None =>
        NoWordAcross(a, b);
        NoMenu(s);
        SplitClosed(a[1..], b);
        assert s[1..] == a[1..] + "\n" + b;
        JoinPrefix(a[0], Split(a[1..]), Split(b));
    }
  }

  lemma JoinEmpty(b: Config)
    ensures Join(Config("", []), b) == Config("" + "\n" + b.preamble, b.entries)
  {
  }

  lemma {:induction false} SplitByLines(lines: seq<string>)
    requires lines != [] && forall l :: l in lines ==> Closed(l)
    ensures Split(Unlines(lines)) == SplitAll(lines)
    decreases |lines|
  {
    hide Split, Join, Closed;
    if |lines| > 1 {
      SplitByLines(lines[1..]);
      SplitClosed(lines[0], Unlines(lines[1..]));
    }
  }

  lemma {:induction false} UnlinesOfLines(s: string)
    ensures Unlines(Lines(s)) == s
    decreases |s|
  {
    var n := UntilChar(s, '\n');
    if n < |s| {
      UnlinesOfLines(s[n + 1..]);
      var ls := Lines(s);
      assert ls[0] == s[..n] && ls[1..] == Lines(s[n + 1..]);
      assert s == s[..n] + "\n" + s[n + 1..];
    }
  }

  lemma {:induction false} SplitPlain(line: string)
    requires Plain(line)
    ensures Split(line) == Config(line, []) && Closed(line)
    decreases |line|
  {
    hide MatchMenu, MatchWord;
    if line != "" {
      NoMenu(line);
      SplitPlain(line[1..]);
    }
  }

  lemma FoundInJoin(a: string, b: string, needle: string)
    requires Contains(a, needle) || Contains(b, needle)
    ensures Contains(a + "\n" + b, needle)
  {
    var s, n := a + "\n" + b, |needle|;
    if i :| At(a, i, needle) {
      assert a == s[0..|a|];
      SubSlice(s, 0, |a|, i, i + n);
      assert At(s, i, needle);
    } else if i :| At(b, i, needle) {
      assert b == s[|a| + 1..|s|];
      SubSlice(s, |a| + 1, |s|, i, i + n);
      assert At(s, |a| + 1 + i, needle);
    }
  }

  lemma FoundInPart(a: string, b: string, needle: string, i: nat)
    requires '\n' !in needle && At(a + "\n" + b, i, needle) && needle != ""
    ensures Contains(a, needle) || Contains(b, needle)
  {
    var s, n := a + "\n" + b, |needle|;
    if i + n <= |a| {
      assert a == s[0..|a|];
      SubSlice(s, 0, |a|, i, i + n);
      assert At(a, i, needle);
    } else if i > |a| {
      assert b == s[|a| + 1..|s|];
      SubSlice(s, |a| + 1, |s|, i - |a| - 1, i - |a| - 1 + n);
      assert At(b, i - |a| - 1, needle);
    } else {
      CharInside(s, i, needle, |a|);
    }
  }

  lemma CharInside(s: string, i: nat, needle: string, k: nat)
    requires At(s, i, needle) && i <= k < i + |needle|
    ensures s[k] in needle
  {
    assert s[i..i + |needle|][k - i] == s[k];
  }

  lemma FindIsContains(s: string, needle: string)
    ensures Find(s, needle).Some? <==> Contains(s, needle)
  {
  }

  lemma ContainsJoin(a: string, b: string, needle: string)
    requires needle != "" && '\n' !in needle
    ensures Find(a + "\n" + b, needle).Some? <==> Find(a, needle).Some? || Find(b, needle).Some?
  {
    hide Find, At;
    FindIsContains(a, needle);
    FindIsContains(b, needle);
    FindIsContains(a + "\n" + b, needle);
    if Contains(a + "\n" + b, needle) {
      var i :| At(a + "\n" + b, i, needle);
      AtIsNat(a + "\n" + b, i, needle);
      FoundInPart(a, b, needle, i);
    } else if Contains(a, needle) || Contains(b, needle) {
      FoundInJoin(a, b, needle);
    }
  }

  lemma AtIsNat(s: string, i: int, needle: string)
    requires At(s, i, needle)
    ensures i >= 0
  {
  }

  // ----- the QA entry -----

  ghost predicate NoQuotes(title: string) {
    forall c :: c in title ==> !IsQuote(c)
  }

  lemma {:induction false} UntilQuoteOf(title: string, rest: string)
    requires NoQuotes(title) && rest != "" && IsQuote(rest[0])
    ensures UntilQuote(title + rest) == |title|
    decreases |title|
  {
    if title == "" {
      assert title + rest == rest;
    } else {
      assert (title + rest)[1..] == title[1..] + rest;
      UntilQuoteOf(title[1..], rest);
    }
  }

  lemma TitleLine(title: string)
    requires NoQuotes(title)
    ensures var line := "menuentry \"" + title + "\" {";
      MatchMenu(line) == Some(Header(title, |line|)) && Split(line) == Config("", [Entry(title, "")]) && Closed(line)
  {
    var line := "menuentry \"" + title + "\" {";
    assert LeadingSpaces(line[9..]) == 1 by { assert line[9..][0] == ' ' && line[9..][1..][0] == '"'; }
    UntilQuoteOf(title, "\" {");
    assert UntilChar(" {", '{') == 1 by { assert " {"[1..] == "{"; }
    assert MatchWord(line, "menuentry");
    hide LeadingSpaces, UntilQuote, UntilChar, MatchWord, NoQuotes, MatchMenu;
    var close := 11 + |title|;
    assert line[11..] == title + "\" {" && line[close + 1..] == " {" && line[11..close] == title;
    HeaderIs(line, 10, close, close + 2);
    WholeHeader(line, title);
  }

  lemma WholeHeader(line: string, title: string)
    requires MatchMenu(line) == Some(Header(title, |line|))
    ensures Split(line) == Config("", [Entry(title, "")]) && Closed(line)
  {
    hide MatchMenu;
    assert line[|line|..] == "";
    assert Split("") == Config("", []) && Closed("");
  }

  lemma {:induction false} FlaggedMember(entries: seq<Entry>, f: Finding)
    ensures f in FlaggedIn(entries) <==>
      exists i :: 0 <= i < |entries| && Flagged(entries[i]) && f == OnEntry(entries[i].title)
    decreases |entries|
  {
    hide Flagged;
    if entries != [] {
      var n := |entries| - 1;
      FlaggedMember(entries[..n], f);
      if i :| 0 <= i < |entries| && Flagged(entries[i]) && f == OnEntry(entries[i].title) {
        if i < n { assert entries[..n][i] == entries[i]; }
      }
    }
  }

  lemma QaInTitle(title: string, i: nat)
    requires i + 2 <= |title| && title[i] == 'q' && title[i + 1] == 'a'
    ensures IsQaTitle(title)
  {
    var t := Lower(title);
    assert t[i] == 'q' && t[i + 1] == 'a';
    assert t[i..i + 2] == "qa";
    assert At(t, i, QA_MARKERS[0]);
    hide Lower;
    FindIsContains(t, QA_MARKERS[0]);
  }

  lemma QaTitle()
    ensures IsQaTitle(QA_ENTRY_TITLE) && NoQuotes(QA_ENTRY_TITLE)
  {
    hide IsQaTitle;
    assert QA_ENTRY_TITLE[14] == 'q' && QA_ENTRY_TITLE[15] == 'a';
    QaInTitle(QA_ENTRY_TITLE, 14);
  }
}
