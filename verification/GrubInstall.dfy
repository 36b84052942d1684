/**
  What the patched GRUB configuration looks like, line by line, and how many `set default=` lines
  it has (`install_qa_entry_as_default` of `src/serein/distribution/qa_boot.py`).
 */
module GrubInstall {
  import opened Text
  import opened Grub

  // ----- lines -----

  lemma {:induction false} UntilInside(a: string, b: string, c: char)
    requires c !in a
    ensures UntilChar(a + [c] + b, c) == |a|
    decreases |a|
  {
    if a != "" {
      assert (a + [c] + b)[1..] == a[1..] + [c] + b;
      UntilInside(a[1..], b, c);
    }
  }

  lemma LinesCons(first: string, rest: string)
    requires '\n' !in first
    ensures Lines(first + "\n" + rest) == [first] + Lines(rest)
  {
    var s := first + "\n" + rest;
    UntilInside(first, rest, '\n');
    assert s == first + ['\n'] + rest;
    assert s[..|first|] == first && s[|first| + 1..] == rest;
  }

  lemma {:induction false} LinesJoin(a: string, b: string)
    ensures Lines(a + "\n" + b) == Lines(a) + Lines(b)
    decreases |a|
  {
    hide Lines;
    var n := UntilChar(a, '\n');
    if n == |a| {
      OneLineText(a);
      LinesCons(a, b);
    } else {
      var first, tail := a[..n], a[n + 1..];
      LinesJoin(tail, b);
      LinesCons(first, tail);
      LinesCons(first, tail + "\n" + b);
      assert a == first + "\n" + tail;
      assert a + "\n" + b == first + "\n" + (tail + "\n" + b);
    }
  }

  lemma OneLineText(s: string)
    requires '\n' !in s
    ensures Lines(s) == [s]
  {
  }

  lemma {:induction false} LinesOfUnlines(lines: seq<string>)
    requires lines != [] && forall l :: l in lines ==> '\n' !in l
    ensures Lines(Unlines(lines)) == lines
    decreases |lines|
  {
    OneLineText(lines[0]);
    if |lines| > 1 {
      LinesOfUnlines(lines[1..]);
      LinesJoin(lines[0], Unlines(lines[1..]));
    }
  }

  lemma BlankKeepsLines(lines: seq<string>, prefix: string)
    requires forall l :: l in lines ==> '\n' !in l
    ensures forall l :: l in Blank(lines, prefix) ==> '\n' !in l
  {
    forall l | l in Blank(lines, prefix) ensures '\n' !in l {
      var i :| 0 <= i < |lines| && l == BlankOne(lines[i], prefix);
    }
  }

  lemma LinesOfBlanked(text: string, prefix: string)
    ensures Lines(BlankLines(text, prefix)) == Blank(Lines(text), prefix)
  {
    BlankKeepsLines(Lines(text), prefix);
    LinesOfUnlines(Blank(Lines(text), prefix));
  }

  // ----- how many `set default=` lines -----

  function Defaults(lines: seq<string>): nat {
    if lines == [] then 0 else (if StartsWith(lines[0], DEFAULT) then 1 else 0) + Defaults(lines[1..])
  }

  lemma {:induction false} DefaultsAppend(a: seq<string>, b: seq<string>)
    ensures Defaults(a + b) == Defaults(a) + Defaults(b)
    decreases |a|
  {
    if a == [] {
      assert a + b == b;
    } else {
      assert (a + b)[1..] == a[1..] + b;
      DefaultsAppend(a[1..], b);
    }
  }

  lemma {:induction false} NoDefaults(lines: seq<string>)
    requires forall l :: l in lines ==> !StartsWith(l, DEFAULT)
    ensures Defaults(lines) == 0
    decreases |lines|
  {
    if lines != [] { NoDefaults(lines[1..]); }
  }

  lemma BlankedHasNoDefaults(lines: seq<string>)
    ensures Defaults(Blank(Blank(lines, DEFAULT), TIMEOUT)) == 0
  {
    hide DEFAULT, TIMEOUT;
    var once := Blank(lines, DEFAULT);
    var twice := Blank(once, TIMEOUT);
    assert DEFAULT != "" by { NonEmpty(); }
    forall l | l in twice ensures !StartsWith(l, DEFAULT) {
      var i :| 0 <= i < |twice| && l == twice[i];
      assert twice[i] == BlankOne(once[i], TIMEOUT) && once[i] == BlankOne(lines[i], DEFAULT);
    }
    NoDefaults(twice);
  }

  lemma NonEmpty()
    ensures DEFAULT != "" && DEFAULT[0] == 's' && '\n' !in DEFAULT
  {
  }

  /** No line of `s` starts with the letter s. */
  predicate NoHead(s: string) {
    (s != "" ==> s[0] != 's') && forall i :: 0 <= i < |s| - 1 && s[i] == '\n' ==> s[i + 1] != 's'
  }

  lemma {:induction false} NoHeadNoDefaults(s: string)
    requires NoHead(s)
    ensures Defaults(Lines(s)) == 0
    decreases |s|
  {
    hide DEFAULT;
    NonEmpty();
    var n := UntilChar(s, '\n');
    if n == |s| {
      NoDefaults([s]);
    } else {
      var tail := s[n + 1..];
      assert forall i :: 0 <= i < |tail| ==> tail[i] == s[n + 1 + i];
      NoHeadNoDefaults(tail);
      NoDefaults([s[..n]]);
      DefaultsAppend([s[..n]], Lines(tail));
    }
  }

  /** The path of a directive starts a line of its own and the line reads `set default=`. */
  predicate Spills(d: Directive) {
    d.gap != "" && d.gap[|d.gap| - 1] == '\n' && StartsWith(d.path + d.args, DEFAULT)
  }

  lemma KeywordHead(name: string, d: Directive)
    requires GoodDirective(name, d) && (name == "linux" || name == "initrd")
    ensures d.keyword[0] != 's' && '\n' !in d.keyword && '\n' !in d.path
  {
    assert FoldCase('s') == 's' && FoldCase('\n') == '\n';
    assert IsSpace('\n');
    forall i | 0 <= i < |d.keyword| ensures d.keyword[i] != '\n' {
      if i >= |name| { assert d.keyword[i] == d.keyword[|name|..][i - |name|]; }
    }
  }

  lemma DirectiveDefaults(name: string, d: Directive)
    requires GoodDirective(name, d) && (name == "linux" || name == "initrd")
    ensures Defaults(Lines(d.Text())) == if Spills(d) then 1 else 0
  {
    KeywordHead(name, d);
    assert !IsSpace('s');
    hide MatchWord, DEFAULT, IsSpace;
    NonEmpty();
    var g := |d.gap| - 1;
    var head := d.lead + d.keyword + d.gap;
    var tail := d.path + d.args;
    assert '\n' !in tail;
    if d.gap[g] == '\n' {
      var front := d.lead + d.keyword + d.gap[..g];
      assert d.Text() == front + "\n" + tail;
      HeadsOfSpaces(d, d.gap[..g]);
      LinesJoin(front, tail);
      OneLineText(tail);
      NoHeadNoDefaults(front);
      DefaultsAppend(Lines(front), [tail]);
      assert Defaults([tail]) == if StartsWith(tail, DEFAULT) then 1 else 0;
    } else {
      HeadsOfSpaces(d, d.gap);
      assert d.Text() == head + tail;
      NoHeadExtends(head, tail);
      NoHeadNoDefaults(d.Text());
    }
  }

  lemma HeadsOfSpaces(d: Directive, gap: string)
    requires forall c :: c in d.lead ==> c != 's'
    requires forall c :: c in gap ==> c != 's'
    requires d.keyword != "" && d.keyword[0] != 's' && '\n' !in d.keyword
    ensures NoHead(d.lead + d.keyword + gap)
  {
    var s := d.lead + d.keyword + gap;
    var k, g := |d.lead|, |d.lead| + |d.keyword|;
    forall i | 0 <= i < |s| && (i <= k || i >= g) ensures s[i] != 's' {
      if i < k { assert s[i] == d.lead[i] && d.lead[i] in d.lead; }
      if i == k { assert s[i] == d.keyword[0]; }
      if i >= g { assert s[i] == gap[i - g] && gap[i - g] in gap; }
    }
    forall i | k <= i < g ensures s[i] != '\n' {
      assert s[i] == d.keyword[i - k];
    }
  }

  lemma NoHeadExtends(head: string, tail: string)
    requires NoHead(head) && head != "" && head[|head| - 1] != '\n' && '\n' !in tail
    ensures NoHead(head + tail)
  {
  }

  lemma EntryLines(kernel: string, initrd: string)
    ensures var title := "menuentry \"" + QA_ENTRY_TITLE + "\" {";
      Lines(title + "\n" + kernel + "\n" + initrd + "\n}\n") == [title] + Lines(kernel) + Lines(initrd) + ["}", ""]
  {
    var title := "menuentry \"" + QA_ENTRY_TITLE + "\" {";
    assert '\n' !in title;
    hide QA_ENTRY_TITLE, Lines;
    OneLineText(title);
    EntryLinesOf(title, kernel, initrd);
  }

  lemma EntryLinesOf(title: string, kernel: string, initrd: string)
    requires Lines(title) == [title]
    ensures Lines(title + "\n" + kernel + "\n" + initrd + "\n}\n")
      == [title] + Lines(kernel) + Lines(initrd) + ["}", ""]
  {
    hide Lines;
    OneLineText("}");
    OneLineText("");
    var two := title + "\n" + kernel;
    var three := two + "\n" + initrd;
    LinesJoin(title, kernel);
    LinesJoin(two, initrd);
    LinesJoin(three, "}");
    LinesJoin(three + "\n" + "}", "");
    assert three + "\n" + "}" + "\n" + "" == three + "\n}\n";
    assert Lines(three) + ["}"] + [""] == Lines(three) + ["}", ""];
  }

  lemma PatchedLines(text: string, entry: string)
    ensures Lines(InstallQaEntry(text, entry)) ==
      ["set default=\"0\"", "set timeout=1", ""] + Lines(entry) + Blank(Blank(Lines(text), DEFAULT), TIMEOUT)
  {
    hide Lines, DEFAULT, TIMEOUT, Blank;
    var rest := entry + "\n" + BlankLines(BlankLines(text, DEFAULT), TIMEOUT);
    var prelude := "set default=\"0\"\nset timeout=1\n\n";
    var a, b := "set default=\"0\"", "set timeout=1";
    assert prelude == a + "\n" + b + "\n" + "" + "\n";
    assert InstallQaEntry(text, entry) == prelude + rest == a + "\n" + (b + "\n" + ("" + "\n" + rest));
    OneLineText(a);
    OneLineText(b);
    OneLineText("");
    LinesJoin("", rest);
    LinesJoin(b, "" + "\n" + rest);
    LinesJoin(a, b + "\n" + ("" + "\n" + rest));
    LinesJoin(entry, BlankLines(BlankLines(text, DEFAULT), TIMEOUT));
    LinesOfBlanked(BlankLines(text, DEFAULT), TIMEOUT);
    LinesOfBlanked(text, DEFAULT);
  }

  lemma {:induction false} RemoveQuietChars(s: string, afterSpace: bool)
    ensures forall c :: c in RemoveQuiet(s, afterSpace) ==> c in s
    decreases |s|
  {
    hide IsSpace, LeadingSpaces;
    if s != "" {
      RemoveQuietChars(s[1..], IsSpace(s[0]));
      if afterSpace && QuietHere(s) { RemoveQuietChars(s[5 + LeadingSpaces(s[5..])..], true); }
    }
  }

  lemma RemoveQuietStart(s: string)
    requires s == "" || IsSpace(s[0])
    ensures var r := RemoveQuiet(s, true); r == "" || IsSpace(r[0])
  {
    if s != "" { SpaceIsNotQuiet(s); }
  }

  /** The rewritten arguments are still one line that is set off from the path. */
  lemma QaArgsStayGood(d: Directive)
    requires GoodDirective("linux", d)
    ensures GoodDirective("linux", d.(args := QaArgs(d.args)))
  {
    RemoveQuietChars(d.args, true);
    RemoveQuietStart(d.args);
    hide RemoveQuiet;
    var stripped := RemoveQuiet(d.args, true);
    assert '\n' !in SERIAL;
    hide SERIAL, MatchWord;
    AddSerialStaysGood(stripped, SERIAL);
  }

  lemma AddSerialStaysGood(args: string, token: string)
    requires '\n' !in args && '\n' !in token && (args == "" || IsSpace(args[0]))
    ensures var r := AddSerialConsole(args, token); '\n' !in r && (r == "" || IsSpace(r[0]))
  {
  }

  /** How many column-0 `set default=` lines the patched configuration has, whatever the original had. */
  lemma DefaultCount(text: string, kernel: Directive, initrd: Directive)
    requires GoodDirective("linux", kernel) && GoodDirective("initrd", initrd)
    ensures Defaults(Lines(InstallQaEntry(text, QaEntry(kernel, initrd)))) == 1
      + (if Spills(kernel.(args := QaArgs(kernel.args))) then 1 else 0) + (if Spills(initrd) then 1 else 0)
  {
    QaArgsStayGood(kernel);
    hide QaArgs, Lines, GoodDirective, Blank, Spills, Directive.Text;
    var lines := Lines(text);
    PatchedLines(text, QaEntry(kernel, initrd));
    BlankedHasNoDefaults(lines);
    EntryDefaults(kernel, initrd);
    var top := ["set default=\"0\"", "set timeout=1", ""];
    DefaultsAppend(top + Lines(QaEntry(kernel, initrd)), Blank(Blank(lines, DEFAULT), TIMEOUT));
    DefaultsAppend(top, Lines(QaEntry(kernel, initrd)));
    TopDefaults();
  }

  /**
    The patched configuration has exactly one column-0 `set default=` line, whatever the original
    had, if and only if neither derived directive puts its path on a line of its own that reads
    `set default=`.
   */
  lemma ExactlyOneDefault(text: string)
    requires DeriveQaMenuentry(text).Derived?
    ensures var d := DeriveQaMenuentry(text);
      Defaults(Lines(InstallQaEntry(text, d.text))) == 1 <==>
        !Spills(d.kernel.(args := QaArgs(d.kernel.args))) && !Spills(d.initrd)
  {
    hide QaArgs, Lines, GoodDirective, Spills, QaEntry, InstallQaEntry, Defaults;
    var d := DeriveQaMenuentry(text);
    DefaultCount(text, d.kernel, d.initrd);
  }

  lemma TopDefaults()
    ensures Defaults(["set default=\"0\"", "set timeout=1", ""]) == 1
  {
    var top := ["set default=\"0\"", "set timeout=1", ""];
    assert "set default=\"0\""[..12] == DEFAULT;
    assert "set timeout=1"[4] != DEFAULT[4];
    NoDefaults(["set timeout=1", ""]);
    assert top[1..] == ["set timeout=1", ""];
  }

  lemma EntryDefaults(kernel: Directive, initrd: Directive)
    requires GoodDirective("linux", kernel.(args := QaArgs(kernel.args))) && GoodDirective("initrd", initrd)
    ensures Defaults(Lines(QaEntry(kernel, initrd))) ==
      (if Spills(kernel.(args := QaArgs(kernel.args))) then 1 else 0) + if Spills(initrd) then 1 else 0
  {
    hide QaArgs, Lines, GoodDirective, Spills, Directive.Text, QA_ENTRY_TITLE, DEFAULT;
    var qaKernel := kernel.(args := QaArgs(kernel.args));
    var title := "menuentry \"" + QA_ENTRY_TITLE + "\" {";
    EntryLines(qaKernel.Text(), initrd.Text());
    assert QaEntry(kernel, initrd) == title + "\n" + qaKernel.Text() + "\n" + initrd.Text() + "\n}\n";
    DirectiveDefaults("linux", qaKernel);
    DirectiveDefaults("initrd", initrd);
    NonEmpty();
    NoDefaults([title]);
    NoDefaults(["}", ""]);
    DefaultsAppend([title] + Lines(qaKernel.Text()) + Lines(initrd.Text()), ["}", ""]);
    DefaultsAppend([title] + Lines(qaKernel.Text()), Lines(initrd.Text()));
    DefaultsAppend([title], Lines(qaKernel.Text()));
  }

  // ----- directives are read back as they are written -----

  lemma SolidHead(name: string, s: string)
    requires (name == "linux" || name == "initrd") && MatchWord(s, name)
    ensures !IsSpace(s[0])
  {
    assert FoldCase(s[0]) == FoldCase(name[0]);
  }

  lemma LeadThen(lead: string, rest: string)
    requires (forall c :: c in lead ==> IsSpace(c)) && rest != "" && !IsSpace(rest[0])
    ensures LeadingSpaces(lead + rest) == |lead| && (lead + rest)[|lead|..] == rest
  {
    var s := lead + rest;
    forall i | 0 <= i < |lead| ensures IsSpace(s[i]) { assert s[i] == lead[i] && lead[i] in lead; }
    LeadingSpacesOf(s, |lead|);
  }

  lemma KeywordEnds(name: string, keyword: string, more: string)
    requires GoodKeyword(name, keyword) && more != "" && IsSpace(more[0])
    ensures MatchWord(keyword + more, name) && KeywordLength(name, keyword + more) == |keyword|
  {
    var s := keyword + more;
    var t := s[|name|..];
    assert forall i :: 0 <= i < |keyword| ==> s[i] == keyword[i];
    if |keyword| == |name| {
      assert t == more;
      assert !IsSpace('e') && !IsSpace('E');
      assert FoldCase(t[0]) != 'e';
    } else {
      assert forall i :: 0 <= i < 3 ==> t[i] == keyword[|name|..][i];
    }
  }

  lemma ArgsEnd(args: string, rest: string)
    requires '\n' !in args && (rest == "" || rest[0] == '\n')
    ensures RestOfLine(args + rest) == args
  {
    if rest == "" {
      assert args + rest == args;
      WholeLine(args);
    } else {
      UntilInside(args, rest[1..], '\n');
      assert args + rest == args + ['\n'] + rest[1..];
      assert (args + rest)[..|args|] == args;
    }
  }

  lemma WholeLine(args: string)
    requires '\n' !in args
    ensures RestOfLine(args) == args
  {
  }

  lemma GapParts(name: string, d: Directive, e: string)
    requires GoodDirective(name, d)
    requires LeadingSpaces(d.gap + (d.path + e)) == |d.gap| && TakeNonSpace(d.path + e) == d.path
      && RestOfLine(e) == d.args
    ensures MatchGap(name, d.lead, d.keyword, d.gap + (d.path + e)) == Some(d)
  {
    hide GoodKeyword, IsSpace, LeadingSpaces, TakeNonSpace, RestOfLine;
    var more := d.gap + (d.path + e);
    assert more[..|d.gap|] == d.gap && more[|d.gap|..] == d.path + e && more[|d.gap| + |d.path|..] == e;
  }

  lemma PathHead(name: string, d: Directive, e: string)
    requires GoodDirective(name, d)
    ensures var tail := d.path + e; tail != "" && !IsSpace(tail[0])
  {
    assert d.path[0] in d.path;
  }

  lemma ArgsHead(d: Directive, rest: string)
    requires (d.args == "" || IsSpace(d.args[0])) && (rest == "" || rest[0] == '\n')
    ensures var e := d.args + rest; e == "" || IsSpace(e[0])
  {
    assert IsSpace('\n');
  }

  lemma GapRoundTrip(name: string, d: Directive, rest: string)
    requires GoodDirective(name, d)
    requires rest == "" || rest[0] == '\n'
    ensures MatchGap(name, d.lead, d.keyword, d.gap + (d.path + (d.args + rest))) == Some(d)
  {
    hide IsSpace, LeadingSpaces, TakeNonSpace, RestOfLine, MatchGap;
    var e := d.args + rest;
    PathHead(name, d, e);
    ArgsHead(d, rest);
    LeadThen(d.gap, d.path + e);
    TakeNonSpaceOf(d.path, e);
    ArgsEnd(d.args, rest);
    GapParts(name, d, e);
  }

  lemma KeywordRoundTrip(name: string, d: Directive, more: string)
    requires GoodDirective(name, d) && more != "" && IsSpace(more[0])
    requires MatchGap(name, d.lead, d.keyword, more) == Some(d)
    ensures MatchWord(d.keyword + more, name) && MatchKeyword(name, d.lead, d.keyword + more) == Some(d)
  {
    KeywordEnds(name, d.keyword, more);
    hide GoodKeyword, IsSpace, MatchWord, KeywordLength, MatchGap;
    var body := d.keyword + more;
    assert body[..|d.keyword|] == d.keyword && body[|d.keyword|..] == more;
  }

  lemma LeadRoundTrip(name: string, d: Directive, body: string)
    requires GoodDirective(name, d) && body != "" && !IsSpace(body[0])
    requires MatchWord(body, name) && MatchKeyword(name, d.lead, body) == Some(d)
    ensures MatchDirective(name, d.lead + body) == Some(d)
  {
    LeadThen(d.lead, body);
    hide GoodDirective, IsSpace, MatchWord, LeadingSpaces, MatchKeyword;
    assert (d.lead + body)[..|d.lead|] == d.lead;
  }

  lemma TextParts(d: Directive, rest: string)
    ensures d.Text() + rest == d.lead + (d.keyword + (d.gap + (d.path + (d.args + rest))))
  {
  }

  lemma KeywordHeads(name: string, d: Directive)
    requires GoodDirective(name, d) && (name == "linux" || name == "initrd")
    ensures d.keyword != "" && !IsSpace(d.keyword[0]) && d.gap != "" && IsSpace(d.gap[0])
  {
    SolidHead(name, d.keyword);
    assert d.gap[0] in d.gap;
  }

  /** Every directive, written out and followed by a line end, is matched as itself. */
  lemma DirectiveRoundTrip(name: string, d: Directive, rest: string)
    requires GoodDirective(name, d) && (name == "linux" || name == "initrd")
    requires rest == "" || rest[0] == '\n'
    ensures MatchDirective(name, d.Text() + rest) == Some(d)
  {
    hide *;
    var more := d.gap + (d.path + (d.args + rest));
    KeywordHeads(name, d);
    GapRoundTrip(name, d, rest);
    KeywordRoundTrip(name, d, more);
    LeadRoundTrip(name, d, d.keyword + more);
    TextParts(d, rest);
  }
}
