/**
  Two whole configurations at which the QA rewrite does less than it sets out to do.
 */
module GrubLimits {
  import opened Text
  import opened Grub
  import opened GrubInstall
  import opened GrubScan
  import opened GrubPlain
  import opened GrubPatch

  // ----- deriving from a first entry -----

  /** A header and what follows it are cut into that entry and the entries after it. */
  lemma FirstEntry(title: string, body: string)
    requires NoQuotes(title)
    ensures Split(TitleOf(title) + body) == Config("", [Entry(title, Split(body).preamble)] + Split(body).entries)
  {
    hide MatchMenu, NoQuotes;
    var line := TitleOf(title);
    TitleLine(title);
    MatchMenuExtends(line, body);
    assert (line + body)[|line|..] == body;
  }

  lemma {:induction false} SkipToNext(name: string, line: string, rest: string)
    requires '\n' !in line
    ensures FindDirective(name, line + "\n" + rest, false) == FindDirective(name, rest, true)
    decreases |line|
  {
    hide MatchDirective, GoodDirective;
    var s := line + "\n" + rest;
    if line == "" {
      assert s[1..] == rest;
    } else {
      assert s[1..] == line[1..] + "\n" + rest && s[0] == line[0] && line[0] in line;
      SkipToNext(name, line[1..], rest);
    }
  }

  lemma NoMatchHere(name: string, s: string, n: nat)
    requires name != "" && n < |s| && (forall i :: 0 <= i < n ==> IsSpace(s[i])) && !IsSpace(s[n])
      && FoldCase(s[n]) != FoldCase(name[0])
    ensures MatchDirective(name, s).None?
  {
    hide IsSpace;
    LeadingIs(s, n);
  }

  lemma {:induction false} LeadingIs(s: string, n: nat)
    requires n < |s| && (forall i :: 0 <= i < n ==> IsSpace(s[i])) && !IsSpace(s[n])
    ensures LeadingSpaces(s) == n
    decreases n
  {
    hide IsSpace;
    if n > 0 { LeadingIs(s[1..], n - 1); }
  }

  /** A line that starts with another letter than `name` is passed over. */
  lemma SkipLine(name: string, line: string, rest: string)
    requires name != "" && line != "" && '\n' !in line && !IsSpace(line[0]) && FoldCase(line[0]) != FoldCase(name[0])
    ensures FindDirective(name, line + "\n" + rest, true) == FindDirective(name, rest, true)
  {
    hide MatchDirective, GoodDirective, IsSpace;
    var s := line + "\n" + rest;
    NoMatchHere(name, s, 0);
    assert s[1..] == line[1..] + "\n" + rest && s[0] == line[0] && line[0] in line;
    SkipToNext(name, line[1..], rest);
  }

  /** An empty line before a line that starts with another letter. */
  lemma SkipEmpty(name: string, rest: string)
    requires name != "" && rest != "" && !IsSpace(rest[0]) && FoldCase(rest[0]) != FoldCase(name[0])
    ensures FindDirective(name, "\n" + rest, true) == FindDirective(name, rest, true)
  {
    assert IsSpace('\n');
    hide MatchDirective, GoodDirective, IsSpace;
    NoMatchHere(name, "\n" + rest, 1);
    assert ("\n" + rest)[1..] == rest;
  }

  lemma FoundAtStart(name: string, d: Directive, rest: string)
    requires GoodDirective(name, d) && (name == "linux" || name == "initrd")
    requires rest == "" || rest[0] == '\n'
    ensures FindDirective(name, d.Text() + rest, true) == Some(d)
  {
    hide MatchDirective, GoodDirective, Directive.Text;
    DirectiveRoundTrip(name, d, rest);
  }

  lemma MissingLetter(s: string, needle: string, k: nat)
    requires k < |needle| && needle[k] !in s
    ensures Find(s, needle).None?
  {
    forall i ensures !At(s, i, needle) {
      if At(s, i, needle) { CharAt(s, i, needle, k); }
    }
  }

  lemma NoAutoinstall(args: string)
    requires 'i' !in args
    ensures Find(QaArgs(args), AUTOINSTALL).None?
  {
    assert 'i' !in SERIAL && AUTOINSTALL[4] == 'i';
    RemoveQuietChars(args, true);
    hide RemoveQuiet, SERIAL, AddSerialConsole, Find, AUTOINSTALL;
    NoLetterAdded(RemoveQuiet(args, true), SERIAL, 'i');
    MissingLetter(QaArgs(args), AUTOINSTALL, 4);
  }

  lemma NoLetterAdded(args: string, token: string, c: char)
    requires c !in args && c !in token && c != ' '
    ensures c !in AddSerialConsole(args, token)
  {
  }

  lemma CharAt(s: string, i: nat, needle: string, k: nat)
    requires At(s, i, needle) && k < |needle|
    ensures needle[k] in s
  {
    assert s[i..i + |needle|][k] == s[i + k];
  }

  /** The first entry of a text derives, if its two lines are found and bring no autoinstall. */
  lemma FirstDerives(title: string, body: string, kernel: Directive, initrd: Directive)
    requires NoQuotes(title) && 'i' !in kernel.args
    requires FindDirective("linux", Split(body).preamble, true) == Some(kernel)
    requires FindDirective("initrd", Split(body).preamble, true) == Some(initrd)
    ensures GoodDirective("linux", kernel) && GoodDirective("initrd", initrd)
    ensures DeriveQaMenuentry(TitleOf(title) + body) == Derived(QaEntry(kernel, initrd), kernel, initrd)
  {
    hide NoQuotes, Split, QaArgs, QaEntry, GoodDirective, FindDirective, Find;
    FirstEntry(title, body);
    NoAutoinstall(kernel.args);
    assert AUTOINSTALL == "autoinstall";
  }

  const INITRD := Directive("", "initrd", " ", "/i", "")

  lemma InitrdIsGood()
    ensures GoodDirective("initrd", INITRD) && INITRD.Text() == "initrd /i"
  {
  }

  // ----- a second default -----

  const SPILLING := Directive("\n", "linux", "\n", "set", " default=0")

  lemma SpillingIsGood()
    ensures GoodDirective("linux", SPILLING)
    ensures SPILLING.Text() == "\n" + ("linux" + "\n" + "set default=0")
  {
    KeywordItself("linux");
    hide GoodKeyword;
    assert "set" + " default=0" == "set default=0";
  }

  lemma SpillingArgs()
    ensures '-' !in SPILLING.args && 'i' !in SPILLING.args && 'q' !in SPILLING.args
    ensures RStrip(SPILLING.args) == SPILLING.args
  {
    var args := SPILLING.args;
    assert args[|args| - 1] == '0' && !IsSpace('0');
  }

  lemma SpillingReads()
    ensures SPILLING.path + SPILLING.args == DEFAULT + "0"
  {
  }

  lemma KeywordItself(name: string)
    ensures GoodKeyword(name, name)
  {
  }

  lemma {:induction false} NoQuietIn(s: string, afterSpace: bool)
    requires 'q' !in s
    ensures RemoveQuiet(s, afterSpace) == s
    decreases |s|
  {
    hide IsSpace, LeadingSpaces;
    if s != "" {
      assert s[0] != "quiet"[0];
      NoQuietIn(s[1..], IsSpace(s[0]));
    }
  }

  lemma NoDash(args: string)
    requires '-' !in args
    ensures Find(args, "---").None?
  {
    forall i ensures !At(args, i, "---") {
      if 0 <= i <= |args| - 3 { assert args[i..i + 3][0] == args[i]; }
    }
  }

  lemma ArgsKept(args: string)
    requires '-' !in args && RStrip(args) == args && RemoveQuiet(args, true) == args
    ensures args <= QaArgs(args)
  {
    hide RStrip, RemoveQuiet, SERIAL;
    NoDash(args);
  }

  lemma SpillingSpills()
    ensures Spills(SPILLING.(args := QaArgs(SPILLING.args)))
  {
    SpillingArgs();
    SpillingReads();
    assert SPILLING.gap == "\n";
    hide RStrip, RemoveQuiet, DEFAULT, QaArgs;
    NoQuietIn(SPILLING.args, true);
    ArgsKept(SPILLING.args);
    assert DEFAULT <= SPILLING.path + SPILLING.args <= SPILLING.path + QaArgs(SPILLING.args);
  }

  lemma InitrdStays()
    ensures !Spills(INITRD)
  {
  }

  /** A line an initrd line cannot be: not empty, and starting with another letter. */
  predicate IsOther(line: string) {
    line != "" && '\n' !in line && !IsSpace(line[0]) && FoldCase(line[0]) != 'i'
  }

  lemma Regroup(first: string, second: string, last: string)
    ensures "\n" + (first + "\n" + second) + ("\n" + last) == "\n" + (first + "\n" + (second + "\n" + last))
  {
  }

  lemma SkipOther(line: string, rest: string)
    requires IsOther(line)
    ensures FindDirective("initrd", line + "\n" + rest, true) == FindDirective("initrd", rest, true)
    ensures FindDirective("initrd", "\n" + (line + "\n" + rest), true) == FindDirective("initrd", rest, true)
  {
    assert FoldCase("initrd"[0]) == 'i';
    hide GoodDirective, FindDirective, IsSpace, FoldCase;
    SkipLine("initrd", line, rest);
    var s := line + "\n" + rest;
    assert s[0] == line[0];
    SkipEmpty("initrd", s);
  }

  lemma TwoLineKernel(kernel: Directive, initrd: Directive, first: string, second: string, tail: string)
    requires GoodDirective("linux", kernel) && GoodDirective("initrd", initrd)
    requires kernel.Text() == "\n" + (first + "\n" + second) && IsOther(first) && IsOther(second)
    requires tail == "" || tail[0] == '\n'
    ensures var body := kernel.Text() + ("\n" + (initrd.Text() + tail));
      FindDirective("linux", body, true) == Some(kernel) && FindDirective("initrd", body, true) == Some(initrd)
  {
    hide *;
    var last := initrd.Text() + tail;
    FoundAtStart("linux", kernel, "\n" + last);
    Regroup(first, second, last);
    SkipOther(first, second + "\n" + last);
    SkipOther(second, last);
    FoundAtStart("initrd", initrd, tail);
  }

  lemma OtherLines()
    ensures IsOther("linux") && IsOther("set default=0")
  {
  }

  lemma SpillingText()
    ensures TitleOf("x") + (SPILLING.Text() + ("\n" + (INITRD.Text() + "\n}")))
      == "menuentry \"x\" {\nlinux\nset default=0\ninitrd /i\n}"
    ensures NoQuotes("x")
  {
    hide DEFAULT;
  }

  lemma PlainPieces()
    ensures Plain("") && Plain("linux") && Plain("set default=0") && Plain("initrd /i") && Plain("}")
  {
    hide Plain;
    PlainWithoutY("");
    PlainWithoutY("linux");
    PlainWithoutY("set default=0");
    PlainWithoutY("initrd /i");
    PlainWithoutY("}");
  }

  /** The entry holds no menu header. */
  lemma SpillingIsPlain()
    ensures Plain(SPILLING.Text() + ("\n" + (INITRD.Text() + "\n}")))
  {
    hide *;
    SpillingIsGood();
    InitrdIsGood();
    NewlineBrace();
    PlainPieces();
    TwoLines("linux", "set default=0", INITRD.Text(), "}");
  }

  lemma TwoLines(first: string, second: string, third: string, last: string)
    requires Plain("") && Plain(first) && Plain(second) && Plain(third) && Plain(last)
    ensures Plain("\n" + (first + "\n" + second) + ("\n" + (third + ("\n" + last))))
  {
    hide Plain;
    PlainLines(first, second);
    PlainLines("", first + "\n" + second);
    assert "" + "\n" + (first + "\n" + second) == "\n" + (first + "\n" + second);
    PlainLines(third, last);
    PlainLines("\n" + (first + "\n" + second), third + "\n" + last);
    assert third + ("\n" + last) == third + "\n" + last;
    var x := "\n" + (first + "\n" + second);
    assert x + ("\n" + (third + ("\n" + last))) == x + "\n" + (third + "\n" + last);
  }

  /**
    A configuration whose derived entry brings a second column-0 `set default=` line: the white
    space between `linux` and its path is a line end, and the path line reads `set default=`.
   */
  lemma SecondDefault() returns (text: string)
    ensures text == "menuentry \"x\" {\nlinux\nset default=0\ninitrd /i\n}"
    ensures DeriveQaMenuentry(text).Derived?
    ensures Defaults(Lines(InstallQaEntry(text, DeriveQaMenuentry(text).text))) == 2
  {
    hide *;
    SpillingText();
    SpillingIsGood();
    SpillingArgs();
    InitrdIsGood();
    OtherLines();
    SpillingIsPlain();
    NewlineBrace();
    text := SpillingDefaults("x", "\n}");
  }

  lemma NewlineBrace()
    ensures "\n}" == "\n" + "}" && "\n}"[0] == '\n'
  {
  }

  lemma SpillingDefaults(title: string, tail: string) returns (text: string)
    requires NoQuotes(title) && (tail == "" || tail[0] == '\n')
    requires Plain(SPILLING.Text() + ("\n" + (INITRD.Text() + tail)))
    ensures text == TitleOf(title) + (SPILLING.Text() + ("\n" + (INITRD.Text() + tail)))
    ensures DeriveQaMenuentry(text).Derived?
    ensures Defaults(Lines(InstallQaEntry(text, DeriveQaMenuentry(text).text))) == 2
  {
    hide *;
    var body := SPILLING.Text() + ("\n" + (INITRD.Text() + tail));
    text := TitleOf(title) + body;
    SpillingIsGood();
    SpillingArgs();
    InitrdIsGood();
    OtherLines();
    TwoLineKernel(SPILLING, INITRD, "linux", "set default=0", tail);
    SplitPlain(body);
    FirstDerives(title, body, SPILLING, INITRD);
    DefaultCount(text, SPILLING, INITRD);
    SpillingSpills();
    InitrdStays();
  }

  // ----- an entry that takes over an autoinstall line -----

  lemma OtherLetter(s: string)
    requires s != "" && s[0] != 'm' && s[0] != 'M'
    ensures !MatchWord(s, "menuentry")
  {
    assert "menuentry"[0] == 'm';
  }

  lemma OneCharacter(s: string)
    requires s != "" && !MatchWord(s, "menuentry")
    ensures Closed(s) <==> Closed(s[1..])
    ensures Split(s) == Config([s[0]] + Split(s[1..]).preamble, Split(s[1..]).entries)
  {
    hide MatchWord, MatchMenu;
    NoMenu(s);
  }

  lemma {:induction false} AfterPlain(p: string, line: string)
    requires 'm' !in p && 'M' !in p && Closed(line)
    ensures Closed(p + line) && Split(p + line) == Config(p + Split(line).preamble, Split(line).entries)
    decreases |p|
  {
    hide *;
    if p == "" {
      assert p + line == line;
      assert p + Split(line).preamble == Split(line).preamble;
    } else {
      var s := p + line;
      assert s[1..] == p[1..] + line && s[0] == p[0] && p[0] in p;
      OtherLetter(s);
      OneCharacter(s);
      AfterPlain(p[1..], line);
      assert [p[0]] + (p[1..] + Split(line).preamble) == p + Split(line).preamble;
    }
  }

  /** Five lines: a header, three lines of which the last opens another entry, and a last line. */
  lemma FiveLines(head: string, a: string, b: string, c: string, d: string, x: string, y: string, p: string)
    requires Split(head) == Config("", [Entry(x, "")]) && Split(a) == Config(a, []) && Split(b) == Config(b, [])
    requires Split(c) == Config(p, [Entry(y, "")]) && Split(d) == Config(d, [])
    ensures SplitAll([head, a, b, c, d]).entries
      == [Entry(x, "" + "\n" + (a + "\n" + (b + "\n" + p))), Entry(y, "" + "\n" + d)]
  {
    hide Split;
    assert [c, d][1..] == [d] && [b, c, d][1..] == [c, d] && [a, b, c, d][1..] == [b, c, d]
      && [head, a, b, c, d][1..] == [a, b, c, d];
    assert SplitAll([d]) == Config(d, []);
    assert [Entry(y, "")][..0] == [] && [Entry(x, "")][..0] == [];
    assert SplitAll([c, d]) == Config(p, [Entry(y, "" + "\n" + d)]);
    assert SplitAll([b, c, d]) == Config(b + "\n" + p, [Entry(y, "" + "\n" + d)]);
  }

  const KERNEL := Directive("\n", "linux", " ", "/k", "")

  lemma KernelIsGood()
    ensures GoodDirective("linux", KERNEL) && KERNEL.Text() == "\n" + "linux /k" && 'i' !in KERNEL.args
  {
    KeywordItself("linux");
    hide GoodKeyword;
  }

  lemma OneLineKernel(kernel: Directive, initrd: Directive, line: string, tail: string)
    requires GoodDirective("linux", kernel) && GoodDirective("initrd", initrd)
    requires kernel.Text() == "\n" + line && IsOther(line) && (tail == "" || tail[0] == '\n')
    ensures var body := kernel.Text() + ("\n" + (initrd.Text() + tail));
      FindDirective("linux", body, true) == Some(kernel) && FindDirective("initrd", body, true) == Some(initrd)
  {
    hide *;
    var last := initrd.Text() + tail;
    FoundAtStart("linux", kernel, "\n" + last);
    assert "\n" + line + ("\n" + last) == "\n" + (line + "\n" + last);
    SkipOther(line, last);
    FoundAtStart("initrd", initrd, tail);
  }

  lemma DerivesFromFirst(entries: seq<Entry>, kernel: Directive, initrd: Directive)
    requires entries != [] && 'i' !in kernel.args
    requires FindDirective("linux", entries[0].body, true) == Some(kernel)
    requires FindDirective("initrd", entries[0].body, true) == Some(initrd)
    ensures DeriveFrom(entries).Derived?
  {
    hide QaArgs, QaEntry, GoodDirective, FindDirective, Find;
    NoAutoinstall(kernel.args);
    assert AUTOINSTALL == "autoinstall";
  }

  /** The shape of the example: header `x`, two lines, a blanked line that opens `y`, and one more line. */
  ghost predicate Shape(lines: seq<string>, x: string, y: string, p: string) {
    && |lines| == 5
    && Split(lines[0]) == Config("", [Entry(x, "")]) && Split(lines[1]) == Config(lines[1], [])
    && Split(lines[2]) == Config(lines[2], []) && Split(lines[3]) == Config(p, [Entry(y, "")])
    && Split(lines[4]) == Config(lines[4], [])
    && IsBlanked(lines[3]) && !IsBlanked(lines[0]) && !IsBlanked(lines[1]) && !IsBlanked(lines[2])
    && !IsBlanked(lines[4])
    && Speaks(lines[4]) && !Speaks("") && !Speaks(lines[1]) && !Speaks(lines[2]) && !Speaks(p)
    && x != y && !IsQaTitle(x)
  }

  lemma OwnersBefore(lines: seq<string>, x: string, y: string, p: string)
    requires Shape(lines, x, y, p)
    ensures LastTitle(lines[..4]) == Some(y) && LastTitle([lines[0], lines[1], lines[2], ""]) == Some(x)
  {
    NothingInNothing();
    hide Split, IsBlanked, Speaks, IsQaTitle;
    assert lines[..4][3] == lines[3];
    var kept := [lines[0], lines[1], lines[2], ""];
    assert kept[..3] == [lines[0], lines[1], lines[2]] && kept[..3][..2] == [lines[0], lines[1]]
      && [lines[0], lines[1]][..1] == [lines[0]];
    TitleOfLine(lines[0]);
    assert LastTitle([lines[0], lines[1]]) == Some(x);
    assert LastTitle([lines[0], lines[1], lines[2]]) == Some(x);
  }

  lemma ShapeTakesOver(text: string, x: string, y: string, p: string)
    requires Shape(Lines(text), x, y, p)
    ensures TakenOver(text, 4, x)
  {
    var lines := Lines(text);
    OwnersBefore(lines, x, y, p);
    hide Split, Speaks, Lines, LastTitle, IsQaTitle, IsBlanked, Rest;
    RestAt(text, 0);
    RestAt(text, 1);
    RestAt(text, 2);
    RestAt(text, 3);
    assert TheRest(text)[..4] == [lines[0], lines[1], lines[2], ""];
  }

  lemma OnlyTheLastSpeaks(lines: seq<string>, x: string, y: string, p: string, i: int)
    requires Shape(lines, x, y, p)
    ensures !SpeaksAt(lines, i, Some(x))
  {
    hide Split, Speaks, LastTitle, IsQaTitle, IsBlanked;
    OwnersBefore(lines, x, y, p);
    if i == 4 {
      assert LastTitle(lines[..i]) == Some(y);
    } else if 0 <= i < 4 {
      assert i == 0 || i == 1 || i == 2 || i == 3;
      assert !Speaks(Split(lines[i]).preamble);
    }
  }

  lemma NoneVoiced(lines: seq<string>, x: string, y: string, p: string, i: int)
    requires Shape(lines, x, y, p)
    ensures !VoicedInLine(lines, i, x)
  {
    VoicedNone(x);
    VoicedOne(Entry(x, ""), x);
    VoicedOne(Entry(y, ""), x);
    hide Split, Speaks, LastTitle, IsQaTitle, IsBlanked, Voiced;
    if 0 <= i < 5 { assert i == 0 || i == 1 || i == 2 || i == 3 || i == 4; }
  }

  lemma ShapeNotMentioned(lines: seq<string>, x: string, y: string, p: string)
    requires Shape(lines, x, y, p)
    ensures !Mentioned(lines, x)
  {
    hide Shape, SpeaksAt, VoicedInLine;
    forall i ensures !SpeaksAt(lines, i, Some(x)) && !VoicedInLine(lines, i, x) {
      OnlyTheLastSpeaks(lines, x, y, p, i);
      NoneVoiced(lines, x, y, p, i);
    }
  }

  lemma ShapeAddsFinding(text: string, x: string, y: string, p: string)
    requires HeadersOnLines(text) && DeriveQaMenuentry(text).Derived? && Shape(Lines(text), x, y, p)
    ensures OnEntry(x) in Scan(PatchedText(text)) && OnEntry(x) !in Scan(text)
  {
    hide *;
    ShapeTakesOver(text, x, y, p);
    ShapeNotMentioned(Lines(text), x, y, p);
    OriginalFindings(text, x);
    TakenIsMentioned(text, 4, x);
    TakerIsNoQa(text, 4, x);
    PatchedFindings(text, OnEntry(x));
  }

  // ----- the example itself -----

  ghost function ExampleLines(): seq<string> {
    [TitleOf("X"), "linux /k", "initrd /i", "set default=1 " + TitleOf("Y"), "autoinstall"]
  }

  lemma QuietWithout(s: string, k: nat)
    requires k < |AUTOINSTALL| && AUTOINSTALL[k] !in s
    ensures !Speaks(s)
  {
    hide Find, AUTOINSTALL;
    MissingLetter(s, AUTOINSTALL, k);
  }

  lemma WordItself(s: string)
    requires s == AUTOINSTALL
    ensures Speaks(s)
  {
    assert s[0..|s|] == s;
    assert At(s, 0, AUTOINSTALL);
    hide Find, AUTOINSTALL;
    FindIsContains(s, AUTOINSTALL);
  }

  lemma ExampleQuiet()
    ensures !Speaks("") && !Speaks("linux /k") && !Speaks("initrd /i") && !Speaks("set default=1 ")
      && Speaks("autoinstall")
  {
    assert AUTOINSTALL[0] == 'a' && AUTOINSTALL[3] == 'o' && |AUTOINSTALL| == 11;
    hide Speaks;
    QuietWithout("", 0);
    QuietWithout("linux /k", 0);
    QuietWithout("initrd /i", 0);
    QuietWithout("set default=1 ", 3);
    WordItself("autoinstall");
  }

  lemma ExampleBlanked()
    ensures IsBlanked("set default=1 " + TitleOf("Y")) && !IsBlanked(TitleOf("X"))
    ensures !IsBlanked("linux /k") && !IsBlanked("initrd /i") && !IsBlanked("autoinstall")
  {
    assert DEFAULT[0] == 's' && TIMEOUT[0] == 's' && TitleOf("X")[0] == 'm';
    assert ("set default=1 " + TitleOf("Y"))[..12] == DEFAULT;
  }

  lemma ExampleTitles()
    ensures "X" != "Y" && !IsQaTitle("X") && NoQuotes("X") && NoQuotes("Y")
  {
    assert "X"[0] != "Y"[0];
    var t := Lower("X");
    assert |t| == 1;
    forall i | 0 <= i < |QA_MARKERS| ensures Find(t, QA_MARKERS[i]).None? {}
  }

  lemma ExampleHasLines()
    ensures Lines(Unlines(ExampleLines())) == ExampleLines()
  {
    assert forall l :: l in ExampleLines() ==> '\n' !in l;
    hide Lines;
    LinesOfUnlines(ExampleLines());
  }

  lemma ExamplePlain()
    ensures Plain("linux /k") && Plain("initrd /i") && Plain("autoinstall")
  {
    hide Plain;
    PlainWithoutY("linux /k");
    PlainWithoutY("initrd /i");
    PlainWithoutY("autoinstall");
  }

  lemma ExampleShape()
    ensures Shape(ExampleLines(), "X", "Y", "set default=1 ") && forall l :: l in ExampleLines() ==> Closed(l)
  {
    hide Split, Closed, Speaks, IsQaTitle, IsBlanked, Plain, NoQuotes, MatchMenu, DEFAULT, TIMEOUT;
    ExampleQuiet();
    ExampleBlanked();
    ExampleTitles();
    ExamplePlain();
    TitleLine("X");
    TitleLine("Y");
    SplitPlain("linux /k");
    SplitPlain("initrd /i");
    SplitPlain("autoinstall");
    AfterPlain("set default=1 ", TitleOf("Y"));
    assert "set default=1 " + "" == "set default=1 ";
  }

  lemma ExampleOthers()
    ensures IsOther("linux /k")
  {
  }

  lemma FirstBody(kernel: Directive, initrd: Directive, a: string, b: string, p: string)
    requires GoodDirective("linux", kernel) && GoodDirective("initrd", initrd) && IsOther(a)
    requires kernel.Text() == "\n" + a && initrd.Text() == b
    ensures var body := "" + "\n" + (a + "\n" + (b + "\n" + p));
      FindDirective("linux", body, true) == Some(kernel) && FindDirective("initrd", body, true) == Some(initrd)
  {
    hide *;
    OneLineKernel(kernel, initrd, a, "\n" + p);
    assert "" + "\n" + (a + "\n" + (b + "\n" + p)) == "\n" + a + ("\n" + (b + ("\n" + p)));
  }

  lemma EntriesOfShape(lines: seq<string>, x: string, y: string, p: string)
    requires Shape(lines, x, y, p)
    ensures var entries := SplitAll(lines).entries;
      entries != [] && entries[0].body == "" + "\n" + (lines[1] + "\n" + (lines[2] + "\n" + p))
  {
    hide Split, Speaks, IsQaTitle, IsBlanked, SplitAll;
    FiveLines(lines[0], lines[1], lines[2], lines[3], lines[4], x, y, p);
    assert lines == [lines[0], lines[1], lines[2], lines[3], lines[4]];
  }

  lemma ShapeDerives(text: string, lines: seq<string>, x: string, y: string, p: string)
    requires Shape(lines, x, y, p) && (forall l :: l in lines ==> Closed(l)) && Lines(text) == lines && |lines| == 5
    requires KERNEL.Text() == "\n" + lines[1] && INITRD.Text() == lines[2] && IsOther(lines[1])
    requires GoodDirective("linux", KERNEL) && GoodDirective("initrd", INITRD) && 'i' !in KERNEL.args
    ensures DeriveQaMenuentry(text).Derived?
  {
    hide *;
    SplitByLines(lines);
    UnlinesOfLines(text);
    EntriesOfShape(lines, x, y, p);
    FirstBody(KERNEL, INITRD, lines[1], lines[2], p);
    DerivesFromFirst(Split(text).entries, KERNEL, INITRD);
    DerivesText(text);
  }

  lemma DerivesText(text: string)
    requires Split(text).entries != []
    ensures DeriveQaMenuentry(text) == DeriveFrom(Split(text).entries)
  {
  }

  /**
    A configuration on which the rewrite does add a finding: every header stands on a single line,
    but one of them on a `set default=` line.  Blanking that line hands the autoinstall line of the
    entry `Y` over to the entry `X`, of which the original scan reports nothing.
   */
  lemma BlankedHeaderAddsFinding() returns (text: string)
    ensures Lines(text) == ExampleLines() && HeadersOnLines(text) && DeriveQaMenuentry(text).Derived?
    ensures OnEntry("X") in Scan(PatchedText(text)) && OnEntry("X") !in Scan(text)
  {
    hide *;
    ExampleIs();
    text := Unlines(ExampleLines());
    ExampleHasLines();
    ExampleShape();
    ExampleOthers();
    KernelIsGood();
    InitrdIsGood();
    HeadersAre(text);
    ShapeDerives(text, ExampleLines(), "X", "Y", "set default=1 ");
    ShapeAddsFinding(text, "X", "Y", "set default=1 ");
  }

  lemma ExampleIs()
    ensures |ExampleLines()| == 5 && ExampleLines()[1] == "linux /k" && ExampleLines()[2] == "initrd /i"
  {
  }

  lemma HeadersAre(text: string)
    requires forall l :: l in Lines(text) ==> Closed(l)
    ensures HeadersOnLines(text)
  {
  }
}
