/**
  What the QA rewrite of a GRUB configuration (`src/serein/distribution/qa_boot.py`) does to the
  autoinstall scan (`src/serein/distribution/safety.py`): when it adds a finding, and when not.
 */
module GrubPatch {
  import opened Text
  import opened Grub
  import opened GrubInstall
  import opened GrubScan
  import opened GrubPlain

  // ----- who owns a line -----

  predicate Speaks(s: string) {
    Find(s, AUTOINSTALL).Some?
  }

  /** The title of the entry that is open after these lines. */
  function LastTitle(lines: seq<string>): Option<string> {
    if lines == [] then None
    else
      var entries := Split(lines[|lines| - 1]).entries;
      if entries != [] then Some(entries[|entries| - 1].title) else LastTitle(lines[..|lines| - 1])
  }

  /** What line `i` says before its first header mentions autoinstall, and belongs to `owner`. */
  ghost predicate SpeaksAt(lines: seq<string>, i: int, owner: Option<string>) {
    0 <= i < |lines| && LastTitle(lines[..i]) == owner && Speaks(Split(lines[i]).preamble)
  }

  ghost predicate SpeaksIn(entries: seq<Entry>, k: int, title: string) {
    0 <= k < |entries| && entries[k].title == title && Speaks(entries[k].body)
  }

  ghost predicate Voiced(entries: seq<Entry>, title: string) {
    exists k :: SpeaksIn(entries, k, title)
  }

  ghost predicate VoicedInLine(lines: seq<string>, i: int, title: string) {
    0 <= i < |lines| && Voiced(Split(lines[i]).entries, title)
  }

  ghost predicate SomeSpeaks(lines: seq<string>, owner: Option<string>) {
    exists i :: SpeaksAt(lines, i, owner)
  }

  ghost predicate SomeVoiced(lines: seq<string>, title: string) {
    exists i :: VoicedInLine(lines, i, title)
  }

  /** Some entry titled `title` mentions autoinstall, line by line. */
  ghost predicate Mentioned(lines: seq<string>, title: string) {
    SomeSpeaks(lines, Some(title)) || SomeVoiced(lines, title)
  }

  lemma {:induction false} LastTitleAppend(a: seq<string>, b: seq<string>)
    ensures LastTitle(a + b) == if LastTitle(b).Some? then LastTitle(b) else LastTitle(a)
    decreases |b|
  {
    hide Split;
    if b == [] {
      assert a + b == a;
    } else {
      assert (a + b)[..|a + b| - 1] == a + b[..|b| - 1];
      LastTitleAppend(a, b[..|b| - 1]);
    }
  }

  lemma SpeaksCons(line: string, rest: seq<string>, owner: Option<string>)
    ensures SomeSpeaks([line] + rest, owner) <==>
      || (owner.None? && Speaks(Split(line).preamble))
      || (owner == LastTitle([line]) && SomeSpeaks(rest, None))
      || (owner.Some? && SomeSpeaks(rest, owner))
  {
    hide Split, Speaks, LastTitle;
    var all := [line] + rest;
    assert LastTitle([]) == None by { NoTitle(); }
    assert all[..0] == [];
    forall i | 0 <= i < |rest|
      ensures LastTitle(all[..i + 1]) == if LastTitle(rest[..i]).Some? then LastTitle(rest[..i]) else LastTitle([line])
      ensures all[i + 1] == rest[i]
    {
      assert all[..i + 1] == [line] + rest[..i];
      LastTitleAppend([line], rest[..i]);
    }
    if i :| SpeaksAt(all, i, owner) {
      if i > 0 { assert SpeaksAt(rest, i - 1, LastTitle(rest[..i - 1])); }
    }
    if owner.None? && Speaks(Split(line).preamble) { assert SpeaksAt(all, 0, owner); }
    if i :| SpeaksAt(rest, i, None) && owner == LastTitle([line]) { assert SpeaksAt(all, i + 1, owner); }
    if i :| SpeaksAt(rest, i, owner) && owner.Some? { assert SpeaksAt(all, i + 1, owner); }
  }

  lemma NoTitle()
    ensures LastTitle([]) == None
  {
  }

  lemma VoicedCons(line: string, rest: seq<string>, title: string)
    ensures SomeVoiced([line] + rest, title) <==> Voiced(Split(line).entries, title) || SomeVoiced(rest, title)
  {
    hide Split, Voiced;
    var all := [line] + rest;
    if i :| VoicedInLine(all, i, title) {
      if i > 0 { assert VoicedInLine(rest, i - 1, title); }
    }
    if Voiced(Split(line).entries, title) { assert VoicedInLine(all, 0, title); }
    if i :| VoicedInLine(rest, i, title) { assert VoicedInLine(all, i + 1, title); }
  }

  lemma SpeaksJoin(a: string, b: string)
    ensures Speaks(a + "\n" + b) <==> Speaks(a) || Speaks(b)
  {
    assert AUTOINSTALL != "" && '\n' !in AUTOINSTALL;
    hide AUTOINSTALL, Find;
    ContainsJoin(a, b, AUTOINSTALL);
  }

  lemma VoicedAppend(a: seq<Entry>, b: seq<Entry>, title: string)
    ensures Voiced(a + b, title) <==> Voiced(a, title) || Voiced(b, title)
  {
    hide Speaks;
    if k :| SpeaksIn(a + b, k, title) {
      if k < |a| { assert SpeaksIn(a, k, title); } else { assert SpeaksIn(b, k - |a|, title); }
    }
    if k :| SpeaksIn(a, k, title) { assert SpeaksIn(a + b, k, title); }
    if k :| SpeaksIn(b, k, title) { assert SpeaksIn(a + b, |a| + k, title); }
  }

  lemma VoicedOne(e: Entry, title: string)
    ensures Voiced([e], title) <==> e.title == title && Speaks(e.body)
  {
    hide Speaks;
    if e.title == title && Speaks(e.body) { assert SpeaksIn([e], 0, title); }
  }

  lemma VoicedJoin(a: Config, b: Config, title: string)
    ensures Voiced(Join(a, b).entries, title) <==>
      || Voiced(a.entries, title) || Voiced(b.entries, title)
      || (a.entries != [] && a.entries[|a.entries| - 1].title == title && Speaks(b.preamble))
  {
    hide Speaks, Voiced;
    if a.entries != [] {
      var n := |a.entries| - 1;
      var front, last := a.entries[..n], a.entries[n];
      var longer := Entry(last.title, last.body + "\n" + b.preamble);
      assert a.entries == front + [last];
      VoicedAppend(front, [last], title);
      VoicedAppend(front, [longer], title);
      VoicedAppend(front + [longer], b.entries, title);
      VoicedOne(last, title);
      VoicedOne(longer, title);
      SpeaksJoin(last.body, b.preamble);
    } else {
      VoicedNone(title);
    }
  }

  lemma VoicedNone(title: string)
    ensures !Voiced([], title)
  {
  }

  lemma TitleOfLine(line: string)
    ensures LastTitle([line]) ==
      var es := Split(line).entries; if es == [] then None else Some(es[|es| - 1].title)
  {
    hide Split;
    assert [line][..0] == [];
  }

  /** The scan's view of a text, line by line. */
  lemma {:induction false} EntriesByLine(lines: seq<string>, title: string)
    requires lines != []
    ensures Speaks(SplitAll(lines).preamble) <==> SomeSpeaks(lines, None)
    ensures Voiced(SplitAll(lines).entries, title) <==> Mentioned(lines, title)
    decreases |lines|
  {
    hide Split, Speaks, Voiced, SomeSpeaks, SomeVoiced, LastTitle;
    var line, rest := lines[0], lines[1..];
    assert lines == [line] + rest;
    SpeaksCons(line, rest, None);
    SpeaksCons(line, rest, Some(title));
    VoicedCons(line, rest, title);
    TitleOfLine(line);
    if rest == [] {
      NothingSaid(title);
      if Split(line).entries == [] { VoicedNone(title); }
    } else {
      EntriesByLine(rest, title);
      var a, b := Split(line), SplitAll(rest);
      VoicedJoin(a, b, title);
      SpeaksJoin(a.preamble, b.preamble);
      if a.entries == [] { VoicedNone(title); }
    }
  }

  lemma NothingSaid(title: string)
    ensures !SomeSpeaks([], None) && !SomeSpeaks([], Some(title)) && !SomeVoiced([], title)
  {
  }

  /** An entry is reported exactly if its title bears no QA marker and it mentions autoinstall. */
  lemma FindingsByLine(lines: seq<string>, title: string)
    requires lines != []
    ensures OnEntry(title) in FlaggedIn(SplitAll(lines).entries) <==> !IsQaTitle(title) && Mentioned(lines, title)
  {
    hide IsQaTitle, SplitAll, FlaggedIn, Mentioned;
    var entries := SplitAll(lines).entries;
    FlaggedMember(entries, OnEntry(title));
    EntriesByLine(lines, title);
    if i :| 0 <= i < |entries| && Flagged(entries[i]) && OnEntry(title) == OnEntry(entries[i].title) {
      assert SpeaksIn(entries, i, title);
    }
    if k :| SpeaksIn(entries, k, title) {
      if !IsQaTitle(title) { assert Flagged(entries[k]); }
    }
  }

  // ----- the patched text, line by line -----

  ghost function Prelude(): seq<string> {
    ["set default=\"0\"", "set timeout=1", ""]
  }

  ghost function EntryRest(kernel: Directive, initrd: Directive): seq<string> {
    Lines(kernel.(args := QaArgs(kernel.args)).Text()) + Lines(initrd.Text()) + ["}", ""]
  }

  ghost function TitleOf(title: string): string {
    "menuentry \"" + title + "\" {"
  }

  ghost function Rest(text: string): seq<string> {
    Blank(Blank(Lines(text), DEFAULT), TIMEOUT)
  }

  lemma PatchedAreLines(text: string, kernel: Directive, initrd: Directive)
    ensures Lines(InstallQaEntry(text, QaEntry(kernel, initrd))) ==
      Prelude() + ([TitleOf(QA_ENTRY_TITLE)] + (EntryRest(kernel, initrd) + Rest(text)))
  {
    hide QA_ENTRY_TITLE, DEFAULT, TIMEOUT, Lines, Blank, QaArgs, Directive.Text, InstallQaEntry;
    PatchedLines(text, QaEntry(kernel, initrd));
    var k, i := kernel.(args := QaArgs(kernel.args)).Text(), initrd.Text();
    EntryLines(k, i);
    assert QaEntry(kernel, initrd) == TitleOf(QA_ENTRY_TITLE) + "\n" + k + "\n" + i + "\n}\n";
    LinesOfParts(Prelude(), TitleOf(QA_ENTRY_TITLE), Lines(k), Lines(i), Rest(text));
  }

  lemma LinesOfParts(prelude: seq<string>, title: string, k: seq<string>, i: seq<string>, rest: seq<string>)
    ensures prelude + ([title] + k + i + ["}", ""]) + rest == prelude + ([title] + (k + i + ["}", ""] + rest))
  {
  }

  lemma PlainPrelude()
    ensures forall l :: l in Prelude() ==> Plain(l)
    ensures Plain("}")
  {
    hide Plain;
    PlainWithoutY("set default=\"0\"");
    PlainWithoutY("set timeout=1");
    PlainWithoutY("");
    PlainWithoutY("}");
  }

  /** Every menu header of the text stands on a single line. */
  ghost predicate HeadersOnLines(text: string) {
    forall l :: l in Lines(text) ==> Closed(l)
  }

  predicate IsBlanked(line: string) {
    StartsWith(line, DEFAULT) || StartsWith(line, TIMEOUT)
  }

  lemma RestAt(text: string, i: nat)
    requires i < |Lines(text)|
    ensures |Rest(text)| == |Lines(text)|
    ensures Rest(text)[i] == if IsBlanked(Lines(text)[i]) then "" else Lines(text)[i]
  {
    NotBlankedTwice();
    hide Lines, DEFAULT, TIMEOUT;
    var once := Blank(Lines(text), DEFAULT);
    assert once[i] == BlankOne(Lines(text)[i], DEFAULT);
    assert Blank(once, TIMEOUT)[i] == BlankOne(once[i], TIMEOUT);
  }

  lemma NotBlankedTwice()
    ensures !StartsWith("", TIMEOUT) && !StartsWith("", DEFAULT)
  {
  }

  lemma RestIsClosed(text: string)
    requires HeadersOnLines(text)
    ensures forall l :: l in Rest(text) ==> Closed(l)
  {
    var lines, rest := Lines(text), Rest(text);
    assert Closed("");
    hide Closed, Rest, Lines, IsBlanked;
    forall l | l in rest ensures Closed(l) {
      var i :| 0 <= i < |rest| && l == rest[i];
      if i < |lines| {
        RestAt(text, i);
        assert lines[i] in lines;
      } else {
        RestLength(text);
      }
    }
  }

  lemma RestLength(text: string)
    ensures |Rest(text)| == |Lines(text)|
  {
  }

  /** The lines derived from a text with single-line headers hold no header. */
  lemma DerivedIsPlain(text: string)
    requires HeadersOnLines(text) && DeriveQaMenuentry(text).Derived?
    ensures var d := DeriveQaMenuentry(text); forall l :: l in EntryRest(d.kernel, d.initrd) ==> Plain(l)
  {
    var entries := Split(text).entries;
    assert entries != [] && DeriveFrom(entries) == DeriveQaMenuentry(text);
    PlainPrelude();
    hide Plain, Split, DeriveQaMenuentry, DeriveFrom, Closed, QaArgs, GoodDirective, Directive.Text;
    SplitByLines(Lines(text));
    UnlinesOfLines(text);
    SplitAllIsPlain(Lines(text));
    var d := DeriveFrom(entries);
    DerivedFromPlain(entries);
    QaLineIsPlain(d.kernel);
    LinesOfPlain(d.kernel.(args := QaArgs(d.kernel.args)).Text());
    LinesOfPlain(d.initrd.Text());
    assert "" in Prelude();
  }

  lemma {:induction false} DerivedFromPlain(entries: seq<Entry>)
    requires DeriveFrom(entries).Derived? && forall i :: 0 <= i < |entries| ==> Plain(entries[i].body)
    ensures Plain(DeriveFrom(entries).kernel.Text()) && Plain(DeriveFrom(entries).initrd.Text())
    decreases |entries|
  {
    hide Plain, FindDirective, QaArgs, QaEntry, GoodDirective, Directive.Text, Find;
    var kernel := FindDirective("linux", entries[0].body, true);
    var initrd := FindDirective("initrd", entries[0].body, true);
    if kernel.None? || initrd.None? {
      DerivedFromPlain(entries[1..]);
    } else {
      FoundIsPlain("linux", entries[0].body, true);
      FoundIsPlain("initrd", entries[0].body, true);
    }
  }

  lemma {:induction false} PlainSaysNothing(plain: seq<string>, rest: seq<string>, title: string)
    requires forall l :: l in plain ==> Plain(l)
    ensures Mentioned(plain + rest, title) <==> Mentioned(rest, title)
    decreases |plain|
  {
    hide Split, Plain, Voiced, SomeSpeaks, SomeVoiced, LastTitle;
    if plain == [] {
      assert plain + rest == rest;
    } else {
      var line, more := plain[0], plain[1..] + rest;
      assert plain + rest == [line] + more;
      SplitPlain(line);
      TitleOfLine(line);
      SpeaksCons(line, more, Some(title));
      VoicedCons(line, more, title);
      VoicedNone(title);
      PlainSaysNothing(plain[1..], rest, title);
    }
  }

  lemma TitleSaysNothing(line: string, own: string, rest: seq<string>, title: string)
    requires Split(line) == Config("", [Entry(own, "")]) && own != title
    ensures Mentioned([line] + rest, title) <==> Mentioned(rest, title)
  {
    hide Split, Voiced, SomeSpeaks, SomeVoiced, LastTitle;
    TitleOfLine(line);
    SpeaksCons(line, rest, Some(title));
    VoicedCons(line, rest, title);
    VoicedOne(Entry(own, ""), title);
  }

  ghost function PatchedText(text: string): string
    requires DeriveQaMenuentry(text).Derived?
  {
    InstallQaEntry(text, DeriveQaMenuentry(text).text)
  }

  lemma PatchedLineList(text: string)
    requires DeriveQaMenuentry(text).Derived?
    ensures var d := DeriveQaMenuentry(text);
      Lines(PatchedText(text)) == Prelude() + ([TitleOf(QA_ENTRY_TITLE)] + (EntryRest(d.kernel, d.initrd) + Rest(text)))
  {
    var d := DeriveQaMenuentry(text);
    hide Lines, DeriveQaMenuentry, EntryRest, Rest, Prelude, QA_ENTRY_TITLE, QaEntry, InstallQaEntry;
    PatchedAreLines(text, d.kernel, d.initrd);
  }

  /** The findings of the patched text are those of the blanked lines. */
  lemma PatchedFindings(text: string, f: Finding)
    requires HeadersOnLines(text) && DeriveQaMenuentry(text).Derived?
    ensures f in Scan(PatchedText(text)) <==> f.OnEntry? && !IsQaTitle(f.title) && Mentioned(Rest(text), f.title)
  {
    hide *;
    var d := DeriveQaMenuentry(text);
    var patched := PatchedText(text);
    var plain, rest := EntryRest(d.kernel, d.initrd), Rest(text);
    var tail := [TitleOf(QA_ENTRY_TITLE)] + (plain + rest);
    PatchedLineList(text);
    DerivedIsPlain(text);
    PlainPrelude();
    QaTitle();
    TitleLine(QA_ENTRY_TITLE);
    TitleIs(QA_ENTRY_TITLE);
    RestIsClosed(text);
    PlainIsClosed(Prelude());
    PlainIsClosed(plain);
    SplitByLines(Lines(patched));
    UnlinesOfLines(patched);
    ScanOfEntries(patched, f);
    if f.OnEntry? {
      FindingsByLine(Lines(patched), f.title);
      if f.title != QA_ENTRY_TITLE {
        PlainSaysNothing(Prelude(), tail, f.title);
        TitleSaysNothing(TitleOf(QA_ENTRY_TITLE), QA_ENTRY_TITLE, plain + rest, f.title);
        PlainSaysNothing(plain, rest, f.title);
      }
    }
    HasTitle(Prelude(), tail);
    FirstTitle(TitleOf(QA_ENTRY_TITLE), plain + rest);
  }

  lemma TitleIs(title: string)
    ensures TitleOf(title) == "menuentry \"" + title + "\" {"
  {
  }

  lemma PlainIsClosed(lines: seq<string>)
    requires forall l :: l in lines ==> Plain(l)
    ensures forall l :: l in lines ==> Closed(l)
  {
    forall l | l in lines ensures Closed(l) { SplitPlain(l); }
  }

  lemma ScanOfEntries(text: string, f: Finding)
    ensures Split(text).entries != [] ==> (f in Scan(text) <==> f in FlaggedIn(Split(text).entries))
    ensures Split(text).entries != [] && f.NoEntries? ==> f !in Scan(text)
  {
    hide Split, Flagged;
    FlaggedMember(Split(text).entries, f);
  }

  lemma FirstTitle(line: string, rest: seq<string>)
    requires Split(line).entries != []
    ensures SplitAll([line] + rest).entries != []
  {
    hide Split;
    if rest == [] {
      assert [line] + rest == [line];
    } else {
      assert ([line] + rest)[1..] == rest;
    }
  }

  lemma {:induction false} HasTitle(front: seq<string>, rest: seq<string>)
    requires rest != []
    ensures SplitAll(rest).entries != [] ==> SplitAll(front + rest).entries != []
    decreases |front|
  {
    hide Split;
    if front == [] {
      assert front + rest == rest;
    } else {
      assert (front + rest)[1..] == front[1..] + rest;
      HasTitle(front[1..], rest);
    }
  }

  // ----- when the rewrite adds a finding -----

  /**
    Line `i` is kept, mentions autoinstall before its first header, and changes hands: the entry it
    belonged to was opened on a line that is blanked, and the entry titled `title`, which bears no
    QA marker, takes it over.
   */
  ghost predicate TakenOver(text: string, i: int, title: string) {
    && 0 <= i < |Lines(text)| && !IsBlanked(Lines(text)[i]) && Speaks(Split(Lines(text)[i]).preamble)
    && LastTitle(Lines(text)[..i]) != Some(title) && LastTitle(TheRest(text)[..i]) == Some(title) && !IsQaTitle(title)
  }

  ghost function TheRest(text: string): (r: seq<string>)
    ensures r == Rest(text) && |r| == |Lines(text)|
  {
    RestLength(text);
    Rest(text)
  }

  lemma NothingInNothing()
    ensures !Speaks(Split("").preamble) && Split("").entries == []
  {
  }

  /** What is mentioned after blanking was mentioned before, or is taken over. */
  lemma MentionedAfter(text: string, title: string)
    requires Mentioned(Rest(text), title) && !IsQaTitle(title)
    ensures Mentioned(Lines(text), title) || exists i :: TakenOver(text, i, title)
  {
    NothingInNothing();
    hide Split, Speaks, Lines, Rest, LastTitle, IsQaTitle, IsBlanked;
    VoicedNone(title);
    var lines, rest := Lines(text), TheRest(text);
    if i :| SpeaksAt(rest, i, Some(title)) {
      RestAt(text, i);
      if LastTitle(lines[..i]) == Some(title) {
        assert SpeaksAt(lines, i, Some(title));
      } else {
        assert TakenOver(text, i, title);
      }
    }
    if i :| VoicedInLine(rest, i, title) {
      RestAt(text, i);
      assert VoicedInLine(lines, i, title);
    }
  }

  lemma TakenIsMentioned(text: string, i: int, title: string)
    requires TakenOver(text, i, title)
    ensures Mentioned(Rest(text), title)
  {
    hide Split, Speaks, Lines, Rest, LastTitle, IsQaTitle, IsBlanked;
    RestAt(text, i);
    assert SpeaksAt(TheRest(text), i, Some(title));
  }

  /** An entry of a derivable text is reported exactly if it is mentioned line by line. */
  lemma OriginalFindings(text: string, title: string)
    requires HeadersOnLines(text) && DeriveQaMenuentry(text).Derived?
    ensures OnEntry(title) in Scan(text) <==> !IsQaTitle(title) && Mentioned(Lines(text), title)
  {
    assert Split(text).entries != [];
    hide Split, Lines, Closed, DeriveQaMenuentry, IsQaTitle, Mentioned, Scan, FlaggedIn;
    SplitByLines(Lines(text));
    UnlinesOfLines(text);
    FindingsByLine(Lines(text), title);
    ScanOfEntries(text, OnEntry(title));
  }

  /** The scan of the patched text reports only findings of the original. */
  ghost predicate AddsNoFindings(text: string)
    requires DeriveQaMenuentry(text).Derived?
  {
    forall f :: f in Scan(PatchedText(text)) ==> f in Scan(text)
  }

  /**
    For texts whose headers stand on single lines: the rewrite adds no finding if and only if every
    entry that takes over an autoinstall line was reported already.
   */
  lemma PatchAddsNoFindingsExactly(text: string)
    requires HeadersOnLines(text) && DeriveQaMenuentry(text).Derived?
    ensures AddsNoFindings(text) <==> forall i, title :: TakenOver(text, i, title) ==> OnEntry(title) in Scan(text)
  {
    hide HeadersOnLines, DeriveQaMenuentry, Scan, PatchedText, Mentioned, IsQaTitle, Rest, Lines, TakenOver;
    if AddsNoFindings(text) {
      forall i, title | TakenOver(text, i, title) ensures OnEntry(title) in Scan(text) {
        TakenIsMentioned(text, i, title);
        TakerIsNoQa(text, i, title);
        PatchedFindings(text, OnEntry(title));
      }
    }
    if forall i, title :: TakenOver(text, i, title) ==> OnEntry(title) in Scan(text) {
      forall f | f in Scan(PatchedText(text)) ensures f in Scan(text) {
        PatchedFindings(text, f);
        MentionedAfter(text, f.title);
        OriginalFindings(text, f.title);
      }
    }
  }

  lemma TakerIsNoQa(text: string, i: int, title: string)
    requires TakenOver(text, i, title)
    ensures !IsQaTitle(title)
  {
  }

  /** No `set default=` or `set timeout=` line carries a menu header. */
  ghost predicate NoHeaderBlanked(text: string) {
    forall l :: l in Lines(text) && IsBlanked(l) ==> Split(l).entries == []
  }

  lemma {:induction false} SameOwner(text: string, i: nat)
    requires NoHeaderBlanked(text) && i <= |Lines(text)|
    ensures LastTitle(TheRest(text)[..i]) == LastTitle(Lines(text)[..i])
    decreases i
  {
    NothingInNothing();
    hide Split, Lines, Rest, IsBlanked;
    if i > 0 {
      var lines, rest := Lines(text), TheRest(text);
      SameOwner(text, i - 1);
      RestAt(text, i - 1);
      assert lines[..i][..i - 1] == lines[..i - 1] && rest[..i][..i - 1] == rest[..i - 1];
      assert lines[i - 1] in lines;
    }
  }

  /**
    The autoinstall scan of the patched configuration reports only findings of the original, when
    headers stand on single lines and none of them on a line that is blanked.
   */
  lemma PatchAddsNoFindings(text: string, f: Finding)
    requires HeadersOnLines(text) && NoHeaderBlanked(text) && DeriveQaMenuentry(text).Derived?
    requires f in Scan(InstallQaEntry(text, DeriveQaMenuentry(text).text))
    ensures f in Scan(text)
  {
    hide HeadersOnLines, NoHeaderBlanked, DeriveQaMenuentry, Scan, InstallQaEntry, Rest, Lines, LastTitle, Split;
    PatchAddsNoFindingsExactly(text);
    forall i, title ensures !TakenOver(text, i, title) {
      if 0 <= i < |Lines(text)| { SameOwner(text, i); }
    }
    assert PatchedText(text) == InstallQaEntry(text, DeriveQaMenuentry(text).text);
  }
}
