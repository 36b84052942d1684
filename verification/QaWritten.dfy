/**
  What the QA transition of `src/serein/distribution/qa_boot.py` has written when it returns
  normally: the configuration as text, line by line, and which file it is.
 */
module QaWritten {
  import opened Text
  import opened Utf8
  import opened ExtractedTree
  import opened Catalog
  import opened QaTransition
  import opened Grub
  import opened GrubInstall
  import opened GrubScan
  import opened GrubPlain
  import opened GrubSyntax

  // ----- reading a text file -----

  lemma {:induction false} NoReturns(s: string)
    ensures '\r' !in UniversalNewlines(s)
    ensures '\r' !in s ==> UniversalNewlines(s) == s
    decreases |s|
  {
    if s != "" {
      if "\r\n" <= s {
        NoReturns(s[2..]);
        assert s[0] == '\r';
      } else {
        NoReturns(s[1..]);
      }
    }
  }

  lemma {:induction false} NewlinesApart(a: string, b: string)
    requires '\r' !in a
    ensures UniversalNewlines(a + b) == a + UniversalNewlines(b)
    decreases |a|
  {
    if a == "" {
      assert a + b == b;
    } else {
      var s := a + b;
      assert s[0] == a[0] && a[0] in a && s[1..] == a[1..] + b;
      NewlinesApart(a[1..], b);
    }
  }

  /**
    Universal newlines: the three line ends all read as a newline, a return before a newline being one
    line end with it, and nothing else changes.
   */
  lemma NewlinesMeaning(a: string, b: string)
    requires '\r' !in a
    ensures UniversalNewlines(a) == a
    ensures UniversalNewlines(a + ("\r\n" + b)) == a + ("\n" + UniversalNewlines(b))
    ensures UniversalNewlines(a + ("\n" + b)) == a + ("\n" + UniversalNewlines(b))
    ensures b == "" || b[0] != '\n' ==> UniversalNewlines(a + ("\r" + b)) == a + ("\n" + UniversalNewlines(b))
  {
    NoReturns(a);
    NewlinesApart(a, "\r\n" + b);
    NewlinesApart(a, "\n" + b);
    NewlinesApart(a, "\r" + b);
    assert ("\r\n" + b)[2..] == b && ("\n" + b)[1..] == b && ("\r" + b)[1..] == b;
    assert ("\r\n" + b)[..2] == "\r\n";
    if "\r\n" <= "\r" + b { assert ("\r" + b)[1] == "\r\n"[1]; }
    assert ("\n" + b)[0] != '\r';
  }

  // ----- which file -----

  /** `p` is `paths[i]`, a file, and no earlier one is. */
  ghost predicate FirstAt(fs: Fs, paths: seq<Path>, p: Path, i: int) {
    0 <= i < |paths| && paths[i] == p && fs.IsFile(p) && forall j :: 0 <= j < i ==> !fs.IsFile(paths[j])
  }

  lemma {:induction false} FirstOf(fs: Fs, paths: seq<Path>, p: Path)
    ensures FirstFile(fs, paths) == Some(p) <==> exists i :: FirstAt(fs, paths, p, i)
    decreases |paths|
  {
    hide Fs.IsFile;
    if paths != [] {
      var rest := paths[1..];
      FirstOf(fs, rest, p);
      if fs.IsFile(paths[0]) {
        if paths[0] == p { assert FirstAt(fs, paths, p, 0); }
      } else {
        forall i | FirstAt(fs, rest, p, i) ensures FirstAt(fs, paths, p, i + 1) {
          forall j | 0 <= j < i + 1 ensures !fs.IsFile(paths[j]) { if j > 0 { assert paths[j] == rest[j - 1]; } }
        }
        forall i | FirstAt(fs, paths, p, i) ensures FirstAt(fs, rest, p, i - 1) {
          forall j | 0 <= j < i - 1 ensures !fs.IsFile(rest[j]) { assert rest[j] == paths[j + 1]; }
        }
      }
    }
  }

  /** The configuration is the first of the four known paths that is a file. */
  lemma ConfigIsFirst(fs: Fs, p: Path)
    ensures FirstFile(fs, CANDIDATES) == Some(p) <==> exists i ::
      FirstAt(fs, ["boot/grub/grub.cfg", "boot/grub/loopback.cfg", "EFI/boot/grub.cfg", "efi/boot/grub.cfg"], p, i)
  {
    hide Fs.IsFile;
    FirstOf(fs, CANDIDATES, p);
  }

  // ----- what keeps the transition from writing -----

  datatype Obstacle = NoFile | UnreadableFile | EscapingConfig | UnreadableConfig | IllegibleConfig | NothingToDerive

  /** The obstacle is in the way of the transition, whose configuration is `grub`. */
  ghost predicate Stops(o: Obstacle, fs: Fs, faults: Faults, grub: Option<Path>) {
    match o
    case NoFile => grub.None?
    case UnreadableFile =>
      grub.Some? && exists p :: p in fs.Listed() && p in faults.before && p != grub.value && p != "md5sum.txt"
    case EscapingConfig => grub.Some? && fs.canon(grub.value).None?
    case UnreadableConfig => faults.config
    case IllegibleConfig => grub.Some? && fs.IsFile(grub.value) && DecodeStrict(fs.Read(grub.value)).None?
    case NothingToDerive =>
      && grub.Some? && fs.IsFile(grub.value) && DecodeStrict(fs.Read(grub.value)).Some?
      && !DeriveQaMenuentry(UniversalNewlines(DecodeStrict(fs.Read(grub.value)).value)).Derived?
  }

  /** The obstacles in the order they are met, and how the transition ends at each. */
  const OBSTACLES: seq<(Obstacle, Outcome)> :=
    [(NoFile, Blocked(NoConfig)), (UnreadableFile, Raised), (EscapingConfig, Blocked(ConfigEscapes)),
     (UnreadableConfig, Raised), (IllegibleConfig, Raised), (NothingToDerive, Blocked(NotDerivable))]

  ghost predicate FirstObstacle(fs: Fs, faults: Faults, n: int) {
    var grub := FirstFile(fs, CANDIDATES);
    && 0 <= n < |OBSTACLES| && Stops(OBSTACLES[n].0, fs, faults, grub)
    && forall m :: 0 <= m < n ==> !Stops(OBSTACLES[m].0, fs, faults, grub)
  }

  lemma StuckMeans(fs: Fs, grub: Path, unreadable: set<Path>)
    ensures Stuck(fs, {grub, CATALOG}, unreadable) <==>
      exists p :: p in fs.Listed() && p in unreadable && p != grub && p != "md5sum.txt"
  {
    assert CATALOG == "md5sum.txt";
    hide CATALOG, Fs.IsFile;
  }

  lemma ObstaclesAre(fs: Fs, faults: Faults, n: int)
    requires FirstObstacle(fs, faults, n)
    ensures var grub := FirstFile(fs, CANDIDATES);
      && 0 <= n < 6
      && (n == 0 ==> Stops(NoFile, fs, faults, grub) && OBSTACLES[n].1 == Blocked(NoConfig))
      && (n > 0 ==> !Stops(NoFile, fs, faults, grub))
      && (n == 1 ==> Stops(UnreadableFile, fs, faults, grub) && OBSTACLES[n].1 == Raised)
      && (n > 1 ==> !Stops(UnreadableFile, fs, faults, grub))
      && (n == 2 ==> Stops(EscapingConfig, fs, faults, grub) && OBSTACLES[n].1 == Blocked(ConfigEscapes))
      && (n > 2 ==> !Stops(EscapingConfig, fs, faults, grub))
      && (n == 3 ==> Stops(UnreadableConfig, fs, faults, grub) && OBSTACLES[n].1 == Raised)
      && (n > 3 ==> !Stops(UnreadableConfig, fs, faults, grub))
      && (n == 4 ==> Stops(IllegibleConfig, fs, faults, grub) && OBSTACLES[n].1 == Raised)
      && (n > 4 ==> !Stops(IllegibleConfig, fs, faults, grub))
      && (n == 5 ==> Stops(NothingToDerive, fs, faults, grub) && OBSTACLES[n].1 == Blocked(NotDerivable))
  {
    hide Stops, FirstFile, CANDIDATES;
    var o, grub := OBSTACLES, FirstFile(fs, CANDIDATES);
    assert o[0].0 == NoFile && o[1].0 == UnreadableFile && o[2].0 == EscapingConfig;
    assert o[3].0 == UnreadableConfig && o[4].0 == IllegibleConfig && o[5].0 == NothingToDerive && |o| == 6;
    assert n > 0 ==> !Stops(o[0].0, fs, faults, grub);
    assert n > 1 ==> !Stops(o[1].0, fs, faults, grub);
    assert n > 2 ==> !Stops(o[2].0, fs, faults, grub);
    assert n > 3 ==> !Stops(o[3].0, fs, faults, grub);
    assert n > 4 ==> !Stops(o[4].0, fs, faults, grub);
  }

  /**
    The transition writes nothing before six obstacles are passed: the first that is in its way decides
    how it ends, with the tree as it was.
   */
  lemma NothingWrittenBefore(fs: Fs, lib: Library, faults: Faults, n: int)
    requires FirstObstacle(fs, faults, n)
    ensures 0 <= n < |OBSTACLES| && Transition(fs, lib, faults) == (fs, OBSTACLES[n].1)
  {
    ObstaclesAre(fs, faults, n);
    var grub := FirstFile(fs, CANDIDATES);
    if grub.Some? { StuckMeans(fs, grub.value, faults.before); }
    hide FirstFile, CANDIDATES, CATALOG, DecodeStrict, UniversalNewlines, DeriveQaMenuentry, FirstObstacle, OBSTACLES,
      Stuck, UpdateCatalog, Encode, Fs.IsFile, Fs.Listed;
  }

  // ----- the text that is written -----

  /** The line of the written configuration that stands for a line of the original. */
  function KeptLine(line: string): string {
    if "set default=" <= line || "set timeout=" <= line then "" else line
  }

  function KeptLines(lines: seq<string>): (r: seq<string>)
    ensures |r| == |lines|
  {
    seq(|lines|, i requires 0 <= i < |lines| => KeptLine(lines[i]))
  }

  lemma BlankedTwice(lines: seq<string>)
    ensures Blank(Blank(lines, DEFAULT), TIMEOUT) == KeptLines(lines)
  {
    assert DEFAULT == "set default=" && TIMEOUT == "set timeout=" && TIMEOUT != "";
    hide DEFAULT, TIMEOUT;
    var once := Blank(lines, DEFAULT);
    forall i | 0 <= i < |lines| ensures Blank(once, TIMEOUT)[i] == KeptLines(lines)[i] {
      assert once[i] == BlankOne(lines[i], DEFAULT);
    }
  }

  /** The lines of a QA configuration: the two settings, the new entry, and the original text. */
  ghost predicate QaLines(lines: seq<string>, kernel: Directive, initrd: Directive, original: seq<string>) {
    lines == ["set default=\"0\"", "set timeout=1", "", QA_HEADER]
      + Lines(kernel.(args := QaArgs(kernel.args)).Text()) + Lines(initrd.Text()) + ["}", ""] + KeptLines(original)
  }

  lemma PatchedText(data: seq<Byte>) returns (original: string, k: int, d: Derived)
    requires PatchOf(data).Patched?
    ensures DecodeStrict(data).Some? && original == UniversalNewlines(DecodeStrict(data).value)
    ensures d == DeriveQaMenuentry(original) && FirstBoth(Split(original).entries, k)
    ensures MadeFrom(d, Split(original).entries[k]) && !Contains(QaArgs(d.kernel.args), "autoinstall")
    ensures QaLines(Lines(PatchOf(data).text), d.kernel, d.initrd, Lines(original))
  {
    hide Decode, Encode, UniversalNewlines, DeriveQaMenuentry, InstallQaEntry, Split, FirstBoth, QaArgs, Contains,
      Lines, Directive.Text, FindDirective, GoodDirective, KeptLines, Blank, QA_HEADER;
    original := UniversalNewlines(DecodeStrict(data).value);
    d := DeriveQaMenuentry(original);
    k := DerivedFrom(original);
    PatchedLines(original, d.text);
    BlankedTwice(Lines(original));
    JoinTop(QA_HEADER, Lines(d.kernel.(args := QaArgs(d.kernel.args)).Text()), Lines(d.initrd.Text()),
      KeptLines(Lines(original)));
  }

  lemma JoinTop(header: string, kernel: seq<string>, initrd: seq<string>, rest: seq<string>)
    ensures ["set default=\"0\"", "set timeout=1", ""] + ([header] + kernel + initrd + ["}", ""]) + rest
      == ["set default=\"0\"", "set timeout=1", "", header] + kernel + initrd + ["}", ""] + rest
  {
  }

  /** The catalog, if there is one inside the root, is not a second name of the configuration. */
  ghost predicate CatalogApart(fs: Fs, grub: Path)
    requires fs.IsFile(grub) && fs.canon(grub).Some?
  {
    fs.IsFile(CATALOG) && fs.canon(CATALOG).Some? ==> fs.IdOf(CATALOG) != fs.IdOf(grub)
  }

  lemma ConfigKeeps(fs: Fs, md5: seq<Byte> -> string, grub: Path, fault: Option<seq<Byte>>)
    requires fs.Valid() && fs.IsFile(grub) && fs.canon(grub).Some? && CatalogApart(fs, grub)
    ensures var after := UpdateCatalog(fs, md5, grub, fault).0; after.IsFile(grub) && after.Read(grub) == fs.Read(grub)
  {
    hide Document, Rewrite, LStripDotSlash, Encode, CatalogLines, AnyRefers, CATALOG;
    if fs.IsFile(CATALOG) && fs.canon(CATALOG).Some? {
      if UpdateCatalog(fs, md5, grub, fault).1.Crashed? && fault.Some? {
        PutReads(fs, CATALOG, fault.value, grub);
      } else if UpdateCatalog(fs, md5, grub, fault) != (fs, Updated(false)) {
        var target := LStripDotSlash(grub);
        if fs.IsFile(target) {
          PutReads(fs, CATALOG, Encode(Document(Rewrite(CatalogLines(fs), target, md5(fs.Read(target))))), grub);
        }
      }
    }
  }

  /**
    What a normal return has written: the configuration now decodes to a text that begins with the two
    settings and the QA entry, whose kernel line has the lead, path and rewritten arguments of the
    first original entry with both lines and whose initrd line is that entry's; every original line
    follows in its place, with only the two kinds of settings blanked.
   */
  lemma InstalledConfig(fs: Fs, lib: Library, faults: Faults)
    returns (original: string, written: string, k: int, kernel: Directive, initrd: Directive)
    requires fs.Valid() && Transition(fs, lib, faults).1.Done?
    requires var g := Transition(fs, lib, faults).1.grub; fs.IsFile(g) && fs.canon(g).Some? && CatalogApart(fs, g)
    ensures var (after, g) := (Transition(fs, lib, faults).0, Transition(fs, lib, faults).1.grub);
      && DecodeStrict(fs.Read(g)).Some? && original == UniversalNewlines(DecodeStrict(fs.Read(g)).value)
      && after.IsFile(g) && DecodeStrict(after.Read(g)) == Some(written)
    ensures FirstBoth(Split(original).entries, k)
    ensures var body := Split(original).entries[k].body;
      FindDirective("linux", body, true) == Some(kernel) && FindDirective("initrd", body, true) == Some(initrd)
    ensures QaLines(Lines(written), kernel, initrd, Lines(original))
    ensures Contains(QaArgs(kernel.args), "console=ttyS0,115200n8") && !Contains(QaArgs(kernel.args), "autoinstall")
  {
    hide Transition, PatchOf, UpdateCatalog, CATALOG, CANDIDATES, Encode, DecodeStrict, Lines, UniversalNewlines,
      Split, FirstBoth, FindDirective, QaArgs, Contains, QaLines, Fs.Valid, GoodDirective;
    var (after, outcome) := Transition(fs, lib, faults);
    var g := outcome.grub;
    var data := DoneSteps(fs, lib, faults);
    var d;
    original, k, d := PatchedText(fs.Read(g));
    kernel, initrd, written := d.kernel, d.initrd, PatchOf(fs.Read(g)).text;
    PutKeepsFiles(fs, g, data);
    PutReads(fs, g, data, g);
    ApartStays(fs, g, data);
    ConfigKeeps(fs.Put(g, data), lib.md5, g, faults.catalog);
    RoundTrip(written);
    SerialIsThere(kernel.args);
  }

  lemma ApartStays(fs: Fs, grub: Path, data: seq<Byte>)
    requires fs.Valid() && fs.IsFile(grub) && fs.canon(grub).Some? && CatalogApart(fs, grub)
    ensures var after := fs.Put(grub, data);
      after.IsFile(grub) && after.canon(grub).Some? && CatalogApart(after, grub)
  {
    hide CATALOG;
    PutKeepsFiles(fs, grub, data);
  }

  lemma ContainsAt(a: string, token: string, b: string)
    ensures Contains(a + token + b, token)
  {
    var s := a + token + b;
    assert s[|a|..|a| + |token|] == token;
    assert At(s, |a|, token);
  }

  lemma SerialIsThere(args: string)
    ensures Contains(QaArgs(args), "console=ttyS0,115200n8")
  {
    assert SERIAL == "console=ttyS0,115200n8";
    hide SERIAL, RemoveQuiet, Contains;
    var s := RemoveQuiet(args, true);
    if Find(s, SERIAL).Some? {
      FindIsContains(s, SERIAL);
    } else {
      match Find(s, "---")
      case Some(i) =>
        ContainsAt(RStrip(s[..i]) + " ", SERIAL, " " + s[i..]);
        assert RStrip(s[..i]) + " " + SERIAL + (" " + s[i..]) == RStrip(s[..i]) + " " + SERIAL + " " + s[i..];
      case None =>
        ContainsAt(RStrip(s) + " ", SERIAL, "");
        assert RStrip(s) + " " + SERIAL + "" == RStrip(s) + " " + SERIAL;
    }
  }

  // ----- the menu of the written configuration -----

  lemma PlainLineFirst(line: string, more: string)
    requires Plain(line)
    ensures var c := Split(more);
      Split(line + "\n" + more) == Config(line + "\n" + c.preamble, c.entries)
  {
    hide Split, Plain;
    SplitPlain(line);
    SplitClosed(line, more);
  }

  lemma HeaderFirst(title: string, more: string)
    requires NoQuotes(title)
    ensures var (header, c) := ("menuentry \"" + title + "\" {", Split(more));
      Split(header + "\n" + more) == Config("", [Entry(title, "\n" + c.preamble)] + c.entries)
  {
    hide Split, NoQuotes, Closed, MatchMenu;
    var header := "menuentry \"" + title + "\" {";
    TitleLine(title);
    SplitClosed(header, more);
    var e := [Entry(title, "")];
    assert e[..0] == [] && "" + "\n" + Split(more).preamble == "\n" + Split(more).preamble;
  }

  lemma FourLines(s: string, a: string, b: string, c: string, d: string, tail: seq<string>)
    requires tail != [] && Lines(s) == [a, b, c, d] + tail
    ensures s == a + "\n" + (b + "\n" + (c + "\n" + (d + "\n" + Unlines(tail))))
  {
    hide Lines, Unlines;
    UnlinesOfLines(s);
    UnlinesFirst(a, [b, c, d] + tail);
    UnlinesFirst(b, [c, d] + tail);
    UnlinesFirst(c, [d] + tail);
    UnlinesFirst(d, tail);
    assert [a, b, c, d] + tail == [a] + ([b, c, d] + tail);
    assert [b, c, d] + tail == [b] + ([c, d] + tail);
    assert [c, d] + tail == [c] + ([d] + tail);
  }

  lemma WrittenText(written: string, kernel: string, rest: seq<string>) returns (more: string, after: string)
    requires rest != []
    requires Lines(written) == ["set default=\"0\"", "set timeout=1", "", QA_HEADER] + (Lines(kernel) + rest)
    ensures written == "set default=\"0\"" + "\n" + ("set timeout=1" + "\n" + ("" + "\n" + (QA_HEADER + "\n" + more)))
    ensures more == kernel + "\n" + after
  {
    hide *;
    more, after := Unlines(Lines(kernel) + rest), Unlines(rest);
    FourLines(written, "set default=\"0\"", "set timeout=1", "", QA_HEADER, Lines(kernel) + rest);
    UnlinesOfLines(kernel);
    UnlinesJoin(Lines(kernel), rest);
  }

  lemma UnlinesFirst(line: string, rest: seq<string>)
    requires rest != []
    ensures Unlines([line] + rest) == line + "\n" + Unlines(rest)
  {
    assert ([line] + rest)[1..] == rest;
  }

  lemma {:induction false} UnlinesJoin(a: seq<string>, b: seq<string>)
    requires a != [] && b != []
    ensures Unlines(a + b) == Unlines(a) + "\n" + Unlines(b)
    decreases |a|
  {
    assert a + b == [a[0]] + (a[1..] + b);
    UnlinesFirst(a[0], a[1..] + b);
    if |a| == 1 {
      assert a[1..] + b == b;
    } else {
      UnlinesJoin(a[1..], b);
      assert a == [a[0]] + a[1..];
      UnlinesFirst(a[0], a[1..]);
    }
  }

  lemma MovedIsGood(d: Directive)
    requires GoodDirective("linux", d)
    ensures GoodDirective("linux", d.(lead := "\n" + d.lead))
  {
    assert IsSpace('\n');
    hide IsSpace, MatchWord, GoodKeyword;
    var lead := "\n" + d.lead;
    forall c | c in lead ensures IsSpace(c) { assert c == '\n' || c in d.lead; }
  }

  lemma MovedText(d: Directive, rest: string)
    ensures d.(lead := "\n" + d.lead).Text() + rest == "\n" + (d.Text() + rest)
  {
  }

  lemma NewlineFirst(d: Directive, rest: string)
    requires GoodDirective("linux", d) && rest != "" && rest[0] == '\n'
    ensures FindDirective("linux", "\n" + (d.Text() + rest), true) == Some(d.(lead := "\n" + d.lead))
  {
    hide GoodDirective, MatchDirective, Directive.Text;
    MovedIsGood(d);
    MovedText(d, rest);
    DirectiveRoundTrip("linux", d.(lead := "\n" + d.lead), rest);
  }

  lemma HeaderIsQa()
    ensures QA_HEADER == "menuentry \"" + "Serein Alpha (qa-serial-boot-smoke)" + "\" {"
    ensures NoQuotes("Serein Alpha (qa-serial-boot-smoke)")
  {
    TitleHasNoQuotes();
    hide NoQuotes;
  }

  lemma TitleHasNoQuotes()
    ensures NoQuotes("Serein Alpha (qa-serial-boot-smoke)")
  {
  }

  /**
    The menu of a QA configuration: its first entry has the QA title, and, unless a menu header hides in
    its kernel line, boots with that line.
   */
  lemma FirstEntryIsQa(written: string, kernel: Directive, initrd: Directive, original: seq<string>)
    requires GoodDirective("linux", kernel) && QaLines(Lines(written), kernel, initrd, original)
    ensures var (menu, line) := (Split(written).entries, kernel.(args := QaArgs(kernel.args)));
      && menu != [] && menu[0].title == "Serein Alpha (qa-serial-boot-smoke)"
      && (Plain(line.Text()) ==> FindDirective("linux", menu[0].body, true) == Some(line.(lead := "\n" + line.lead)))
  {
    hide Lines, Split, Plain, FindDirective, QaArgs, GoodDirective, QA_HEADER, KeptLines, Directive.Text;
    var line := kernel.(args := QaArgs(kernel.args));
    QaArgsStayGood(kernel);
    HeaderIsQa();
    var rest := Lines(initrd.Text()) + ["}", ""] + KeptLines(original);
    GroupLines(["set default=\"0\"", "set timeout=1", "", QA_HEADER], Lines(line.Text()), Lines(initrd.Text()),
      KeptLines(original));
    var more, after := WrittenText(written, line.Text(), rest);
    MenuOf(written, more);
    if Plain(line.Text()) {
      PlainLineFirst(line.Text(), after);
      var tail := "\n" + Split(after).preamble;
      assert "\n" + (line.Text() + "\n" + Split(after).preamble) == "\n" + (line.Text() + tail);
      NewlineFirst(line, tail);
    }
  }

  lemma GroupLines(top: seq<string>, k: seq<string>, i: seq<string>, o: seq<string>)
    ensures top + k + i + ["}", ""] + o == top + (k + (i + ["}", ""] + o))
  {
  }

  lemma MenuOf(written: string, more: string)
    requires written == "set default=\"0\"" + "\n" + ("set timeout=1" + "\n" + ("" + "\n" + (QA_HEADER + "\n" + more)))
    ensures Split(written).entries
      == [Entry("Serein Alpha (qa-serial-boot-smoke)", "\n" + Split(more).preamble)] + Split(more).entries
  {
    hide Split, Plain, QA_HEADER, NoQuotes;
    HeaderIsQa();
    HeaderFirst("Serein Alpha (qa-serial-boot-smoke)", more);
    PlainWithoutY("set default=\"0\"");
    PlainWithoutY("set timeout=1");
    PlainWithoutY("");
    PlainLineFirst("", QA_HEADER + "\n" + more);
    PlainLineFirst("set timeout=1", "" + "\n" + (QA_HEADER + "\n" + more));
    PlainLineFirst("set default=\"0\"", "set timeout=1" + "\n" + ("" + "\n" + (QA_HEADER + "\n" + more)));
  }
}
