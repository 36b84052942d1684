/**
  Texts in which no menu header can begin: what a derived entry is made of, when every header of
  the original stands on a single line.
 */
module GrubPlain {
  import opened Text
  import opened Grub
  import opened GrubScan

  lemma {:induction false} PlainFrom(s: string, i: nat)
    requires Plain(s) && i <= |s|
    ensures Plain(s[i..])
    decreases i
  {
    hide MatchWord;
    if i > 0 {
      PlainFrom(s[1..], i - 1);
      assert s[1..][i - 1..] == s[i..];
    } else {
      assert s[0..] == s;
    }
  }

  lemma {:induction false} PlainUpTo(s: string, j: nat)
    requires Plain(s) && j <= |s|
    ensures Plain(s[..j])
    decreases |s|
  {
    hide MatchWord;
    if j > 0 {
      PlainUpTo(s[1..], j - 1);
      assert s[..j][1..] == s[1..][..j - 1] && s == s[..j] + s[j..];
      if MatchWord(s[..j], "menuentry") { WordExtends(s[..j], s[j..]); }
    }
  }

  lemma SpaceIsNoLetter(c: char)
    requires IsSpace(c)
    ensures FoldCase(c) !in "menuentry"
  {
  }

  lemma SpaceNoWord(s: string, i: nat)
    requires i < 9 && i < |s| && IsSpace(s[i])
    ensures !MatchWord(s, "menuentry")
  {
    SpaceIsNoLetter(s[i]);
    var w := "menuentry";
    assert FoldCase(w[i]) == w[i] && w[i] in w;
  }

  /** White space stands where the two parts meet. */
  predicate Apart(a: string, b: string) {
    a == "" || b == "" || IsSpace(a[|a| - 1]) || IsSpace(b[0])
  }

  lemma WordNarrows(a: string, b: string)
    requires |a| >= 9 && MatchWord(a + b, "menuentry")
    ensures MatchWord(a, "menuentry")
  {
    assert forall i :: 0 <= i < 9 ==> (a + b)[i] == a[i];
  }

  lemma ShortWord(a: string, b: string)
    requires a != "" && Plain(a) && Apart(a, b)
    ensures !MatchWord(a + b, "menuentry")
  {
    var s := a + b;
    if b == "" {
      assert s == a;
    } else if |a| >= 9 {
      if MatchWord(s, "menuentry") { WordNarrows(a, b); }
    } else if IsSpace(a[|a| - 1]) {
      SpaceNoWord(s, |a| - 1);
    } else if |a| < 9 {
      SpaceNoWord(s, |a|);
    }
  }

  lemma {:induction false} PlainTogether(a: string, b: string)
    requires Plain(a) && Plain(b) && Apart(a, b)
    ensures Plain(a + b)
    decreases |a|
  {
    if a == "" {
      assert a + b == b;
    } else {
      ShortWord(a, b);
      hide MatchWord, IsSpace;
      PlainTogether(a[1..], b);
      assert (a + b)[1..] == a[1..] + b;
    }
  }

  lemma PlainLines(a: string, b: string)
    requires Plain(a) && Plain(b)
    ensures Plain(a + "\n" + b)
  {
    PlainWithoutY("\n");
    hide Plain;
    PlainTogether(a, "\n");
    PlainTogether(a + "\n", b);
  }

  lemma {:induction false} PlainWithoutY(line: string)
    requires 'y' !in line && 'Y' !in line
    ensures Plain(line)
    decreases |line|
  {
    if line != "" {
      if |line| >= 9 { assert line[8] in line; }
      PlainWithoutY(line[1..]);
    }
  }

  lemma {:induction false} PlainWithoutM(line: string)
    requires 'm' !in line && 'M' !in line
    ensures Plain(line)
    decreases |line|
  {
    if line != "" {
      assert line[0] in line && "menuentry"[0] == 'm';
      PlainWithoutM(line[1..]);
    }
  }

  lemma {:induction false} LinesOfPlain(s: string)
    requires Plain(s)
    ensures forall l :: l in Lines(s) ==> Plain(l)
    decreases |s|
  {
    hide Plain;
    var n := UntilChar(s, '\n');
    PlainUpTo(s, n);
    if n < |s| {
      PlainFrom(s, n + 1);
      LinesOfPlain(s[n + 1..]);
    } else {
      assert s[..n] == s;
    }
  }

  // ----- the pieces of a text with single-line headers -----

  ghost predicate PlainConfig(c: Config) {
    Plain(c.preamble) && forall i :: 0 <= i < |c.entries| ==> Plain(c.entries[i].body)
  }

  lemma {:induction false} PreambleIsPrefix(s: string)
    ensures Split(s).preamble <= s
    decreases |s|
  {
    hide MatchMenu;
    if s != "" && MatchMenu(s).None? {
      PreambleIsPrefix(s[1..]);
      assert s == [s[0]] + s[1..];
    }
  }

  lemma {:induction false} PiecesArePlain(line: string)
    requires Closed(line)
    ensures PlainConfig(Split(line))
    decreases |line|
  {
    hide MatchMenu, MatchWord;
    if line != "" {
      match MatchMenu(line)
      case Some(h) => PiecesArePlain(line[h.length..]);
      case None =>
        PiecesArePlain(line[1..]);
        PreambleIsPrefix(line[1..]);
        var rest := Split(line[1..]).preamble;
        assert line == ([line[0]] + rest) + line[1 + |rest|..];
        if MatchWord([line[0]] + rest, "menuentry") { WordExtends([line[0]] + rest, line[1 + |rest|..]); }
        assert ([line[0]] + rest)[1..] == rest;
    }
  }

  lemma JoinIsPlain(a: Config, b: Config)
    requires PlainConfig(a) && PlainConfig(b)
    ensures PlainConfig(Join(a, b))
  {
    hide Plain;
    if a.entries == [] {
      PlainLines(a.preamble, b.preamble);
    } else {
      PlainLines(a.entries[|a.entries| - 1].body, b.preamble);
    }
  }

  lemma {:induction false} SplitAllIsPlain(lines: seq<string>)
    requires lines != [] && forall l :: l in lines ==> Closed(l)
    ensures PlainConfig(SplitAll(lines))
    decreases |lines|
  {
    hide Closed, Split, Join, PlainConfig;
    PiecesArePlain(lines[0]);
    if |lines| > 1 {
      SplitAllIsPlain(lines[1..]);
      JoinIsPlain(Split(lines[0]), SplitAll(lines[1..]));
    }
  }

  // ----- the derived lines -----

  lemma FivePieces(a: string, b: string, c: string, d: string, e: string, rest: string)
    ensures a + b + c + d + e <= a + b + (c + (d + (e + rest)))
  {
    assert a + b + (c + (d + (e + rest))) == a + b + c + d + e + rest;
  }

  lemma GapText(name: string, lead: string, keyword: string, more: string)
    requires GoodKeyword(name, keyword) && forall c :: c in lead ==> IsSpace(c)
    requires MatchGap(name, lead, keyword, more).Some?
    ensures MatchGap(name, lead, keyword, more).value.Text() <= lead + keyword + more
  {
    hide GoodKeyword, GoodDirective, IsSpace, LeadingSpaces, TakeNonSpace, RestOfLine;
    var g := LeadingSpaces(more);
    var path := TakeNonSpace(more[g..]);
    var rest := more[g + |path|..];
    var args := RestOfLine(rest);
    CutAt(more, g);
    assert more[g..][|path|..] == rest;
    CutPrefix(more[g..], path);
    CutPrefix(rest, args);
    FivePieces(lead, keyword, more[..g], path, args, rest[|args|..]);
  }

  lemma CutAt(s: string, i: nat)
    requires i <= |s|
    ensures s == s[..i] + s[i..]
  {
  }

  lemma CutPrefix(s: string, p: string)
    requires p <= s
    ensures s == p + s[|p|..]
  {
  }

  lemma KeywordIsGood(name: string, rest: string)
    requires MatchWord(rest, name)
    ensures GoodKeyword(name, rest[..KeywordLength(name, rest)])
  {
  }

  lemma MatchedText(name: string, s: string)
    requires MatchDirective(name, s).Some?
    ensures MatchDirective(name, s).value.Text() <= s
  {
    hide MatchWord, LeadingSpaces, MatchGap, GoodDirective, KeywordLength, Directive.Text;
    var n := LeadingSpaces(s);
    var rest := s[n..];
    var k := KeywordLength(name, rest);
    KeywordIsGood(name, rest);
    GapText(name, s[..n], rest[..k], rest[k..]);
    assert s[..n] + rest[..k] + rest[k..] == s;
  }

  lemma {:induction false} FoundIsPlain(name: string, s: string, atLineStart: bool)
    requires Plain(s) && FindDirective(name, s, atLineStart).Some?
    ensures Plain(FindDirective(name, s, atLineStart).value.Text())
    decreases |s|
  {
    hide MatchDirective, Directive.Text, MatchWord, GoodDirective;
    if atLineStart && MatchDirective(name, s).Some? {
      MatchedText(name, s);
      var text := MatchDirective(name, s).value.Text();
      PlainUpTo(s, |text|);
      assert s[..|text|] == text;
    } else {
      FoundIsPlain(name, s[1..], s[0] == '\n');
    }
  }

  lemma {:induction false} PlainWithoutQuiet(w: string, s: string, afterSpace: bool)
    requires Plain(w + s) && (afterSpace ==> w == "" || IsSpace(w[|w| - 1]))
    ensures Plain(w + RemoveQuiet(s, afterSpace))
    decreases |s|
  {
    hide Plain, IsSpace, LeadingSpaces;
    if s != "" {
      if afterSpace && QuietHere(s) {
        var tail := s[5 + LeadingSpaces(s[5..])..];
        PlainParts(w, s, 0, |s| - |tail|);
        assert w + s[..0] == w && s[|s| - |tail|..] == tail;
        PlainTogether(w, tail);
        PlainWithoutQuiet(w, tail, true);
      } else {
        assert w + s == (w + [s[0]]) + s[1..];
        PlainWithoutQuiet(w + [s[0]], s[1..], IsSpace(s[0]));
        assert w + ([s[0]] + RemoveQuiet(s[1..], IsSpace(s[0]))) == w + [s[0]] + RemoveQuiet(s[1..], IsSpace(s[0]));
      }
    }
  }

  lemma StrippedPrefix(s: string)
    ensures RStrip(s) <= s
  {
  }

  lemma PlainWord(x: string, token: string)
    requires Plain(x) && Plain(token)
    ensures Plain(x + " " + token)
  {
    PlainWithoutY(" ");
    assert IsSpace(' ');
    hide Plain, IsSpace;
    PlainTogether(x, " ");
    PlainTogether(x + " ", token);
  }

  lemma PlainParts(head: string, args: string, i: nat, j: nat)
    requires Plain(head + args) && i <= j <= |args|
    ensures Plain(head + args[..i]) && Plain(args[j..])
  {
    hide Plain;
    var s := head + args;
    assert s[..|head| + i] == head + args[..i] && s[|head| + j..] == args[j..];
    PlainUpTo(s, |head| + i);
    PlainFrom(s, |head| + j);
  }

  lemma PlainWithSerial(head: string, args: string, token: string)
    requires Plain(head + args) && Plain(token)
    ensures Plain(head + AddSerialConsole(args, token))
  {
    hide Plain, IsSpace, RStrip;
    if Find(args, token).None? {
      var i := if Find(args, "---").Some? then Find(args, "---").value else |args|;
      var before, after := RStrip(args[..i]), args[i..];
      StrippedPrefix(args[..i]);
      assert args[..|before|] == before && args[..|args|] == args;
      PlainParts(head, args, |before|, i);
      PlainWord(head + before, token);
      PlainWord(head + before + " " + token, after);
      match Find(args, "---")
      case Some(_) => assert head + (before + " " + token + " " + after) == head + before + " " + token + " " + after;
      case None => assert head + (before + " " + token) == head + before + " " + token;
    }
  }

  lemma SerialIsPlain()
    ensures Plain(SERIAL)
  {
    PlainWithoutM(SERIAL);
  }

  lemma PlainArgs(head: string, args: string)
    requires Plain(head + args) && (args != "" ==> IsSpace(args[0]))
    ensures Plain(head + QaArgs(args))
  {
    SerialIsPlain();
    hide Plain, SERIAL, RemoveQuiet, AddSerialConsole, IsSpace;
    var stripped := RemoveQuiet(args, true);
    if args != "" {
      QuietAfterSpace(args);
      assert head + args == (head + [args[0]]) + args[1..];
      PlainWithoutQuiet(head + [args[0]], args[1..], true);
      assert head + stripped == head + [args[0]] + RemoveQuiet(args[1..], true);
    } else {
      NothingQuiet();
    }
    PlainWithSerial(head, stripped, SERIAL);
  }

  /** Rewriting the arguments of a line brings no header into it. */
  lemma QaLineIsPlain(d: Directive)
    requires GoodDirective("linux", d) && Plain(d.Text())
    ensures Plain(d.(args := QaArgs(d.args)).Text())
  {
    ArgsApart(d);
    hide Plain, QaArgs, GoodDirective, IsSpace;
    PlainArgs(d.lead + d.keyword + d.gap + d.path, d.args);
  }

  lemma ArgsApart(d: Directive)
    requires GoodDirective("linux", d)
    ensures d.args != "" ==> IsSpace(d.args[0])
  {
  }

  lemma QuietAfterSpace(args: string)
    requires args != "" && IsSpace(args[0])
    ensures RemoveQuiet(args, true) == [args[0]] + RemoveQuiet(args[1..], true)
  {
    assert !IsSpace('q');
  }

  lemma NothingQuiet()
    ensures RemoveQuiet("", true) == ""
  {
  }
}
