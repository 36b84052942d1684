/**
  Rewriting a GRUB configuration into QA boot form: `derive_qa_menuentry` and
  `install_qa_entry_as_default` of `src/serein/distribution/qa_boot.py`.
 */
module Grub {
  import opened Text

  const QA_ENTRY_TITLE := "Serein Alpha (qa-serial-boot-smoke)"
  const SERIAL := "console=ttyS0,115200n8"

  /** `w` stands at the start of `s`, ignoring case. */
  predicate MatchWord(s: string, w: string) {
    |w| <= |s| && forall i :: 0 <= i < |w| ==> FoldCase(s[i]) == FoldCase(w[i])
  }

  predicate IsQuote(c: char) {
    c == '"' || c == '\''
  }

  function UntilQuote(s: string): (n: nat)
    ensures n <= |s| && (forall i :: 0 <= i < n ==> !IsQuote(s[i])) && (n < |s| ==> IsQuote(s[n]))
  {
    if s == "" || IsQuote(s[0]) then 0 else 1 + UntilQuote(s[1..])
  }

  function UntilChar(s: string, c: char): (n: nat)
    ensures n <= |s| && (forall i :: 0 <= i < n ==> s[i] != c) && (n < |s| ==> s[n] == c)
  {
    if s == "" || s[0] == c then 0 else 1 + UntilChar(s[1..], c)
  }

  lemma UntilCharTail(s: string, c: char)
    requires s != "" && s[0] != c
    ensures UntilChar(s[1..], c) == UntilChar(s, c) - 1
  {
  }

  // ----- menu entries -----

  datatype Header = Header(title: string, length: nat)

  /** `menuentry\s+["']([^"']*)["'][^{]*\{` at the start of `s`, ignoring case. */
  function MatchMenu(s: string): (r: Option<Header>)
    ensures r.Some? ==> 0 < r.value.length <= |s|
  {
    if !MatchWord(s, "menuentry") then None
    else
      var spaces := LeadingSpaces(s[9..]);
      var open := 9 + spaces;
      if spaces == 0 || open >= |s| || !IsQuote(s[open]) then None
      else
        var close := open + 1 + UntilQuote(s[open + 1..]);
        if close >= |s| then None
        else
          var brace := close + 1 + UntilChar(s[close + 1..], '{');
          if brace >= |s| then None else Some(Header(s[open + 1..close], brace + 1))
  }

  datatype Entry = Entry(title: string, body: string)

  /** A configuration cut at its menu headers: text before the first, then each title and what follows. */
  datatype Config = Config(preamble: string, entries: seq<Entry>)

  function Split(s: string): Config
    decreases |s|
  {
    if s == "" then Config("", [])
    else match MatchMenu(s)
      case Some(h) =>
        var rest := Split(s[h.length..]);
        Config("", [Entry(h.title, rest.preamble)] + rest.entries)
      case None =>
        var rest := Split(s[1..]);
        Config([s[0]] + rest.preamble, rest.entries)
  }

  // ----- the linux and initrd lines -----

  /** `^(\s*linux(?:efi)?\s+)(\S+)(.*)$`: the first group is `lead + keyword + gap`. */
  datatype Directive = Directive(lead: string, keyword: string, gap: string, path: string, args: string) {
    function Text(): string {
      lead + keyword + gap + path + args
    }
  }

  function MatchDirective(name: string, s: string): (r: Option<Directive>)
    ensures r.Some? ==> GoodDirective(name, r.value)
  {
    var n := LeadingSpaces(s);
    if MatchWord(s[n..], name) then MatchKeyword(name, s[..n], s[n..]) else None
  }

  /** `efi` belongs to the keyword if it follows: backing off from it could not match white space. */
  function KeywordLength(name: string, rest: string): (k: nat)
    requires MatchWord(rest, name)
    ensures k <= |rest|
  {
    if MatchWord(rest[|name|..], "efi") then |name| + 3 else |name|
  }

  function MatchKeyword(name: string, lead: string, rest: string): (r: Option<Directive>)
    requires MatchWord(rest, name) && forall c :: c in lead ==> IsSpace(c)
    ensures r.Some? ==> GoodDirective(name, r.value)
  {
    var k := KeywordLength(name, rest);
    MatchGap(name, lead, rest[..k], rest[k..])
  }

  function MatchGap(name: string, lead: string, keyword: string, more: string): (r: Option<Directive>)
    requires GoodKeyword(name, keyword) && forall c :: c in lead ==> IsSpace(c)
    ensures r.Some? ==> GoodDirective(name, r.value)
  {
    var g := LeadingSpaces(more);
    var path := TakeNonSpace(more[g..]);
    if g == 0 || path == "" then None
    else Some(Directive(lead, keyword, more[..g], path, RestOfLine(more[g + |path|..])))
  }

  /** `(.*)`: up to the end of the line. */
  function RestOfLine(s: string): (r: string)
    ensures r <= s && '\n' !in r
  {
    s[..UntilChar(s, '\n')]
  }

  predicate GoodKeyword(name: string, keyword: string) {
    && MatchWord(keyword, name)
    && (|keyword| == |name| || (|keyword| == |name| + 3 && MatchWord(keyword[|name|..], "efi")))
  }

  /** The shape every match has. */
  predicate GoodDirective(name: string, d: Directive) {
    && (forall c :: c in d.lead ==> IsSpace(c))
    && GoodKeyword(name, d.keyword)
    && d.gap != "" && (forall c :: c in d.gap ==> IsSpace(c))
    && d.path != "" && (forall c :: c in d.path ==> !IsSpace(c))
    && '\n' !in d.args && (d.args == "" || IsSpace(d.args[0]))
  }

  function FindDirective(name: string, s: string, atLineStart: bool): (r: Option<Directive>)
    ensures r.Some? ==> GoodDirective(name, r.value)
    decreases |s|
  {
    if atLineStart && MatchDirective(name, s).Some? then MatchDirective(name, s)
    else if s == "" then None
    else FindDirective(name, s[1..], s[0] == '\n')
  }

  // ----- kernel arguments -----

  /** `re.sub(r"(?<!\S)quiet(?!\S)\s*", "", args)`; `afterSpace` looks behind in the original text. */
  function RemoveQuiet(s: string, afterSpace: bool): string
    decreases |s|
  {
    if s == "" then ""
    else if afterSpace && QuietHere(s) then RemoveQuiet(s[5 + LeadingSpaces(s[5..])..], true)
    else [s[0]] + RemoveQuiet(s[1..], IsSpace(s[0]))
  }

  predicate QuietHere(s: string) {
    StartsWith(s, "quiet") && (|s| == 5 || IsSpace(s[5]))
  }

  function AddSerialConsole(args: string, token: string): string {
    if Find(args, token).Some? then args
    else match Find(args, "---")
      case Some(i) => RStrip(args[..i]) + " " + token + " " + args[i..]
      case None => RStrip(args) + " " + token
  }

  function QaArgs(args: string): string {
    AddSerialConsole(RemoveQuiet(args, true), SERIAL)
  }

  // ----- the new entry -----

  datatype Derived = Derived(text: string, kernel: Directive, initrd: Directive) | NoMenuEntry | NoKernelAndInitrd
    | Autoinstall

  function DeriveFrom(entries: seq<Entry>): (r: Derived)
    ensures r.Derived? ==> GoodDirective("linux", r.kernel) && GoodDirective("initrd", r.initrd)
    ensures r.Derived? ==> r.text == QaEntry(r.kernel, r.initrd) && Find(QaArgs(r.kernel.args), "autoinstall").None?
  {
    if entries == [] then NoKernelAndInitrd
    else
      var kernel := FindDirective("linux", entries[0].body, true);
      var initrd := FindDirective("initrd", entries[0].body, true);
      if kernel.None? || initrd.None? then DeriveFrom(entries[1..])
      else if Find(QaArgs(kernel.value.args), "autoinstall").Some? then Autoinstall
      else Derived(QaEntry(kernel.value, initrd.value), kernel.value, initrd.value)
  }

  function QaEntry(kernel: Directive, initrd: Directive): string {
    "menuentry \"" + QA_ENTRY_TITLE + "\" {\n" + kernel.(args := QaArgs(kernel.args)).Text() + "\n" + initrd.Text() +
      "\n}\n"
  }

  function DeriveQaMenuentry(text: string): (r: Derived)
    ensures r.Derived? ==> GoodDirective("linux", r.kernel) && GoodDirective("initrd", r.initrd)
    ensures r.Derived? ==> r.text == QaEntry(r.kernel, r.initrd) && Find(QaArgs(r.kernel.args), "autoinstall").None?
  {
    var entries := Split(text).entries;
    if entries == [] then NoMenuEntry else DeriveFrom(entries)
  }

  // ----- lines -----

  /** The pieces between newline characters; never empty. */
  function Lines(s: string): (r: seq<string>)
    ensures r != [] && forall l :: l in r ==> '\n' !in l
    decreases |s|
  {
    var n := UntilChar(s, '\n');
    if n == |s| then [s] else [s[..n]] + Lines(s[n + 1..])
  }

  function LineCount(s: string): nat {
    |Lines(s)|
  }

  lemma CountFrom(s: string)
    ensures var n := UntilChar(s, '\n'); LineCount(s) == if n == |s| then 1 else 1 + LineCount(s[n + 1..])
  {
    hide UntilChar;
  }

  lemma CountOfFirst(s: string)
    requires s != ""
    ensures LineCount(s) == LineCount(s[1..]) + if s[0] == '\n' then 1 else 0
  {
    hide LineCount, UntilChar;
    CountFrom(s);
    if s[0] != '\n' {
      CountFrom(s[1..]);
      UntilCharTail(s, '\n');
      var n := UntilChar(s, '\n');
      if n < |s| { assert s[1..][n - 1 + 1..] == s[n + 1..]; }
    }
  }

  lemma LinesOfFirst(s: string)
    requires s != ""
    ensures |Lines(s)| == |Lines(s[1..])| + if s[0] == '\n' then 1 else 0
  {
    CountOfFirst(s);
    hide Lines;
  }

  function Unlines(lines: seq<string>): string
    requires lines != []
  {
    if |lines| == 1 then lines[0] else lines[0] + "\n" + Unlines(lines[1..])
  }

  function BlankOne(line: string, prefix: string): string {
    if StartsWith(line, prefix) then "" else line
  }

  function Blank(lines: seq<string>, prefix: string): (r: seq<string>)
    ensures |r| == |lines|
  {
    seq(|lines|, i requires 0 <= i < |lines| => BlankOne(lines[i], prefix))
  }

  /** `re.sub(r"^<prefix>.*$", "", text, flags=re.MULTILINE)`. */
  function BlankLines(text: string, prefix: string): string {
    Unlines(Blank(Lines(text), prefix))
  }

  const DEFAULT := "set default="
  const TIMEOUT := "set timeout="

  function InstallQaEntry(text: string, entry: string): string {
    "set default=\"0\"\nset timeout=1\n\n" + entry + "\n" + BlankLines(BlankLines(text, DEFAULT), TIMEOUT)
  }

  // ----- tokens of a command line -----

  /** `s.split()` when `word` is the part of the current word already read. */
  function Tokens(s: string, word: string): seq<string>
    decreases |s|
  {
    if s == "" then Finish(word)
    else if IsSpace(s[0]) then Finish(word) + Tokens(s[1..], "")
    else Tokens(s[1..], word + [s[0]])
  }

  function Finish(word: string): seq<string> {
    if word == "" then [] else [word]
  }

  function WithoutQuiet(tokens: seq<string>): seq<string> {
    if tokens == [] then []
    else (if tokens[0] == "quiet" then [] else [tokens[0]]) + WithoutQuiet(tokens[1..])
  }

  lemma {:induction false} TokensOfWord(w: string, rest: string, word: string)
    requires forall c :: c in w ==> !IsSpace(c)
    ensures Tokens(w + rest, word) == Tokens(rest, word + w)
    decreases |w|
  {
    if w == "" {
      assert w + rest == rest && word + w == word;
    } else {
      assert (w + rest)[1..] == w[1..] + rest;
      TokensOfWord(w[1..], rest, word + [w[0]]);
      assert word + [w[0]] + w[1..] == word + w;
    }
  }

  lemma {:induction false} TokensSkipSpaces(s: string, n: nat)
    requires n <= |s| && forall i :: 0 <= i < n ==> IsSpace(s[i])
    ensures Tokens(s, "") == Tokens(s[n..], "")
    decreases n
  {
    if n > 0 {
      TokensSkipSpaces(s[1..], n - 1);
      assert s[1..][n - 1..] == s[n..];
      assert [] + Tokens(s[1..], "") == Tokens(s[1..], "");
    } else {
      assert s[0..] == s;
    }
  }

  lemma {:induction false} WithoutQuietAppend(a: seq<string>, b: seq<string>)
    ensures WithoutQuiet(a + b) == WithoutQuiet(a) + WithoutQuiet(b)
    decreases |a|
  {
    if a == [] {
      assert a + b == b;
    } else {
      assert (a + b)[1..] == a[1..] + b;
      WithoutQuietAppend(a[1..], b);
    }
  }

  lemma QuietHereTokens(s: string)
    requires QuietHere(s)
    ensures Tokens(s, "") == ["quiet"] + Tokens(s[5 + LeadingSpaces(s[5..])..], "")
  {
    hide IsSpace, LeadingSpaces;
    var rest := s[5..];
    var n := LeadingSpaces(rest);
    assert s == "quiet" + rest;
    assert forall c :: c in "quiet" ==> !IsSpace(c) by { PlainWord(); }
    TokensOfWord("quiet", rest, "");
    assert "" + "quiet" == "quiet";
    if rest != "" {
      assert Tokens(rest, "quiet") == ["quiet"] + Tokens(rest[1..], "");
      LeadingIsOne(rest);
      TokensSkipSpaces(rest[1..], n - 1);
      assert rest[1..][n - 1..] == rest[n..];
    }
    assert s[5 + n..] == rest[n..];
  }

  lemma PlainWord()
    ensures forall c :: c in "quiet" ==> !IsSpace(c)
  {
  }

  lemma LeadingIsOne(s: string)
    requires s != "" && IsSpace(s[0])
    ensures LeadingSpaces(s) >= 1
    ensures forall i :: 0 <= i < LeadingSpaces(s) - 1 ==> IsSpace(s[1..][i])
  {
  }

  lemma RemoveQuietSpace(s: string, word: string)
    requires s != "" && IsSpace(s[0]) && word != "quiet"
    requires Tokens(RemoveQuiet(s[1..], true), "") == WithoutQuiet(Tokens(s[1..], ""))
    requires !QuietHere(s)
    ensures Tokens(RemoveQuiet(s, word == ""), word) == WithoutQuiet(Tokens(s, word))
  {
    var out := [s[0]] + RemoveQuiet(s[1..], true);
    assert out[1..] == RemoveQuiet(s[1..], true);
    hide RemoveQuiet, QuietHere, IsSpace;
    WithoutQuietAppend(Finish(word), Tokens(s[1..], ""));
    assert WithoutQuiet(Finish(word)) == Finish(word);
  }

  lemma RemoveQuietLetter(s: string, word: string)
    requires s != "" && !IsSpace(s[0]) && (word == "" ==> !QuietHere(s))
    requires var next := word + [s[0]]; Tokens(RemoveQuiet(s[1..], false), next) == WithoutQuiet(Tokens(s[1..], next))
    ensures Tokens(RemoveQuiet(s, word == ""), word) == WithoutQuiet(Tokens(s, word))
  {
    hide WithoutQuiet, QuietHere, IsSpace;
    var out := [s[0]] + RemoveQuiet(s[1..], false);
    assert out[1..] == RemoveQuiet(s[1..], false);
    assert RemoveQuiet(s, word == "") == out;
  }

  lemma SpaceIsNotQuiet(s: string)
    requires s != "" && IsSpace(s[0])
    ensures !QuietHere(s) && TakeNonSpace(s) == ""
  {
  }

  /** What removing `quiet` does to the words, whatever part of a word precedes `s`. */
  lemma {:induction false} RemoveQuietTokens(s: string, word: string)
    requires word != "" ==> word + TakeNonSpace(s) != "quiet"
    ensures Tokens(RemoveQuiet(s, word == ""), word) == WithoutQuiet(Tokens(s, word))
    decreases |s|
  {
    if s == "" {
      assert word + "" == word;
    } else {
      hide *;
      if IsSpace(s[0]) {
        SpaceIsNotQuiet(s);
        NoQuietWord(word);
        RemoveQuietTokens(s[1..], "");
        RemoveQuietSpace(s, word);
      } else if word == "" && QuietHere(s) {
        RemoveQuietTokens(s[5 + LeadingSpaces(s[5..])..], "");
        RemoveQuietWord(s);
      } else {
        if word == "" { NotQuiet(s); }
        NoQuietWord(TakeNonSpace(s));
        NextWord(s, word);
        RemoveQuietTokens(s[1..], word + [s[0]]);
        RemoveQuietLetter(s, word);
      }
    }
  }

  lemma NextWord(s: string, word: string)
    requires s != "" && !IsSpace(s[0])
    ensures word + [s[0]] + TakeNonSpace(s[1..]) == word + TakeNonSpace(s)
  {
    hide IsSpace;
    assert TakeNonSpace(s) == [s[0]] + TakeNonSpace(s[1..]);
  }

  lemma NoQuietWord(word: string)
    ensures "" + word == word && word + "" == word
  {
  }

  lemma RemoveQuietWord(s: string)
    requires QuietHere(s)
    requires var rest := s[5 + LeadingSpaces(s[5..])..];
      Tokens(RemoveQuiet(rest, true), "") == WithoutQuiet(Tokens(rest, ""))
    ensures Tokens(RemoveQuiet(s, true), "") == WithoutQuiet(Tokens(s, ""))
  {
    hide IsSpace, LeadingSpaces, Tokens;
    var rest := s[5 + LeadingSpaces(s[5..])..];
    QuietHereTokens(s);
    WithoutQuietAppend(["quiet"], Tokens(rest, ""));
    assert WithoutQuiet(["quiet"]) == [];
    assert s != "";
  }

  lemma NotQuiet(s: string)
    requires !QuietHere(s)
    ensures TakeNonSpace(s) != "quiet"
  {
  }

  /** The tokens of the arguments without every standalone `quiet`, all others kept in order. */
  lemma QuietIsRemoved(args: string)
    ensures Tokens(RemoveQuiet(args, true), "") == WithoutQuiet(Tokens(args, ""))
  {
    RemoveQuietTokens(args, "");
  }

  lemma {:induction false} TokensAcross(a: string, b: string, word: string)
    requires b != "" && IsSpace(b[0])
    ensures Tokens(a + b, word) == Tokens(a, word) + Tokens(b, "")
    decreases |a|
  {
    hide IsSpace;
    if a == "" {
      assert a + b == b;
      assert Tokens(b, "") == [] + Tokens(b[1..], "") == Tokens(b[1..], "");
    } else {
      assert (a + b)[1..] == a[1..] + b;
      if IsSpace(a[0]) {
        TokensAcross(a[1..], b, "");
        assert Finish(word) + (Tokens(a[1..], "") + Tokens(b, "")) == Finish(word) + Tokens(a[1..], "") + Tokens(b, "");
      } else {
        TokensAcross(a[1..], b, word + [a[0]]);
      }
    }
  }

  lemma {:induction false} TokensOfStripped(s: string)
    ensures Tokens(RStrip(s), "") == Tokens(s, "")
    decreases |s|
  {
    if s != "" && IsSpace(s[|s| - 1]) {
      var front, last := s[..|s| - 1], [s[|s| - 1]];
      TokensOfStripped(front);
      assert s == front + last;
      TokensAcross(front, last, "");
      assert Tokens(last, "") == [];
    }
  }

  /** A token without white space. */
  predicate IsToken(token: string) {
    token != "" && forall c :: c in token ==> !IsSpace(c)
  }

  lemma TokenThen(token: string, rest: string)
    requires IsToken(token)
    requires rest == "" || IsSpace(rest[0])
    ensures Tokens(" " + token + rest, "") == [token] + Tokens(rest, "")
  {
    assert IsSpace(' ');
    hide IsSpace;
    var s := " " + token + rest;
    assert s[1..] == token + rest;
    TokensOfWord(token, rest, "");
    assert "" + token == token;
    assert Tokens(s, "") == [] + Tokens(s[1..], "");
    if rest != "" {
      assert Tokens(rest, token) == [token] + Tokens(rest[1..], "");
      assert Tokens(rest, "") == [] + Tokens(rest[1..], "");
    }
  }

  lemma AppendedToken(before: string, token: string, tail: string)
    requires IsToken(token)
    requires tail == "" || IsSpace(tail[0])
    ensures Tokens(RStrip(before) + (" " + token + tail), "") == Tokens(before, "") + [token] + Tokens(tail, "")
  {
    assert IsSpace(' ');
    hide Tokens, IsToken, RStrip, IsSpace;
    TokensOfStripped(before);
    TokensAcross(RStrip(before), " " + token + tail, "");
    TokenThen(token, tail);
    assert Tokens(before, "") + ([token] + Tokens(tail, "")) == Tokens(before, "") + [token] + Tokens(tail, "");
  }

  /**
    The serial token goes in front of the first `---`, or to the end if there is none; it is added
    only if the text does not contain it anywhere, even inside another word.
   */
  lemma SerialIsAdded(args: string, token: string)
    requires IsToken(token)
    ensures var before := Tokens(args, "");
      var after := Tokens(AddSerialConsole(args, token), "");
      if Contains(args, token) then after == before
      else match Find(args, "---")
        case None => after == before + [token]
        case Some(i) => after == Tokens(args[..i], "") + [token] + Tokens(args[i..], "")
  {
    hide IsToken, Tokens;
    if Find(args, token).None? {
      match Find(args, "---")
      case None =>
        AppendedToken(args, token, "");
        assert RStrip(args) + " " + token == RStrip(args) + (" " + token + "");
        assert Tokens("", "") == [] by { NoTokens(); }
      case Some(i) =>
        SerialBeforeSeparator(args[..i], args[i..], token);
    }
  }

  lemma SerialBeforeSeparator(before: string, after: string, token: string)
    requires IsToken(token)
    ensures Tokens(RStrip(before) + " " + token + " " + after, "") == Tokens(before, "") + [token] + Tokens(after, "")
  {
    var tail := " " + after;
    assert IsSpace(tail[0]);
    hide IsSpace, IsToken, RStrip;
    AppendedToken(before, token, tail);
    assert tail[1..] == after;
    TokensSkipSpaces(tail, 1);
    assert RStrip(before) + " " + token + " " + after == RStrip(before) + (" " + token + tail);
  }

  lemma NoTokens()
    ensures Tokens("", "") == []
  {
  }

  lemma PlainSerial()
    ensures IsToken(SERIAL)
  {
  }

  /** With `---` a word of its own, cutting there keeps the words; the token is simply inserted. */
  lemma CutAtSeparator(args: string, i: nat)
    requires i < |args| && (i == 0 || IsSpace(args[i - 1]))
    ensures Tokens(args, "") == Tokens(args[..i], "") + Tokens(args[i..], "")
  {
    if i > 0 {
      var front, gap := args[..i - 1], [args[i - 1]] + args[i..];
      assert args == front + gap && gap[1..] == args[i..];
      TokensAcross(front, gap, "");
      assert args[..i] == front + [args[i - 1]];
      TokensAcross(front, [args[i - 1]], "");
      assert Tokens([args[i - 1]], "") == [];
    } else {
      assert args[0..] == args;
    }
  }

  lemma {:induction false} TokensGlued(a: string, b: string, word: string)
    requires b != "" && !IsSpace(b[0]) && (if a == "" then word != "" else !IsSpace(a[|a| - 1]))
    ensures |Tokens(a + b, word)| + 1 == |Tokens(a, word)| + |Tokens(b, "")|
    decreases |a|
  {
    hide IsSpace;
    if a == "" {
      assert a + b == b;
      SameCount(b[1..], word + [b[0]], [b[0]]);
      assert "" + [b[0]] == [b[0]];
    } else {
      assert (a + b)[1..] == a[1..] + b;
      if IsSpace(a[0]) {
        TokensGlued(a[1..], b, "");
      } else {
        TokensGlued(a[1..], b, word + [a[0]]);
      }
    }
  }

  lemma {:induction false} SameCount(s: string, v: string, w: string)
    requires v != "" && w != ""
    ensures |Tokens(s, v)| == |Tokens(s, w)|
    decreases |s|
  {
    hide IsSpace;
    if s != "" && !IsSpace(s[0]) { SameCount(s[1..], v + [s[0]], w + [s[0]]); }
  }

  /** Cutting a text keeps its words if and only if the cut is not inside a word. */
  lemma CutKeepsWords(args: string, i: nat)
    requires i < |args| && !IsSpace(args[i])
    ensures Tokens(args, "") == Tokens(args[..i], "") + Tokens(args[i..], "") <==> i == 0 || IsSpace(args[i - 1])
  {
    if i == 0 || IsSpace(args[i - 1]) {
      CutAtSeparator(args, i);
    } else {
      hide IsSpace;
      assert args == args[..i] + args[i..];
      TokensGlued(args[..i], args[i..], "");
    }
  }

  /**
    The derived kernel arguments: the source tokens minus every standalone `quiet`, with the serial
    token, if it was absent, where the first `---` begins; those around it are the source tokens if
    and only if that `---` begins a word.
   */
  lemma QaArgsTokens(args: string)
    ensures var kept := WithoutQuiet(Tokens(args, ""));
      var stripped := RemoveQuiet(args, true);
      var after := Tokens(QaArgs(args), "");
      if Contains(stripped, SERIAL) then after == kept
      else match Find(stripped, "---")
        case None => after == kept + [SERIAL]
        case Some(i) =>
          var left, right := Tokens(stripped[..i], ""), Tokens(stripped[i..], "");
          after == left + [SERIAL] + right && (kept == left + right <==> i == 0 || IsSpace(stripped[i - 1]))
  {
    hide IsSpace, IsToken, SERIAL;
    var stripped := RemoveQuiet(args, true);
    QuietIsRemoved(args);
    PlainSerial();
    SerialIsAdded(stripped, SERIAL);
    match Find(stripped, "---")
    case None =>
    case Some(i) =>
      DashHere(stripped, i);
      CutKeepsWords(stripped, i);
  }

  lemma DashHere(s: string, i: nat)
    requires At(s, i, "---")
    ensures i < |s| && !IsSpace(s[i])
  {
    assert s[i..i + 3][0] == '-';
  }
}
