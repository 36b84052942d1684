/**
  The boot-flag report as it is spelled, beyond single quotes: every way to write a word, what is no
  word at all, which line is blamed, and the command that comes out of it (`parse_el_torito_report`
  and `build_rebuild_command` of `src/serein/distribution/iso.py`).
 */
module ReportWords {
  import opened Text
  import opened Shlex
  import opened Rebuild

  // ----- words (section 2.2 of the POSIX Shell Command Language) -----

  /** Inside double quotes: a character, or a backslash and the character after it. */
  datatype Item = Raw(c: char) | Slash(c: char)

  datatype Part = Bare(text: string) | Escape(c: char) | Single(text: string) | Double(items: seq<Item>)
  {
    ghost predicate Valid() {
      match this
      case Bare(text) => text != "" && forall c :: c in text ==> !IsBlank(c) && !IsQuote(c) && c != '\\'
      case Escape(_) => true
      case Single(text) => '\'' !in text
      case Double(items) => ItemsValid(items)
    }

    function Render(): string {
      match this
      case Bare(text) => text
      case Escape(c) => ['\\', c]
      case Single(text) => "'" + (text + "'")
      case Double(items) => "\"" + (RenderItems(items) + "\"")
    }

    function Value(): string {
      match this
      case Bare(text) => text
      case Escape(c) => [c]
      case Single(text) => text
      case Double(items) => ItemsValue(items)
    }
  }

  ghost predicate ItemsValid(items: seq<Item>) {
    forall i :: i in items && i.Raw? ==> i.c != '"' && i.c != '\\'
  }

  function RenderItems(items: seq<Item>): string {
    if items == [] then ""
    else (match items[0] case Raw(c) => [c] case Slash(c) => ['\\', c]) + RenderItems(items[1..])
  }

  /** A backslash keeps its meaning only before itself and before the quote. */
  function ItemsValue(items: seq<Item>): string {
    if items == [] then ""
    else
      (match items[0]
       case Raw(c) => [c]
       case Slash(c) => if c == '\\' || c == '"' then [c] else ['\\', c]) + ItemsValue(items[1..])
  }

  function RenderParts(parts: seq<Part>): string {
    if parts == [] then "" else parts[0].Render() + RenderParts(parts[1..])
  }

  function ValueOf(parts: seq<Part>): string {
    if parts == [] then "" else parts[0].Value() + ValueOf(parts[1..])
  }

  ghost predicate IsWord(parts: seq<Part>) {
    parts != [] && forall p :: p in parts ==> p.Valid()
  }

  lemma {:induction false} LexBare(text: string, rest: string, acc: string, quoted: bool)
    requires forall c :: c in text ==> !IsBlank(c) && !IsQuote(c) && c != '\\'
    ensures Lex(text + rest, Word, acc, quoted) == Lex(rest, Word, acc + text, quoted)
    decreases |text|
  {
    hide IsBlank, IsQuote;
    if text == "" {
      assert text + rest == rest && acc + text == acc;
    } else {
      assert (text + rest)[1..] == text[1..] + rest && text[0] in text;
      LexBare(text[1..], rest, acc + [text[0]], quoted);
      assert acc + [text[0]] + text[1..] == acc + text;
    }
  }

  lemma {:induction false} LexSingle(text: string, rest: string, acc: string)
    requires '\'' !in text
    ensures Lex(text + ("'" + rest), Quoted('\''), acc, true) == Lex(rest, Word, acc + text, true)
    decreases |text|
  {
    hide IsBlank, IsQuote;
    var s := text + ("'" + rest);
    if text == "" {
      assert s == "'" + rest && s[1..] == rest && acc + text == acc;
    } else {
      assert s[1..] == text[1..] + ("'" + rest) && text[0] in text;
      LexSingle(text[1..], rest, acc + [text[0]]);
      assert acc + [text[0]] + text[1..] == acc + text;
    }
  }

  lemma LexSlash(c: char, rest: string, acc: string)
    ensures Lex(['\\', c] + rest, Quoted('"'), acc, true)
      == Lex(rest, Quoted('"'), acc + if c == '\\' || c == '"' then [c] else ['\\', c], true)
  {
    var s := ['\\', c] + rest;
    assert s[1..] == [c] + rest && s[1..][1..] == rest;
  }

  lemma LexRaw(c: char, rest: string, acc: string)
    requires c != '"' && c != '\\'
    ensures Lex([c] + rest, Quoted('"'), acc, true) == Lex(rest, Quoted('"'), acc + [c], true)
  {
    assert ([c] + rest)[1..] == rest;
  }

  lemma LexQuoteEnd(q: char, rest: string, acc: string)
    ensures Lex([q] + rest, Quoted(q), acc, true) == Lex(rest, Word, acc, true)
  {
    assert ([q] + rest)[1..] == rest;
  }

  lemma Group(a: string, b: string, c: string)
    ensures a + b + c == a + (b + c)
  {
  }

  lemma {:induction false} LexDouble(items: seq<Item>, rest: string, acc: string)
    requires ItemsValid(items)
    ensures Lex(RenderItems(items) + ("\"" + rest), Quoted('"'), acc, true)
      == Lex(rest, Word, acc + ItemsValue(items), true)
    decreases |items|
  {
    hide Lex;
    var end := "\"" + rest;
    if items == [] {
      assert RenderItems(items) + end == end == ['"'] + rest && acc + "" == acc;
      LexQuoteEnd('"', rest, acc);
    } else {
      var tail := items[1..];
      assert items[0] in items && ItemsValid(tail);
      match items[0]
      case Raw(c) =>
        Group([c], RenderItems(tail), end);
        LexRaw(c, RenderItems(tail) + end, acc);
        LexDouble(tail, rest, acc + [c]);
        Group(acc, [c], ItemsValue(tail));
      case Slash(c) =>
        var v := if c == '\\' || c == '"' then [c] else ['\\', c];
        Group(['\\', c], RenderItems(tail), end);
        LexSlash(c, RenderItems(tail) + end, acc);
        LexDouble(tail, rest, acc + v);
        Group(acc, v, ItemsValue(tail));
    }
  }

  lemma LexOpen(q: char, rest: string, acc: string, quoted: bool)
    requires IsQuote(q)
    ensures Lex([q] + rest, Word, acc, quoted) == Lex(rest, Quoted(q), acc, true)
  {
    assert ([q] + rest)[1..] == rest;
  }

  lemma LexEscape(c: char, rest: string, acc: string, quoted: bool)
    ensures Lex(['\\', c] + rest, Word, acc, quoted) == Lex(rest, Word, acc + [c], quoted)
  {
    var s := ['\\', c] + rest;
    assert s[1..] == [c] + rest && s[1..][1..] == rest;
  }

  lemma LexPart(p: Part, rest: string, acc: string, quoted: bool)
    requires p.Valid()
    ensures Lex(p.Render() + rest, Word, acc, quoted)
      == Lex(rest, Word, acc + p.Value(), quoted || p.Single? || p.Double?)
  {
    hide Lex;
    match p
    case Bare(text) => LexBare(text, rest, acc, quoted);
    case Escape(c) => LexEscape(c, rest, acc, quoted);
    case Single(text) =>
      assert p.Render() + rest == ['\''] + (text + ("'" + rest));
      LexOpen('\'', text + ("'" + rest), acc, quoted);
      LexSingle(text, rest, acc);
    case Double(items) =>
      assert p.Render() + rest == ['"'] + (RenderItems(items) + ("\"" + rest));
      LexOpen('"', RenderItems(items) + ("\"" + rest), acc, quoted);
      LexDouble(items, rest, acc);
  }

  lemma NoBlanks()
    ensures !IsBlank('\\') && !IsBlank('\'') && !IsBlank('"')
  {
  }

  /** Whether a word has a quoted part, so that it is a token even if it is empty. */
  predicate HasQuotes(parts: seq<Part>) {
    exists i :: 0 <= i < |parts| && (parts[i].Single? || parts[i].Double?)
  }

  lemma {:induction false} LexParts(parts: seq<Part>, rest: string, acc: string, quoted: bool)
    requires forall p :: p in parts ==> p.Valid()
    ensures Lex(RenderParts(parts) + rest, Word, acc, quoted)
      == Lex(rest, Word, acc + ValueOf(parts), quoted || HasQuotes(parts))
    decreases |parts|
  {
    hide Part.Valid, Part.Render, Part.Value;
    if parts == [] {
      assert "" + rest == rest && acc + "" == acc;
    } else {
      var tail := RenderParts(parts[1..]) + rest;
      assert RenderParts(parts) + rest == parts[0].Render() + tail;
      LexPart(parts[0], tail, acc, quoted);
      LexParts(parts[1..], rest, acc + parts[0].Value(), quoted || parts[0].Single? || parts[0].Double?);
      assert acc + parts[0].Value() + ValueOf(parts[1..]) == acc + ValueOf(parts);
      QuotesCons(parts);
    }
  }

  lemma QuotesCons(parts: seq<Part>)
    requires parts != []
    ensures HasQuotes(parts) <==> parts[0].Single? || parts[0].Double? || HasQuotes(parts[1..])
  {
    var tail := parts[1..];
    if i :| 0 <= i < |tail| && (tail[i].Single? || tail[i].Double?) {
      assert parts[i + 1] == tail[i];
    }
    if i :| 0 <= i < |parts| && (parts[i].Single? || parts[i].Double?) {
      if i > 0 { assert tail[i - 1] == parts[i]; }
    }
  }

  lemma PartSays(p: Part)
    requires p.Valid()
    ensures p.Render() != "" && !IsBlank(p.Render()[0])
    ensures p.Value() != "" || p.Single? || p.Double?
  {
    NoBlanks();
    if p.Bare? { assert p.text[0] in p.text; }
  }

  lemma WordSays(parts: seq<Part>)
    requires IsWord(parts)
    ensures RenderParts(parts) != "" && !IsBlank(RenderParts(parts)[0])
    ensures ValueOf(parts) != "" || HasQuotes(parts)
  {
    hide Part.Valid, Part.Render, Part.Value, IsBlank;
    PartSays(parts[0]);
  }

  lemma FromBlank(s: string)
    requires s != "" && !IsBlank(s[0])
    ensures Lex(s, Blank, "", false) == Lex(s, Word, "", false)
  {
    hide IsBlank;
    assert "" + [s[0]] == [s[0]];
  }

  lemma {:induction false} SkipGap(gap: string, rest: string)
    requires forall c :: c in gap ==> IsBlank(c)
    ensures Lex(gap + rest, Blank, "", false) == Lex(rest, Blank, "", false)
    decreases |gap|
  {
    hide IsBlank;
    if gap == "" {
      assert gap + rest == rest;
    } else {
      assert (gap + rest)[1..] == gap[1..] + rest && gap[0] in gap;
      SkipGap(gap[1..], rest);
    }
  }

  /** Words, each after some blanks; only the first may stand at the very start. */
  datatype Placed = Placed(gap: string, parts: seq<Part>)
  {
    ghost predicate Valid() {
      IsWord(parts) && forall c :: c in gap ==> IsBlank(c)
    }
  }

  ghost predicate LineValid(words: seq<Placed>) {
    && (forall w :: w in words ==> w.Valid())
    && forall i :: 0 < i < |words| ==> words[i].gap != ""
  }

  function RenderWords(words: seq<Placed>): string {
    if words == [] then "" else words[0].gap + (RenderParts(words[0].parts) + RenderWords(words[1..]))
  }

  function Values(words: seq<Placed>): seq<string> {
    if words == [] then [] else [ValueOf(words[0].parts)] + Values(words[1..])
  }

  ghost predicate Ends(rest: string) {
    rest == "" || IsBlank(rest[0])
  }

  lemma AfterWord(rest: string, value: string, quoted: bool)
    requires Ends(rest) && (value != "" || quoted)
    ensures Lex(rest, Word, value, quoted) == Emit(value, Lex(rest, Blank, "", false))
  {
    hide IsBlank;
    assert [value] + [] == [value];
  }

  lemma LexWord(w: Placed, rest: string)
    requires w.Valid() && Ends(rest)
    ensures Lex(w.gap + (RenderParts(w.parts) + rest), Blank, "", false)
      == Emit(ValueOf(w.parts), Lex(rest, Blank, "", false))
  {
    hide IsBlank, Ends, Lex, Emit, Part.Valid, Part.Render, Part.Value;
    var s := RenderParts(w.parts) + rest;
    SkipGap(w.gap, s);
    WordSays(w.parts);
    FromBlank(s);
    LexParts(w.parts, rest, "", false);
    assert "" + ValueOf(w.parts) == ValueOf(w.parts);
    AfterWord(rest, ValueOf(w.parts), HasQuotes(w.parts));
  }

  lemma LineTail(words: seq<Placed>)
    requires words != [] && LineValid(words)
    ensures LineValid(words[1..]) && words[0].Valid()
    ensures |words| > 1 ==> words[1].gap != "" && IsBlank(words[1].gap[0])
  {
    hide IsWord, IsBlank;
    assert words[0] in words;
    if |words| > 1 { assert words[1] in words && words[1].gap[0] in words[1].gap; }
  }

  lemma RestEnds(words: seq<Placed>, end: string)
    requires LineValid(words) && (words != [] ==> words[0].gap != "") && Ends(end)
    ensures Ends(RenderWords(words) + end)
  {
    hide IsWord, IsBlank;
    if words == [] {
      assert "" + end == end;
    } else {
      assert words[0] in words && words[0].gap[0] in words[0].gap;
    }
  }

  lemma {:induction false} LexWords(words: seq<Placed>, end: string)
    requires LineValid(words) && Ends(end)
    ensures Lex(RenderWords(words) + end, Blank, "", false) ==
      match Lex(end, Blank, "", false)
      case None => None
      case Some(more) => Some(Values(words) + more)
    decreases |words|
  {
    hide Lex, Emit, Placed.Valid, IsBlank, LineValid, Ends;
    if words == [] {
      assert "" + end == end;
      assert forall more: seq<string> :: [] + more == more;
    } else {
      var w, rest := words[0], RenderWords(words[1..]) + end;
      LineTail(words);
      RestEnds(words[1..], end);
      LexWord(w, rest);
      RenderedFirst(words, end);
      LexWords(words[1..], end);
      EmitFirst(ValueOf(w.parts), Values(words[1..]), Lex(end, Blank, "", false));
    }
  }

  lemma RenderedFirst(words: seq<Placed>, end: string)
    requires words != []
    ensures RenderWords(words) + end
      == words[0].gap + (RenderParts(words[0].parts) + (RenderWords(words[1..]) + end))
  {
    hide RenderParts;
  }

  lemma EmitFirst(value: string, values: seq<string>, rest: Option<seq<string>>)
    ensures Emit(value, match rest case None => None case Some(more) => Some(values + more))
      == match rest case None => None case Some(more) => Some([value] + values + more)
  {
    match rest
    case None =>
    case Some(more) => assert [value] + (values + more) == [value] + values + more;
  }

  /**
    Tokenizing undoes every spelling: words made of bare, escaped, single-quoted and double-quoted
    parts, with any blanks between and after them, split into their values.
   */
  lemma WordsRoundTrip(words: seq<Placed>, end: string)
    requires LineValid(words) && forall c :: c in end ==> IsBlank(c)
    ensures Shlex.Split(RenderWords(words) + end) == Some(Values(words))
  {
    hide LineValid;
    assert end != "" ==> end[0] in end;
    LexWords(words, end);
    hide IsBlank;
    SkipGap(end, "");
    assert end + "" == end && Values(words) + [] == Values(words);
  }

  // ----- what is no list of words -----

  lemma {:induction false} OpenSingle(text: string, acc: string)
    requires '\'' !in text
    ensures Lex(text, Quoted('\''), acc, true) == None
    decreases |text|
  {
    if text != "" {
      assert text[0] in text;
      OpenSingle(text[1..], acc + [text[0]]);
    }
  }

  lemma {:induction false} OpenDouble(items: seq<Item>, acc: string)
    requires ItemsValid(items)
    ensures Lex(RenderItems(items), Quoted('"'), acc, true) == None
    decreases |items|
  {
    if items != [] {
      hide Lex;
      var tail := items[1..];
      assert items[0] in items && ItemsValid(tail);
      match items[0]
      case Raw(c) =>
        LexRaw(c, RenderItems(tail), acc);
        OpenDouble(tail, acc + [c]);
      case Slash(c) =>
        LexSlash(c, RenderItems(tail), acc);
        OpenDouble(tail, acc + if c == '\\' || c == '"' then [c] else ['\\', c]);
    }
  }

  lemma NoneAfterWords(words: seq<Placed>, end: string)
    requires LineValid(words) && Lex(end, Word, "", false) == None && end != "" && !IsBlank(end[0])
    ensures Shlex.Split(RenderWords(words) + (" " + end)) == None
  {
    assert IsBlank(' ');
    hide Lex, LineValid, IsBlank;
    LexWords(words, " " + end);
    SkipGap(" ", end);
    FromBlank(end);
  }

  /** A line that ends inside quotes, or in a backslash, is refused. */
  lemma UnfinishedIsRefused(words: seq<Placed>, text: string, items: seq<Item>)
    requires LineValid(words) && '\'' !in text && ItemsValid(items)
    ensures Shlex.Split(RenderWords(words) + (" " + ("'" + text))) == None
    ensures Shlex.Split(RenderWords(words) + (" " + ("\"" + RenderItems(items)))) == None
    ensures Shlex.Split(RenderWords(words) + (" " + "\\")) == None
  {
    NoBlanks();
    OpenSingle(text, "");
    OpenDouble(items, "");
    LexOpen('\'', text, "", false);
    LexOpen('"', RenderItems(items), "", false);
    assert Lex("\\", Word, "", false) == None by { assert "\\"[1..] == ""; }
    hide Lex, LineValid, IsBlank, ItemsValid;
    assert "'" + text == ['\''] + text && "\"" + RenderItems(items) == ['"'] + RenderItems(items);
    NoneAfterWords(words, "'" + text);
    NoneAfterWords(words, "\"" + RenderItems(items));
    NoneAfterWords(words, "\\");
  }

  // ----- the report -----

  /** Line `i` is the first that does not split into words. */
  ghost predicate FirstBadLine(lines: seq<string>, i: int) {
    0 <= i < |lines| && LineFlags(lines[i]) == None && forall j :: 0 <= j < i ==> LineFlags(lines[j]).Some?
  }

  lemma {:induction false} BlamedLine(lines: seq<string>)
    ensures AllFlags(lines).Ok? <==> forall l :: l in lines ==> LineFlags(l).Some?
    ensures forall i :: FirstBadLine(lines, i) ==> 0 <= i < |lines| && AllFlags(lines) == Err(BadLine(lines[i]))
    decreases |lines|
  {
    hide LineFlags;
    if lines != [] {
      var n := |lines| - 1;
      BlamedLine(lines[..n]);
      assert lines == lines[..n] + [lines[n]];
      forall i | FirstBadLine(lines, i)
        ensures 0 <= i < |lines| && AllFlags(lines) == Err(BadLine(lines[i]))
      {
        if i < n {
          assert FirstBadLine(lines[..n], i);
        } else {
          forall l | l in lines[..n] ensures LineFlags(l).Some? {
            var j :| 0 <= j < n && lines[..n][j] == l;
            assert lines[j] == l;
          }
        }
      }
    }
  }

  /**
    The report as a whole: it is refused for its first line that is no list of words, or for having no
    token at all; blank lines and comments say nothing.
   */
  lemma ReportMeaning(text: string)
    ensures var lines := SplitLines(text);
      && (forall i :: FirstBadLine(lines, i) ==> 0 <= i < |lines| && ParseReport(text) == Err(BadLine(lines[i])))
      && (ParseReport(text) == Err(NoFlags) <==> AllFlags(lines) == Ok([]))
      && (ParseReport(text).Ok? ==> AllFlags(lines) == ParseReport(text) && ParseReport(text).value != [])
    ensures forall line, t :: Trimmed(t) && Pads(line, t) ==>
      LineFlags(line) == if t == "" || t[0] == '#' then Some([]) else Shlex.Split(t)
  {
    hide SplitLines, AllFlags, LineFlags, FirstBadLine;
    BlamedLine(SplitLines(text));
    NoBadFlags(SplitLines(text));
    forall line, t | Trimmed(t) && Pads(line, t)
      ensures LineFlags(line) == if t == "" || t[0] == '#' then Some([]) else Shlex.Split(t)
    {
      LineOf(line, t);
    }
  }

  lemma LineOf(line: string, t: string)
    requires Trimmed(t) && Pads(line, t)
    ensures LineFlags(line) == if t == "" || t[0] == '#' then Some([]) else Shlex.Split(t)
  {
    hide Strip, Trimmed, Pads, Shlex.Split;
    StripMeans(line, t);
    assert StartsWith(t, "#") <==> t != "" && t[0] == '#';
  }

  lemma {:induction false} NoBadFlags(lines: seq<string>)
    ensures AllFlags(lines) != Err(NoFlags)
    decreases |lines|
  {
    hide LineFlags;
    if lines != [] { NoBadFlags(lines[..|lines| - 1]); }
  }

  // ----- the command -----

  lemma {:induction false} MissingIsLast(flags: seq<string>, owned: set<string>)
    requires Filter(flags, owned).Err?
    ensures flags != [] && Filter(flags, owned) == Err(MissingValue(flags[|flags| - 1]))
    decreases |flags|
  {
    if flags[0] in owned {
      if |flags| > 1 { MissingIsLast(flags[2..], owned); }
    } else {
      MissingIsLast(flags[1..], owned);
    }
  }

  /**
    The rebuild command: an empty flag list is refused, so is one that ends in an odd run of owned
    options, naming the last, and one of which nothing is kept; any other is replayed, without its owned
    options, between the fixed arguments and the output.
   */
  lemma CommandMeaning(tree: string, flags: seq<string>, output: string, volumeId: string)
    ensures var r := RebuildCommand(tree, flags, output, volumeId); var owned := {"-V", "-volid"};
      && (r == Err(NoFlags) <==> flags == [])
      && (TrailingOwned(flags, owned) % 2 == 1 ==>
           flags != [] && r == Err(MissingValue(flags[|flags| - 1])))
      && (flags != [] && TrailingOwned(flags, owned) % 2 == 0 ==>
           exists pieces :: Proper(pieces, owned) && Spell(pieces) == flags &&
             r == if Keep(pieces) == [] then Err(NothingLeft)
               else Ok(["xorriso", "-as", "mkisofs", "-V", volumeId, "-r", "-J", "-joliet-long"] + Keep(pieces)
                 + ["-o", output, tree]))
  {
    assert OWNED == {"-V", "-volid"};
    hide OWNED, TrailingOwned, Proper;
    RefusedIffOddTail(flags, OWNED);
    if Filter(flags, OWNED).Err? {
      MissingIsLast(flags, OWNED);
    } else {
      var pieces := PiecesOf(flags, OWNED);
      FilterOfPieces(pieces, OWNED);
    }
  }
}
