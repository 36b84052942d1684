/**
  Reading the boot flags of an ISO: `parse_el_torito_report` of `src/serein/distribution/iso.py`.
  `shlex.split` is modelled as its POSIX-mode state machine (section 2.2 of the POSIX Shell
  Command Language, IEEE Std 1003.1: single quotes, double quotes, escape).
 */
module Shlex {
  import opened Text

  datatype Result<+T> = Ok(value: T) | Err(error: IsoError)

  datatype IsoError =
    | BadLine(line: string)
    | NoFlags
    | MissingValue(option: string)
    | NothingLeft

  // ----- shlex.split -----

  datatype State = Blank | Word | Quoted(quote: char) | Escaped(back: State)

  predicate IsBlank(c: char) {
    c == ' ' || c == '\t' || c == '\r' || c == '\n'
  }

  predicate IsQuote(c: char) {
    c == '\'' || c == '"'
  }

  /** The tokens of `s` when `token` has been read so far in state `st`; nothing on an open quote or escape. */
  function Lex(s: string, st: State, token: string, quoted: bool): Option<seq<string>>
    decreases |s|
  {
    if s == "" then
      match st
      case Blank => Some([])
      case Word => Some(if token != "" || quoted then [token] else [])
      case _ => None
    else
      var c, rest := s[0], s[1..];
      match st
      case Blank =>
        if IsBlank(c) then Lex(rest, Blank, "", false)
        else if c == '\\' then Lex(rest, Escaped(Word), "", false)
        else if IsQuote(c) then Lex(rest, Quoted(c), "", true)
        else Lex(rest, Word, [c], false)
      case Word =>
        if IsBlank(c) then
          if token != "" || quoted then Emit(token, Lex(rest, Blank, "", false)) else Lex(rest, Blank, "", false)
        else if c == '\\' then Lex(rest, Escaped(Word), token, quoted)
        else if IsQuote(c) then Lex(rest, Quoted(c), token, true)
        else Lex(rest, Word, token + [c], quoted)
      case Quoted(q) =>
        if c == q then Lex(rest, Word, token, true)
        else if c == '\\' && q == '"' then Lex(rest, Escaped(st), token, true)
        else Lex(rest, st, token + [c], true)
      case Escaped(back) =>
        if back.Quoted? && c != '\\' && c != back.quote then Lex(rest, back, token + ['\\', c], quoted)
        else Lex(rest, back, token + [c], quoted)
  }

  function Emit(token: string, rest: Option<seq<string>>): Option<seq<string>> {
    match rest
    case None => None
    case Some(ts) => Some([token] + ts)
  }

  function Split(line: string): Option<seq<string>> {
    Lex(line, Blank, "", false)
  }

  // ----- the report -----

  /** The flags of one report line: none for a blank line or a comment. */
  function LineFlags(line: string): Option<seq<string>> {
    var stripped := Strip(line);
    if stripped == "" || StartsWith(stripped, "#") then Some([]) else Split(stripped)
  }

  function AllFlags(lines: seq<string>): Result<seq<string>> {
    if lines == [] then Ok([])
    else
      match AllFlags(lines[..|lines| - 1])
      case Err(e) => Err(e)
      case Ok(front) =>
        match LineFlags(lines[|lines| - 1])
        case None => Err(BadLine(lines[|lines| - 1]))
        case Some(ts) => Ok(front + ts)
  }

  function ParseReport(text: string): Result<seq<string>> {
    match AllFlags(SplitLines(text))
    case Err(e) => Err(e)
    case Ok(flags) => if flags == [] then Err(NoFlags) else Ok(flags)
  }

  lemma {:induction false} ErrorStays(lines: seq<string>, k: nat)
    requires k <= |lines| && AllFlags(lines[..k]).Err?
    ensures AllFlags(lines) == AllFlags(lines[..k])
    decreases |lines|
  {
    if k == |lines| {
      assert lines[..k] == lines;
    } else {
      assert lines[..|lines| - 1][..k] == lines[..k];
      ErrorStays(lines[..|lines| - 1], k);
    }
  }

  method ParseElToritoReport(text: string) returns (r: Result<seq<string>>)
    ensures r == ParseReport(text)
  {
    var lines := SplitLines(text);
    var flags := [];
    for i := 0 to |lines|
      invariant AllFlags(lines[..i]) == Ok(flags)
    {
      hide AllFlags, LineFlags, Split;
      FlagsNext(lines, i);
      var stripped := Strip(lines[i]);
      if stripped == "" || StartsWith(stripped, "#") {
        NoFlagsIn(lines[i]);
        continue;
      }
      FlagsIn(lines[i]);
      match Split(stripped) {
        case None =>
          ErrorStays(lines, i + 1);
          return Err(BadLine(lines[i]));
        case Some(ts) =>
          flags := flags + ts;
      }
    }
    assert lines[..|lines|] == lines;
    r := if flags == [] then Err(NoFlags) else Ok(flags);
  }

  lemma FlagsNext(lines: seq<string>, i: nat)
    requires i < |lines|
    ensures AllFlags(lines[..i + 1]) ==
      match AllFlags(lines[..i])
      case Err(e) => Err(e)
      case Ok(front) =>
        match LineFlags(lines[i])
        case None => Err(BadLine(lines[i]))
        case Some(ts) => Ok(front + ts)
  {
    hide LineFlags;
    assert lines[..i + 1][..i] == lines[..i];
  }

  lemma NoFlagsIn(line: string)
    requires Strip(line) == "" || StartsWith(Strip(line), "#")
    ensures LineFlags(line) == Some([])
    ensures forall ts: seq<string> :: ts + [] == ts
  {
  }

  lemma FlagsIn(line: string)
    requires Strip(line) != "" && !StartsWith(Strip(line), "#")
    ensures LineFlags(line) == Split(Strip(line))
  {
  }

  // ----- rendering, the partner of parsing -----

  /** A quote inside a single-quoted word leaves the quotes, adds `"'"`, and re-enters them. */
  function QuoteBody(token: string): string {
    if token == "" then ""
    else (if token[0] == '\'' then "'\"'\"'" else [token[0]]) + QuoteBody(token[1..])
  }

  function Quote(token: string): string {
    "'" + QuoteBody(token) + "'"
  }

  function RenderTokens(tokens: seq<string>): string {
    if tokens == [] then ""
    else if |tokens| == 1 then Quote(tokens[0])
    else Quote(tokens[0]) + " " + RenderTokens(tokens[1..])
  }

  datatype ReportLine =
    | Flags(tokens: seq<string>)
    | Space(text: string)
    | Comment(indent: string, text: string)
  {
    ghost predicate Valid() {
      match this
      case Flags(tokens) => forall t :: t in tokens ==> NoLineEnd(t)
      case Space(text) => NoLineEnd(text) && forall c :: c in text ==> IsSpace(c)
      case Comment(indent, text) => NoLineEnd(indent) && NoLineEnd(text) && forall c :: c in indent ==> IsSpace(c)
    }

    function Render(): string {
      match this
      case Flags(tokens) => RenderTokens(tokens)
      case Space(text) => text
      case Comment(indent, text) => indent + "#" + text
    }

    function Tokens(): seq<string> {
      if this.Flags? then tokens else []
    }
  }

  function RenderReport(report: seq<ReportLine>): string {
    if report == [] then "" else report[0].Render() + "\n" + RenderReport(report[1..])
  }

  function ReportTokens(report: seq<ReportLine>): seq<string> {
    if report == [] then [] else report[0].Tokens() + ReportTokens(report[1..])
  }

  lemma {:induction false} LexQuoteBody(token: string, rest: string, acc: string)
    ensures Lex(QuoteBody(token) + ("'" + rest), Quoted('\''), acc, true) == Lex(rest, Word, acc + token, true)
    decreases |token|
  {
    var tail := QuoteBody(token) + ("'" + rest);
    if token == "" {
      assert tail == "'" + rest && tail[1..] == rest && acc + "" == acc;
    } else {
      var more := QuoteBody(token[1..]) + ("'" + rest);
      assert acc + [token[0]] + token[1..] == acc + token;
      LexQuoteBody(token[1..], rest, acc + [token[0]]);
      if token[0] == '\'' {
        assert tail == "'\"'\"'" + more;
        LexQuotedQuote(more, acc);
      } else {
        assert tail == [token[0]] + more && tail[1..] == more;
      }
    }
  }

  lemma LexQuotedQuote(more: string, acc: string)
    ensures Lex("'\"'\"'" + more, Quoted('\''), acc, true) == Lex(more, Quoted('\''), acc + ['\''], true)
  {
    var s := "'\"'\"'" + more;
    assert s[1..] == "\"'\"'" + more;
    assert s[1..][1..] == "'\"'" + more;
    assert s[1..][1..][1..] == "\"'" + more;
    assert s[1..][1..][1..][1..] == "'" + more;
    assert s[1..][1..][1..][1..][1..] == more;
    assert Lex(s, Quoted('\''), acc, true) == Lex(s[1..], Word, acc, true);
    assert Lex(s[1..], Word, acc, true) == Lex(s[1..][1..], Quoted('"'), acc, true);
    assert Lex(s[1..][1..], Quoted('"'), acc, true) == Lex(s[1..][1..][1..], Quoted('"'), acc + ['\''], true);
  }

  lemma LexQuote(token: string, rest: string)
    ensures Lex(Quote(token) + rest, Blank, "", false) == Lex(rest, Word, token, true)
  {
    var s := Quote(token) + rest;
    assert s[1..] == QuoteBody(token) + ("'" + rest);
    LexQuoteBody(token, rest, "");
    assert "" + token == token;
  }

  lemma {:induction false} SplitRendered(tokens: seq<string>)
    ensures Split(RenderTokens(tokens)) == Some(tokens)
    decreases |tokens|
  {
    if tokens != [] {
      if |tokens| == 1 {
        LexQuote(tokens[0], "");
        assert Quote(tokens[0]) + "" == Quote(tokens[0]);
        assert Lex("", Word, tokens[0], true) == Some([tokens[0]]);
        assert tokens == [tokens[0]];
      } else {
        var rest := " " + RenderTokens(tokens[1..]);
        SplitRendered(tokens[1..]);
        LexQuote(tokens[0], rest);
        assert Quote(tokens[0]) + " " + RenderTokens(tokens[1..]) == Quote(tokens[0]) + rest;
        assert rest[0] == ' ' && rest[1..] == RenderTokens(tokens[1..]);
        assert Lex(rest, Word, tokens[0], true) == Emit(tokens[0], Lex(rest[1..], Blank, "", false));
        assert [tokens[0]] + tokens[1..] == tokens;
      }
    }
  }

  lemma {:induction false} RenderedEnds(tokens: seq<string>)
    requires tokens != []
    ensures var s := RenderTokens(tokens); s != "" && s[0] == '\'' && s[|s| - 1] == '\''
    decreases |tokens|
  {
    if |tokens| > 1 { RenderedEnds(tokens[1..]); }
  }

  lemma {:induction false} QuoteBodyLines(token: string)
    requires NoLineEnd(token)
    ensures NoLineEnd(QuoteBody(token))
    decreases |token|
  {
    if token != "" { QuoteBodyLines(token[1..]); }
  }

  lemma {:induction false} RenderedLines(tokens: seq<string>)
    requires forall t :: t in tokens ==> NoLineEnd(t)
    ensures NoLineEnd(RenderTokens(tokens))
    decreases |tokens|
  {
    if tokens != [] {
      QuoteBodyLines(tokens[0]);
      RenderedLines(tokens[1..]);
    }
  }

  lemma {:induction false} StripSpaces(s: string, rest: string)
    requires forall c :: c in s ==> IsSpace(c)
    requires rest == "" || !IsSpace(rest[0])
    ensures LStrip(s + rest) == rest
    decreases |s|
  {
    if s == "" {
      assert s + rest == rest;
    } else {
      assert (s + rest)[1..] == s[1..] + rest;
      StripSpaces(s[1..], rest);
    }
  }

  lemma {:induction false} KeepsHead(s: string)
    requires s != "" && !IsSpace(s[0])
    ensures RStrip(s) != "" && RStrip(s)[0] == s[0]
    decreases |s|
  {
    if IsSpace(s[|s| - 1]) { KeepsHead(s[..|s| - 1]); }
  }

  lemma FlagsRoundTrip(tokens: seq<string>)
    requires tokens != []
    ensures LineFlags(RenderTokens(tokens)) == Some(tokens)
  {
    SplitRendered(tokens);
    RenderedEnds(tokens);
    var s := RenderTokens(tokens);
    hide Split, RenderTokens;
    assert LStrip(s) == s && RStrip(s) == s;
  }

  lemma SpaceRoundTrip(text: string)
    requires forall c :: c in text ==> IsSpace(c)
    ensures LineFlags(text) == Some([])
  {
    StripSpaces(text, "");
    assert text + "" == text;
  }

  lemma CommentStrip(indent: string, text: string)
    requires forall c :: c in indent ==> IsSpace(c)
    ensures var s := Strip(indent + "#" + text); s != "" && s[0] == '#'
  {
    StripSpaces(indent, "#" + text);
    KeepsHead("#" + text);
    hide *;
    assert indent + "#" + text == indent + ("#" + text);
    StripIs(indent + "#" + text, "#" + text);
  }

  lemma StripIs(s: string, l: string)
    requires LStrip(s) == l
    ensures Strip(s) == RStrip(l)
  {
  }

  lemma CommentRoundTrip(indent: string, text: string)
    requires forall c :: c in indent ==> IsSpace(c)
    ensures LineFlags(indent + "#" + text) == Some([])
  {
    hide Strip, Split, IsSpace;
    CommentStrip(indent, text);
  }

  lemma LineRoundTrip(line: ReportLine)
    requires line.Valid()
    ensures LineFlags(line.Render()) == Some(line.Tokens()) && NoLineEnd(line.Render())
  {
    hide LineFlags, RenderTokens;
    match line
    case Flags(tokens) =>
      RenderedLines(tokens);
      if tokens != [] {
        FlagsRoundTrip(tokens);
      } else {
        assert RenderTokens(tokens) == "" by { RenderNothing(); }
        SpaceRoundTrip("");
      }
    case Space(text) =>
      SpaceRoundTrip(text);
    case Comment(indent, text) =>
      CommentRoundTrip(indent, text);
  }

  lemma RenderNothing()
    ensures RenderTokens([]) == ""
  {
  }

  lemma {:induction false} AllFlagsCons(line: string, rest: seq<string>)
    requires LineFlags(line).Some? && AllFlags(rest).Ok?
    ensures AllFlags([line] + rest) == Ok(LineFlags(line).value + AllFlags(rest).value)
    decreases |rest|
  {
    hide LineFlags;
    var all := [line] + rest;
    if rest == [] {
      assert all[..0] == [] && AllFlags(all[..0]) == Ok([]);
      assert [] + LineFlags(line).value == LineFlags(line).value + [];
    } else {
      var front := rest[..|rest| - 1];
      assert all[..|all| - 1] == [line] + front;
      AllFlagsCons(line, front);
      var last := rest[|rest| - 1];
      assert all[|all| - 1] == last;
      assert LineFlags(line).value + AllFlags(front).value + LineFlags(last).value
          == LineFlags(line).value + (AllFlags(front).value + LineFlags(last).value);
    }
  }

  lemma {:induction false} LinesRoundTrip(report: seq<ReportLine>)
    requires forall l :: l in report ==> l.Valid()
    ensures AllFlags(SplitLines(RenderReport(report))) == Ok(ReportTokens(report))
    decreases |report|
  {
    if report != [] {
      LinesRoundTrip(report[1..]);
      LineRoundTrip(report[0]);
      SplitOneLine(report[0].Render(), RenderReport(report[1..]));
      AllFlagsCons(report[0].Render(), SplitLines(RenderReport(report[1..])));
    }
  }

  /**
    Tokenizer round trip: any lists of tokens without line ends, quoted and joined into lines,
    with blank and comment lines in between, parse back to all the tokens in order; a report
    without a single token is refused.
   */
  lemma ReportRoundTrip(report: seq<ReportLine>)
    requires forall l :: l in report ==> l.Valid()
    ensures ParseReport(RenderReport(report)) ==
      if ReportTokens(report) == [] then Err(NoFlags)
      else Ok(ReportTokens(report))
  {
    LinesRoundTrip(report);
  }
}
