/**
  What the lines of a torrc mean, as they are written: the syntax of a directive, and what the
  lines of a file say about one option (`_parse_directive_line`, `_evaluate_multi_value` and
  `_evaluate_scalar` of `src/serein/veil/tor.py`).
 */
module TorrcSyntax {
  import opened Text
  import opened Torrc
  import opened TorrcEval

  // ----- one directive -----

  function Sign(op: Op): string {
    match op
    case Set => ""
    case Append => "+"
    case Clear => "/"
  }

  /** The name of an option: an ASCII letter, then ASCII letters and digits. */
  ghost predicate IsName(name: string) {
    && name != "" && ('a' <= name[0] <= 'z' || 'A' <= name[0] <= 'Z')
    && forall c :: c in name ==> 'a' <= c <= 'z' || 'A' <= c <= 'Z' || '0' <= c <= '9'
  }

  /** `line` spells the directive `d`: its sign, its name and, after white space, its value if it has one. */
  ghost predicate Writes(line: string, d: Directive) {
    && IsName(d.name)
    && match d.value
       case None => line == Sign(d.op) + d.name
       case Some(v) =>
         Trimmed(v) && exists rest :: Valued(line, d, rest) && rest != "" && IsSpace(rest[0]) && Pads(rest, v)
  }

  ghost predicate Valued(line: string, d: Directive, rest: string) {
    line == Sign(d.op) + d.name + rest
  }

  lemma {:induction false} TakeNameOf(name: string, rest: string)
    requires (forall c :: c in name ==> IsNameChar(c)) && (rest == "" || !IsNameChar(rest[0]))
    ensures TakeName(name + rest) == name
    decreases |name|
  {
    if name == "" {
      assert name + rest == rest;
    } else {
      assert (name + rest)[1..] == name[1..] + rest;
      TakeNameOf(name[1..], rest);
    }
  }

  lemma {:induction false} TakenNameChars(s: string)
    ensures forall c :: c in TakeName(s) ==> IsNameChar(c)
    decreases |s|
  {
    if s != "" && IsNameChar(s[0]) { TakenNameChars(s[1..]); }
  }

  lemma NameParts(name: string, rest: string)
    requires IsName(name) && (rest == "" || IsSpace(rest[0]))
    ensures TakeName(name + rest) == name && IsLetter(name[0]) && name[0] != '+' && name[0] != '/'
  {
    assert rest != "" ==> !IsNameChar(rest[0]);
    hide IsSpace;
    TakeNameOf(name, rest);
  }

  lemma TakenName(s: string)
    requires TakeName(s) != "" && IsLetter(TakeName(s)[0])
    ensures IsName(TakeName(s))
  {
    TakenNameChars(s);
  }

  lemma BodyOf(op: Op, body: string)
    requires body != "" && body[0] != '+' && body[0] != '/'
    ensures var line := Sign(op) + body;
      op == (if StartsWith(line, "+") then Append else if StartsWith(line, "/") then Clear else Set)
        && (if op == Set then line else line[1..]) == body
  {
    var line := Sign(op) + body;
    if op == Set { assert line == body; } else { assert line[..1] == Sign(op) && line[1..] == body; }
  }

  /** What follows the name of a directive, and what it makes of the value. */
  ghost predicate Follows(line: string, d: Directive, rest: string) {
    && line == Sign(d.op) + d.name + rest
    && (rest == "" || IsSpace(rest[0]))
    && d.value == if rest == "" then None else Some(Strip(rest))
  }

  lemma ParseWritten(line: string, d: Directive, rest: string)
    requires IsName(d.name) && Follows(line, d, rest)
    ensures ParseDirective(line) == Some(d)
  {
    hide IsSpace, Strip, TakeName, IsName, IsLetter;
    var body := d.name + rest;
    NameParts(d.name, rest);
    assert d.name != "" by { NameIsSome(d.name); }
    assert body[|d.name|..] == rest && body[0] == d.name[0];
    assert line == Sign(d.op) + body;
    BodyOf(d.op, body);
  }

  lemma NameIsSome(name: string)
    requires IsName(name)
    ensures name != ""
  {
  }

  lemma SignOf(line: string) returns (op: Op, body: string)
    ensures op == (if StartsWith(line, "+") then Append else if StartsWith(line, "/") then Clear else Set)
    ensures body == (if op == Set then line else line[1..]) && line == Sign(op) + body
  {
    op := if StartsWith(line, "+") then Append else if StartsWith(line, "/") then Clear else Set;
    body := if op == Set then line else line[1..];
    if op == Set { assert line == "" + line; } else { assert line == line[..1] + line[1..]; }
  }

  lemma ParsedParts(line: string, op: Op, body: string) returns (rest: string)
    requires op == (if StartsWith(line, "+") then Append else if StartsWith(line, "/") then Clear else Set)
    requires body == (if op == Set then line else line[1..])
    requires ParseDirective(line).Some?
    ensures var d := ParseDirective(line).value;
      && d.op == op && d.name == TakeName(body) && d.name != "" && IsLetter(d.name[0])
      && body == d.name + rest && (rest == "" || IsSpace(rest[0]))
      && d.value == if rest == "" then None else Some(Strip(rest))
  {
    hide IsSpace, Strip, TakeName, IsLetter, StartsWith;
    rest := body[|TakeName(body)|..];
  }

  lemma ParsedIsWritten(line: string) returns (rest: string)
    requires ParseDirective(line).Some?
    ensures IsName(ParseDirective(line).value.name) && Follows(line, ParseDirective(line).value, rest)
  {
    hide *;
    var op, body := SignOf(line);
    rest := ParsedParts(line, op, body);
    TakenName(body);
    FollowsParts(line, ParseDirective(line).value, body, rest);
  }

  lemma FollowsParts(line: string, d: Directive, body: string, rest: string)
    requires line == Sign(d.op) + body && body == d.name + rest && (rest == "" || IsSpace(rest[0]))
    requires d.value == if rest == "" then None else Some(Strip(rest))
    ensures Follows(line, d, rest)
  {
    hide IsSpace, Strip, Sign;
    assert Sign(d.op) + (d.name + rest) == Sign(d.op) + d.name + rest;
  }

  /**
    The syntax of a directive: a line parses to `d` exactly when it spells `d`, so a line that spells
    no directive parses to nothing.
   */
  lemma DirectiveSyntax(line: string, d: Directive)
    ensures ParseDirective(line) == Some(d) <==> Writes(line, d)
  {
    hide ParseDirective, Strip, IsName, Pads, Trimmed, IsSpace, Sign;
    if ParseDirective(line) == Some(d) {
      var rest := ParsedIsWritten(line);
      if rest == "" {
        assert line == Sign(d.op) + d.name;
      } else {
        StripMeans(rest, Strip(rest));
        assert Valued(line, d, rest);
      }
    }
    if Writes(line, d) {
      match d.value
      case None =>
        assert line == Sign(d.op) + d.name + "";
        ParseWritten(line, d, "");
      case Some(v) =>
        var rest :| Valued(line, d, rest) && rest != "" && IsSpace(rest[0]) && Pads(rest, v);
        StripMeans(rest, v);
        ParseWritten(line, d, rest);
    }
  }

  // ----- names -----

  predicate SameName(a: string, b: string) {
    |a| == |b| && forall i :: 0 <= i < |a| ==> SameLetter(a[i], b[i])
  }

  lemma LettersCompare(a: char, b: char)
    requires a < '\U{80}' && b < '\U{80}'
    ensures LowerChar(a) == LowerChar(b) <==> SameLetter(a, b)
  {
  }

  lemma NamesCompare(a: string, b: string)
    requires IsName(a) && IsName(b)
    ensures Lower(a) == Lower(b) <==> SameName(a, b)
  {
    if |a| == |b| {
      forall i | 0 <= i < |a| ensures Lower(a)[i] == Lower(b)[i] <==> SameLetter(a[i], b[i]) {
        assert a[i] in a && b[i] in b;
        LettersCompare(a[i], b[i]);
      }
      hide LowerChar, SameLetter;
      if SameName(a, b) { assert forall i :: 0 <= i < |a| ==> Lower(a)[i] == Lower(b)[i]; }
    }
  }

  // ----- what the lines of a file say about one option -----

  /** The line is a command about the option `name`. */
  ghost predicate Commands(line: string, name: string, op: Op, value: Option<string>) {
    exists n :: SameName(n, name) && Writes(line, Directive(op, n, value))
  }

  ghost predicate Clears(line: string, name: string) {
    exists value :: Commands(line, name, Clear, value)
  }

  /** The line sets or appends a value other than `0` and nothing. */
  ghost predicate Enables(line: string, name: string) {
    exists v :: v != "0" && v != "" && (Commands(line, name, Set, Some(v)) || Commands(line, name, Append, Some(v)))
  }

  ghost predicate About(line: string, name: string) {
    exists op, value :: Commands(line, name, op, value)
  }

  lemma LineMeans(line: string, name: string)
    requires IsName(name)
    ensures var d := ParseDirective(line); var said := d.Some? && Mentions(d.value, name);
      && (About(line, name) <==> said)
      && (Clears(line, name) <==> said && d.value.op == Clear)
      && (Enables(line, name) <==> said && d.value.op != Clear && Enabling(d.value.value))
  {
    hide ParseDirective, Writes, Lower, SameName, IsName;
    forall op, value ensures Commands(line, name, op, value) <==>
      ParseDirective(line).Some? && Mentions(ParseDirective(line).value, name)
        && ParseDirective(line).value.op == op && ParseDirective(line).value.value == value
    {
      CommandMeans(line, name, op, value);
    }
    var d := ParseDirective(line);
    if d.Some? && Mentions(d.value, name) {
      assert Commands(line, name, d.value.op, d.value.value);
    }
  }

  lemma CommandMeans(line: string, name: string, op: Op, value: Option<string>)
    requires IsName(name)
    ensures Commands(line, name, op, value) <==>
      ParseDirective(line).Some? && Mentions(ParseDirective(line).value, name)
        && ParseDirective(line).value.op == op && ParseDirective(line).value.value == value
  {
    hide ParseDirective, Lower, SameName, IsName;
    if n :| SameName(n, name) && Writes(line, Directive(op, n, value)) {
      DirectiveSyntax(line, Directive(op, n, value));
      NamesCompare(n, name);
    }
    var d := ParseDirective(line);
    if d.Some? && Mentions(d.value, name) && d.value.op == op && d.value.value == value {
      DirectiveSyntax(line, d.value);
      NamesCompare(d.value.name, name);
      assert d.value == Directive(op, d.value.name, value);
    }
  }

  /** A line enables the option and no later line clears it. */
  ghost predicate EnabledBy(lines: seq<string>, name: string, j: int) {
    0 <= j < |lines| && Enables(lines[j], name) && forall k :: j < k < |lines| ==> !Clears(lines[k], name)
  }

  ghost predicate Mentioned(lines: seq<string>, name: string) {
    exists j :: 0 <= j < |lines| && About(lines[j], name)
  }

  lemma EnabledByNext(front: seq<string>, last: string, name: string)
    ensures var lines := front + [last];
      && (Mentioned(lines, name) <==> Mentioned(front, name) || About(last, name))
      && ((exists j :: EnabledBy(lines, name, j)) <==>
           Enables(last, name) || ((exists j :: EnabledBy(front, name, j)) && !Clears(last, name)))
  {
    hide About, Enables, Clears;
    var lines, n := front + [last], |front|;
    assert lines[n] == last && forall k :: 0 <= k < n ==> lines[k] == front[k];
    if Enables(last, name) { assert EnabledBy(lines, name, n); }
    forall j | EnabledBy(front, name, j) && !Clears(last, name) ensures EnabledBy(lines, name, j) {}
    forall j | EnabledBy(lines, name, j) && j < n ensures EnabledBy(front, name, j) && !Clears(last, name) {
      forall k | j < k < n ensures !Clears(front[k], name) { assert lines[k] == front[k]; }
      assert lines[n] == last;
    }
    forall j | EnabledBy(lines, name, j) && j >= n ensures Enables(last, name) {}
  }

  lemma {:induction false} EnabledLines(lines: seq<string>, name: string)
    requires IsName(name)
    ensures (exists i :: EnabledAt(Directives(lines), name, i)) <==> exists j :: EnabledBy(lines, name, j)
    ensures MultiValue(Directives(lines), name).Some? <==> Mentioned(lines, name)
    decreases |lines|
  {
    hide ParseDirective, About, Enables, Clears, IsName, Mentions, EnabledAt, EnabledBy;
    if lines == [] {
      NothingEnabled(name);
    } else {
      var front, last := lines[..|lines| - 1], lines[|lines| - 1];
      assert lines == front + [last];
      EnabledLines(front, name);
      EnabledByNext(front, last, name);
      LineMeans(last, name);
      var ds := Directives(front);
      match ParseDirective(last)
      case None => assert Directives(lines) == ds;
      case Some(d) =>
        assert Directives(lines) == ds + [d] && (ds + [d])[..|ds|] == ds;
        EnabledNext(ds + [d], name);
        MentionedNext(ds, d, name);
    }
  }

  lemma NothingEnabled(name: string)
    ensures !exists i :: EnabledAt([], name, i)
    ensures !exists j :: EnabledBy([], name, j)
    ensures MultiValue([], name).None? && !Mentioned([], name)
  {
  }

  /**
    A multi-value option as the lines spell it: unknown exactly when no line is about it, on exactly
    when some line sets or appends an enabling value and no later line clears the option.
   */
  lemma MultiValueOfLines(lines: seq<string>, name: string)
    requires IsName(name)
    ensures MultiValue(Directives(lines), name) ==
      if Mentioned(lines, name) then Some(exists j :: EnabledBy(lines, name, j)) else None
  {
    hide Directives, EnabledAt, EnabledBy, Mentioned, IsName, Mentions;
    EnabledLines(lines, name);
  }

  // ----- a scalar option -----

  /** The last line about the option. */
  ghost predicate LastAbout(lines: seq<string>, name: string, j: int) {
    0 <= j < |lines| && About(lines[j], name) && forall k :: j < k < |lines| ==> !About(lines[k], name)
  }

  lemma LastAboutNext(front: seq<string>, last: string, name: string, j: int)
    requires LastAbout(front + [last], name, j)
    ensures if About(last, name) then j == |front| else LastAbout(front, name, j)
  {
    hide About;
    var lines := front + [last];
    assert lines[|front|] == last;
    forall k | 0 <= k < |front| ensures lines[k] == front[k] {}
  }

  lemma {:induction false} ScalarRun(lines: seq<string>, name: string)
    requires IsName(name)
    ensures var r := RunLines(ScalarStep(name), None, lines);
      && (!Mentioned(lines, name) ==> r == None)
      && forall j :: LastAbout(lines, name, j) ==>
        r == if Clears(lines[j], name) then None else Some(Enables(lines[j], name))
    decreases |lines|
  {
    hide ParseDirective, About, Enables, Clears, IsName, Mentions;
    if lines != [] {
      var front, last := lines[..|lines| - 1], lines[|lines| - 1];
      assert lines == front + [last];
      ScalarRun(front, name);
      LineMeans(last, name);
      EnabledByNext(front, last, name);
      forall j | LastAbout(lines, name, j)
        ensures RunLines(ScalarStep(name), None, lines)
          == if Clears(lines[j], name) then None else Some(Enables(lines[j], name))
      {
        LastAboutNext(front, last, name, j);
      }
    }
  }

  lemma {:induction false} LastExists(ds: seq<Directive>, name: string) returns (i: int)
    requires exists k :: 0 <= k < |ds| && Mentions(ds[k], name)
    ensures LastMention(ds, name, i)
    decreases |ds|
  {
    hide Mentions;
    i := |ds| - 1;
    if !Mentions(ds[i], name) {
      var front := ds[..i];
      var k :| 0 <= k < |ds| && Mentions(ds[k], name);
      assert front[k] == ds[k];
      var n := i;
      i := LastExists(front, name);
      forall j | i < j < |ds| ensures !Mentions(ds[j], name) {
        if j < n { assert ds[j] == front[j]; }
      }
    }
  }

  lemma ScalarIsUnique(ds: seq<Directive>, name: string, r: Option<bool>, t: Option<bool>)
    requires ScalarMeans(ds, name, r) && ScalarMeans(ds, name, t)
    ensures r == t
  {
    hide Mentions, ScalarOf;
    if exists k :: 0 <= k < |ds| && Mentions(ds[k], name) { var i := LastExists(ds, name); }
  }

  /**
    A scalar option as the lines spell it: the last line about it decides, and gives nothing if it
    clears the option.
   */
  lemma ScalarOfLines(lines: seq<string>, name: string, r: Option<bool>)
    requires IsName(name) && ScalarMeans(Directives(lines), name, r)
    ensures !Mentioned(lines, name) ==> r == None
    ensures forall j :: LastAbout(lines, name, j) ==>
      r == if Clears(lines[j], name) then None else Some(Enables(lines[j], name))
  {
    hide Directives, ScalarMeans, Mentioned, LastAbout, Clears, Enables, IsName;
    ScalarMachine(lines, name);
    ScalarRun(lines, name);
    ScalarIsUnique(Directives(lines), name, r, RunLines(ScalarStep(name), None, lines));
  }

  // ----- the configuration -----

  /** A bridge line: operators, the word bridge in any case, and a blank. */
  ghost predicate SpellsBridge(line: string) {
    exists signs, word, rest :: BridgeParts(line, signs, word, rest)
  }

  ghost predicate BridgeParts(line: string, signs: string, word: string, rest: string) {
    line == signs + (word + (" " + rest)) && (forall c :: c in signs ==> c == '+' || c == '/')
      && SameName(word, "bridge")
  }

  lemma {:induction false} OperatorsDropped(signs: string, rest: string)
    requires (forall c :: c in signs ==> c == '+' || c == '/') && rest != "" && rest[0] != '+' && rest[0] != '/'
    ensures DropOperators(signs + rest) == rest
    decreases |signs|
  {
    if signs == "" {
      assert signs + rest == rest;
    } else {
      assert (signs + rest)[1..] == signs[1..] + rest;
      assert signs[0] in signs && forall c :: c in signs[1..] ==> c in signs;
      OperatorsDropped(signs[1..], rest);
    }
  }

  lemma {:induction false} OperatorsBefore(s: string) returns (signs: string)
    ensures s == signs + DropOperators(s) && forall c :: c in signs ==> c == '+' || c == '/'
    decreases |s|
  {
    signs := "";
    if s != "" && (s[0] == '+' || s[0] == '/') {
      var more := OperatorsBefore(s[1..]);
      signs := [s[0]] + more;
    }
  }

  lemma BridgeLetter(c: char, i: nat)
    requires i < 6
    ensures LowerChar(c) == "bridge"[i] <==> SameLetter(c, "bridge"[i])
  {
  }

  lemma BridgeWord(s: string)
    ensures StartsWith(Lower(s), "bridge ") <==> |s| >= 7 && SameName(s[..6], "bridge") && s[6] == ' '
  {
    if |s| >= 7 {
      var t := Lower(s);
      assert t[6] == ' ' <==> s[6] == ' ';
      forall i: nat | i < 6 ensures t[i] == "bridge"[i] <==> SameLetter(s[i], "bridge"[i]) { BridgeLetter(s[i], i); }
      hide LowerChar, SameLetter;
      assert forall i :: 0 <= i < 7 ==> t[..7][i] == t[i];
      assert forall i :: 0 <= i < 6 ==> "bridge "[i] == "bridge"[i];
      if forall i :: 0 <= i < 7 ==> t[i] == "bridge "[i] { assert t[..7] == "bridge "; }
      assert t[..7] == "bridge " ==> forall i :: 0 <= i < 7 ==> t[..7][i] == "bridge "[i];
    }
  }

  lemma BridgeSyntax(line: string)
    ensures IsBridge(line) <==> SpellsBridge(line)
  {
    hide Lower, SameName, DropOperators;
    if IsBridge(line) {
      var signs := OperatorsBefore(line);
      var s := DropOperators(line);
      BridgeWord(s);
      assert s == s[..6] + (" " + s[7..]);
      assert BridgeParts(line, signs, s[..6], s[7..]);
    }
    if signs, word, rest :| BridgeParts(line, signs, word, rest) {
      var s := word + (" " + rest);
      BridgeHead(word);
      assert s[..6] == word && s[6] == ' ';
      OperatorsDropped(signs, s);
      BridgeWord(s);
    }
  }

  lemma BridgeHead(word: string)
    requires SameName(word, "bridge")
    ensures |word| == 6 && word[0] != '+' && word[0] != '/'
  {
    assert SameLetter(word[0], "bridge"[0]);
  }

  /**
    A torrc whose last lines about the SOCKS port clear it switches the port off, whatever stands
    before; one with an enabling line that no later line clears switches it on.
   */
  lemma SocksPortOfLines(c: TorConfig, present: bool, lines: seq<string>, j: nat)
    requires ConfigMeans(c, present, lines) && j < |lines|
    ensures Clears(lines[j], "SocksPort") && (forall k :: j < k < |lines| ==> !Enables(lines[k], "SocksPort")) ==>
      c.socksPort == Some(false)
    ensures Enables(lines[j], "SocksPort") && (forall k :: j < k < |lines| ==> !Clears(lines[k], "SocksPort")) ==>
      c.socksPort == Some(true)
  {
    hide Directives, MultiValue, ScalarMeans, Commands, IsBridge;
    MultiValueOfLines(lines, "SocksPort");
    if Clears(lines[j], "SocksPort") && forall k :: j < k < |lines| ==> !Enables(lines[k], "SocksPort") {
      ClearedIsAbout(lines[j], "SocksPort");
      forall i ensures !EnabledBy(lines, "SocksPort", i) { EnablesIsNoClear(lines[j], "SocksPort"); }
    }
    if Enables(lines[j], "SocksPort") && forall k :: j < k < |lines| ==> !Clears(lines[k], "SocksPort") {
      ClearedIsAbout(lines[j], "SocksPort");
      assert EnabledBy(lines, "SocksPort", j);
    }
  }

  lemma ClearedIsAbout(line: string, name: string)
    ensures Clears(line, name) || Enables(line, name) ==> About(line, name)
  {
    hide Commands;
  }

  lemma EnablesIsNoClear(line: string, name: string)
    requires Clears(line, name) && IsName(name)
    ensures !Enables(line, name)
  {
    hide Commands, ParseDirective, Lower;
    LineMeans(line, name);
  }

  /** A plus sign adds a value, a slash clears, for every option and every value. */
  lemma SignedLines(name: string, value: string)
    requires IsName(name) && Trimmed(value) && value != "0" && value != ""
    ensures Enables("+" + name + (" " + value), name) && Clears("/" + name, name)
  {
    hide IsName, Trimmed;
    var plus, slash := Directive(Append, name, Some(value)), Directive(Clear, name, None);
    BlankPads(value);
    assert Valued("+" + name + (" " + value), plus, " " + value);
    assert Writes("+" + name + (" " + value), plus) && Writes("/" + name, slash);
    hide Writes;
    assert SameName(name, name);
    assert Commands("+" + name + (" " + value), name, Append, Some(value));
    assert Commands("/" + name, name, Clear, None);
  }

  lemma BlankPads(value: string)
    ensures Pads(" " + value, value) && IsSpace((" " + value)[0])
  {
    assert AllSpaces(" ") && AllSpaces("");
    assert " " + value == " " + value + "";
  }
}
