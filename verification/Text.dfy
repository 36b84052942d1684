/**
  Text primitives the programs rely on: Python's notion of white space, stripping,
  lower case as far as it can yield ASCII letters, and substring search.
 */
module Text {
  datatype Option<+T> = None | Some(value: T)

  /** The characters `str.isspace` accepts, which are also what `\s` matches. */
  predicate IsSpace(c: char) {
    || '\t' <= c <= '\r'
    || '\U{1C}' <= c <= ' '
    || c == '\U{85}' || c == '\U{A0}' || c == '\U{1680}'
    || '\U{2000}' <= c <= '\U{200A}'
    || c == '\U{2028}' || c == '\U{2029}' || c == '\U{202F}' || c == '\U{205F}' || c == '\U{3000}'
  }

  function LStrip(s: string): (r: string)
    ensures r == [] || !IsSpace(r[0])
    ensures |r| <= |s|
    ensures forall i :: 0 <= i < |s| - |r| ==> IsSpace(s[i])
  {
    if s != [] && IsSpace(s[0]) then LStrip(s[1..]) else s
  }

  function RStrip(s: string): (r: string)
    ensures r == [] || !IsSpace(r[|r| - 1])
    ensures r <= s
    ensures forall i :: |r| <= i < |s| ==> IsSpace(s[i])
  {
    if s != [] && IsSpace(s[|s| - 1]) then RStrip(s[..|s| - 1]) else s
  }

  function Strip(s: string): (r: string)
    ensures r == [] || (!IsSpace(r[0]) && !IsSpace(r[|r| - 1]))
  {
    RStrip(LStrip(s))
  }

  lemma StripNothing(s: string)
    requires s != "" && !IsSpace(s[0]) && !IsSpace(s[|s| - 1])
    ensures LStrip(s) == s && RStrip(s) == s && Strip(s) == s
  {
  }

  /** `text` is `v` with white space around it. */
  ghost predicate Pads(text: string, v: string) {
    exists a, b :: AllSpaces(a) && AllSpaces(b) && text == a + v + b
  }

  ghost predicate AllSpaces(s: string) {
    forall c :: c in s ==> IsSpace(c)
  }

  ghost predicate Trimmed(v: string) {
    v == "" || (!IsSpace(v[0]) && !IsSpace(v[|v| - 1]))
  }

  lemma {:induction false} LStripParts(s: string) returns (a: string)
    ensures AllSpaces(a) && s == a + LStrip(s)
    decreases |s|
  {
    hide IsSpace;
    a := "";
    if s != "" && IsSpace(s[0]) {
      var more := LStripParts(s[1..]);
      a := [s[0]] + more;
    }
  }

  lemma {:induction false} RStripParts(s: string) returns (b: string)
    ensures AllSpaces(b) && s == RStrip(s) + b
    decreases |s|
  {
    hide IsSpace;
    b := "";
    if s != "" && IsSpace(s[|s| - 1]) {
      var more := RStripParts(s[..|s| - 1]);
      b := more + [s[|s| - 1]];
      assert s == s[..|s| - 1] + [s[|s| - 1]];
    }
  }

  lemma {:induction false} LStripPadded(a: string, v: string)
    requires AllSpaces(a)
    ensures LStrip(a + v) == LStrip(v)
    decreases |a|
  {
    hide IsSpace;
    if a == "" {
      assert a + v == v;
    } else {
      assert (a + v)[1..] == a[1..] + v;
      LStripPadded(a[1..], v);
    }
  }

  lemma {:induction false} RStripPadded(v: string, b: string)
    requires AllSpaces(b)
    ensures RStrip(v + b) == RStrip(v)
    decreases |b|
  {
    hide IsSpace;
    if b == "" {
      assert v + b == v;
    } else {
      assert (v + b)[..|v + b| - 1] == v + b[..|b| - 1];
      RStripPadded(v, b[..|b| - 1]);
    }
  }

  lemma StripPadded(a: string, v: string, b: string)
    requires AllSpaces(a) && AllSpaces(b) && Trimmed(v)
    ensures Strip(a + v + b) == v
  {
    hide IsSpace, AllSpaces;
    assert a + v + b == a + (v + b);
    LStripPadded(a, v + b);
    if v == "" {
      assert v + b == b + "" && LStrip("") == "";
      LStripPadded(b, "");
    } else {
      assert LStrip(v + b) == v + b;
      RStripPadded(v, b);
    }
  }

  /** Stripping gives the one trimmed text that the white space surrounds. */
  lemma StripMeans(text: string, v: string)
    ensures Strip(text) == v <==> Trimmed(v) && Pads(text, v)
  {
    hide IsSpace, AllSpaces, LStrip, RStrip;
    if Strip(text) == v {
      var a := LStripParts(text);
      var b := RStripParts(LStrip(text));
      assert text == a + v + b;
    }
    if Trimmed(v) && Pads(text, v) {
      var a, b :| AllSpaces(a) && AllSpaces(b) && text == a + v + b;
      StripPadded(a, v, b);
    }
  }

  function Lower(s: string): (r: string)
    ensures |r| == |s|
  {
    seq(|s|, i requires 0 <= i < |s| => LowerChar(s[i]))
  }

  function LowerChar(c: char): char {
    if 'A' <= c <= 'Z' then c - 'A' + 'a' else if c == '\U{212A}' then 'k' else c
  }

  /** Case-insensitive comparison of Python's `re` restricted to what equals an ASCII letter. */
  function FoldCase(c: char): char {
    if 'A' <= c <= 'Z' then c - 'A' + 'a'
    else if c == '\U{130}' || c == '\U{131}' then 'i'
    else if c == '\U{17F}' then 's'
    else if c == '\U{212A}' then 'k'
    else c
  }

  /** The same character up to the case of an ASCII letter. */
  predicate SameLetter(a: char, b: char) {
    || a == b
    || ('a' <= a <= 'z' && a as int - 'a' as int == b as int - 'A' as int)
    || ('A' <= a <= 'Z' && a as int - 'A' as int == b as int - 'a' as int)
  }

  /** What a pattern that ignores case takes for an ASCII character: its two cases, and four other letters. */
  lemma CaseIsIgnored(c: char, d: char)
    requires c < '\U{80}'
    ensures FoldCase(c) == FoldCase(d) <==>
      || SameLetter(c, d)
      || (SameLetter(c, 'i') && (d == '\U{130}' || d == '\U{131}'))
      || (SameLetter(c, 's') && d == '\U{17F}')
      || (SameLetter(c, 'k') && d == '\U{212A}')
  {
  }

  /** The text as a pattern that ignores case sees it. */
  function Fold(s: string): (r: string)
    ensures |r| == |s|
  {
    seq(|s|, i requires 0 <= i < |s| => FoldCase(s[i]))
  }

  function LeadingSpaces(s: string): (n: nat)
    ensures n <= |s| && forall i :: 0 <= i < n ==> IsSpace(s[i])
    ensures n < |s| ==> !IsSpace(s[n])
  {
    if s == "" || !IsSpace(s[0]) then 0 else 1 + LeadingSpaces(s[1..])
  }

  function TakeNonSpace(s: string): (r: string)
    ensures r <= s && forall i :: 0 <= i < |r| ==> !IsSpace(r[i])
    ensures |r| == |s| || IsSpace(s[|r|])
  {
    if s == "" || IsSpace(s[0]) then "" else [s[0]] + TakeNonSpace(s[1..])
  }

  /** The sub-string `t` starts at position `i` of `s`. */
  predicate At(s: string, i: int, t: string) {
    0 <= i <= |s| - |t| && s[i..i + |t|] == t
  }

  /** Python's `t in s`. */
  ghost predicate Contains(s: string, t: string) {
    exists i :: At(s, i, t)
  }

  /** Python's `s.find(t)`: the first position of `t`, or nothing. */
  function Find(s: string, t: string): (r: Option<nat>)
    ensures r.Some? ==> At(s, r.value, t) && forall i :: 0 <= i < r.value ==> !At(s, i, t)
    ensures r.None? ==> !Contains(s, t)
  {
    FindFrom(s, t, 0)
  }

  function FindFrom(s: string, t: string, i: nat): (r: Option<nat>)
    requires i <= |s|
    ensures r.Some? ==> i <= r.value && At(s, r.value, t) && forall j :: i <= j < r.value ==> !At(s, j, t)
    ensures r.None? ==> forall j :: i <= j ==> !At(s, j, t)
    decreases |s| - i
  {
    if At(s, i, t) then Some(i)
    else if i == |s| then None
    else FindFrom(s, t, i + 1)
  }

  predicate StartsWith(s: string, t: string) {
    t <= s
  }

  lemma {:induction false} LeadingSpacesOf(s: string, n: nat)
    requires n < |s| && (forall i :: 0 <= i < n ==> IsSpace(s[i])) && !IsSpace(s[n])
    ensures LeadingSpaces(s) == n
  {
  }

  lemma {:induction false} TakeNonSpaceOf(w: string, rest: string)
    requires (forall c :: c in w ==> !IsSpace(c)) && (rest == "" || IsSpace(rest[0]))
    ensures TakeNonSpace(w + rest) == w
    decreases |w|
  {
    if w == "" {
      assert w + rest == rest;
    } else {
      assert (w + rest)[1..] == w[1..] + rest;
      TakeNonSpaceOf(w[1..], rest);
    }
  }

  /** A slice of a slice is a slice. */
  lemma SubSlice<T>(s: seq<T>, i: nat, j: nat, a: nat, b: nat)
    requires i <= j <= |s| && a <= b <= j - i
    ensures s[i..j][a..b] == s[i + a..i + b]
  {
    var t, u := s[i..j][a..b], s[i + a..i + b];
    assert forall k :: 0 <= k < b - a ==> t[k] == s[i..j][a + k] && u[k] == s[i + a + k];
    assert t == u;
  }

  // ----- paths as segments -----

  function Slashed(segments: seq<string>): string
    requires segments != []
  {
    if |segments| == 1 then segments[0] else segments[0] + "/" + Slashed(segments[1..])
  }

  ghost predicate AreSegments(segments: seq<string>) {
    segments != [] && forall s :: s in segments ==> '/' !in s
  }

  lemma FirstSlash(a: string, b: string)
    requires '/' !in a
    ensures Find(a + "/" + b, "/") == Some(|a|)
  {
    var s := a + "/" + b;
    assert At(s, |a|, "/");
    forall i | 0 <= i < |a| ensures !At(s, i, "/") { assert s[i..i + 1][0] == a[i]; }
  }

  lemma NoSlash(a: string)
    requires '/' !in a
    ensures Find(a, "/") == None
  {
    match Find(a, "/")
    case None =>
    case Some(i) => SlashAt(a, i);
  }

  lemma SlashAt(a: string, i: nat)
    requires At(a, i, "/")
    ensures '/' in a
  {
    assert a[i..i + 1][0] == '/';
  }

  // ----- str.splitlines -----

  predicate IsLineEnd(c: char) {
    '\n' <= c <= '\r' || '\U{1C}' <= c <= '\U{1E}' || c == '\U{85}' || c == '\U{2028}' || c == '\U{2029}'
  }

  function TakeLine(s: string): (r: string)
    ensures r <= s && (forall c :: c in r ==> !IsLineEnd(c)) && (|r| < |s| ==> IsLineEnd(s[|r|]))
  {
    if s == "" || IsLineEnd(s[0]) then "" else [s[0]] + TakeLine(s[1..])
  }

  function SplitLines(s: string): seq<string>
    decreases |s|
  {
    if s == "" then []
    else
      var line := TakeLine(s);
      var rest := s[|line|..];
      if rest == "" then [line]
      else if "\r\n" <= rest then [line] + SplitLines(rest[2..])
      else [line] + SplitLines(rest[1..])
  }

  ghost predicate NoLineEnd(s: string) {
    forall c :: c in s ==> !IsLineEnd(c)
  }

  lemma {:induction false} TakeWholeLine(line: string, rest: string)
    requires NoLineEnd(line) && (rest != "" ==> IsLineEnd(rest[0]))
    ensures TakeLine(line + rest) == line
    decreases |line|
  {
    hide IsLineEnd;
    if line == "" {
      assert line + rest == rest;
    } else {
      assert (line + rest)[1..] == line[1..] + rest;
      TakeWholeLine(line[1..], rest);
    }
  }

  /** What may end a line in front of `rest`: one character, or a return and a newline together. */
  ghost predicate EndsLine(end: string, rest: string) {
    || end == "\r\n"
    || (|end| == 1 && IsLineEnd(end[0]) && !(end == "\r" && "\n" <= rest))
  }

  lemma ReturnThenNewline(end: string, rest: string)
    requires |end| == 1
    ensures "\r\n" <= end + rest <==> end == "\r" && "\n" <= rest
  {
    var s := end + rest;
    assert "\r\n" <= s <==> |s| >= 2 && s[0] == '\r' && s[1] == '\n';
  }

  /** The lines of a text are what stands between its line ends; an end as the last thing begins no new line. */
  lemma SplitLinesMeaning(line: string, end: string, rest: string)
    requires NoLineEnd(line) && EndsLine(end, rest)
    ensures SplitLines("") == [] && (line != "" ==> SplitLines(line) == [line])
    ensures SplitLines(line + end + rest) == [line] + SplitLines(rest)
  {
    var s := line + end + rest;
    assert IsLineEnd('\r');
    hide IsLineEnd;
    assert line + "" == line;
    TakeWholeLine(line, "");
    assert s == line + (end + rest);
    TakeWholeLine(line, end + rest);
    assert s[|line|..] == end + rest;
    if end == "\r\n" {
      assert (end + rest)[..2] == "\r\n" && (end + rest)[2..] == rest;
    } else {
      assert (end + rest)[1..] == rest;
      ReturnThenNewline(end, rest);
    }
  }

  /** The white space of general punctuation, and the ideographic space. */
  predicate Wide(c: char) {
    || c in "\U{2000}\U{2001}\U{2002}\U{2003}\U{2004}\U{2005}\U{2006}\U{2007}\U{2008}\U{2009}\U{200A}"
    || c in "\U{2028}\U{2029}\U{202F}\U{205F}\U{3000}"
  }

  /** The white space characters, and which of them end a line. */
  lemma CharacterClasses(c: char)
    ensures IsSpace(c) <==> c in "\t\n\U{B}\U{C}\r\U{1C}\U{1D}\U{1E}\U{1F} \U{85}\U{A0}\U{1680}" || Wide(c)
    ensures IsLineEnd(c) <==> c in "\n\U{B}\U{C}\r\U{1C}\U{1D}\U{1E}\U{85}\U{2028}\U{2029}"
  {
  }

  lemma SplitOneLine(line: string, rest: string)
    requires NoLineEnd(line)
    ensures SplitLines(line + "\n" + rest) == [line] + SplitLines(rest)
  {
    SplitLinesMeaning(line, "\n", rest);
  }
}
