/**
  Maintaining the internal checksum catalog `md5sum.txt`: `update_checksum_catalog_if_present` of
  `src/serein/distribution/qa_boot.py`.
 */
module Catalog {
  import opened Text
  import opened Utf8
  import opened ExtractedTree

  const CATALOG := "md5sum.txt"

  /** `line.split(None, 1)` when it has two parts. */
  function SplitOnce(line: string): Option<(string, string)> {
    var t := LStrip(line);
    var word := TakeNonSpace(t);
    var rest := LStrip(t[|word|..]);
    if word == "" || rest == "" then None else Some((word, rest))
  }

  /** `s.lstrip("./")`: every leading dot and slash goes. */
  function LStripDotSlash(s: string): string {
    if s != "" && (s[0] == '.' || s[0] == '/') then LStripDotSlash(s[1..]) else s
  }

  /** The line is taken to be about `target`. */
  predicate Refers(line: string, target: string) {
    match SplitOnce(line)
    case None => false
    case Some((_, path)) => LStripDotSlash(Strip(path)) == target
  }

  function NewLine(digest: string, target: string): string {
    digest + "  ./" + target
  }

  function Rewrite(lines: seq<string>, target: string, digest: string): (r: seq<string>)
    ensures |r| == |lines|
  {
    if lines == [] then []
    else
      Rewrite(lines[..|lines| - 1], target, digest) +
      [if Refers(lines[|lines| - 1], target) then NewLine(digest, target) else lines[|lines| - 1]]
  }

  predicate AnyRefers(lines: seq<string>, target: string) {
    exists i :: 0 <= i < |lines| && Refers(lines[i], target)
  }

  /** `"\n".join(lines) + "\n"` for a non-empty list. */
  function Document(lines: seq<string>): string {
    if lines == [] then "" else lines[0] + "\n" + Document(lines[1..])
  }

  function CatalogLines(fs: Fs): seq<string>
    requires fs.IsFile(CATALOG)
  {
    SplitLines(Decode(fs.Read(CATALOG)))
  }

  datatype Update = Updated(done: bool) | Escapes | Crashed

  /** The state after the update, and how it ends; `fault` is what a failing write leaves behind. */
  function UpdateCatalog(fs: Fs, md5: seq<Byte> -> string, modified: Path, fault: Option<seq<Byte>>): (Fs, Update) {
    if !fs.IsFile(CATALOG) then (fs, Updated(false))
    else if fs.canon(CATALOG).None? then (fs, Escapes)
    else
      var target := LStripDotSlash(modified);
      var lines := CatalogLines(fs);
      if !AnyRefers(lines, target) then (fs, Updated(false))
      else if !fs.IsFile(target) then (fs, Crashed)
      else
        var text := Document(Rewrite(lines, target, md5(fs.Read(target))));
        match fault
        case None => (fs.Put(CATALOG, Encode(text)), Updated(true))
        case Some(bytes) => (fs.Put(CATALOG, bytes), Crashed)
  }

  method UpdateChecksumCatalogIfPresent(tree: Tree, md5: seq<Byte> -> string, modified: Path, fault: Option<seq<Byte>>)
    returns (r: Update)
    modifies tree
    ensures (tree.View(), r) == UpdateCatalog(old(tree.View()), md5, modified, fault)
  {
    hide Refers, Document, Decode, SplitLines;
    if !tree.IsFile(CATALOG) {
      return Updated(false);
    }
    if tree.canon(CATALOG).None? {
      return Escapes;
    }
    var target := LStripDotSlash(modified);
    var lines := SplitLines(Decode(tree.Read(CATALOG)));
    var updated, newLines := false, [];
    for i := 0 to |lines|
      invariant tree.View() == old(tree.View())
      invariant updated <==> AnyRefers(lines[..i], target)
      invariant updated ==> tree.IsFile(target)
      invariant newLines == if updated then Rewrite(lines[..i], target, md5(tree.Read(target))) else lines[..i]
      invariant !updated && tree.IsFile(target) ==> lines[..i] == Rewrite(lines[..i], target, md5(tree.Read(target)))
    {
      AnyNext(lines, i, target);
      if Refers(lines[i], target) {
        if !tree.IsFile(target) {
          AnyLater(lines, i + 1, target);
          return Crashed;
        }
        newLines, updated := newLines + [NewLine(md5(tree.Read(target)), target)], true;
      } else {
        newLines := newLines + [lines[i]];
      }
      assert lines[..i + 1][..i] == lines[..i];
    }
    assert lines[..|lines|] == lines;
    if updated {
      var ok := tree.WriteGuarded(CATALOG, Encode(Document(newLines)), fault);
      if !ok {
        return Crashed;
      }
    }
    r := Updated(updated);
  }

  lemma AnyNext(lines: seq<string>, i: nat, target: string)
    requires i < |lines|
    ensures AnyRefers(lines[..i + 1], target) <==> AnyRefers(lines[..i], target) || Refers(lines[i], target)
  {
    hide Refers;
    assert lines[..i + 1][i] == lines[i];
    forall k | 0 <= k < i ensures lines[..i + 1][k] == lines[..i][k] {}
  }

  lemma AnyLater(lines: seq<string>, i: nat, target: string)
    requires i <= |lines| && AnyRefers(lines[..i], target)
    ensures AnyRefers(lines, target)
  {
    hide Refers;
    var k :| 0 <= k < i && Refers(lines[..i][k], target);
    assert lines[k] == lines[..i][k];
  }

  // ----- what a line says, and whether it is true -----

  /** The file a catalog line names, as `md5sum -c` reads it. */
  function FileOf(path: string): Path {
    var p := Strip(path);
    if StartsWith(p, "./") then p[2..] else p
  }

  /** The digest on the line is the digest of the file it names. */
  predicate Matches(line: string, fs: Fs, md5: seq<Byte> -> string) {
    match SplitOnce(line)
    case None => false
    case Some((digest, path)) => fs.IsFile(FileOf(path)) && md5(fs.Read(FileOf(path))) == digest
  }

  /** Hexadecimal digests: one word without line ends. */
  ghost predicate IsDigest(d: string) {
    d != "" && forall c :: c in d ==> 'a' <= c <= 'f' || '0' <= c <= '9'
  }

  /** A path a catalog line can carry: no white space, and not starting with a dot or a slash. */
  ghost predicate IsPlainPath(p: Path) {
    p != "" && p[0] != '.' && p[0] != '/' && forall c :: c in p ==> !IsSpace(c) && !IsLineEnd(c)
  }

  lemma DigestChars(d: string)
    requires IsDigest(d)
    ensures d != "" && NoLineEnd(d) && forall c :: c in d ==> !IsSpace(c)
  {
  }

  lemma DotPath(target: Path)
    requires IsPlainPath(target)
    ensures FileOf("./" + target) == target
  {
    var path := "./" + target;
    assert path[|path| - 1] == target[|target| - 1] && target[|target| - 1] in target;
    assert !IsSpace('.');
    hide IsSpace, LStrip, RStrip, Strip;
    StripNothing(path);
    assert path[2..] == target && path[..2] == "./";
  }

  lemma NewLineReads(digest: string, target: Path)
    requires IsDigest(digest) && IsPlainPath(target)
    ensures SplitOnce(NewLine(digest, target)) == Some((digest, "./" + target))
    ensures FileOf("./" + target) == target
    ensures NoLineEnd(NewLine(digest, target))
  {
    hide *;
    DotPath(target);
    DigestChars(digest);
    PathChars(target);
    NewLineParts(digest, "./" + target);
    NewLineIs(digest, target);
    NoEndsJoin(digest, "  ./");
    NoEndsJoin(digest + "  ./", target);
  }

  lemma NewLineIs(digest: string, target: Path)
    ensures NewLine(digest, target) == digest + "  " + ("./" + target) == digest + "  ./" + target
  {
  }

  lemma PathChars(target: Path)
    requires IsPlainPath(target)
    ensures NoLineEnd(target) && NoLineEnd("  ./")
    ensures var path := "./" + target; path != "" && !IsSpace(path[0])
  {
  }

  lemma NoEndsJoin(a: string, b: string)
    requires NoLineEnd(a) && NoLineEnd(b)
    ensures NoLineEnd(a + b)
  {
  }

  lemma NewLineParts(digest: string, path: string)
    requires digest != "" && (forall c :: c in digest ==> !IsSpace(c))
    requires path != "" && !IsSpace(path[0])
    ensures SplitOnce(digest + "  " + path) == Some((digest, path))
  {
    assert IsSpace(' ');
    hide IsSpace;
    var line := digest + "  " + path;
    var rest := "  " + path;
    assert line == digest + rest && digest[0] in digest;
    TakeNonSpaceOf(digest, rest);
    assert line[|digest|..] == rest && rest[1..][1..] == path;
    assert LStrip(path) == path && LStrip(rest[1..]) == path && LStrip(rest) == path;
  }

  lemma {:induction false} DocumentReads(lines: seq<string>)
    requires forall l :: l in lines ==> NoLineEnd(l)
    ensures SplitLines(Document(lines)) == lines
    decreases |lines|
  {
    hide NoLineEnd, SplitLines;
    if lines == [] {
      NothingToSplit();
    } else {
      DocumentReads(lines[1..]);
      SplitOneLine(lines[0], Document(lines[1..]));
    }
  }

  lemma NothingToSplit()
    ensures SplitLines("") == []
  {
  }

  lemma {:induction false} SplitLinesHaveNoEnds(s: string)
    ensures forall l :: l in SplitLines(s) ==> NoLineEnd(l)
    decreases |s|
  {
    if s != "" {
      var line := TakeLine(s);
      var rest := s[|line|..];
      if rest != "" {
        SplitLinesHaveNoEnds(rest[1..]);
        if "\r\n" <= rest { SplitLinesHaveNoEnds(rest[2..]); }
      }
    }
  }

  lemma {:induction false} RewriteAt(lines: seq<string>, target: string, digest: string, i: nat)
    requires i < |lines|
    ensures Rewrite(lines, target, digest)[i] == if Refers(lines[i], target) then NewLine(digest, target) else lines[i]
    decreases |lines|
  {
    hide Refers;
    if i < |lines| - 1 { RewriteAt(lines[..|lines| - 1], target, digest, i); }
  }

  lemma RewrittenHaveNoEnds(lines: seq<string>, target: Path, digest: string)
    requires IsDigest(digest) && IsPlainPath(target) && forall l :: l in lines ==> NoLineEnd(l)
    ensures forall l :: l in Rewrite(lines, target, digest) ==> NoLineEnd(l)
  {
    hide Refers, NoLineEnd, Rewrite, IsDigest, IsPlainPath, NewLine;
    var rewritten := Rewrite(lines, target, digest);
    NewLineReads(digest, target);
    forall l | l in rewritten ensures NoLineEnd(l) {
      var i :| 0 <= i < |rewritten| && l == rewritten[i];
      RewriteAt(lines, target, digest, i);
    }
  }

  lemma RewrittenCatalog(lines: seq<string>, target: Path, digest: string)
    requires IsDigest(digest) && IsPlainPath(target) && forall l :: l in lines ==> NoLineEnd(l)
    ensures SplitLines(Decode(Encode(Document(Rewrite(lines, target, digest))))) == Rewrite(lines, target, digest)
  {
    hide NoLineEnd, SplitLines, Document, Rewrite, Decode, Encode, IsDigest, IsPlainPath;
    var rewritten := Rewrite(lines, target, digest);
    RewrittenHaveNoEnds(lines, target, digest);
    RoundTrip(Document(rewritten));
    DocumentReads(rewritten);
  }

  // ----- what a line is taken to be about -----

  /** A word, white space, and more; white space may come first. */
  ghost predicate LineParts(line: string, lead: string, word: string, gap: string, rest: string) {
    && line == lead + (word + (gap + rest)) && AllSpaces(lead) && AllSpaces(gap) && gap != ""
    && word != "" && (forall c :: c in word ==> !IsSpace(c)) && rest != "" && !IsSpace(rest[0])
  }

  lemma PartsAreSplit(line: string, lead: string, word: string, gap: string, rest: string)
    requires LineParts(line, lead, word, gap, rest)
    ensures SplitOnce(line) == Some((word, rest))
  {
    assert word[0] in word && gap[0] in gap;
    hide IsSpace;
    var t := word + (gap + rest);
    LStripPadded(lead, t);
    assert LStrip(t) == t;
    TakeNonSpaceOf(word, gap + rest);
    assert t[|word|..] == gap + rest;
    LStripPadded(gap, rest);
    assert LStrip(rest) == rest;
  }

  lemma SplitHasParts(line: string) returns (lead: string, gap: string)
    requires SplitOnce(line).Some?
    ensures LineParts(line, lead, SplitOnce(line).value.0, gap, SplitOnce(line).value.1)
  {
    hide IsSpace, LStrip, TakeNonSpace;
    lead := LStripParts(line);
    var t := LStrip(line);
    var word := TakeNonSpace(t);
    var tail := t[|word|..];
    gap := LStripParts(tail);
    assert t == word + tail;
    assert IsSpace(tail[0]) && !IsSpace(LStrip(tail)[0]);
  }

  lemma {:induction false} DotsDropped(dots: string, target: string)
    requires (forall c :: c in dots ==> c == '.' || c == '/')
    requires target == "" || (target[0] != '.' && target[0] != '/')
    ensures LStripDotSlash(dots + target) == target
    decreases |dots|
  {
    if dots == "" {
      assert dots + target == target;
    } else {
      assert (dots + target)[1..] == dots[1..] + target && dots[0] in dots;
      assert forall c :: c in dots[1..] ==> c in dots;
      DotsDropped(dots[1..], target);
    }
  }

  lemma {:induction false} DotsBefore(s: string) returns (dots: string)
    ensures s == dots + LStripDotSlash(s) && forall c :: c in dots ==> c == '.' || c == '/'
    ensures var t := LStripDotSlash(s); t == "" || (t[0] != '.' && t[0] != '/')
    decreases |s|
  {
    dots := "";
    if s != "" && (s[0] == '.' || s[0] == '/') {
      var more := DotsBefore(s[1..]);
      dots := [s[0]] + more;
    }
  }

  /** The path of a line, stripped, is any number of dots and slashes and then `target`. */
  ghost predicate NamesAfterDots(rest: string, target: string) {
    exists dots :: (forall c :: c in dots ==> c == '.' || c == '/') && Strip(rest) == dots + target
  }

  /**
    A catalog line is taken to be about a path if and only if it is a word, white space and, up to
    white space around it and any dots and slashes before it, that path.
   */
  lemma RefersMeaning(line: string, target: string)
    requires target == "" || (target[0] != '.' && target[0] != '/')
    ensures Refers(line, target) <==>
      exists lead, word, gap, rest :: LineParts(line, lead, word, gap, rest) && NamesAfterDots(rest, target)
  {
    hide Strip, SplitOnce, LineParts;
    if Refers(line, target) {
      var lead, gap := SplitHasParts(line);
      var rest := SplitOnce(line).value.1;
      var dots := DotsBefore(Strip(rest));
      assert NamesAfterDots(rest, target);
    }
    forall lead, word, gap, rest | LineParts(line, lead, word, gap, rest) && NamesAfterDots(rest, target)
      ensures Refers(line, target)
    {
      PartsAreSplit(line, lead, word, gap, rest);
      var dots :| (forall c :: c in dots ==> c == '.' || c == '/') && Strip(rest) == dots + target;
      DotsDropped(dots, target);
    }
  }
}
