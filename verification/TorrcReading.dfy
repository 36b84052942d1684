/**
  How the torrc reader of `src/serein/veil/tor.py` takes a line, an include argument and a listing,
  as they are written.
 */
module TorrcReading {
  import opened Text
  import opened Torrc
  import Listing

  // ----- one line of a file -----

  /** `%include`, in any case, white space, an argument without white space, and white space. */
  ghost predicate SpellsInclude(line: string, arg: string) {
    exists word, gap, tail :: IncludeParts(line, word, gap, arg, tail)
  }

  ghost predicate IncludeParts(line: string, word: string, gap: string, arg: string, tail: string) {
    && line == word + (gap + (arg + tail))
    && Fold(word) == "%include" && gap != "" && AllSpaces(gap)
    && arg != "" && (forall c :: c in arg ==> !IsSpace(c)) && AllSpaces(tail)
  }

  lemma IncludeIsParsed(line: string, word: string, gap: string, arg: string, tail: string)
    requires IncludeParts(line, word, gap, arg, tail)
    ensures ParseInclude(line) == Some(arg)
  {
    var rest := arg + tail;
    assert line[..8] == word && line[8..] == gap + rest && line[8] == gap[0] && gap[0] in gap;
    assert rest[0] == arg[0] && arg[0] in arg;
    assert tail != "" ==> tail[0] in tail;
    assert rest[|arg|..] == tail;
    assert tail + "" == tail;
    hide IsSpace, Fold;
    LStripPadded(gap, rest);
    TakeNonSpaceOf(arg, tail);
    LStripPadded(tail, "");
    assert LStrip(rest) == rest && LStrip("") == "";
  }

  lemma ParsedInclude(line: string, arg: string)
    requires ParseInclude(line) == Some(arg)
    ensures SpellsInclude(line, arg)
  {
    hide IsSpace, Fold, LStrip, TakeNonSpace;
    var gap := LStripParts(line[8..]);
    var rest := LStrip(line[8..]);
    var tail := LStripParts(rest[|arg|..]);
    assert rest == arg + tail;
    assert line == line[..8] + (gap + (arg + tail));
    assert gap != "" by { assert gap + rest == line[8..]; }
    assert IncludeParts(line, line[..8], gap, arg, tail);
  }

  /** A line is an include of `arg` exactly when it is spelled that way. */
  lemma IncludeSyntax(line: string, arg: string)
    ensures ParseInclude(line) == Some(arg) <==> SpellsInclude(line, arg)
  {
    hide ParseInclude, IncludeParts;
    if ParseInclude(line) == Some(arg) { ParsedInclude(line, arg); }
    if word, gap, tail :| IncludeParts(line, word, gap, arg, tail) { IncludeIsParsed(line, word, gap, arg, tail); }
  }

  lemma IncludeIsNoComment(line: string, arg: string)
    requires SpellsInclude(line, arg)
    ensures line != "" && line[0] != '#'
  {
    var word, gap, tail :| IncludeParts(line, word, gap, arg, tail);
    assert Fold(word)[0] == '%';
  }

  /**
    Every line of a file is one of three things, told by the text between its white space: nothing or
    a comment is skipped, an include is followed, and any other text is kept as it stands.
   */
  lemma LineSyntax(line: string, text: string)
    requires Trimmed(text) && Pads(line, text)
    ensures Classify(line) == Skip <==> text == "" || text[0] == '#'
    ensures forall arg :: Classify(line) == Include(arg) <==> SpellsInclude(text, arg)
    ensures Classify(line) == Plain(text) <==> text != "" && text[0] != '#' && forall arg :: !SpellsInclude(text, arg)
  {
    hide ParseInclude, SpellsInclude, Strip, Pads, Trimmed;
    StripMeans(line, text);
    forall arg ensures ParseInclude(text) == Some(arg) <==> SpellsInclude(text, arg) { IncludeSyntax(text, arg); }
    forall arg | SpellsInclude(text, arg) ensures text != "" && text[0] != '#' { IncludeIsNoComment(text, arg); }
    assert StartsWith(text, "#") <==> text != "" && text[0] == '#';
  }

  // ----- the include argument -----

  lemma {:induction false} NoSlashNoCut(last: string)
    requires '/' !in last
    ensures AfterLastSlash(last) == 0
    decreases |last|
  {
    if last != "" { NoSlashNoCut(last[..|last| - 1]); }
  }

  lemma {:induction false} CutAfterSlash(directory: string, last: string)
    requires '/' !in last
    ensures AfterLastSlash(directory + "/" + last) == |directory| + 1
    decreases |last|
  {
    var raw := directory + "/" + last;
    if last != "" {
      assert raw[..|raw| - 1] == directory + "/" + last[..|last| - 1];
      CutAfterSlash(directory, last[..|last| - 1]);
    }
  }

  /**
    Only the last segment of an include argument can be a pattern, told by a star or a question mark;
    without a slash it is matched against the including directory.
   */
  lemma WildcardSyntax(directory: string, last: string)
    requires '/' !in last
    ensures SplitWildcard(directory + "/" + last) ==
      if '*' in last || '?' in last then Some((directory, last)) else None
    ensures SplitWildcard(last) == if '*' in last || '?' in last then Some((".", last)) else None
  {
    hide AfterLastSlash;
    CutAfterSlash(directory, last);
    NoSlashNoCut(last);
    var raw := directory + "/" + last;
    assert raw[|directory| + 1..] == last && raw[..|directory|] == directory;
    assert last[0..] == last;
  }

  /** The segments that name something: an empty segment and a single dot do not. */
  function Named(segments: seq<string>): seq<string> {
    if segments == [] then []
    else (if segments[0] == "" || segments[0] == "." then [] else [segments[0]]) + Named(segments[1..])
  }

  lemma {:induction false} PartsOfSlashed(segments: seq<string>)
    requires AreSegments(segments)
    ensures Parts(Slashed(segments)) == Named(segments)
    decreases |segments|
  {
    hide Find;
    var a := segments[0];
    if |segments| == 1 {
      NoSlash(a);
    } else {
      var rest := Slashed(segments[1..]);
      var raw := a + "/" + rest;
      FirstSlash(a, rest);
      PartsOfSlashed(segments[1..]);
      assert raw[..|a|] == a && raw[|a| + 1..] == rest;
    }
  }

  /** An include argument leads below the root if it begins with a slash, else below the including directory. */
  lemma TargetSyntax(w: World, segments: seq<string>, dir: Path)
    requires AreSegments(segments)
    ensures TargetPath(w, "/" + Slashed(segments), dir) == w.root + Named(segments)
    ensures segments[0] != "" ==> TargetPath(w, Slashed(segments), dir) == dir + Named(segments)
  {
    hide Parts;
    PartsOfSlashed(segments);
    assert AreSegments([""] + segments);
    PartsOfSlashed([""] + segments);
    assert ([""] + segments)[1..] == segments;
    assert "" + "/" + Slashed(segments) == "/" + Slashed(segments);
    if segments[0] != "" {
      assert Slashed(segments)[0] == segments[0][0] && segments[0][0] in segments[0];
    }
  }

  // ----- the root guard -----

  /**
    What the guard in front of every read finds out about a path: it is inside if it resolves to the
    root or below it, and the reader raises if the root or, with a root that resolves, the path loops.
   */
  lemma GuardMeaning(w: World, p: Path)
    ensures w.InRoot(p) <==>
      exists root, below :: w.resolve(w.root) == Place(root) && w.resolve(p) == Place(root + below)
    ensures w.Loops(p) <==>
      w.resolve(w.root) == Loop || (w.resolve(p) == Loop && exists root :: w.resolve(w.root) == Place(root))
  {
    if w.InRoot(p) {
      var root, c := w.resolve(w.root).path, w.resolve(p).path;
      assert c == root + c[|root|..];
    }
    if w.resolve(w.root).Place? { assert w.resolve(w.root) == Place(w.resolve(w.root).path); }
  }

  /** A path is a file if it can be followed to one, whether or not its text can be read. */
  lemma FileMeaning(w: World, p: Path)
    ensures w.IsFile(p) <==>
      exists c :: w.resolve(p) == Place(c) && w.opens(p) && c in w.nodes && (w.nodes[c].File? || w.nodes[c].Unreadable?)
  {
    if w.resolve(p).Place? { assert w.resolve(p) == Place(w.resolve(p).path); }
  }

  // ----- the order of a listing -----

  lemma InOrder(names: set<string>, a: string, b: string) returns (i: nat, j: nat)
    requires a in names && b in names && Listing.Smaller(a, b)
    ensures var r := Listing.Sorted(names); i < j < |r| && r[i] == a && r[j] == b
  {
    hide Listing.Smaller, Listing.Sorted;
    var r := Listing.Sorted(names);
    Listing.SortedAscends(names);
    assert a in r && b in r;
    i :| 0 <= i < |r| && r[i] == a;
    j :| 0 <= j < |r| && r[j] == b;
    Listing.SmallerIsStrict(a, b);
  }

  lemma CallAllSplit(dir: Path, r: seq<string>, i: nat)
    requires i < |r|
    ensures CallAll(dir, r) == CallAll(dir, r[..i]) + [Call(dir + [r[i]])] + CallAll(dir, r[i + 1..])
  {
  }

  lemma ReadAround(w: World, dir: Path, r: seq<string>, i: nat, seen: set<Path>, depth: nat)
    requires i < |r| && ReadItems(w, CallAll(dir, r), seen, depth).Some?
    ensures ReadItems(w, CallAll(dir, r[..i]), seen, depth).Some? && Read(w, dir + [r[i]], seen, depth).Some?
      && ReadItems(w, CallAll(dir, r[i + 1..]), seen, depth).Some?
    ensures ReadItems(w, CallAll(dir, r), seen, depth).value ==
      ReadItems(w, CallAll(dir, r[..i]), seen, depth).value + Read(w, dir + [r[i]], seen, depth).value
        + ReadItems(w, CallAll(dir, r[i + 1..]), seen, depth).value
  {
    hide ReadItems, Read, CallAll;
    CallAllSplit(dir, r, i);
    ReadAppend(w, CallAll(dir, r[..i]) + [Call(dir + [r[i]])], CallAll(dir, r[i + 1..]), seen, depth);
    ReadAppend(w, CallAll(dir, r[..i]), [Call(dir + [r[i]])], seen, depth);
    ReadOne(w, Call(dir + [r[i]]), seen, depth);
  }

  /** Of two names in a listing, everything the smaller one contributes comes first. */
  lemma SmallerIsReadFirst(w: World, dir: Path, names: set<string>, a: string, b: string, seen: set<Path>, depth: nat)
    returns (x: seq<string>, y: seq<string>, z: seq<string>)
    requires a in names && b in names && Listing.Smaller(a, b)
    requires ReadItems(w, CallAll(dir, Listing.Sorted(names)), seen, depth).Some?
    ensures Read(w, dir + [a], seen, depth).Some? && Read(w, dir + [b], seen, depth).Some?
    ensures ReadItems(w, CallAll(dir, Listing.Sorted(names)), seen, depth).value ==
      x + Read(w, dir + [a], seen, depth).value + y + Read(w, dir + [b], seen, depth).value + z
  {
    hide ReadItems, Read, CallAll, Listing.Smaller, Listing.Sorted;
    var r := Listing.Sorted(names);
    var i, j := InOrder(names, a, b);
    ReadAround(w, dir, r, j, seen, depth);
    assert r[..j][i] == a;
    ReadAround(w, dir, r[..j], i, seen, depth);
    x := ReadItems(w, CallAll(dir, r[..j][..i]), seen, depth).value;
    y := ReadItems(w, CallAll(dir, r[..j][i + 1..]), seen, depth).value;
    z := ReadItems(w, CallAll(dir, r[j + 1..]), seen, depth).value;
  }

  /** A directory is read in ascending order of its file names. */
  lemma DirectoryOrder(w: World, p: Path, names: set<string>, a: string, b: string, seen: set<Path>, depth: nat)
    returns (x: seq<string>, y: seq<string>, z: seq<string>)
    requires depth <= MAX_INCLUDE_DEPTH && p !in seen && w.InRoot(p) && w.Lookup(p) == Some(Dir(names))
    requires a in names && w.IsFile(p + [a]) && b in names && w.IsFile(p + [b]) && Listing.Smaller(a, b)
    requires Read(w, p, seen, depth).Some?
    ensures Read(w, p + [a], seen + {p}, depth + 1).Some? && Read(w, p + [b], seen + {p}, depth + 1).Some?
    ensures Read(w, p, seen, depth).value ==
      x + Read(w, p + [a], seen + {p}, depth + 1).value + y + Read(w, p + [b], seen + {p}, depth + 1).value + z
  {
    hide CallAll, Stuck, Expand, Listing.Smaller, Listing.Sorted, World.IsFile, World.InRoot, World.Lookup;
    assert Read(w, p, seen, depth)
      == ReadItems(w, CallAll(p, Listing.Sorted(w.Files(p, names))), seen + {p}, depth + 1);
    hide Read, ReadItems;
    x, y, z := SmallerIsReadFirst(w, p, w.Files(p, names), a, b, seen + {p}, depth + 1);
  }

  /** So are the matches of a wildcard, directories among them too. */
  lemma WildcardOrder(w: World, arg: string, dir: Path, names: set<string>, a: string, b: string, seen: set<Path>,
                      depth: nat)
    returns (x: seq<string>, y: seq<string>, z: seq<string>)
    requires SplitWildcard(arg).Some?
    requires var (d, pattern) := SplitWildcard(arg).value;
      && w.InRoot(TargetPath(w, d, dir)) && w.Lookup(TargetPath(w, d, dir)) == Some(Dir(names))
      && a in names && w.glob(a, pattern) && b in names && w.glob(b, pattern) && Listing.Smaller(a, b)
    requires ReadItems(w, IncludeItems(w, arg, dir), seen, depth).Some?
    ensures var directory := TargetPath(w, SplitWildcard(arg).value.0, dir);
      && Read(w, directory + [a], seen, depth).Some? && Read(w, directory + [b], seen, depth).Some?
      && ReadItems(w, IncludeItems(w, arg, dir), seen, depth).value ==
        x + Read(w, directory + [a], seen, depth).value + y + Read(w, directory + [b], seen, depth).value + z
  {
    hide CallAll, ReadItems, Read, Listing.Smaller, Listing.Sorted, SplitWildcard, TargetPath, World.InRoot,
      World.Lookup;
    var (d, pattern) := SplitWildcard(arg).value;
    var directory := TargetPath(w, d, dir);
    var items := CallAll(directory, Listing.Sorted(w.Matching(names, pattern)));
    assert IncludeItems(w, arg, dir) == [Guard(directory)] + items;
    ReadAppend(w, [Guard(directory)], items, seen, depth);
    ReadOne(w, Guard(directory), seen, depth);
    JoinNothing(ReadItems(w, items, seen, depth));
    x, y, z := SmallerIsReadFirst(w, directory, w.Matching(names, pattern), a, b, seen, depth);
  }

  // ----- reading a file -----

  /** The lines a file keeps when none of them is an include: the stripped ones that say something. */
  function Said(lines: seq<string>): seq<string> {
    if lines == [] then []
    else
      Said(lines[..|lines| - 1]) +
      var text := Strip(lines[|lines| - 1]);
      if text == "" || text[0] == '#' then [] else [text]
  }

  lemma RawAppend(lines: seq<string>)
    requires lines != []
    ensures var n := |lines| - 1; Classified(lines)[..n] == Classified(lines[..n])
  {
    hide Classify;
  }

  lemma {:induction false} PlainLines(w: World, lines: seq<string>, dir: Path, seen: set<Path>, depth: nat)
    requires forall l, arg :: l in lines ==> !SpellsInclude(Strip(l), arg)
    ensures ReadItems(w, TextItems(w, Classified(lines), dir), seen, depth) == Some(Said(lines))
    decreases |lines|
  {
    hide ReadItems, SpellsInclude, Strip, IncludeItems;
    ReadNone(w, seen, depth);
    if lines != [] {
      var n := |lines| - 1;
      RawAppend(lines);
      TextItemsNext(w, Classified(lines), n, dir, seen, depth);
      assert Classified(lines)[..n + 1] == Classified(lines);
      PlainLines(w, lines[..n], dir, seen, depth);
      var text := Strip(lines[n]);
      StripMeans(lines[n], text);
      LineSyntax(lines[n], text);
      assert lines[n] in lines;
      if text != "" && text[0] != '#' { ReadOne(w, Line(text), seen, depth); }
    }
  }

  /** A file without includes gives its lines, stripped, without blank lines and comments. */
  lemma PlainFile(w: World, p: Path, lines: seq<string>, seen: set<Path>, depth: nat)
    requires depth <= MAX_INCLUDE_DEPTH && p !in seen && w.InRoot(p) && w.Lookup(p) == Some(File(lines))
    requires forall l, arg :: l in lines ==> !SpellsInclude(Strip(l), arg)
    ensures Read(w, p, seen, depth) == Some(Said(lines))
  {
    hide TextItems, Stuck, Expand, SpellsInclude, Said, Strip, Classified, World.InRoot, World.Lookup;
    PlainLines(w, lines, Parent(p), seen + {p}, depth + 1);
    assert Items(w, p) == TextItems(w, Classified(lines), Parent(p));
    InRootIsNoLoop(w, p);
  }

  lemma {:induction false} TextItemsSplit(w: World, raws: seq<Raw>, i: nat, dir: Path)
    requires i <= |raws|
    ensures TextItems(w, raws, dir) == TextItems(w, raws[..i], dir) + TextItems(w, raws[i..], dir)
    decreases |raws|
  {
    hide LineItems;
    if i == |raws| {
      assert raws[..i] == raws && raws[i..] == [];
    } else {
      var front := raws[..|raws| - 1];
      TextItemsSplit(w, front, i, dir);
      assert front[..i] == raws[..i] && raws[i..][..|raws| - 1 - i] == front[i..];
    }
  }

  /** What a run of lines of a file contributes. */
  ghost function LinesRead(w: World, lines: seq<string>, dir: Path, seen: set<Path>, depth: nat): Option<seq<string>> {
    ReadItems(w, TextItems(w, Classified(lines), dir), seen, depth)
  }

  lemma LinesReadSplit(w: World, lines: seq<string>, i: nat, dir: Path, seen: set<Path>, depth: nat)
    requires i <= |lines|
    ensures LinesRead(w, lines, dir, seen, depth)
      == Join(LinesRead(w, lines[..i], dir, seen, depth), LinesRead(w, lines[i..], dir, seen, depth))
  {
    hide ReadItems, Classify, TextItems;
    var raws := Classified(lines);
    TextItemsSplit(w, raws, i, dir);
    assert raws[..i] == Classified(lines[..i]) && raws[i..] == Classified(lines[i..]);
    ReadAppend(w, TextItems(w, raws[..i], dir), TextItems(w, raws[i..], dir), seen, depth);
  }

  /** What the argument of an include leads to: the one path it names, read as a file or a directory. */
  lemma PlainInclude(w: World, line: string, text: string, arg: string, dir: Path, seen: set<Path>, depth: nat)
    requires Trimmed(text) && Pads(line, text) && SpellsInclude(text, arg) && SplitWildcard(arg) == None
    ensures LinesRead(w, [line], dir, seen, depth) == Read(w, TargetPath(w, arg, dir), seen, depth)
  {
    hide ReadItems, Read, SpellsInclude, SplitWildcard, TargetPath, Classify, Trimmed, Pads;
    LineSyntax(line, text);
    assert Classified([line]) == [Include(arg)];
    assert [Include(arg)][..0] == [] && TextItems(w, [], dir) == [];
    assert TextItems(w, [Include(arg)], dir) == [] + [Call(TargetPath(w, arg, dir))] == [Call(TargetPath(w, arg, dir))];
    ReadOne(w, Call(TargetPath(w, arg, dir)), seen, depth);
  }

  /** An include stands for the text of what it names: the rest of the file keeps its place around it. */
  lemma IncludeIsSpliced(w: World, p: Path, lines: seq<string>, i: nat, text: string, arg: string, seen: set<Path>,
                         depth: nat)
    requires depth <= MAX_INCLUDE_DEPTH && p !in seen && w.InRoot(p) && w.Lookup(p) == Some(File(lines))
    requires i < |lines| && Trimmed(text) && Pads(lines[i], text) && SpellsInclude(text, arg)
      && SplitWildcard(arg) == None
    ensures Read(w, p, seen, depth) ==
      var (dir, nowSeen) := (Parent(p), seen + {p});
      Join(LinesRead(w, lines[..i], dir, nowSeen, depth + 1),
        Join(Read(w, TargetPath(w, arg, dir), nowSeen, depth + 1),
          LinesRead(w, lines[i + 1..], dir, nowSeen, depth + 1)))
  {
    hide TextItems, Stuck, Expand, SpellsInclude, Trimmed, Pads, SplitWildcard, Classified, TargetPath, World.InRoot,
      World.Lookup;
    var (dir, nowSeen) := (Parent(p), seen + {p});
    InRootIsNoLoop(w, p);
    assert Items(w, p) == TextItems(w, Classified(lines), dir);
    assert Read(w, p, seen, depth) == LinesRead(w, lines, dir, nowSeen, depth + 1);
    hide Read, ReadItems;
    LinesReadSplit(w, lines, i, dir, nowSeen, depth + 1);
    LinesReadSplit(w, lines[i..], 1, dir, nowSeen, depth + 1);
    assert lines[i..][..1] == [lines[i]] && lines[i..][1..] == lines[i + 1..];
    PlainInclude(w, lines[i], text, arg, dir, nowSeen, depth + 1);
  }

  lemma InRootIsNoLoop(w: World, p: Path)
    requires w.InRoot(p)
    ensures !w.Loops(p)
  {
  }
}
