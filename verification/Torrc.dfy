/**
  The torrc reader of `src/serein/veil/tor.py`: recursive `%include` expansion into a flat
  stream of lines.  A `World` is one file system as the reader sees it; `resolve` is
  `Path.resolve`, `glob` is `fnmatch.fnmatch`.  The root guard turns an `OSError` of `resolve` into
  "outside the root", but lets the `RuntimeError` of a link loop through: then the whole reader raises.
 */
module Torrc {
  import opened Text
  import Listing

  const MAX_INCLUDE_DEPTH := 8

  /** An absolute path: its segments below `/`, not normalised (`..` stays a segment). */
  type Path = seq<string>

  datatype Node =
    | File(lines: seq<string>)
    | Unreadable                  // a regular file `read_text` fails on
    | Dir(names: set<string>)
    | Unlistable                  // a directory `iterdir` fails on

  /**
    `Path.resolve`: a path, an `OSError`, or the `RuntimeError` of a link loop (Python 3.12).  A result
    that nothing can be read through (a loop the library does not report) counts as `Failed` as well.
   */
  datatype Resolution = Place(path: Path) | Failed | Loop

  /** `opens`: the operating system can follow the path, to where `resolve` says. */
  datatype World = World(root: Path, resolve: Path -> Resolution, opens: Path -> bool, nodes: map<Path, Node>,
                         glob: (string, string) -> bool)
  {
    function Lookup(p: Path): Option<Node> {
      match resolve(p)
      case Place(c) => if opens(p) && c in nodes then Some(nodes[c]) else None
      case _ => None
    }

    predicate InRoot(p: Path) {
      resolve(root).Place? && resolve(p).Place? && resolve(root).path <= resolve(p).path
    }

    /** The root guard for `p` raises. */
    predicate Loops(p: Path) {
      resolve(root).Loop? || (resolve(root).Place? && resolve(p).Loop?)
    }

    predicate IsFile(p: Path) {
      match Lookup(p)
      case Some(File(_)) => true
      case Some(Unreadable) => true
      case _ => false
    }

    function Files(dir: Path, names: set<string>): set<string> {
      set n | n in names && IsFile(dir + [n])
    }

    function Matching(names: set<string>, pattern: string): set<string> {
      set n | n in names && glob(n, pattern)
    }
  }

  // ----- the include argument -----

  /** `PurePosixPath(raw).parts` without the root: empty and `.` segments vanish. */
  function Parts(raw: string): seq<string> {
    match Find(raw, "/")
    case None => Segment(raw)
    case Some(i) => Segment(raw[..i]) + Parts(raw[i + 1..])
  }

  function Segment(s: string): seq<string> {
    if s == "" || s == "." then [] else [s]
  }

  function TargetPath(w: World, raw: string, dir: Path): Path {
    (if StartsWith(raw, "/") then w.root else dir) + Parts(raw)
  }

  function Parent(p: Path): Path {
    if p == [] then [] else p[..|p| - 1]
  }

  predicate HasWildcard(segment: string) {
    '*' in segment || '?' in segment
  }

  /** The position just after the last `/`, 0 if there is none. */
  function AfterLastSlash(raw: string): (i: nat)
    ensures i <= |raw| && '/' !in raw[i..]
    ensures i > 0 ==> raw[i - 1] == '/'
  {
    if raw == "" then 0
    else if raw[|raw| - 1] == '/' then |raw|
    else
      var i := AfterLastSlash(raw[..|raw| - 1]);
      assert raw[i..] == raw[..|raw| - 1][i..] + [raw[|raw| - 1]];
      i
  }

  function SplitWildcard(raw: string): Option<(string, string)> {
    var i := AfterLastSlash(raw);
    if !HasWildcard(raw[i..]) then None
    else Some((if i > 0 then raw[..i - 1] else ".", raw[i..]))
  }

  /** `^%include\s+(\S+)\s*$`, ignoring case. */
  function ParseInclude(line: string): Option<string> {
    if |line| < 9 || Fold(line[..8]) != "%include" || !IsSpace(line[8]) then None
    else
      var rest := LStrip(line[8..]);
      var arg := TakeNonSpace(rest);
      if arg != "" && LStrip(rest[|arg|..]) == "" then Some(arg) else None
  }

  /** What the reader makes of one line of a file: nothing, the stripped text, or an include. */
  datatype Raw = Skip | Plain(text: string) | Include(arg: string)

  function Classify(line: string): Raw {
    var stripped := Strip(line);
    if stripped == "" || StartsWith(stripped, "#") then Skip
    else match ParseInclude(stripped)
      case Some(arg) => Include(arg)
      case None => Plain(stripped)
  }

  function Classified(lines: seq<string>): (raws: seq<Raw>)
    ensures |raws| == |lines| && forall i :: 0 <= i < |lines| ==> raws[i] == Classify(lines[i])
  {
    seq(|lines|, i requires 0 <= i < |lines| => Classify(lines[i]))
  }

  // ----- one file or directory, one level deep -----

  /** What one level of reading does, in order: keep a line, read another path, or guard the directory of a wildcard. */
  datatype Item = Line(text: string) | Call(target: Path) | Guard(directory: Path)

  ghost function CallAll(dir: Path, names: seq<string>): (r: seq<Item>)
    ensures |r| == |names|
  {
    seq(|names|, i requires 0 <= i < |names| => Call(dir + [names[i]]))
  }

  ghost function IncludeItems(w: World, arg: string, dir: Path): seq<Item> {
    match SplitWildcard(arg)
    case None => [Call(TargetPath(w, arg, dir))]
    case Some((d, pattern)) =>
      var directory := TargetPath(w, d, dir);
      [Guard(directory)] + MatchItems(w, directory, pattern)
  }

  ghost function MatchItems(w: World, directory: Path, pattern: string): seq<Item> {
    if !w.InRoot(directory) then []
    else match w.Lookup(directory)
      case Some(Dir(names)) => CallAll(directory, Listing.Sorted(w.Matching(names, pattern)))
      case _ => []
  }

  ghost function LineItems(w: World, raw: Raw, dir: Path): seq<Item> {
    match raw
    case Skip => []
    case Plain(text) => [Line(text)]
    case Include(arg) => IncludeItems(w, arg, dir)
  }

  ghost function TextItems(w: World, raws: seq<Raw>, dir: Path): seq<Item> {
    if raws == [] then []
    else TextItems(w, raws[..|raws| - 1], dir) + LineItems(w, raws[|raws| - 1], dir)
  }

  ghost function Items(w: World, p: Path): seq<Item> {
    match w.Lookup(p)
    case Some(Dir(names)) => CallAll(p, Listing.Sorted(w.Files(p, names)))
    case Some(File(lines)) => TextItems(w, Classified(lines), Parent(p))
    case _ => []
  }

  // ----- expansion with the ancestor set and the depth cap -----

  function Budget(depth: nat): nat {
    if depth > MAX_INCLUDE_DEPTH then 0 else MAX_INCLUDE_DEPTH + 1 - depth
  }

  ghost function Resolve(w: World, p: Path, seen: set<Path>, depth: nat): seq<string>
    decreases Budget(depth), 1, 0
  {
    if depth > MAX_INCLUDE_DEPTH || p in seen || !w.InRoot(p) then []
    else Expand(w, Items(w, p), seen + {p}, depth + 1)
  }

  ghost function Expand(w: World, items: seq<Item>, seen: set<Path>, depth: nat): seq<string>
    decreases Budget(depth), 2, |items|
  {
    if items == [] then []
    else
      Expand(w, items[..|items| - 1], seen, depth) +
      match items[|items| - 1]
      case Line(t) => [t]
      case Call(q) => Resolve(w, q, seen, depth)
      case Guard(_) => []
  }

  /** Reading `p` raises: some root guard evaluated on the way meets a link loop. */
  ghost predicate Raises(w: World, p: Path, seen: set<Path>, depth: nat)
    decreases Budget(depth), 1, 0
  {
    && depth <= MAX_INCLUDE_DEPTH && p !in seen
    && (w.Loops(p) || (w.InRoot(p) && Stuck(w, Items(w, p), seen + {p}, depth + 1)))
  }

  ghost predicate Stuck(w: World, items: seq<Item>, seen: set<Path>, depth: nat)
    decreases Budget(depth), 2, 0
  {
    || (exists d :: Guard(d) in items && w.Loops(d))
    || (exists q :: Call(q) in items && Raises(w, q, seen, depth))
  }

  /** The lines of one path, or nothing if the reader raises. */
  ghost function Read(w: World, p: Path, seen: set<Path>, depth: nat): Option<seq<string>> {
    if Raises(w, p, seen, depth) then None else Some(Resolve(w, p, seen, depth))
  }

  ghost function ReadItems(w: World, items: seq<Item>, seen: set<Path>, depth: nat): Option<seq<string>> {
    if Stuck(w, items, seen, depth) then None else Some(Expand(w, items, seen, depth))
  }

  function Join(a: Option<seq<string>>, b: Option<seq<string>>): Option<seq<string>> {
    if a.None? || b.None? then None else Some(a.value + b.value)
  }

  /** One part after the other. */
  lemma ReadAppend(w: World, a: seq<Item>, b: seq<Item>, seen: set<Path>, depth: nat)
    ensures ReadItems(w, a + b, seen, depth) == Join(ReadItems(w, a, seen, depth), ReadItems(w, b, seen, depth))
  {
    ExpandAppend(w, a, b, seen, depth);
    hide Expand, Raises;
    forall i: Item ensures i in a + b <==> i in a || i in b {}
  }

  lemma ReadNone(w: World, seen: set<Path>, depth: nat)
    ensures ReadItems(w, [], seen, depth) == Some([])
  {
  }

  lemma ReadOne(w: World, item: Item, seen: set<Path>, depth: nat)
    ensures ReadItems(w, [item], seen, depth) ==
      match item
      case Line(t) => Some([t])
      case Call(q) => Read(w, q, seen, depth)
      case Guard(d) => if w.Loops(d) then None else Some([])
  {
    hide Raises, Resolve;
    assert [item][..0] == [] && item in [item];
    match item
    case Line(t) => assert Expand(w, [item], seen, depth) == [t];
    case Call(q) => assert Expand(w, [item], seen, depth) == Resolve(w, q, seen, depth);
    case Guard(d) => assert Expand(w, [item], seen, depth) == [];
  }

  lemma {:induction false} ExpandAppend(w: World, a: seq<Item>, b: seq<Item>, seen: set<Path>, depth: nat)
    ensures Expand(w, a + b, seen, depth) == Expand(w, a, seen, depth) + Expand(w, b, seen, depth)
    decreases |b|
  {
    hide Resolve;
    if b == [] {
      assert a + b == a;
    } else {
      var front := b[..|b| - 1];
      ExpandAppend(w, a, front, seen, depth);
      assert (a + b)[..|a + b| - 1] == a + front;
    }
  }

  lemma CallAllCons(dir: Path, m: string, tail: seq<string>)
    ensures CallAll(dir, [m] + tail) == [Call(dir + [m])] + CallAll(dir, tail)
  {
  }

  lemma ExpandCall(w: World, p: Path, seen: set<Path>, depth: nat)
    ensures Expand(w, [Call(p)], seen, depth) == Resolve(w, p, seen, depth)
  {
    hide Resolve;
    assert Expand(w, [Call(p)][..0], seen, depth) == [];
  }

  // ----- the reader -----

  method ResolveLines(w: World, path: Path, seen: set<Path>, depth: nat) returns (r: Option<seq<string>>)
    ensures r == Read(w, path, seen, depth)
    decreases 2 * Budget(depth)
  {
    hide TextItems, CallAll, Listing.Sorted, Expand, Stuck, Classify;
    if depth > MAX_INCLUDE_DEPTH || path in seen {
      return Some([]);
    }
    if w.Loops(path) {
      return None;
    }
    if !w.InRoot(path) {
      return Some([]);
    }
    var nowSeen := seen + {path};
    match w.Lookup(path)
    case Some(Dir(names)) =>
      var children := Listing.SortNames(w.Files(path, names));
      r := ResolveEach(w, path, children, nowSeen, depth + 1);
    case Some(File(text)) =>
      r := ResolveText(w, text, Parent(path), nowSeen, depth);
    case _ =>
      ReadNone(w, nowSeen, depth + 1);
      r := Some([]);
  }

  /** The loop over a file's lines. */
  method ResolveText(w: World, text: seq<string>, dir: Path, seen: set<Path>, depth: nat)
    returns (r: Option<seq<string>>)
    ensures r == ReadItems(w, TextItems(w, Classified(text), dir), seen, depth + 1)
    decreases 2 * Budget(depth + 1) + 1, 3
  {
    hide Classify, ReadItems, LineItems;
    ghost var raws := Classified(text);
    var lines := [];
    ReadNone(w, seen, depth + 1);
    for i := 0 to |text|
      invariant ReadItems(w, TextItems(w, raws[..i], dir), seen, depth + 1) == Some(lines)
    {
      TextItemsNext(w, raws, i, dir, seen, depth + 1);
      var more := ResolveRawLine(w, text[i], dir, seen, depth);
      match more {
        case None =>
          TextItemsStuck(w, raws, i + 1, dir, seen, depth + 1);
          return None;
        case Some(ls) => lines := lines + ls;
      }
    }
    assert raws[..|text|] == raws;
    r := Some(lines);
  }

  lemma TextItemsNext(w: World, raws: seq<Raw>, i: nat, dir: Path, seen: set<Path>, depth: nat)
    requires i < |raws|
    ensures ReadItems(w, TextItems(w, raws[..i + 1], dir), seen, depth)
         == Join(ReadItems(w, TextItems(w, raws[..i], dir), seen, depth),
           ReadItems(w, LineItems(w, raws[i], dir), seen, depth))
  {
    hide ReadItems;
    assert raws[..i + 1][..i] == raws[..i];
    ReadAppend(w, TextItems(w, raws[..i], dir), LineItems(w, raws[i], dir), seen, depth);
  }

  lemma {:induction false} TextItemsStuck(w: World, raws: seq<Raw>, i: nat, dir: Path, seen: set<Path>, depth: nat)
    requires i <= |raws| && ReadItems(w, TextItems(w, raws[..i], dir), seen, depth) == None
    ensures ReadItems(w, TextItems(w, raws, dir), seen, depth) == None
    decreases |raws| - i
  {
    hide ReadItems;
    if i == |raws| {
      assert raws[..i] == raws;
    } else {
      TextItemsNext(w, raws, i, dir, seen, depth);
      TextItemsStuck(w, raws, i + 1, dir, seen, depth);
    }
  }

  /** The body of the loop over a file's lines: skip, splice in an include, or keep the line. */
  method ResolveRawLine(w: World, raw: string, dir: Path, seen: set<Path>, depth: nat) returns (r: Option<seq<string>>)
    ensures r == ReadItems(w, LineItems(w, Classify(raw), dir), seen, depth + 1)
    decreases 2 * Budget(depth + 1) + 1, 2
  {
    hide ParseInclude, Strip, IncludeItems, ReadItems;
    ReadNone(w, seen, depth + 1);
    var stripped := Strip(raw);
    if stripped == "" || StartsWith(stripped, "#") {
      return Some([]);
    }
    match ParseInclude(stripped)
    case Some(arg) =>
      r := ResolveInclude(w, arg, dir, seen, depth);
    case None =>
      ReadOne(w, Line(stripped), seen, depth + 1);
      r := Some([stripped]);
  }

  method ResolveInclude(w: World, arg: string, dir: Path, seen: set<Path>, depth: nat) returns (r: Option<seq<string>>)
    ensures r == ReadItems(w, IncludeItems(w, arg, dir), seen, depth + 1)
    decreases 2 * Budget(depth + 1) + 1, 1
  {
    hide SplitWildcard, ReadItems, Read, CallAll, Listing.Sorted;
    match SplitWildcard(arg)
    case None =>
      r := ResolveLines(w, TargetPath(w, arg, dir), seen, depth + 1);
      ReadOne(w, Call(TargetPath(w, arg, dir)), seen, depth + 1);
    case Some((d, pattern)) =>
      var directory := TargetPath(w, d, dir);
      ReadAppend(w, [Guard(directory)], MatchItems(w, directory, pattern), seen, depth + 1);
      ReadOne(w, Guard(directory), seen, depth + 1);
      ReadNone(w, seen, depth + 1);
      if w.Loops(directory) {
        return None;
      }
      r := Some([]);
      if w.InRoot(directory) {
        match w.Lookup(directory)
        case Some(Dir(names)) =>
          var matches := Listing.SortNames(w.Matching(names, pattern));
          r := ResolveEach(w, directory, matches, seen, depth + 1);
        case _ =>
      }
      JoinNothing(r);
  }

  lemma JoinNothing(r: Option<seq<string>>)
    ensures Join(Some([]), r) == r
  {
    if r.Some? { assert [] + r.value == r.value; }
  }

  /** The loop both a directory and a wildcard run over their sorted names. */
  method ResolveEach(w: World, dir: Path, names: seq<string>, seen: set<Path>, depth: nat)
    returns (r: Option<seq<string>>)
    ensures r == ReadItems(w, CallAll(dir, names), seen, depth)
    decreases 2 * Budget(depth) + 1, 0
  {
    hide ReadItems, Read;
    var lines := [];
    ReadNone(w, seen, depth);
    for i := 0 to |names|
      invariant ReadItems(w, CallAll(dir, names[..i]), seen, depth) == Some(lines)
    {
      EachNext(w, dir, names, i, seen, depth);
      var more := ResolveLines(w, dir + [names[i]], seen, depth);
      match more {
        case None =>
          EachStuck(w, dir, names, i + 1, seen, depth);
          return None;
        case Some(ls) => lines := lines + ls;
      }
    }
    assert names[..|names|] == names;
    r := Some(lines);
  }

  lemma EachNext(w: World, dir: Path, names: seq<string>, i: nat, seen: set<Path>, depth: nat)
    requires i < |names|
    ensures ReadItems(w, CallAll(dir, names[..i + 1]), seen, depth)
         == Join(ReadItems(w, CallAll(dir, names[..i]), seen, depth), Read(w, dir + [names[i]], seen, depth))
  {
    hide ReadItems, Read;
    assert CallAll(dir, names[..i + 1]) == CallAll(dir, names[..i]) + [Call(dir + [names[i]])];
    ReadAppend(w, CallAll(dir, names[..i]), [Call(dir + [names[i]])], seen, depth);
    ReadOne(w, Call(dir + [names[i]]), seen, depth);
  }

  lemma {:induction false} EachStuck(w: World, dir: Path, names: seq<string>, i: nat, seen: set<Path>, depth: nat)
    requires i <= |names| && ReadItems(w, CallAll(dir, names[..i]), seen, depth) == None
    ensures ReadItems(w, CallAll(dir, names), seen, depth) == None
    decreases |names| - i
  {
    hide ReadItems, Read, CallAll;
    if i == |names| {
      assert names[..i] == names;
    } else {
      EachNext(w, dir, names, i, seen, depth);
      EachStuck(w, dir, names, i + 1, seen, depth);
    }
  }

  function MainFile(w: World): Path {
    w.root + ["etc", "tor", "torrc"]
  }

  /** The effective lines, or nothing if reading them raises. */
  ghost function Effective(w: World): Option<seq<string>> {
    if w.IsFile(MainFile(w)) then Read(w, MainFile(w), {}, 0) else Some([])
  }

  method EffectiveTorrcLines(w: World) returns (r: Option<seq<string>>)
    ensures r == Effective(w)
  {
    r := Some([]);
    if w.IsFile(MainFile(w)) {
      r := ResolveLines(w, MainFile(w), {}, 0);
    }
  }
}
