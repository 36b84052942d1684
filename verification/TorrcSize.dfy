/**
  How large an expansion can get.  Every level multiplies twice, once by the lines of a file and
  once by the matches of a wildcard, and the last level only once.
 */
module TorrcSize {
  import opened Text
  import opened Torrc
  import Listing

  function Pow(b: nat, e: nat): (r: nat)
    ensures b >= 1 ==> r >= 1
  {
    if e == 0 then 1 else b * Pow(b, e - 1)
  }

  /** No file has more than `b` lines and no directory more than `b` names. */
  ghost predicate WidthAtMost(w: World, b: nat) {
    forall c :: c in w.nodes ==>
      match w.nodes[c]
      case File(lines) => |lines| <= b
      case Dir(names) => |names| <= b
      case _ => true
  }

  /** The most lines one path can yield when it is read at `depth`. */
  function Limit(b: nat, depth: nat): nat {
    if depth > MAX_INCLUDE_DEPTH then 0 else Pow(b, 17 - 2 * depth)
  }

  /** The most lines one raw line can yield when what it includes is read at `depth`. */
  function LineLimit(b: nat, depth: nat): nat {
    if depth > MAX_INCLUDE_DEPTH then 1 else b * Limit(b, depth)
  }

  lemma SubsetSize<T>(a: set<T>, b: set<T>)
    requires a <= b
    ensures |a| <= |b|
  {
    assert b == a + (b - a);
  }

  lemma PowNext(b: nat, e: nat)
    ensures Pow(b, e + 1) == b * Pow(b, e)
  {
  }

  lemma PowStep(b: nat, depth: nat)
    requires b >= 1 && depth <= MAX_INCLUDE_DEPTH
    ensures b * LineLimit(b, depth + 1) == Limit(b, depth)
    ensures Limit(b, depth + 1) <= LineLimit(b, depth + 1)
  {
    if depth < MAX_INCLUDE_DEPTH {
      PowNext(b, 16 - 2 * depth);
      PowNext(b, 15 - 2 * depth);
      hide Pow;
      Scale(1, b, Pow(b, 15 - 2 * depth));
    } else {
      PowNext(b, 0);
      assert Pow(b, 0) == 1;
    }
  }

  lemma {:induction false} EachBound(w: World, dir: Path, names: seq<string>, seen: set<Path>, depth: nat, b: nat)
    requires b >= 1 && WidthAtMost(w, b)
    ensures |Expand(w, CallAll(dir, names), seen, depth)| <= |names| * Limit(b, depth)
    decreases Budget(depth), 2, |names|
  {
    hide WidthAtMost, Resolve, Limit;
    if names != [] {
      var front, last := names[..|names| - 1], names[|names| - 1];
      assert CallAll(dir, names)[..|names| - 1] == CallAll(dir, front);
      EachBound(w, dir, front, seen, depth, b);
      SizeBound(w, dir + [last], seen, depth, b);
      assert |names| * Limit(b, depth) == |front| * Limit(b, depth) + Limit(b, depth);
    }
  }

  lemma {:induction false} LineBound(w: World, raw: Raw, dir: Path, seen: set<Path>, depth: nat, b: nat)
    requires b >= 1 && WidthAtMost(w, b)
    ensures |Expand(w, LineItems(w, raw, dir), seen, depth)| <= LineLimit(b, depth)
    decreases Budget(depth), 4, 0
  {
    hide Expand, IncludeItems, Resolve;
    match raw
    case Skip => SingleLine(w, "", seen, depth);
    case Plain(text) => SingleLine(w, text, seen, depth);
    case Include(arg) =>
      SingleLine(w, "", seen, depth);
      IncludeBound(w, arg, dir, seen, depth, b);
  }

  lemma SingleLine(w: World, t: string, seen: set<Path>, depth: nat)
    ensures Expand(w, [Line(t)], seen, depth) == [t] && Expand(w, [], seen, depth) == []
  {
    assert [Line(t)][..0] == [];
  }

  lemma SingleGuard(w: World, d: Path, seen: set<Path>, depth: nat)
    ensures Expand(w, [Guard(d)], seen, depth) == []
  {
    assert [Guard(d)][..0] == [];
  }

  lemma {:induction false} IncludeBound(w: World, arg: string, dir: Path, seen: set<Path>, depth: nat, b: nat)
    requires b >= 1 && WidthAtMost(w, b)
    ensures |Expand(w, IncludeItems(w, arg, dir), seen, depth)| <= b * Limit(b, depth)
    decreases Budget(depth), 3, 0
  {
    hide SplitWildcard, Expand, CallAll, Listing.Sorted, Resolve, Limit;
    SingleLine(w, "", seen, depth);
    match SplitWildcard(arg)
    case None =>
      SizeBound(w, TargetPath(w, arg, dir), seen, depth, b);
      ExpandCall(w, TargetPath(w, arg, dir), seen, depth);
      Scale(1, b, Limit(b, depth));
    case Some((d, pattern)) =>
      var directory := TargetPath(w, d, dir);
      ExpandAppend(w, [Guard(directory)], MatchItems(w, directory, pattern), seen, depth);
      SingleGuard(w, directory, seen, depth);
      match w.Lookup(directory)
      case Some(Dir(names)) =>
        var matching := w.Matching(names, pattern);
        SubsetSize(matching, names);
        EachBound(w, directory, Listing.Sorted(matching), seen, depth, b);
        Scale(|matching|, b, Limit(b, depth));
      case _ =>
  }

  lemma Scale(k: nat, n: nat, x: nat)
    requires k <= n
    ensures k * x <= n * x
  {
  }

  lemma {:induction false} TextBound(w: World, raws: seq<Raw>, dir: Path, seen: set<Path>, depth: nat, b: nat)
    requires b >= 1 && WidthAtMost(w, b)
    ensures |Expand(w, TextItems(w, raws, dir), seen, depth)| <= |raws| * LineLimit(b, depth)
    decreases Budget(depth), 5, |raws|
  {
    hide WidthAtMost, LineItems, Expand, LineLimit;
    if raws == [] {
      SingleLine(w, "", seen, depth);
    } else {
      var front, last := raws[..|raws| - 1], raws[|raws| - 1];
      TextBound(w, front, dir, seen, depth, b);
      LineBound(w, last, dir, seen, depth, b);
      ExpandAppend(w, TextItems(w, front, dir), LineItems(w, last, dir), seen, depth);
      assert |raws| * LineLimit(b, depth) == |front| * LineLimit(b, depth) + LineLimit(b, depth);
    }
  }

  /**
    Expansion terminates on every file system, cyclic ones included (the definition of `Resolve`
    is accepted), and yields at most `b^(17 - 2 * depth)` lines: `b^17` from torrc itself.
   */
  lemma {:induction false} SizeBound(w: World, p: Path, seen: set<Path>, depth: nat, b: nat)
    requires b >= 1 && WidthAtMost(w, b)
    ensures |Resolve(w, p, seen, depth)| <= Limit(b, depth)
    decreases Budget(depth), 1, 0
  {
    hide Expand, TextItems, CallAll, Listing.Sorted, Limit, LineLimit, Classify;
    if depth <= MAX_INCLUDE_DEPTH && p !in seen && w.InRoot(p) {
      PowStep(b, depth);
      SingleLine(w, "", seen + {p}, depth + 1);
      match w.Lookup(p)
      case Some(Dir(names)) =>
        var files := w.Files(p, names);
        SubsetSize(files, names);
        EachBound(w, p, Listing.Sorted(files), seen + {p}, depth + 1, b);
        Scale(|files|, b, Limit(b, depth + 1));
        Scale(Limit(b, depth + 1), LineLimit(b, depth + 1), b);
      case Some(File(text)) =>
        TextBound(w, Classified(text), Parent(p), seen + {p}, depth + 1, b);
        Scale(|text|, b, LineLimit(b, depth + 1));
      case _ =>
    }
  }
}
