/**
  Two-run confinement: the effective torrc lines are a function of what the paths the reader asks
  about resolve to inside the root, and of nothing else.
 */
module TorrcConfinement {
  import opened Text
  import opened Torrc
  import Listing

  /** Two file systems that look the same through one path, as far as it stays inside the root. */
  ghost predicate AgreeAt(w: World, v: World, p: Path) {
    && w.Loops(p) == v.Loops(p)
    && w.InRoot(p) == v.InRoot(p)
    && (w.InRoot(p) ==> w.Lookup(p) == v.Lookup(p))
  }

  ghost predicate AgreeOn(w: World, v: World, ps: set<Path>) {
    w.root == v.root && w.glob == v.glob && forall p :: p in ps ==> AgreeAt(w, v, p)
  }

  // ----- the paths an expansion asks about -----

  /** Reading a directory asks about each of its entries. */
  ghost function EntriesOf(w: World, p: Path): set<Path> {
    match w.Lookup(p)
    case Some(Dir(names)) => set n | n in names :: p + [n]
    case _ => {}
  }

  /** Every path the reader asks about when it reads `p`: whether it is a file, or inside the root. */
  ghost function Asked(w: World, p: Path, seen: set<Path>, depth: nat): set<Path>
    decreases Budget(depth), 1, 0
  {
    if depth > MAX_INCLUDE_DEPTH || p in seen then {}
    else if !w.InRoot(p) then {p}
    else {p} + EntriesOf(w, p) + AskedBelow(w, Items(w, p), seen + {p}, depth + 1)
  }

  ghost function AskedBelow(w: World, items: seq<Item>, seen: set<Path>, depth: nat): set<Path>
    decreases Budget(depth), 2, |items|
  {
    if items == [] then {}
    else
      AskedBelow(w, items[..|items| - 1], seen, depth) +
      match items[|items| - 1]
      case Line(_) => {}
      case Call(q) => Asked(w, q, seen, depth)
      case Guard(d) => {d}
  }

  lemma {:induction false} GuardedIsAsked(w: World, items: seq<Item>, seen: set<Path>, depth: nat, d: Path)
    requires Guard(d) in items
    ensures d in AskedBelow(w, items, seen, depth)
    decreases |items|
  {
    hide Asked;
    if items[|items| - 1] != Guard(d) {
      assert Guard(d) in items[..|items| - 1];
      GuardedIsAsked(w, items[..|items| - 1], seen, depth, d);
    }
  }

  lemma {:induction false} CalledIsAsked(w: World, items: seq<Item>, seen: set<Path>, depth: nat, q: Path)
    requires Call(q) in items
    ensures Asked(w, q, seen, depth) <= AskedBelow(w, items, seen, depth)
    decreases |items|
  {
    hide Asked;
    if items[|items| - 1] != Call(q) {
      assert Call(q) in items[..|items| - 1];
      CalledIsAsked(w, items[..|items| - 1], seen, depth, q);
    }
  }

  // ----- one directory, entry by entry -----

  /** Reading a directory entry by entry, smallest name first. */
  lemma ReadSorted(w: World, dir: Path, names: set<string>, seen: set<Path>, depth: nat)
    requires names != {}
    ensures var m := Listing.Min(names);
      ReadItems(w, CallAll(dir, Listing.Sorted(names)), seen, depth)
      == Join(Read(w, dir + [m], seen, depth), ReadItems(w, CallAll(dir, Listing.Sorted(names - {m})), seen, depth))
  {
    var m := Listing.Min(names);
    var tail := Listing.Sorted(names - {m});
    assert Listing.Sorted(names) == [m] + tail by { hide CallAll, ReadItems, Read; }
    CallAllCons(dir, m, tail);
    hide Read, ReadItems;
    ReadAppend(w, [Call(dir + [m])], CallAll(dir, tail), seen, depth);
    ReadOne(w, Call(dir + [m]), seen, depth);
  }

  /** Names that lead outside the root contribute nothing, so dropping them changes nothing. */
  lemma {:induction false} OutsideNamesVanish(w: World, dir: Path, all: set<string>, kept: set<string>, seen: set<Path>,
                                              depth: nat)
    requires kept <= all
    requires forall n :: n in all - kept ==> !w.InRoot(dir + [n]) && !w.Loops(dir + [n])
    ensures ReadItems(w, CallAll(dir, Listing.Sorted(all)), seen, depth)
         == ReadItems(w, CallAll(dir, Listing.Sorted(kept)), seen, depth)
    decreases all
  {
    hide Read, ReadItems, Listing.Sorted, CallAll;
    if all == {} {
      assert kept == all;
    } else {
      var m := Listing.Min(all);
      ReadSorted(w, dir, all, seen, depth);
      if m in kept {
        Listing.MinIs(m, kept);
        ReadSorted(w, dir, kept, seen, depth);
        OutsideNamesVanish(w, dir, all - {m}, kept - {m}, seen, depth);
      } else {
        OutsideNamesVanish(w, dir, all - {m}, kept, seen, depth);
        ReadOutside(w, dir + [m], seen, depth);
        JoinNothing(ReadItems(w, CallAll(dir, Listing.Sorted(kept)), seen, depth));
      }
    }
  }

  lemma ReadOutside(w: World, p: Path, seen: set<Path>, depth: nat)
    requires !w.InRoot(p) && !w.Loops(p)
    ensures Read(w, p, seen, depth) == Some([])
  {
  }

  lemma CallOfName(dir: Path, names: set<string>, q: Path)
    requires Call(q) in CallAll(dir, Listing.Sorted(names))
    ensures exists n :: n in names && q == dir + [n]
  {
    hide Listing.Sorted;
    var i :| 0 <= i < |Listing.Sorted(names)| && CallAll(dir, Listing.Sorted(names))[i] == Call(q);
    assert Listing.Sorted(names)[i] in Listing.Sorted(names);
  }

  lemma NameIsCalled(dir: Path, names: set<string>, n: string)
    requires n in names
    ensures Call(dir + [n]) in CallAll(dir, Listing.Sorted(names))
  {
    hide Listing.Sorted;
    var i :| 0 <= i < |Listing.Sorted(names)| && Listing.Sorted(names)[i] == n;
    assert CallAll(dir, Listing.Sorted(names))[i] == Call(dir + [n]);
  }

  /** The entries that both see as files inside the root; an entry that is a file is no link loop. */
  lemma CommonFiles(w: World, v: World, dir: Path, names: set<string>) returns (common: set<string>)
    requires w.resolve(w.root).Place? && v.resolve(v.root).Place? && forall n :: n in names ==> AgreeAt(w, v, dir + [n])
    ensures common <= w.Files(dir, names) && common <= v.Files(dir, names)
    ensures forall n :: n in w.Files(dir, names) - common ==> !w.InRoot(dir + [n]) && !w.Loops(dir + [n])
    ensures forall n :: n in v.Files(dir, names) - common ==> !v.InRoot(dir + [n]) && !v.Loops(dir + [n])
  {
    common := set n | n in names && w.InRoot(dir + [n]) && w.IsFile(dir + [n]);
    forall n | n in names ensures AgreeAt(w, v, dir + [n]) {}
  }

  lemma CommonIsCalled(dir: Path, common: set<string>, all: set<string>, q: Path)
    requires common <= all && Call(q) in CallAll(dir, Listing.Sorted(common))
    ensures Call(q) in CallAll(dir, Listing.Sorted(all))
  {
    hide Listing.Sorted, CallAll;
    CallOfName(dir, common, q);
    var n :| n in common && q == dir + [n];
    NameIsCalled(dir, all, n);
  }

  lemma {:induction false} DirectoriesAgree(w: World, v: World, dir: Path, names: set<string>, seen: set<Path>,
                                            depth: nat)
    requires w.resolve(w.root).Place? && v.resolve(v.root).Place?
    requires AgreeOn(w, v,
      (set n | n in names :: dir + [n]) + AskedBelow(w, CallAll(dir, Listing.Sorted(w.Files(dir, names))), seen, depth))
    ensures ReadItems(w, CallAll(dir, Listing.Sorted(w.Files(dir, names))), seen, depth)
         == ReadItems(v, CallAll(dir, Listing.Sorted(v.Files(dir, names))), seen, depth)
    decreases Budget(depth), 3, 0
  {
    hide Asked, AskedBelow, Read, ReadItems, CallAll, AgreeAt, World.InRoot, World.Loops, World.Files, Listing.Sorted;
    forall n | n in names ensures AgreeAt(w, v, dir + [n]) {}
    var common := CommonFiles(w, v, dir, names);
    OutsideNamesVanish(w, dir, w.Files(dir, names), common, seen, depth);
    OutsideNamesVanish(v, dir, v.Files(dir, names), common, seen, depth);
    forall q | Call(q) in CallAll(dir, Listing.Sorted(common)) ensures AgreeOn(w, v, Asked(w, q, seen, depth)) {
      CommonIsCalled(dir, common, w.Files(dir, names), q);
      CalledIsAsked(w, CallAll(dir, Listing.Sorted(w.Files(dir, names))), seen, depth, q);
    }
    forall d ensures Guard(d) !in CallAll(dir, Listing.Sorted(common)) { NoGuards(dir, Listing.Sorted(common), d); }
    ItemsRead(w, v, CallAll(dir, Listing.Sorted(common)), seen, depth);
  }

  lemma NoGuards(dir: Path, names: seq<string>, d: Path)
    ensures Guard(d) !in CallAll(dir, names)
  {
  }

  // ----- one file -----

  /** The directories whose guards agree. */
  ghost predicate GuardsAgree(w: World, v: World, items: seq<Item>) {
    w.root == v.root && w.glob == v.glob && forall d :: Guard(d) in items ==> AgreeAt(w, v, d)
  }

  lemma {:induction false} TextItemsAgree(w: World, v: World, raws: seq<Raw>, dir: Path)
    requires GuardsAgree(w, v, TextItems(w, raws, dir))
    ensures TextItems(w, raws, dir) == TextItems(v, raws, dir)
  {
    hide LineItems, AgreeAt;
    if raws != [] {
      var front, last := TextItems(w, raws[..|raws| - 1], dir), LineItems(w, raws[|raws| - 1], dir);
      forall i | i in front || i in last ensures i in front + last {}
      TextItemsAgree(w, v, raws[..|raws| - 1], dir);
      LineItemsAgree(w, v, raws[|raws| - 1], dir);
    }
  }

  lemma LineItemsAgree(w: World, v: World, raw: Raw, dir: Path)
    requires GuardsAgree(w, v, LineItems(w, raw, dir))
    ensures LineItems(w, raw, dir) == LineItems(v, raw, dir)
  {
    hide IncludeItems;
    match raw
    case Include(arg) => IncludeItemsAgree(w, v, arg, dir);
    case _ =>
  }

  lemma IncludeItemsAgree(w: World, v: World, arg: string, dir: Path)
    requires GuardsAgree(w, v, IncludeItems(w, arg, dir))
    ensures IncludeItems(w, arg, dir) == IncludeItems(v, arg, dir)
  {
    hide SplitWildcard, AgreeAt;
    match SplitWildcard(arg)
    case None =>
    case Some((d, pattern)) =>
      var directory := TargetPath(w, d, dir);
      assert IncludeItems(w, arg, dir)[0] == Guard(directory);
      MatchItemsAgree(w, v, directory, pattern);
  }

  lemma MatchItemsAgree(w: World, v: World, directory: Path, pattern: string)
    requires w.glob == v.glob && AgreeAt(w, v, directory)
    ensures MatchItems(w, directory, pattern) == MatchItems(v, directory, pattern)
  {
    match w.Lookup(directory)
    case Some(Dir(names)) => assert w.Matching(names, pattern) == v.Matching(names, pattern);
    case _ =>
  }

  lemma {:induction false} ItemsRead(w: World, v: World, items: seq<Item>, seen: set<Path>, depth: nat)
    requires forall q :: Call(q) in items ==> AgreeOn(w, v, Asked(w, q, seen, depth))
    requires forall d :: Guard(d) in items ==> AgreeAt(w, v, d)
    ensures ReadItems(w, items, seen, depth) == ReadItems(v, items, seen, depth)
    decreases Budget(depth), 2, |items|
  {
    hide Asked, Read, ReadItems, AgreeOn;
    if items == [] {
      ReadNone(w, seen, depth);
      ReadNone(v, seen, depth);
    } else {
      var front, last := items[..|items| - 1], items[|items| - 1];
      assert items == front + [last] && last in items;
      ItemsRead(w, v, front, seen, depth);
      if last.Call? { Confinement(w, v, last.target, seen, depth); }
      ReadAppend(w, front, [last], seen, depth);
      ReadAppend(v, front, [last], seen, depth);
      ReadOne(w, last, seen, depth);
      ReadOne(v, last, seen, depth);
    }
  }

  lemma {:induction false} BelowAgrees(w: World, v: World, items: seq<Item>, seen: set<Path>, depth: nat)
    requires AgreeOn(w, v, AskedBelow(w, items, seen, depth))
    ensures ReadItems(w, items, seen, depth) == ReadItems(v, items, seen, depth)
    decreases Budget(depth), 3, 0
  {
    hide Asked, AskedBelow, ReadItems, AgreeAt;
    forall q | Call(q) in items ensures AgreeOn(w, v, Asked(w, q, seen, depth)) {
      CalledIsAsked(w, items, seen, depth, q);
    }
    BelowGuardsAgree(w, v, items, seen, depth);
    ItemsRead(w, v, items, seen, depth);
  }

  lemma BelowGuardsAgree(w: World, v: World, items: seq<Item>, seen: set<Path>, depth: nat)
    requires AgreeOn(w, v, AskedBelow(w, items, seen, depth))
    ensures GuardsAgree(w, v, items)
  {
    hide AskedBelow, AgreeAt;
    forall d | Guard(d) in items ensures AgreeAt(w, v, d) {
      GuardedIsAsked(w, items, seen, depth, d);
    }
  }

  /**
    Reading any path, from any point of an expansion, gives the same lines, or raises, in two file
    systems that agree on the paths asked about.
   */
  lemma {:induction false} Confinement(w: World, v: World, p: Path, seen: set<Path>, depth: nat)
    requires AgreeOn(w, v, Asked(w, p, seen, depth))
    ensures Read(w, p, seen, depth) == Read(v, p, seen, depth)
    decreases Budget(depth), 1, 0
  {
    hide AskedBelow, Expand, Stuck, TextItems, CallAll, Classified;
    if depth <= MAX_INCLUDE_DEPTH && p !in seen {
      assert p in Asked(w, p, seen, depth);
      assert AgreeAt(w, v, p);
      if w.InRoot(p) { InsideAgrees(w, v, p, seen, depth); }
    }
  }

  lemma {:induction false} InsideAgrees(w: World, v: World, p: Path, seen: set<Path>, depth: nat)
    requires depth <= MAX_INCLUDE_DEPTH && w.InRoot(p) && AgreeAt(w, v, p)
    requires AgreeOn(w, v, EntriesOf(w, p) + AskedBelow(w, Items(w, p), seen + {p}, depth + 1))
    ensures ReadItems(w, Items(w, p), seen + {p}, depth + 1) == ReadItems(v, Items(v, p), seen + {p}, depth + 1)
    decreases Budget(depth), 0, 0
  {
    hide AskedBelow, ReadItems, TextItems, CallAll, Classified, Listing.Sorted;
    match w.Lookup(p)
    case Some(Dir(names)) => DirectoriesAgree(w, v, p, names, seen + {p}, depth + 1);
    case Some(File(text)) =>
      BelowGuardsAgree(w, v, Items(w, p), seen + {p}, depth + 1);
      TextItemsAgree(w, v, Classified(text), Parent(p));
      BelowAgrees(w, v, Items(w, p), seen + {p}, depth + 1);
    case _ => BelowAgrees(w, v, Items(w, p), seen + {p}, depth + 1);
  }

  /** What the whole reader asks about. */
  ghost function AllAsked(w: World): set<Path> {
    Asked(w, MainFile(w), {}, 0)
  }

  /**
    The effective torrc lines, and whether reading them raises, are confined to the answers about the
    paths asked.  `is_file` on the main file is asked before its root guard, so it must also agree where
    that guard would raise; where the guard fails the answer does not matter.
   */
  lemma EffectiveLinesAreConfined(w: World, v: World)
    requires AgreeOn(w, v, AllAsked(w))
    requires w.Loops(MainFile(w)) ==> w.IsFile(MainFile(w)) == v.IsFile(MainFile(v))
    ensures Effective(w) == Effective(v)
  {
    hide Expand, Items, AskedBelow, EntriesOf, Stuck;
    Confinement(w, v, MainFile(w), {}, 0);
    assert MainFile(w) in AllAsked(w);
    assert AgreeAt(w, v, MainFile(w));
  }
}
