/**
  Two exactness results about the root guard: which paths look the same whatever lies outside the
  root, and when the whole list of effective torrc lines does.
 */
module TorrcExact {
  import opened Text
  import opened Torrc
  import opened TorrcLoops
  import opened TorrcConfinement
  import opened TorrcLinks
  import opened TorrcOutside
  import Listing

  // ----- path by path -----

  /**
    For a path whose walk leaves the root there are two file systems, the same inside as `w`, such that
    one resolves the path into the root and the other does not.
   */
  lemma LeavingPathIsOpen(w: World, a: Links, q: Path) returns (into: World, b: Links, out: World, c: Links)
    requires Follows(w, a) && Resolved(a, w.root).Some? && WalkLeaves(a, w.root, q)
    ensures SameInside(w, a, into, b) && into.InRoot(q)
    ensures SameInside(w, a, out, c) && !out.InRoot(q)
  {
    hide After, LinksAgree, Resolved, Segments, SameInside, LeavesAt, GivesUpAt, StatLoops, Remainder, Opens;
    var n: nat :| LeavesAt(a, w.root, q, n);
    var m := FirstExit(a, w.root, q, n);
    var l, r := Exit(a, w.root, q, m), Resolved(a, w.root).value;
    var novel := Fresh(Segments(a, l, r));
    b := Reopened(a, w.root, q, r, m, novel);
    c := Reopened(a, w.root, q, [], m, novel);
    into, out := Relinked(w, b), Relinked(w, c);
    RelinkedIsSame(w, a, b);
    RelinkedIsSame(w, a, c);
    RootResolvesSame(a, b, w.root);
    RootResolvesSame(a, c, w.root);
    assert r <= r + [novel];
    NotBelow(a, w.root, l, r, novel, Resolved(c, q).value);
  }

  lemma NotBelow(a: Links, root: Path, l: Path, r: Path, novel: string, place: Path)
    requires Resolved(a, root) == Some(r) && !Inside(a, root, l)
    requires novel !in Segments(a, l, r) && [] + [novel] <= place
    ensures !(r <= place)
  {
    hide Resolved;
    assert place[0] == novel;
    assert r != [] && r[0] in Segments(a, l, r);
  }

  /** Where `realpath` gives up is a matter of the links alone. */
  lemma GivesUpOnce(links: Links, p: Path, k: nat, j: nat)
    requires GivesUpAt(links, p, k) && GivesUpAt(links, p, j)
    ensures j == k && Resolved(links, p) == None
  {
    hide Reenters, Resolved;
    GivenUpIsEndless(links, p, k);
  }

  /** A path whose walk stays, given up at step `k`, is answered by what `stat` finds. */
  lemma AnswerByStat(a: Links, b: Links, nodes: map<Path, Node>, root: Path, q: Path, k: nat)
    requires LinksAgree(a, b, root) && !WalkLeaves(a, root, q) && GivesUpAt(a, q, k)
    ensures Answer(b, nodes, q) == if StatLoops(b, nodes, Remainder(a, q, k)) then Loop else Failed
  {
    hide LinksAgree, WalkLeaves, Resolved, GivesUpAt, StatLoops, Remainder;
    StayingGivesUpSame(a, b, root, q, k);
    GivesUpOnce(b, q, k, k);
    forall j: nat | GivesUpAt(b, q, j) ensures j == k { GivesUpOnce(b, q, k, j); }
  }

  /**
    For a path that is given up, and whose rest leads `stat` out of the root, there are two as well: in
    one resolving the path raises and in the other it does not.
   */
  lemma GivenUpPathIsOpen(w: World, a: Links, q: Path) returns (loop: World, b: Links, other: World, c: Links)
    requires Follows(w, a) && Resolved(a, w.root).Some?
    requires Leaves(a, w.nodes, w.root, q) && !WalkLeaves(a, w.root, q)
    ensures SameInside(w, a, loop, b) && loop.Loops(q) && loop == Relinked(w, b)
    ensures SameInside(w, a, other, c) && !other.Loops(q)
  {
    hide After, LinksAgree, Resolved, Segments, SameInside, LeavesAt, GivesUpAt, StatLoops, Remainder, Opens, DeadEndAt,
      Inside;
    var k: nat :| GivesUpAt(a, q, k) && StatLeaves(a, w.nodes, w.root, Remainder(a, q, k));
    var x := Remainder(a, q, k);
    var n: nat :| LeavesAt(a, w.root, x, n) && forall j: nat :: j < n ==> !DeadEndAt(a, w.nodes, x, j);
    var m := FirstExit(a, w.root, x, n);
    b := StatLooped(a, w.nodes, w.root, x, m);
    var l, r := Exit(a, w.root, x, m), Resolved(a, w.root).value;
    var novel := Fresh(Segments(a, l, r));
    c := Reopened(a, w.root, x, [], m, novel);
    loop, other := Relinked(w, b), Relinked(w, c);
    RelinkedIsSame(w, a, b);
    RelinkedIsSame(w, a, c);
    RootResolvesSame(a, b, w.root);
    RootResolvesSame(a, c, w.root);
    AnswerByStat(a, b, w.nodes, w.root, q, k);
    AnswerByStat(a, c, w.nodes, w.root, q, k);
    ResolvedDoesNotLoop(c, w.nodes, x);
  }

  lemma ResolvedDoesNotLoop(links: Links, nodes: map<Path, Node>, x: Path)
    requires Resolved(links, x).Some?
    ensures !StatLoops(links, nodes, x)
  {
    hide Resolved;
  }

  /**
    The condition is exact, path by path: whatever the outside holds, a path looks the same to the
    reader in every file system that is the same inside, if and only if its resolution never leaves
    the root.
   */
  lemma ConfinedExactlyIfStaying(w: World, a: Links, q: Path)
    requires Follows(w, a) && Resolved(a, w.root).Some?
    ensures (forall v, b :: SameInside(w, a, v, b) ==> AgreeAt(w, v, q)) <==> !Leaves(a, w.nodes, w.root, q)
  {
    hide Follows, SameInside, Leaves, AgreeAt, Resolved, WalkLeaves;
    if !Leaves(a, w.nodes, w.root, q) {
      forall v, b | SameInside(w, a, v, b) ensures AgreeAt(w, v, q) { StayingPathsAgree(w, a, v, b, q); }
    } else if WalkLeaves(a, w.root, q) {
      var v, b, u, c := LeavingPathIsOpen(w, a, q);
      NotBoth(w, v, u, q);
    } else {
      var v, b, u, c := GivenUpPathIsOpen(w, a, q);
      NotBoth(w, v, u, q);
    }
  }

  lemma NotBoth(w: World, v: World, u: World, q: Path)
    requires v.InRoot(q) != u.InRoot(q) || v.Loops(q) != u.Loops(q)
    ensures !AgreeAt(w, v, q) || !AgreeAt(w, u, q)
  {
  }

  // ----- all the lines -----

  /** A trail the reader can follow from the main file within the depth cap. */
  ghost predicate ReadTrail(w: World, ps: seq<Path>) {
    Trail(w, ps) && ps[0] == MainFile(w) && |ps| <= MAX_INCLUDE_DEPTH + 1
  }

  /** The reader guards `q` at the end of the trail: it reads it, or takes it for a wildcard's directory. */
  ghost predicate GuardedBy(w: World, ps: seq<Path>, q: Path) {
    && ReadTrail(w, ps)
    && var last := ps[|ps| - 1]; last == q || (w.InRoot(last) && Guard(q) in Items(w, last))
  }

  /** A path whose root guard the reader evaluates, unless a guard before it raises. */
  ghost predicate Guarded(w: World, q: Path) {
    exists ps :: GuardedBy(w, ps, q)
  }

  ghost predicate EntryOf(w: World, ps: seq<Path>, e: Path) {
    ReadTrail(w, ps) && w.InRoot(ps[|ps| - 1]) && e in EntriesOf(w, ps[|ps| - 1])
  }

  /** Resolving the main file, or an entry of a directory that is read, never leaves the root. */
  ghost predicate EntriesStay(w: World, a: Links) {
    && !Leaves(a, w.nodes, w.root, MainFile(w))
    && forall ps, e :: EntryOf(w, ps, e) ==> !Leaves(a, w.nodes, w.root, e)
  }

  lemma {:induction false} TrailSnoc(w: World, ps: seq<Path>, q: Path)
    requires Trail(w, ps) && w.InRoot(ps[|ps| - 1]) && Call(q) in Items(w, ps[|ps| - 1])
    ensures Trail(w, ps + [q])
    decreases |ps|
  {
    hide Items;
    if |ps| == 1 {
      assert (ps + [q])[1..] == [q];
    } else {
      TrailSnoc(w, ps[1..], q);
      assert (ps + [q])[1..] == ps[1..] + [q];
    }
  }

  /** What is asked is the entry of a directory, or guarded. */
  lemma {:induction false} AskedOnTrail(w: World, ps: seq<Path>, seen: set<Path>, depth: nat, q: Path)
    requires Trail(w, ps) && ps[0] == MainFile(w) && |ps| == depth + 1
    requires q in Asked(w, ps[|ps| - 1], seen, depth)
    ensures Guarded(w, q) || exists qs :: EntryOf(w, qs, q)
    decreases Budget(depth), 1, 0
  {
    hide Items, AskedBelow, EntriesOf;
    var p := ps[|ps| - 1];
    if q == p {
      assert GuardedBy(w, ps, q);
    } else if q in EntriesOf(w, p) {
      assert EntryOf(w, ps, q);
    } else {
      AskedBelowOnTrail(w, ps, Items(w, p), seen + {p}, depth, q);
    }
  }

  lemma {:induction false} AskedBelowOnTrail(w: World, ps: seq<Path>, items: seq<Item>, seen: set<Path>, depth: nat,
                                             q: Path)
    requires Trail(w, ps) && ps[0] == MainFile(w) && |ps| == depth + 1 <= MAX_INCLUDE_DEPTH + 1
    requires w.InRoot(ps[|ps| - 1]) && forall i :: i in items ==> i in Items(w, ps[|ps| - 1])
    requires q in AskedBelow(w, items, seen, depth + 1)
    ensures Guarded(w, q) || exists qs :: EntryOf(w, qs, q)
    decreases Budget(depth + 1), 2, |items|
  {
    hide Items, Asked, Trail, EntryOf;
    var front, last := items[..|items| - 1], items[|items| - 1];
    assert last in items;
    if q in AskedBelow(w, front, seen, depth + 1) {
      forall i | i in front ensures i in items {}
      AskedBelowOnTrail(w, ps, front, seen, depth, q);
    } else if last.Call? {
      TrailSnoc(w, ps, last.target);
      AskedOnTrail(w, ps + [last.target], seen, depth + 1, q);
    } else {
      assert GuardedBy(w, ps, q);
    }
  }

  lemma AskedIsReached(w: World, q: Path)
    requires q in AllAsked(w)
    ensures Guarded(w, q) || exists qs :: EntryOf(w, qs, q)
  {
    hide Asked, Items, Guarded, EntryOf;
    AskedOnTrail(w, [MainFile(w)], {}, 0, q);
  }

  /** A shortest trail to a guarded path that leaves. */
  lemma {:induction false} Shortest(w: World, a: Links, ps: seq<Path>, q: Path) returns (qs: seq<Path>, x: Path)
    requires GuardedBy(w, ps, q) && Leaves(a, w.nodes, w.root, q)
    ensures GuardedBy(w, qs, x) && Leaves(a, w.nodes, w.root, x)
    ensures forall rs, y :: |rs| < |qs| && GuardedBy(w, rs, y) ==> !Leaves(a, w.nodes, w.root, y)
    decreases |ps|
  {
    hide GuardedBy, Leaves;
    if rs, y :| |rs| < |ps| && GuardedBy(w, rs, y) && Leaves(a, w.nodes, w.root, y) {
      qs, x := Shortest(w, a, rs, y);
    } else {
      qs, x := ps, q;
    }
  }

  // ----- the same trail in the other file system -----

  /** The two differ in links alone, and this path is not concerned. */
  ghost predicate Unconcerned(w: World, v: World, p: Path) {
    w.resolve(p) == v.resolve(p) && w.opens(p) == v.opens(p)
  }

  lemma StayingIsUnconcerned(w: World, a: Links, b: Links, p: Path)
    requires Follows(w, a) && LinksAgree(a, b, w.root) && !Leaves(a, w.nodes, w.root, p)
    ensures Unconcerned(w, Relinked(w, b), p)
  {
    hide LinksAgree, WalkLeaves, StatLeaves, Answer, Opens, Inside;
    StayingAnswersSame(a, w.nodes, b, w.nodes, w.root, p);
    StayingOpensSame(a, w.nodes, b, w.nodes, w.root, p);
  }

  /** Guards do not depend on what the paths lead to. */
  lemma {:induction false} GuardsKept(w: World, v: World, raws: seq<Raw>, dir: Path, d: Path)
    requires w.root == v.root && Guard(d) in TextItems(w, raws, dir)
    ensures Guard(d) in TextItems(v, raws, dir)
  {
    hide SplitWildcard, MatchItems;
    var front, last := TextItems(w, raws[..|raws| - 1], dir), LineItems(w, raws[|raws| - 1], dir);
    if Guard(d) in front {
      GuardsKept(w, v, raws[..|raws| - 1], dir, d);
    } else {
      LineGuardKept(w, v, raws[|raws| - 1], dir, d);
    }
  }

  lemma LineGuardKept(w: World, v: World, raw: Raw, dir: Path, d: Path)
    requires w.root == v.root && Guard(d) in LineItems(w, raw, dir)
    ensures Guard(d) in LineItems(v, raw, dir)
  {
    hide SplitWildcard, Parts, MatchItems;
    match raw
    case Include(arg) =>
      match SplitWildcard(arg) {
        case None =>
        case Some((e, pattern)) =>
          MatchesAreCalls(w, TargetPath(w, e, dir), pattern, d);
          assert IncludeItems(v, arg, dir)[0] == Guard(d);
      }
    case _ =>
  }

  lemma MatchesAreCalls(w: World, directory: Path, pattern: string, d: Path)
    ensures Guard(d) !in MatchItems(w, directory, pattern)
  {
    hide Listing.Sorted;
  }

  /** A path that is not concerned, with unconcerned entries and guards, does the same. */
  lemma SameItems(w: World, v: World, p: Path)
    requires w.root == v.root && w.glob == v.glob && w.nodes == v.nodes
    requires w.resolve(w.root) == v.resolve(w.root) && Unconcerned(w, v, p)
    requires forall e :: e in EntriesOf(w, p) ==> Unconcerned(w, v, e)
    requires forall d :: Guard(d) in Items(w, p) ==> Unconcerned(w, v, d)
    ensures Items(w, p) == Items(v, p)
  {
    hide CallAll, Listing.Sorted, Classified;
    match w.Lookup(p)
    case Some(Dir(names)) =>
      forall n | n in names ensures w.IsFile(p + [n]) == v.IsFile(p + [n]) { assert p + [n] in EntriesOf(w, p); }
      assert w.Files(p, names) == v.Files(p, names);
    case Some(File(text)) =>
      hide TextItems;
      forall d | Guard(d) in Items(w, p) ensures AgreeAt(w, v, d) {}
      TextItemsAgree(w, v, Classified(text), Parent(p));
    case _ =>
  }

  lemma SameGuards(w: World, v: World, p: Path, d: Path)
    requires w.root == v.root && w.nodes == v.nodes && Unconcerned(w, v, p) && Guard(d) in Items(w, p)
    ensures Guard(d) in Items(v, p)
  {
    hide CallAll, Listing.Sorted, Classified, TextItems;
    match w.Lookup(p)
    case Some(File(text)) => GuardsKept(w, v, Classified(text), Parent(p), d);
    case Some(Dir(names)) => NoGuards(p, Listing.Sorted(w.Files(p, names)), d);
    case _ =>
  }

  lemma {:induction false} TrailKept(w: World, v: World, ps: seq<Path>)
    requires Trail(w, ps)
    requires forall i :: 0 <= i < |ps| - 1 ==> w.InRoot(ps[i]) == v.InRoot(ps[i]) && Items(w, ps[i]) == Items(v, ps[i])
    ensures Trail(v, ps)
    decreases |ps|
  {
    hide Items, World.InRoot;
    if |ps| > 1 {
      forall i | 0 <= i < |ps[1..]| - 1
        ensures w.InRoot(ps[1..][i]) == v.InRoot(ps[1..][i]) && Items(w, ps[1..][i]) == Items(v, ps[1..][i])
      {
        assert ps[1..][i] == ps[i + 1];
      }
      TrailKept(w, v, ps[1..]);
    }
  }

  lemma {:induction false} TrailFront(w: World, ps: seq<Path>, i: nat)
    requires Trail(w, ps) && i < |ps|
    ensures Trail(w, ps[..i + 1]) && (i < |ps| - 1 ==> w.InRoot(ps[i]))
    decreases i
  {
    hide Items, World.InRoot;
    if i > 0 {
      TrailFront(w, ps[1..], i - 1);
      assert ps[..i + 1][1..] == ps[1..][..i];
    }
  }

  /** On a shortest trail to a guarded path that leaves, nothing before its end is concerned. */
  lemma TrailIsSame(w: World, a: Links, b: Links, ps: seq<Path>, i: nat)
    requires Follows(w, a) && LinksAgree(a, b, w.root) && EntriesStay(w, a) && ReadTrail(w, ps) && i < |ps| - 1
    requires w.resolve(w.root) == Relinked(w, b).resolve(w.root)
    requires forall rs, y :: |rs| < |ps| && GuardedBy(w, rs, y) ==> !Leaves(a, w.nodes, w.root, y)
    ensures var v := Relinked(w, b); w.InRoot(ps[i]) == v.InRoot(ps[i]) && Items(w, ps[i]) == Items(v, ps[i])
  {
    hide Items, EntriesOf, Leaves, LinksAgree, Follows, Answer, Opens, Trail;
    var v, p, front := Relinked(w, b), ps[i], ps[..i + 1];
    TrailFront(w, ps, i);
    assert front[|front| - 1] == p && front[0] == ps[0];
    assert GuardedBy(w, front, p);
    StayingIsUnconcerned(w, a, b, p);
    forall d | Guard(d) in Items(w, p) ensures Unconcerned(w, v, d) {
      assert GuardedBy(w, front, d);
      StayingIsUnconcerned(w, a, b, d);
    }
    forall e | e in EntriesOf(w, p) ensures Unconcerned(w, v, e) {
      assert EntryOf(w, front, e);
      StayingIsUnconcerned(w, a, b, e);
    }
    SameItems(w, v, p);
  }

  /** What there is to know about a main file that can be read. */
  lemma MainOpens(w: World, a: Links)
    requires Follows(w, a) && w.IsFile(MainFile(w))
    ensures Resolved(a, w.root).Some? && w.resolve(w.root) == Place(Resolved(a, w.root).value)
    ensures Passable(a, w.nodes, w.root + ["etc", "tor", "torrc"])
  {
    hide Resolved, Passable;
    assert Opens(a, w.nodes, MainFile(w));
    if Resolved(a, w.root).None? { LoopBelow(a, w.root, ["etc", "tor", "torrc"]); }
    assert w.resolve(w.root) == Answer(a, w.nodes, w.root);
  }

  /** One link can make a leaving path a loop that is reported. */
  lemma LoopingWorld(w: World, a: Links, q: Path) returns (b: Links)
    requires Follows(w, a) && w.IsFile(MainFile(w)) && Leaves(a, w.nodes, w.root, q)
    ensures LinksAgree(a, b, w.root) && Relinked(w, b).Loops(q)
    ensures w.resolve(w.root) == Relinked(w, b).resolve(w.root)
  {
    hide LinksAgree, LeavesAt, Resolved, Passable, Opens, ExitsAt, GivesUpAt, Follows, Leaves, Inside, StatLoops,
      Remainder, NodesAgree;
    MainOpens(w, a);
    if WalkLeaves(a, w.root, q) {
      var n: nat :| LeavesAt(a, w.root, q, n);
      var m := FirstExit(a, w.root, q, n);
      b := WalkLooped(a, w.nodes, w.root, ["etc", "tor", "torrc"], q, m);
    } else {
      var loop, b', other, c := GivenUpPathIsOpen(w, a, q);
      b := b';
    }
    RootResolvesSame(a, b, w.root);
  }

  /** So the reader raises there. */
  lemma RaisesThere(w: World, a: Links, b: Links, ps: seq<Path>, q: Path)
    requires Follows(w, a) && LinksAgree(a, b, w.root) && w.IsFile(MainFile(w)) && EntriesStay(w, a)
    requires GuardedBy(w, ps, q) && (q == ps[|ps| - 1] || !Leaves(a, w.nodes, w.root, ps[|ps| - 1]))
    requires forall rs, y :: |rs| < |ps| && GuardedBy(w, rs, y) ==> !Leaves(a, w.nodes, w.root, y)
    requires Relinked(w, b).Loops(q) && w.resolve(w.root) == Relinked(w, b).resolve(w.root)
    ensures Effective(Relinked(w, b)) == None
  {
    assert ps != [];
    hide Items, Leaves, LinksAgree, Follows, Answer, Opens, Trail, Effective, Meets;
    var v, last := Relinked(w, b), ps[|ps| - 1];
    forall i | 0 <= i < |ps| - 1 ensures w.InRoot(ps[i]) == v.InRoot(ps[i]) && Items(w, ps[i]) == Items(v, ps[i]) {
      TrailIsSame(w, a, b, ps, i);
    }
    TrailKept(w, v, ps);
    if q != last { StayingIsUnconcerned(w, a, b, last); }
    EndMeets(w, v, last, q);
    StayingIsUnconcerned(w, a, b, MainFile(w));
    assert LoopTrail(v, MainFile(v), ps, {}, Budget(0));
    NoLines(v, ps);
  }

  lemma EndMeets(w: World, v: World, last: Path, q: Path)
    requires w.root == v.root && w.nodes == v.nodes && w.resolve(w.root) == v.resolve(w.root) && v.Loops(q)
    requires q == last || (w.InRoot(last) && Guard(q) in Items(w, last) && Unconcerned(w, v, last))
    ensures Meets(v, last)
  {
    hide Items;
    if q != last { SameGuards(w, v, last, q); }
  }

  lemma NoLines(w: World, ps: seq<Path>)
    requires w.IsFile(MainFile(w)) && LoopTrail(w, MainFile(w), ps, {}, Budget(0))
    ensures Effective(w) == None
  {
    hide LoopTrail, Raises, Resolve;
    RaisesExactly(w, MainFile(w), {}, 0);
  }

  /**
    The effective lines of a file system whose main file and directory entries stay inside the root,
    and that can be read, are the same whatever lies outside the root if and only if no path the
    reader guards leaves the root.
   */
  lemma LinesConfinedExactly(w: World, a: Links)
    requires Follows(w, a) && w.IsFile(MainFile(w)) && Effective(w).Some? && EntriesStay(w, a)
    ensures (forall v, b :: SameInside(w, a, v, b) ==> Effective(v) == Effective(w))
       <==> (forall q :: Guarded(w, q) ==> !Leaves(a, w.nodes, w.root, q))
  {
    hide Follows, SameInside, Leaves, Effective, LinksAgree, GuardedBy, EntryOf;
    if q :| Guarded(w, q) && Leaves(a, w.nodes, w.root, q) {
      var ps :| GuardedBy(w, ps, q);
      var qs, x := Shortest(w, a, ps, q);
      var y := EndFirst(w, a, qs, x);
      var b := LoopingWorld(w, a, y);
      RaisesThere(w, a, b, qs, y);
      RelinkedIsSame(w, a, b);
    } else {
      forall v, b | SameInside(w, a, v, b) ensures Effective(v) == Effective(w) {
        forall q | q in AllAsked(w) ensures !Leaves(a, w.nodes, w.root, q) { AskedIsReached(w, q); }
        LinesAreConfined(w, a, v, b);
      }
    }
  }

  /** If the end of the trail leaves as well, take that. */
  lemma EndFirst(w: World, a: Links, ps: seq<Path>, q: Path) returns (x: Path)
    requires GuardedBy(w, ps, q) && Leaves(a, w.nodes, w.root, q)
    ensures GuardedBy(w, ps, x) && Leaves(a, w.nodes, w.root, x)
    ensures x == ps[|ps| - 1] || !Leaves(a, w.nodes, w.root, ps[|ps| - 1])
  {
    hide Leaves, Items;
    var last := ps[|ps| - 1];
    x := if Leaves(a, w.nodes, w.root, last) then last else q;
  }
}
