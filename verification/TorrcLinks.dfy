/**
  Confinement down to symbolic links: when can what lies outside the root be seen through the torrc
  reader?  `Path.resolve` is a walk over the path's segments that consults one location at a time
  and continues in the target of every link it meets.  It does not ask whether a location exists; the
  operating system, following the same links, does.
 */
module TorrcLinks {
  import opened Text
  import opened Torrc
  import opened TorrcConfinement

  datatype Link = To(target: Path) | Beside(target: Path)
  type Links = map<Path, Link>

  /** Where a walk stands and what is left of the path. */
  datatype Cursor = Cursor(done: Path, todo: Path)

  function Consulted(s: Cursor): Option<Path> {
    if s.todo == [] || s.todo[0] == ".." then None else Some(s.done + [s.todo[0]])
  }

  function Next(links: Links, s: Cursor): Cursor
    requires s.todo != []
  {
    match Consulted(s)
    case None => Cursor(Parent(s.done), s.todo[1..])
    case Some(l) =>
      if l !in links then Cursor(l, s.todo[1..])
      else
        match links[l]
        case To(target) => Cursor([], target + s.todo[1..])
        case Beside(target) => Cursor(s.done, target + s.todo[1..])
  }

  function After(links: Links, s: Cursor, n: nat): Cursor
    decreases n
  {
    if n == 0 || s.todo == [] then s else After(links, Next(links, s), n - 1)
  }

  ghost predicate Arrives(links: Links, p: Path, n: nat) {
    After(links, Cursor([], p), n).todo == []
  }

  /** Where the walk ends; nothing if it does not. */
  ghost function Resolved(links: Links, p: Path): Option<Path> {
    if exists n: nat :: Arrives(links, p, n) then
      var n: nat :| Arrives(links, p, n);
      Some(After(links, Cursor([], p), n).done)
    else None
  }

  function IsDirectory(nodes: map<Path, Node>, l: Path): bool {
    l in nodes && (nodes[l].Dir? || nodes[l].Unlistable?)
  }

  /** The operating system stops here: what is no directory cannot be passed through. */
  predicate DeadEnd(links: Links, nodes: map<Path, Node>, s: Cursor) {
    match Consulted(s)
    case None => false
    case Some(l) => l !in links && |s.todo| > 1 && !IsDirectory(nodes, l)
  }

  ghost predicate DeadEndAt(links: Links, nodes: map<Path, Node>, p: Path, n: nat) {
    DeadEnd(links, nodes, After(links, Cursor([], p), n))
  }

  ghost predicate Passable(links: Links, nodes: map<Path, Node>, p: Path) {
    forall n: nat :: !DeadEndAt(links, nodes, p, n)
  }

  ghost predicate Opens(links: Links, nodes: map<Path, Node>, p: Path) {
    Resolved(links, p).Some? && Passable(links, nodes, p)
  }

  /** `realpath` comes back, at step `k`, to a link it has begun to follow at step `m` and not finished. */
  ghost predicate Reenters(links: Links, p: Path, m: nat, k: nat) {
    var c := Consulted(After(links, Cursor([], p), m));
    && m < k && c.Some? && c.value in links && Consulted(After(links, Cursor([], p), k)) == c
    && forall j: nat :: m < j <= k ==> |After(links, Cursor([], p), j).todo| >= |After(links, Cursor([], p), m).todo|
  }

  ghost predicate NoticedAt(links: Links, p: Path, k: nat) {
    exists m: nat :: Reenters(links, p, m, k)
  }

  /** The step at which `realpath` gives up. */
  ghost predicate GivesUpAt(links: Links, p: Path, k: nat) {
    NoticedAt(links, p, k) && forall j: nat :: j < k ==> !NoticedAt(links, p, j)
  }

  /** `os.path.normpath`, once `done` is normal. */
  function Normal(done: Path, todo: Path): Path
    decreases |todo|
  {
    if todo == [] then done
    else if todo[0] == ".." then Normal(Parent(done), todo[1..])
    else Normal(done + [todo[0]], todo[1..])
  }

  /** What `realpath` returns when it gives up: the rest of the path taken as it stands. */
  ghost function Remainder(links: Links, p: Path, k: nat): Path {
    var s := After(links, Cursor([], p), k);
    Normal(s.done, s.todo)
  }

  /** `stat` of that path fails with `ELOOP`. */
  ghost predicate StatLoops(links: Links, nodes: map<Path, Node>, q: Path) {
    Resolved(links, q).None? && Passable(links, nodes, q)
  }

  /**
    `Path.resolve()`: where the walk ends.  When it does not end, `realpath` gives up, and `resolve`
    raises the `RuntimeError` of a link loop if `stat` of what was returned finds a loop.
   */
  ghost function Answer(links: Links, nodes: map<Path, Node>, p: Path): Resolution {
    match Resolved(links, p)
    case Some(c) => Place(c)
    case None =>
      if exists k: nat :: GivesUpAt(links, p, k) && StatLoops(links, nodes, Remainder(links, p, k)) then Loop
      else Failed
  }

  lemma {:induction false} AfterSum(links: Links, s: Cursor, n: nat, m: nat)
    ensures After(links, s, n + m) == After(links, After(links, s, n), m)
    decreases n
  {
    hide Next;
    if n > 0 && s.todo != [] { AfterSum(links, Next(links, s), n - 1, m); }
    if s.todo == [] { assert After(links, s, m) == s; }
  }

  lemma AfterSnoc(links: Links, s: Cursor, n: nat)
    ensures After(links, s, n + 1) == var t := After(links, s, n); if t.todo == [] then t else Next(links, t)
  {
    hide Next;
    AfterSum(links, s, n, 1);
    var t := After(links, s, n);
    assert t.todo != [] ==> After(links, t, 1) == After(links, Next(links, t), 0);
  }

  lemma ResolvedIs(links: Links, p: Path, n: nat)
    requires Arrives(links, p, n)
    ensures Resolved(links, p) == Some(After(links, Cursor([], p), n).done)
  {
    hide Next;
    var m: nat :| Arrives(links, p, m) && Resolved(links, p) == Some(After(links, Cursor([], p), m).done);
    if m <= n {
      AfterSum(links, Cursor([], p), m, n - m);
    } else {
      AfterSum(links, Cursor([], p), n, m - n);
    }
  }

  // ----- inside the root -----

  ghost predicate ConsultsAt(links: Links, p: Path, n: nat, l: Path) {
    Consulted(After(links, Cursor([], p), n)) == Some(l)
  }

  /** Resolving the root itself consults this location. */
  ghost predicate OnRoute(links: Links, root: Path, l: Path) {
    exists n: nat :: ConsultsAt(links, root, n, l)
  }

  /** The location is inside the root or on the way to it. */
  ghost predicate Inside(links: Links, root: Path, l: Path) {
    (Resolved(links, root).Some? && Resolved(links, root).value <= l) || OnRoute(links, root, l)
  }

  ghost predicate LeavesAt(links: Links, root: Path, p: Path, n: nat) {
    var c := Consulted(After(links, Cursor([], p), n));
    c.Some? && !Inside(links, root, c.value)
  }

  /** The walk of `p` consults a location that is neither inside the root nor on the way to it. */
  ghost predicate WalkLeaves(links: Links, root: Path, p: Path) {
    exists n: nat :: LeavesAt(links, root, p, n)
  }

  /** So does the operating system when it follows `q`. */
  ghost predicate StatLeaves(links: Links, nodes: map<Path, Node>, root: Path, q: Path) {
    exists n: nat :: LeavesAt(links, root, q, n) && forall j: nat :: j < n ==> !DeadEndAt(links, nodes, q, j)
  }

  /** Resolving `p` consults such a location, in its walk or in the `stat` after giving up. */
  ghost predicate Leaves(links: Links, nodes: map<Path, Node>, root: Path, p: Path) {
    || WalkLeaves(links, root, p)
    || (exists k: nat :: GivesUpAt(links, p, k) && StatLeaves(links, nodes, root, Remainder(links, p, k)))
  }

  ghost predicate LinksAgree(a: Links, b: Links, root: Path) {
    forall l :: Inside(a, root, l) ==> (l in a <==> l in b) && (l in a ==> a[l] == b[l])
  }

  ghost predicate NodesAgree(a: Links, x: map<Path, Node>, y: map<Path, Node>, root: Path) {
    forall l :: Inside(a, root, l) ==> (l in x <==> l in y) && (l in x ==> x[l] == y[l])
  }

  ghost predicate Follows(w: World, links: Links) {
    forall p :: w.resolve(p) == Answer(links, w.nodes, p) && w.opens(p) == Opens(links, w.nodes, p)
  }

  /** Two file systems with the same files and links inside the root and on the way to it. */
  ghost predicate SameInside(w: World, a: Links, v: World, b: Links) {
    && w.root == v.root && w.glob == v.glob && Follows(w, a) && Follows(v, b)
    && LinksAgree(a, b, w.root) && NodesAgree(a, w.nodes, v.nodes, w.root)
  }

  /** Two walks stay together as long as the locations consulted are inside. */
  lemma {:induction false} Lockstep(a: Links, b: Links, root: Path, s: Cursor, n: nat)
    requires LinksAgree(a, b, root)
    requires forall m: nat :: m < n && Consulted(After(a, s, m)).Some? ==>
      Inside(a, root, Consulted(After(a, s, m)).value)
    ensures After(a, s, n) == After(b, s, n)
    decreases n
  {
    hide Inside;
    if n > 0 && s.todo != [] {
      assert After(a, s, 0) == s;
      var t := Next(a, s);
      assert t == Next(b, s);
      forall m: nat | m < n - 1 && Consulted(After(a, t, m)).Some?
        ensures Inside(a, root, Consulted(After(a, t, m)).value)
      {
        assert After(a, s, m + 1) == After(a, t, m);
      }
      Lockstep(a, b, root, t, n - 1);
    }
  }

  /** Up to step `n` the walk of `p` stays inside. */
  ghost predicate StaysTo(links: Links, root: Path, p: Path, n: nat) {
    forall m: nat :: m < n ==> !LeavesAt(links, root, p, m)
  }

  lemma StaysTogether(a: Links, b: Links, root: Path, p: Path, n: nat)
    requires LinksAgree(a, b, root) && StaysTo(a, root, p, n)
    ensures After(a, Cursor([], p), n) == After(b, Cursor([], p), n)
  {
    hide Inside, LinksAgree, After, Consulted;
    var s := Cursor([], p);
    forall m: nat | m < n && Consulted(After(a, s, m)).Some? ensures Inside(a, root, Consulted(After(a, s, m)).value) {
      assert !LeavesAt(a, root, p, m);
    }
    Lockstep(a, b, root, s, n);
  }

  lemma WalkStays(a: Links, b: Links, root: Path, p: Path)
    requires LinksAgree(a, b, root) && !WalkLeaves(a, root, p)
    ensures forall n: nat :: After(a, Cursor([], p), n) == After(b, Cursor([], p), n)
  {
    hide LeavesAt, LinksAgree, After;
    forall n: nat ensures After(a, Cursor([], p), n) == After(b, Cursor([], p), n) {
      StaysTogether(a, b, root, p, n);
    }
  }

  /** A path whose walk never leaves the root resolves the same. */
  lemma StayingResolvesSame(a: Links, b: Links, root: Path, p: Path)
    requires LinksAgree(a, b, root) && !WalkLeaves(a, root, p)
    ensures Resolved(a, p) == Resolved(b, p)
  {
    hide WalkLeaves, LinksAgree, After, Resolved;
    WalkStays(a, b, root, p);
    if n: nat :| Arrives(a, p, n) {
      assert Arrives(b, p, n);
      ResolvedIs(a, p, n);
      ResolvedIs(b, p, n);
    } else {
      forall n: nat ensures !Arrives(b, p, n) { assert !Arrives(a, p, n); }
      NeverResolves(a, p);
      NeverResolves(b, p);
    }
  }

  lemma NeverResolves(links: Links, p: Path)
    requires forall n: nat :: !Arrives(links, p, n)
    ensures Resolved(links, p) == None
  {
  }

  /** Where the walk stays, the operating system meets the same dead ends. */
  lemma SameDeadEnd(a: Links, x: map<Path, Node>, b: Links, y: map<Path, Node>, root: Path, p: Path, n: nat)
    requires LinksAgree(a, b, root) && NodesAgree(a, x, y, root) && StaysTo(a, root, p, n + 1)
    ensures DeadEndAt(a, x, p, n) <==> DeadEndAt(b, y, p, n)
  {
    hide Inside, After;
    StaysTogether(a, b, root, p, n);
    assert !LeavesAt(a, root, p, n);
  }

  lemma StayingOpensSame(a: Links, x: map<Path, Node>, b: Links, y: map<Path, Node>, root: Path, p: Path)
    requires LinksAgree(a, b, root) && NodesAgree(a, x, y, root) && !WalkLeaves(a, root, p)
    ensures Opens(a, x, p) == Opens(b, y, p)
  {
    hide LeavesAt, LinksAgree, NodesAgree, DeadEndAt, Resolved;
    StayingResolvesSame(a, b, root, p);
    forall n: nat ensures DeadEndAt(a, x, p, n) <==> DeadEndAt(b, y, p, n) {
      SameDeadEnd(a, x, b, y, root, p, n);
    }
  }

  /** The first dead end, if there is one. */
  lemma {:induction false} FirstDeadEnd(links: Links, nodes: map<Path, Node>, q: Path, n: nat) returns (m: nat)
    requires DeadEndAt(links, nodes, q, n)
    ensures m <= n && DeadEndAt(links, nodes, q, m) && forall j: nat :: j < m ==> !DeadEndAt(links, nodes, q, j)
    decreases n
  {
    hide DeadEndAt;
    if k: nat :| k < n && DeadEndAt(links, nodes, q, k) {
      m := FirstDeadEnd(links, nodes, q, k);
    } else {
      m := n;
    }
  }

  lemma DeadEndKept(a: Links, x: map<Path, Node>, b: Links, y: map<Path, Node>, root: Path, q: Path)
    requires LinksAgree(a, b, root) && NodesAgree(a, x, y, root) && !StatLeaves(a, x, root, q) && !Passable(a, x, q)
    ensures !Passable(b, y, q)
  {
    hide LeavesAt, LinksAgree, NodesAgree, DeadEndAt;
    var n: nat :| DeadEndAt(a, x, q, n);
    var m := FirstDeadEnd(a, x, q, n);
    DeadEndStops(a, x, root, q, m);
    SameDeadEnd(a, x, b, y, root, q, m);
  }

  lemma DeadEndStops(a: Links, x: map<Path, Node>, root: Path, q: Path, m: nat)
    requires !StatLeaves(a, x, root, q) && forall j: nat :: j < m ==> !DeadEndAt(a, x, q, j)
    ensures StaysTo(a, root, q, m + 1)
  {
    hide LeavesAt, DeadEndAt;
    forall k: nat | k < m + 1 ensures !LeavesAt(a, root, q, k) {
      assert forall j: nat :: j < k ==> !DeadEndAt(a, x, q, j);
    }
  }

  lemma StayingStatsSame(a: Links, x: map<Path, Node>, b: Links, y: map<Path, Node>, root: Path, q: Path)
    requires LinksAgree(a, b, root) && NodesAgree(a, x, y, root) && !StatLeaves(a, x, root, q)
    ensures StatLoops(a, x, q) == StatLoops(b, y, q)
  {
    hide LeavesAt, LinksAgree, NodesAgree, DeadEndAt, Resolved;
    if Passable(a, x, q) {
      assert !WalkLeaves(a, root, q);
      StayingResolvesSame(a, b, root, q);
      forall n: nat ensures !DeadEndAt(b, y, q, n) {
        assert !DeadEndAt(a, x, q, n);
        SameDeadEnd(a, x, b, y, root, q, n);
      }
    } else {
      DeadEndKept(a, x, b, y, root, q);
    }
  }

  /** `realpath` gives up at the same step, with the same path. */
  lemma StayingGivesUpSame(a: Links, b: Links, root: Path, p: Path, k: nat)
    requires LinksAgree(a, b, root) && !WalkLeaves(a, root, p)
    ensures GivesUpAt(a, p, k) == GivesUpAt(b, p, k) && Remainder(a, p, k) == Remainder(b, p, k)
  {
    hide LinksAgree, After, Reenters;
    WalkStays(a, b, root, p);
    forall m: nat, j: nat ensures Reenters(a, p, m, j) == Reenters(b, p, m, j) {
      SameReentry(a, b, root, p, m, j);
    }
    forall j: nat ensures NoticedAt(a, p, j) == NoticedAt(b, p, j) {}
  }

  lemma SameReentry(a: Links, b: Links, root: Path, p: Path, m: nat, k: nat)
    requires LinksAgree(a, b, root) && !WalkLeaves(a, root, p)
    ensures Reenters(a, p, m, k) == Reenters(b, p, m, k)
  {
    hide Inside, After;
    WalkStays(a, b, root, p);
    assert !LeavesAt(a, root, p, m);
  }

  lemma StayingAnswersSame(a: Links, x: map<Path, Node>, b: Links, y: map<Path, Node>, root: Path, p: Path)
    requires LinksAgree(a, b, root) && NodesAgree(a, x, y, root) && !Leaves(a, x, root, p)
    ensures Answer(a, x, p) == Answer(b, y, p)
  {
    hide WalkLeaves, StatLeaves, LinksAgree, NodesAgree, Resolved, GivesUpAt, StatLoops, Remainder;
    StayingResolvesSame(a, b, root, p);
    forall k: nat ensures GivesUpAt(a, p, k) == GivesUpAt(b, p, k) && Remainder(a, p, k) == Remainder(b, p, k) {
      StayingGivesUpSame(a, b, root, p, k);
    }
    forall k: nat | GivesUpAt(a, p, k)
      ensures StatLoops(a, x, Remainder(a, p, k)) == StatLoops(b, y, Remainder(a, p, k))
    {
      StayingStatsSame(a, x, b, y, root, Remainder(a, p, k));
    }
  }

  lemma RootStays(links: Links, root: Path)
    ensures !WalkLeaves(links, root, root)
  {
    hide After, Consulted, Resolved;
    forall n: nat ensures !LeavesAt(links, root, root, n) {
      var c := Consulted(After(links, Cursor([], root), n));
      if c.Some? { assert ConsultsAt(links, root, n, c.value); }
    }
  }

  lemma RootResolvesSame(a: Links, b: Links, root: Path)
    requires LinksAgree(a, b, root)
    ensures Resolved(a, root) == Resolved(b, root)
  {
    hide LinksAgree, WalkLeaves, Resolved;
    RootStays(a, root);
    StayingResolvesSame(a, b, root, root);
  }

  lemma StayingPathsAgree(w: World, a: Links, v: World, b: Links, q: Path)
    requires SameInside(w, a, v, b) && Resolved(a, w.root).Some? && !Leaves(a, w.nodes, w.root, q)
    ensures AgreeAt(w, v, q)
  {
    hide LinksAgree, NodesAgree, Answer, Opens, Resolved, StatLeaves, WalkLeaves, Inside;
    RootAnswers(w, a, v, b);
    StayingAnswersSame(a, w.nodes, b, v.nodes, w.root, q);
    assert Leaves(a, w.nodes, w.root, q) <== WalkLeaves(a, w.root, q);
    StayingOpensSame(a, w.nodes, b, v.nodes, w.root, q);
    if w.InRoot(q) { LooksTheSame(w, a, v, b, w.resolve(q).path); }
  }

  lemma RootAnswers(w: World, a: Links, v: World, b: Links)
    requires SameInside(w, a, v, b) && Resolved(a, w.root).Some?
    ensures w.resolve(w.root) == v.resolve(v.root) == Place(Resolved(a, w.root).value)
    ensures Resolved(b, w.root) == Resolved(a, w.root)
  {
    hide LinksAgree, NodesAgree, Opens, Resolved;
    RootResolvesSame(a, b, w.root);
    assert w.resolve(w.root) == Answer(a, w.nodes, w.root) && v.resolve(w.root) == Answer(b, v.nodes, w.root);
  }

  lemma LooksTheSame(w: World, a: Links, v: World, b: Links, c: Path)
    requires SameInside(w, a, v, b) && Resolved(a, w.root).Some? && Resolved(a, w.root).value <= c
    ensures (c in w.nodes <==> c in v.nodes) && (c in w.nodes ==> w.nodes[c] == v.nodes[c])
  {
    hide Follows, LinksAgree, Resolved, OnRoute;
    assert Inside(a, w.root, c);
  }

  /** A path below another gets as far as that one. */
  lemma {:induction false} WalkBelow(links: Links, s: Cursor, rest: Path, n: nat)
    requires After(links, s, n).todo != []
    ensures var t := After(links, s, n); After(links, Cursor(s.done, s.todo + rest), n) == Cursor(t.done, t.todo + rest)
    decreases n
  {
    if n > 0 {
      var t := Next(links, s);
      assert (s.todo + rest)[1..] == s.todo[1..] + rest;
      if Consulted(s).Some? && Consulted(s).value in links {
        var target := links[Consulted(s).value].target;
        assert target + (s.todo[1..] + rest) == (target + s.todo[1..]) + rest;
      }
      assert Next(links, Cursor(s.done, s.todo + rest)) == Cursor(t.done, t.todo + rest);
      hide Next;
      WalkBelow(links, t, rest, n - 1);
    }
  }

  lemma LoopBelow(links: Links, p: Path, rest: Path)
    requires Resolved(links, p) == None
    ensures Resolved(links, p + rest) == None
  {
    hide After;
    forall n: nat ensures !Arrives(links, p + rest, n) {
      assert !Arrives(links, p, n);
      WalkBelow(links, Cursor([], p), rest, n);
    }
    NeverResolves(links, p + rest);
  }

  /** Nothing can be read below a root that is a link loop. */
  lemma NothingBelowLoop(w: World, a: Links)
    requires Follows(w, a) && Resolved(a, w.root).None?
    ensures Effective(w) == Some([])
  {
    hide Resolved, Answer, Read;
    LoopBelow(a, w.root, ["etc", "tor", "torrc"]);
    assert w.opens(MainFile(w)) == Opens(a, w.nodes, MainFile(w));
  }

  /**
    Two-run confinement: two file systems with the same files and links inside the root have the same
    effective torrc lines, or both raise, if every path asked about that leaves the root ends outside
    it in both, and is reported as a link loop in both or in neither.
   */
  lemma LinesAreConfined(w: World, a: Links, v: World, b: Links)
    requires SameInside(w, a, v, b)
    requires forall q :: q in AllAsked(w) && Leaves(a, w.nodes, w.root, q) ==>
      !w.InRoot(q) && !v.InRoot(q) && (w.resolve(q).Loop? <==> v.resolve(q).Loop?)
    ensures Effective(w) == Effective(v)
  {
    hide Leaves, AllAsked, Effective, Resolved, Follows, LinksAgree, NodesAgree;
    RootResolvesSame(a, b, w.root);
    if Resolved(a, w.root).None? {
      NothingBelowLoop(w, a);
      NothingBelowLoop(v, b);
    } else {
      RootAnswers(w, a, v, b);
      forall q | q in AllAsked(w) ensures AgreeAt(w, v, q) {
        if !Leaves(a, w.nodes, w.root, q) { StayingPathsAgree(w, a, v, b, q); }
      }
      MainIsAsked(w);
      EffectiveLinesAreConfined(w, v);
    }
  }

  lemma MainIsAsked(w: World)
    ensures MainFile(w) in AllAsked(w)
  {
    hide Items, AskedBelow, EntriesOf;
  }

}
