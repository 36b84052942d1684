/**
  What one link outside the root can do to a path that leaves the root: let it end inside, let it
  end outside, or make it a link loop.
 */
module TorrcOutside {
  import opened Text
  import opened Torrc
  import opened TorrcLinks

  // ----- walks -----

  /** Where a walk stands is a real place: no link and no `..` on the way to it. */
  predicate Settled(links: Links, done: Path) {
    ".." !in done && forall k :: 1 <= k <= |done| ==> done[..k] !in links
  }

  lemma {:induction false} WalksAreSettled(links: Links, p: Path, n: nat)
    ensures Settled(links, After(links, Cursor([], p), n).done)
    decreases n
  {
    if n == 0 {
      assert After(links, Cursor([], p), 0).done == [];
    } else {
      hide After, Settled, Next;
      WalksAreSettled(links, p, n - 1);
      AfterSnoc(links, Cursor([], p), n - 1);
      var s := After(links, Cursor([], p), n - 1);
      if s.todo != [] { NextIsSettled(links, s); }
    }
  }

  lemma NextIsSettled(links: Links, s: Cursor)
    requires s.todo != [] && Settled(links, s.done)
    ensures Settled(links, Next(links, s).done)
  {
    var t := Next(links, s).done;
    forall k | 1 <= k <= |t| ensures t[..k] !in links {
      if k <= |s.done| { assert t[..k] == s.done[..k]; } else { assert t[..k] == t; }
    }
  }

  /** Every place above where a walk stands has been consulted. */
  lemma {:induction false} RouteCovers(links: Links, p: Path, n: nat, k: nat)
    requires 1 <= k <= |After(links, Cursor([], p), n).done|
    ensures exists j: nat :: j < n && ConsultsAt(links, p, j, After(links, Cursor([], p), n).done[..k])
    decreases n
  {
    if n > 0 {
      AfterSnoc(links, Cursor([], p), n - 1);
      hide After;
      var s, t := After(links, Cursor([], p), n - 1), After(links, Cursor([], p), n);
      if k <= |s.done| && t.done[..k] == s.done[..k] {
        RouteCovers(links, p, n - 1, k);
      } else {
        assert t.done == s.done + [s.todo[0]] && t.done[..k] == t.done;
        assert ConsultsAt(links, p, n - 1, t.done);
      }
    }
  }

  /** A walk over plain segments just goes there. */
  lemma {:induction false} WalkPlain(links: Links, done: Path, segments: Path, rest: Path)
    requires ".." !in segments && forall k :: 1 <= k <= |segments| ==> done + segments[..k] !in links
    ensures After(links, Cursor(done, segments + rest), |segments|) == Cursor(done + segments, rest)
    decreases |segments|
  {
    if segments == [] {
      assert segments + rest == rest && done + segments == done;
    } else {
      var s, tail := Cursor(done, segments + rest), segments[1..];
      assert done + segments[..1] == done + [segments[0]] && s.todo[1..] == tail + rest;
      var l := done + [segments[0]];
      assert Next(links, s) == Cursor(l, tail + rest);
      forall k | 1 <= k <= |tail| ensures l + tail[..k] !in links {
        assert l + tail[..k] == done + segments[..k + 1];
      }
      WalkPlain(links, l, tail, rest);
      assert l + tail == done + segments;
    }
  }

  lemma WalkTop(links: Links, place: Path, rest: Path)
    requires Settled(links, place)
    ensures After(links, Cursor([], place + rest), |place|) == Cursor(place, rest)
  {
    hide After;
    forall k | 1 <= k <= |place| ensures [] + place[..k] !in links {
      assert [] + place[..k] == place[..k];
    }
    WalkPlain(links, [], place, rest);
    assert [] + place == place;
  }

  predicate NoneBelow(links: Links, base: Path) {
    forall l :: base <= l ==> l !in links
  }

  /** Deep enough below a place without links, a walk cannot get out of it. */
  lemma {:induction false} Sheltered(links: Links, base: Path, s: Cursor)
    requires base <= s.done && |base| + |s.todo| <= |s.done|
    requires NoneBelow(links, base)
    ensures After(links, s, |s.todo|).todo == [] && base <= After(links, s, |s.todo|).done
    decreases |s.todo|
  {
    if s.todo != [] {
      var t := Next(links, s);
      if s.todo[0] != ".." { assert base <= s.done + [s.todo[0]]; }
      assert base <= t.done;
      Sheltered(links, base, t);
    }
  }

  function Repeat(segment: string, n: nat): (r: Path)
    ensures |r| == n && forall k :: 0 <= k < n ==> r[k] == segment
  {
    seq(n, _ => segment)
  }

  /** The segments a set of links and two paths are made of. */
  ghost function Segments(links: Links, l: Path, r: Path): set<string> {
    (set k, i | k in links && 0 <= i < |k| :: k[i]) + (set i | 0 <= i < |l| :: l[i]) + (set i | 0 <= i < |r| :: r[i])
  }

  lemma {:induction false} LengthBound(names: set<string>) returns (n: nat)
    ensures forall s :: s in names ==> |s| <= n
    decreases names
  {
    if names == {} {
      n := 0;
    } else {
      var s :| s in names;
      var m := LengthBound(names - {s});
      n := if |s| > m then |s| else m;
    }
  }

  lemma Fresh(names: set<string>) returns (s: string)
    ensures s !in names && s != ".."
  {
    var n := LengthBound(names);
    s := seq(n + 3, _ => 'x');
    assert s[0] == 'x' && ".."[0] == '.';
  }

  /** The first location outside that the walk of `p` consults, it consults at step `m`. */
  ghost predicate ExitsAt(links: Links, root: Path, p: Path, m: nat) {
    LeavesAt(links, root, p, m) && StaysTo(links, root, p, m)
  }

  lemma {:induction false} FirstExit(links: Links, root: Path, p: Path, n: nat) returns (m: nat)
    requires LeavesAt(links, root, p, n)
    ensures m <= n && ExitsAt(links, root, p, m)
    decreases n
  {
    hide LeavesAt;
    if k: nat :| k < n && LeavesAt(links, root, p, k) {
      m := FirstExit(links, root, p, k);
    } else {
      m := n;
    }
  }

  ghost function Exit(links: Links, root: Path, p: Path, m: nat): (l: Path)
    requires ExitsAt(links, root, p, m)
    ensures l != [] && !Inside(links, root, l)
  {
    Consulted(After(links, Cursor([], p), m)).value
  }

  /** With another link put there the walk is the same up to that step. */
  lemma Replaced(a: Links, root: Path, p: Path, m: nat, link: Link)
    requires ExitsAt(a, root, p, m)
    ensures var b := a[Exit(a, root, p, m) := link];
      LinksAgree(a, b, root) && forall j: nat :: j <= m ==> After(b, Cursor([], p), j) == After(a, Cursor([], p), j)
  {
    hide After, Inside, LeavesAt;
    var b := a[Exit(a, root, p, m) := link];
    forall j: nat | j <= m ensures After(b, Cursor([], p), j) == After(a, Cursor([], p), j) {
      StaysTogether(a, b, root, p, j);
    }
  }

  lemma Redirected(a: Links, root: Path, p: Path, m: nat, target: Path)
    requires ExitsAt(a, root, p, m)
    ensures var s := After(a, Cursor([], p), m);
      var b := a[Exit(a, root, p, m) := To(target)];
      After(b, Cursor([], p), m + 1) == Cursor([], target + s.todo[1..])
  {
    var s := After(a, Cursor([], p), m);
    var b := a[Exit(a, root, p, m) := To(target)];
    Replaced(a, root, p, m, To(target));
    AfterSnoc(b, Cursor([], p), m);
    hide After, Inside;
    assert Consulted(s) == Some(Exit(a, root, p, m));
  }

  /** A walk that has reached a settled place deep below a new segment ends there. */
  lemma EndsBelow(b: Links, p: Path, m: nat, head: Path, novel: string, rest: Path)
    requires After(b, Cursor([], p), m) == Cursor([], head + Repeat(novel, |rest| + 1) + rest)
    requires novel != ".." && Settled(b, head)
    requires NoneBelow(b, head + [novel])
    ensures Resolved(b, p).Some? && head + [novel] <= Resolved(b, p).value
  {
    hide Next;
    var deep := Repeat(novel, |rest| + 1);
    var whole := head + deep;
    forall k | 1 <= k <= |whole| ensures whole[..k] !in b {
      if k <= |head| {
        assert whole[..k] == head[..k];
      } else {
        assert head + [novel] <= whole[..k] by { assert whole[|head|] == novel; }
      }
    }
    WalkTop(b, whole, rest);
    assert head + [novel] <= whole by { assert whole[|head|] == novel; }
    EndsThere(b, p, m, whole, rest, head + [novel]);
  }

  lemma EndsThere(b: Links, p: Path, m: nat, whole: Path, rest: Path, base: Path)
    requires After(b, Cursor([], p), m) == Cursor([], whole + rest)
      && After(b, Cursor([], whole + rest), |whole|) == Cursor(whole, rest)
    requires base <= whole && |base| + |rest| <= |whole| && NoneBelow(b, base)
    ensures Resolved(b, p).Some? && base <= Resolved(b, p).value
  {
    hide *;
    var s := Cursor(whole, rest);
    Sheltered(b, base, s);
    AfterThree(b, Cursor([], p), m, Cursor([], whole + rest), |whole|, s, |rest|);
    ArrivedAt(b, p, m + |whole| + |rest|, After(b, s, |rest|));
  }

  lemma AfterThree(links: Links, s: Cursor, n: nat, t: Cursor, m: nat, u: Cursor, k: nat)
    requires After(links, s, n) == t && After(links, t, m) == u
    ensures After(links, s, n + m + k) == After(links, u, k)
  {
    hide *;
    AfterSum(links, s, n, m);
    AfterSum(links, s, n + m, k);
  }

  lemma ArrivedAt(links: Links, p: Path, n: nat, s: Cursor)
    requires After(links, Cursor([], p), n) == s && s.todo == []
    ensures Resolved(links, p) == Some(s.done)
  {
    hide After;
    assert Arrives(links, p, n);
    ResolvedIs(links, p, n);
  }

  // ----- one more link -----

  /** The file system with these links in place of its own. */
  ghost function Relinked(w: World, links: Links): World {
    World(w.root, (p: Path) => Answer(links, w.nodes, p), (p: Path) => Opens(links, w.nodes, p), w.nodes, w.glob)
  }

  lemma RelinkedIsSame(w: World, a: Links, b: Links)
    requires Follows(w, a) && LinksAgree(a, b, w.root)
    ensures SameInside(w, a, Relinked(w, b), b)
  {
    hide LinksAgree, Answer, Opens, Inside;
  }

  /** A place above the canonical root is no link, not even after a link is put outside. */
  lemma RootStaysSettled(a: Links, root: Path, l: Path, link: Link)
    requires Resolved(a, root).Some? && !Inside(a, root, l)
    ensures Settled(a[l := link], Resolved(a, root).value)
  {
    hide After;
    var r := Resolved(a, root).value;
    var n: nat :| Arrives(a, root, n);
    ResolvedIs(a, root, n);
    WalksAreSettled(a, root, n);
    forall k | 1 <= k <= |r| ensures r[..k] != l {
      RouteCovers(a, root, n, k);
      assert OnRoute(a, root, r[..k]);
    }
    SettledStill(a, r, l, link);
  }

  lemma SettledStill(links: Links, r: Path, l: Path, link: Link)
    requires Settled(links, r) && forall k :: 1 <= k <= |r| ==> r[..k] != l
    ensures Settled(links[l := link], r)
  {
    forall k | 1 <= k <= |r| ensures r[..k] !in links[l := link] { assert r[..k] !in links; }
  }

  lemma NoNewLinks(a: Links, l: Path, r: Path, novel: string, head: Path, link: Link)
    requires novel !in Segments(a, l, r)
    ensures NoneBelow(a[l := link], head + [novel])
  {
    var b := a[l := link];
    forall x | head + [novel] <= x ensures x !in b {
      assert x[|head|] == novel;
    }
  }

  /** One more link outside the root decides whether a leaving path comes back into it. */
  lemma Reopened(a: Links, root: Path, q: Path, head: Path, m: nat, novel: string) returns (b: Links)
    requires Resolved(a, root).Some? && ExitsAt(a, root, q, m)
    requires novel != ".." && novel !in Segments(a, Exit(a, root, q, m), Resolved(a, root).value)
    requires head == [] || head == Resolved(a, root).value
    ensures LinksAgree(a, b, root)
    ensures Resolved(b, q).Some? && head + [novel] <= Resolved(b, q).value
  {
    hide After, LinksAgree, Resolved, Inside, Segments;
    var s := After(a, Cursor([], q), m);
    var l, rest, r := Exit(a, root, q, m), s.todo[1..], Resolved(a, root).value;
    var target := head + Repeat(novel, |rest| + 1);
    b := a[l := To(target)];
    Replaced(a, root, q, m, To(target));
    Redirected(a, root, q, m, target);
    RootStaysSettled(a, root, l, To(target));
    NoNewLinks(a, l, r, novel, head, To(target));
    EndsBelow(b, q, m + 1, head, novel, rest);
  }

  // ----- a link to itself -----

  /** The walk of `[segment]` from `done` comes back to the start after `period` steps. */
  ghost predicate Spins(links: Links, done: Path, segment: string, period: nat) {
    && period > 0
    && (forall j: nat :: j <= period ==> After(links, Cursor(done, [segment]), j).todo != [])
    && var t := After(links, Cursor(done, [segment]), period); t.done == done && t.todo[0] == segment
  }

  /** Then it never ends, and keeps consulting the same locations. */
  lemma {:induction false} SpinsOn(links: Links, done: Path, segment: string, period: nat, n: nat) returns (j: nat)
    requires Spins(links, done, segment, period)
    ensures After(links, Cursor(done, [segment]), n).todo != []
    ensures j < period
    ensures Consulted(After(links, Cursor(done, [segment]), n)) == Consulted(After(links, Cursor(done, [segment]), j))
    decreases n
  {
    hide After;
    if n < period {
      j := n;
    } else {
      var s := Cursor(done, [segment]);
      var t := After(links, s, period);
      j := SpinsOn(links, done, segment, period, n - period);
      AfterSum(links, s, period, n - period);
      assert t == Cursor(done, [segment] + t.todo[1..]);
      WalkBelow(links, s, t.todo[1..], n - period);
    }
  }

  /** So does any walk that gets there. */
  lemma SpinsFrom(links: Links, p: Path, m: nat, done: Path, segment: string, rest: Path, period: nat, n: nat)
    returns (j: nat)
    requires Spins(links, done, segment, period)
    requires After(links, Cursor([], p), m) == Cursor(done, [segment] + rest)
    ensures After(links, Cursor([], p), m + n).todo != []
    ensures j < period
    ensures Consulted(After(links, Cursor([], p), m + n)) == Consulted(After(links, Cursor([], p), m + j))
  {
    hide After;
    var s := Cursor(done, [segment]);
    j := SpinsOn(links, done, segment, period, n);
    var i := SpinsOn(links, done, segment, period, j);
    AfterSum(links, Cursor([], p), m, n);
    AfterSum(links, Cursor([], p), m, j);
    WalkBelow(links, s, rest, n);
    WalkBelow(links, s, rest, j);
  }

  lemma SpinNeverEnds(links: Links, p: Path, m: nat, done: Path, segment: string, rest: Path, period: nat)
    requires Spins(links, done, segment, period)
    requires After(links, Cursor([], p), m) == Cursor(done, [segment] + rest)
    ensures Resolved(links, p) == None
  {
    hide After, Spins;
    forall n: nat ensures !Arrives(links, p, n) {
      if n >= m {
        var j := SpinsFrom(links, p, m, done, segment, rest, period, n - m);
      } else {
        AfterSum(links, Cursor([], p), n, m - n);
        if Arrives(links, p, n) { EndStays(links, After(links, Cursor([], p), n), m - n); }
      }
    }
    NeverResolves(links, p);
  }

  lemma EndStays(links: Links, s: Cursor, n: nat)
    requires s.todo == []
    ensures After(links, s, n) == s
  {
  }

  /** `realpath` gives up only on walks that never end: from there on nothing new is consulted. */
  lemma NoticedGoesOn(links: Links, p: Path, m: nat, k: nat)
    requires Reenters(links, p, m, k)
    ensures Resolved(links, p) == None
    ensures forall n: nat :: n >= m ==> ConsultedBefore(links, p, k, n)
  {
    hide After, Resolved, Consulted, Reenters, Spins;
    var done, segment, rest := ReentrySpins(links, p, m, k);
    SpinNeverEnds(links, p, m, done, segment, rest, k - m);
    forall n: nat | n >= m ensures ConsultedBefore(links, p, k, n) {
      var i := SpinsFrom(links, p, m, done, segment, rest, k - m, n - m);
      assert m + i < k;
    }
  }

  /** What the walk consults at step `n` it has consulted at some step before `k`. */
  ghost predicate ConsultedBefore(links: Links, p: Path, k: nat, n: nat) {
    exists j: nat :: j < k && Consulted(After(links, Cursor([], p), n)) == Consulted(After(links, Cursor([], p), j))
  }

  lemma ReentrySpins(links: Links, p: Path, m: nat, k: nat) returns (done: Path, segment: string, rest: Path)
    requires Reenters(links, p, m, k)
    ensures k > m && After(links, Cursor([], p), m) == Cursor(done, [segment] + rest)
      && Spins(links, done, segment, k - m)
  {
    hide After;
    var s := After(links, Cursor([], p), m);
    done, segment, rest := s.done, s.todo[0], s.todo[1..];
    assert s == Cursor(done, [segment] + rest);
    forall j: nat | j <= k - m ensures After(links, Cursor(done, [segment]), j).todo != [] {
      Unfinished(links, p, m, k, done, segment, rest, j);
    }
    WalkBelow(links, Cursor(done, [segment]), rest, k - m);
    AfterSum(links, Cursor([], p), m, k - m);
    var t := After(links, Cursor(done, [segment]), k - m);
    assert After(links, Cursor([], p), k) == Cursor(t.done, t.todo + rest);
    SameLocation(t.done, (t.todo + rest)[0], done, segment);
  }

  lemma SameLocation(a: Path, x: string, b: Path, y: string)
    ensures a + [x] == b + [y] ==> a == b && x == y
  {
    if a + [x] == b + [y] {
      assert (a + [x])[..|a|] == a && (b + [y])[..|b|] == b && (a + [x])[|a|] == x;
    }
  }

  lemma {:induction false} Unfinished(links: Links, p: Path, m: nat, k: nat, done: Path, segment: string, rest: Path,
                                      j: nat)
    requires Reenters(links, p, m, k) && After(links, Cursor([], p), m) == Cursor(done, [segment] + rest) && j <= k - m
    ensures After(links, Cursor(done, [segment]), j).todo != []
    decreases j
  {
    var s := Cursor(done, [segment]);
    if j > 0 {
      hide After;
      Unfinished(links, p, m, k, done, segment, rest, j - 1);
      WalkBelow(links, s, rest, j - 1);
      AfterSum(links, Cursor([], p), m, j - 1);
      AfterSnoc(links, s, j - 1);
      AfterSnoc(links, Cursor([], p), m + j - 1);
      NextBelow(links, After(links, s, j - 1), rest);
      assert |After(links, Cursor([], p), m + j).todo| >= |[segment] + rest|;
    }
  }

  lemma NextBelow(links: Links, s: Cursor, rest: Path)
    requires s.todo != []
    ensures var t := Next(links, s); Next(links, Cursor(s.done, s.todo + rest)) == Cursor(t.done, t.todo + rest)
  {
    assert (s.todo + rest)[1..] == s.todo[1..] + rest;
    if Consulted(s).Some? && Consulted(s).value in links {
      var target := links[Consulted(s).value].target;
      assert target + (s.todo[1..] + rest) == (target + s.todo[1..]) + rest;
    }
  }

  // ----- realpath gives up exactly when the walk does not end -----

  ghost function Left(links: Links, p: Path, n: nat): nat {
    |After(links, Cursor([], p), n).todo|
  }

  ghost predicate BegunAt(links: Links, p: Path, i: nat, l: Path, base: nat, m: nat) {
    && m < i && Consulted(After(links, Cursor([], p), m)) == Some(l) && Left(links, p, m) <= base + 1
    && forall j: nat :: m < j <= i ==> Left(links, p, j) >= Left(links, p, m)
  }

  /** At step `i` these links have been begun, with at most `base` segments left for after them. */
  ghost predicate Begun(links: Links, p: Path, i: nat, open: set<Path>, base: nat) {
    forall l :: l in open ==> l in links && exists m: nat :: BegunAt(links, p, i, l, base, m)
  }

  ghost predicate Above(links: Links, p: Path, i: nat, k: nat, base: nat) {
    forall j: nat :: i <= j < k ==> Left(links, p, j) > base
  }

  lemma BegunLater(links: Links, p: Path, i: nat, open: set<Path>, base: nat, k: nat, more: nat)
    requires Begun(links, p, i, open, base) && i <= k && base <= more && Above(links, p, i, k + 1, base)
    ensures Begun(links, p, k, open, more)
  {
    hide Left, After, Consulted;
    forall l | l in open ensures exists m: nat :: BegunAt(links, p, k, l, more, m) {
      var m: nat :| BegunAt(links, p, i, l, base, m);
      forall j: nat | m < j <= k ensures Left(links, p, j) >= Left(links, p, m) {
        if j > i { assert Left(links, p, j) > base; }
      }
      assert BegunAt(links, p, k, l, more, m);
    }
  }

  lemma BegunIsNoticed(links: Links, p: Path, i: nat, open: set<Path>, base: nat, l: Path)
    requires Begun(links, p, i, open, base) && l in open && Consulted(After(links, Cursor([], p), i)) == Some(l)
    ensures NoticedAt(links, p, i)
  {
    hide After;
    var m: nat :| BegunAt(links, p, i, l, base, m);
    forall j: nat | m < j <= i ensures |After(links, Cursor([], p), j).todo| >= |After(links, Cursor([], p), m).todo| {
      assert Left(links, p, j) >= Left(links, p, m);
    }
    assert Reenters(links, p, m, i);
  }

  lemma OneLess(links: Links, p: Path, i: nat)
    requires Left(links, p, i) > 0
    ensures var c := Consulted(After(links, Cursor([], p), i));
      && Left(links, p, i + 1) >= Left(links, p, i) - 1
      && (c.None? || c.value !in links ==> Left(links, p, i + 1) == Left(links, p, i) - 1)
  {
    AfterSnoc(links, Cursor([], p), i);
    hide After;
  }

  lemma BegunOneMore(links: Links, p: Path, i: nat, open: set<Path>, base: nat, l: Path)
    requires Begun(links, p, i, open, base) && l in links && Consulted(After(links, Cursor([], p), i)) == Some(l)
    requires Left(links, p, i) > base && Left(links, p, i + 1) >= Left(links, p, i)
    ensures Begun(links, p, i + 1, open + {l}, Left(links, p, i) - 1)
  {
    hide Left, After, Consulted;
    var more: nat := Left(links, p, i) - 1;
    assert Above(links, p, i, i + 2, base);
    BegunLater(links, p, i, open, base, i + 1, more);
    assert BegunAt(links, p, i + 1, l, more, i);
  }

  /**
    The walk comes down to `base` segments, or to a link that has been begun: every link on the way can
    be begun only once.
   */
  lemma {:induction false} ComesDown(links: Links, p: Path, i: nat, open: set<Path>, base: nat) returns (k: nat)
    requires open <= links.Keys && Left(links, p, i) >= base
      && (Left(links, p, i) > base ==> Begun(links, p, i, open, base))
    ensures i <= k && Above(links, p, i, k, base) && (NoticedAt(links, p, k) || Left(links, p, k) == base)
    decreases |links.Keys - open|, Left(links, p, i)
  {
    hide Left, After, Consulted, Begun, NoticedAt;
    k := i;
    if Left(links, p, i) > base {
      OneLess(links, p, i);
      var c := Consulted(After(links, Cursor([], p), i));
      if c.None? || c.value !in links {
        if Left(links, p, i + 1) > base { BegunLater(links, p, i, open, base, i + 1, base); }
        k := ComesDown(links, p, i + 1, open, base);
      } else if c.value in open {
        BegunIsNoticed(links, p, i, open, base, c.value);
      } else {
        var l, more: nat := c.value, Left(links, p, i) - 1;
        assert links.Keys - (open + {l}) < links.Keys - open;
        FewerLeft(links.Keys - (open + {l}), links.Keys - open);
        if Left(links, p, i + 1) > more { BegunOneMore(links, p, i, open, base, l); }
        k := ComesDown(links, p, i + 1, open + {l}, more);
        if Left(links, p, k) == more > base {
          BegunLater(links, p, i, open, base, k, base);
          var n := k;
          k := ComesDown(links, p, n, open, base);
        }
      }
    }
  }

  lemma FewerLeft(a: set<Path>, b: set<Path>)
    requires a < b
    ensures |a| < |b|
  {
    assert b == a + (b - a);
  }

  lemma {:induction false} FirstNotice(links: Links, p: Path, n: nat) returns (k: nat)
    requires NoticedAt(links, p, n)
    ensures GivesUpAt(links, p, k)
    decreases n
  {
    hide NoticedAt;
    if j: nat :| j < n && NoticedAt(links, p, j) {
      k := FirstNotice(links, p, j);
    } else {
      k := n;
    }
  }

  /** `realpath` gives up if and only if the walk does not end, so every path has an answer. */
  lemma GivesUpIffEndless(links: Links, p: Path)
    ensures Resolved(links, p) == None <==> exists k: nat :: GivesUpAt(links, p, k)
  {
    hide After, Resolved, Reenters, GivesUpAt;
    if Resolved(links, p) == None {
      var k := ComesDown(links, p, 0, {}, 0);
      if !NoticedAt(links, p, k) { ArrivedAt(links, p, k, After(links, Cursor([], p), k)); }
      var n := FirstNotice(links, p, k);
    }
    if k: nat :| GivesUpAt(links, p, k) { GivenUpIsEndless(links, p, k); }
  }

  lemma GivenUpIsEndless(links: Links, p: Path, k: nat)
    requires GivesUpAt(links, p, k)
    ensures Resolved(links, p) == None
  {
    hide Reenters, Resolved;
    var m: nat :| Reenters(links, p, m, k);
    NoticedGoesOn(links, p, m, k);
  }

  // ----- a leaving path made a link loop -----

  /** A link to itself, and `n` segments further. */
  function Self(segment: string, n: nat): Link {
    Beside([segment] + Repeat("x", n))
  }

  lemma SelfSpins(links: Links, done: Path, segment: string, n: nat)
    requires segment != ".." && done + [segment] in links && links[done + [segment]] == Self(segment, n)
    ensures Spins(links, done, segment, 1)
    ensures Next(links, Cursor(done, [segment])) == Cursor(done, [segment] + Repeat("x", n))
  {
    var s := Cursor(done, [segment]);
    assert [segment] + Repeat("x", n) + [segment][1..] == [segment] + Repeat("x", n);
    assert After(links, s, 1) == After(links, Next(links, s), 0) == Next(links, s);
    assert After(links, s, 0) == s;
  }

  /** Where the walk stands when it exits, and what is left of the path. */
  lemma AtExit(a: Links, root: Path, p: Path, m: nat, link: Link) returns (done: Path, segment: string, rest: Path)
    requires ExitsAt(a, root, p, m)
    ensures var l := Exit(a, root, p, m); l == done + [segment] && segment != ".."
    ensures After(a, Cursor([], p), m) == Cursor(done, [segment] + rest)
    ensures After(a[Exit(a, root, p, m) := link], Cursor([], p), m) == Cursor(done, [segment] + rest)
  {
    Replaced(a, root, p, m, link);
    hide After, Inside;
    var s := After(a, Cursor([], p), m);
    done, segment, rest := s.done, s.todo[0], s.todo[1..];
    assert s.todo == [segment] + rest;
  }

  /** Past the exit nothing but the link is consulted, so there is no dead end. */
  lemma NoDeadEnds(b: Links, nodes: map<Path, Node>, p: Path, m: nat, done: Path, segment: string, rest: Path)
    requires Spins(b, done, segment, 1) && done + [segment] in b && segment != ".."
    requires After(b, Cursor([], p), m) == Cursor(done, [segment] + rest)
    requires forall j: nat :: j < m ==> !DeadEndAt(b, nodes, p, j)
    ensures StatLoops(b, nodes, p)
  {
    hide After, Spins;
    SpinNeverEnds(b, p, m, done, segment, rest, 1);
    forall j: nat ensures !DeadEndAt(b, nodes, p, j) {
      if j >= m {
        var i := SpinsFrom(b, p, m, done, segment, rest, 1, j - m);
        assert Consulted(After(b, Cursor([], p), m)) == Some(done + [segment]);
      }
    }
  }

  /** With a link to itself at the exit, `stat` finds a loop. */
  lemma StatLooped(a: Links, nodes: map<Path, Node>, root: Path, x: Path, m: nat) returns (b: Links)
    requires ExitsAt(a, root, x, m) && forall j: nat :: j < m ==> !DeadEndAt(a, nodes, x, j)
    ensures LinksAgree(a, b, root) && StatLoops(b, nodes, x)
  {
    hide After, LinksAgree, LeavesAt, DeadEndAt, StatLoops, Spins, Inside;
    var l := Exit(a, root, x, m);
    var link := Self(l[|l| - 1], 0);
    var done, segment, rest := AtExit(a, root, x, m, link);
    b := a[l := link];
    Replaced(a, root, x, m, link);
    SelfSpins(b, done, segment, 0);
    forall j: nat | j < m ensures !DeadEndAt(b, nodes, x, j) {
      SameDeadEnd(a, nodes, b, nodes, root, x, j);
    }
    NoDeadEnds(b, nodes, x, m, done, segment, rest);
  }

  /** Everything the operating system passes on the way to the root is a directory. */
  lemma RouteIsDirectory(a: Links, nodes: map<Path, Node>, root: Path, below: Path, l: Path)
    requires Passable(a, nodes, root + below) && below != [] && OnRoute(a, root, l) && l !in a
    ensures IsDirectory(nodes, l)
  {
    hide After;
    var n: nat :| ConsultsAt(a, root, n, l);
    WalkBelow(a, Cursor([], root), below, n);
    assert !DeadEndAt(a, nodes, root + below, n);
  }

  /** Above the exit there are only directories on the way to the root. */
  lemma AboveExit(a: Links, nodes: map<Path, Node>, root: Path, below: Path, q: Path, m: nat, k: nat)
    requires ExitsAt(a, root, q, m) && Passable(a, nodes, root + below) && below != []
    requires 1 <= k < |Exit(a, root, q, m)|
    ensures var place := Exit(a, root, q, m)[..k]; IsDirectory(nodes, place) && place !in a && ".." !in place
  {
    hide After, IsDirectory, Passable, Resolved;
    var s, l := After(a, Cursor([], q), m), Exit(a, root, q, m);
    assert l[..k] == s.done[..k] by { assert l == s.done + [s.todo[0]]; }
    WalksAreSettled(a, q, m);
    RouteCovers(a, q, m, k);
    var j: nat :| j < m && ConsultsAt(a, q, j, s.done[..k]);
    assert !LeavesAt(a, root, q, j);
    assert Inside(a, root, l[..k]);
    if Resolved(a, root).Some? { NotAbove(Resolved(a, root).value, l, k); }
    RouteIsDirectory(a, nodes, root, below, l[..k]);
  }

  lemma AboveIsClear(a: Links, nodes: map<Path, Node>, root: Path, below: Path, q: Path, m: nat, b: Links, n: nat)
    requires ExitsAt(a, root, q, m) && Passable(a, nodes, root + below) && below != []
    requires var l := Exit(a, root, q, m); b == a[l := Self(l[|l| - 1], n)]
    ensures var l := Exit(a, root, q, m); Clear(b, nodes, l[..|l| - 1])
  {
    hide ExitsAt, Passable, IsDirectory;
    var l := Exit(a, root, q, m);
    var done := l[..|l| - 1];
    forall k | 1 <= k <= |done| ensures IsDirectory(nodes, done[..k]) && done[..k] !in b {
      assert done[..k] == l[..k] && |l[..k]| < |l|;
      AboveExit(a, nodes, root, below, q, m, k);
    }
    if done != [] { AboveExit(a, nodes, root, below, q, m, |done|); }
  }

  lemma NotAbove(r: Path, l: Path, k: nat)
    requires !(r <= l) && k <= |l|
    ensures !(r <= l[..k])
  {
  }

  lemma {:induction false} NormalKeeps(base: Path, done: Path, todo: Path)
    requires base <= done && |base| + |todo| <= |done|
    ensures base <= Normal(done, todo)
    decreases |todo|
  {
    if todo != [] {
      var next := if todo[0] == ".." then Parent(done) else done + [todo[0]];
      assert base <= next;
      NormalKeeps(base, next, todo[1..]);
    }
  }

  lemma {:induction false} NormalPlain(done: Path, segments: Path, rest: Path)
    requires ".." !in segments
    ensures Normal(done, segments + rest) == Normal(done + segments, rest)
    decreases |segments|
  {
    if segments == [] {
      assert segments + rest == rest && done + segments == done;
    } else {
      assert (segments + rest)[1..] == segments[1..] + rest;
      NormalPlain(done + [segments[0]], segments[1..], rest);
      assert done + [segments[0]] + segments[1..] == done + segments;
    }
  }

  /** `realpath` gives up on the link, and what it returns still begins with the link. */
  lemma GivesUpAtExit(a: Links, root: Path, q: Path, m: nat) returns (b: Links, n: nat)
    requires ExitsAt(a, root, q, m)
    ensures var l := Exit(a, root, q, m);
      b == a[l := Self(l[|l| - 1], n)] && l[|l| - 1] != ".." && l <= Remainder(b, q, m + 1)
    ensures LinksAgree(a, b, root) && Resolved(b, q) == None && GivesUpAt(b, q, m + 1)
  {
    hide LinksAgree, LeavesAt, Spins, Inside, Resolved, After, Normal, Reenters;
    var l := Exit(a, root, q, m);
    n := |After(a, Cursor([], q), m).todo|;
    var link := Self(l[|l| - 1], n);
    var done, segment, rest := AtExit(a, root, q, m, link);
    b := a[l := link];
    Replaced(a, root, q, m, link);
    SelfSpins(b, done, segment, n);
    SpinNeverEnds(b, q, m, done, segment, rest, 1);
    StepAtLink(b, q, m, done, segment, rest, n);
    assert NoticedAt(b, q, m + 1);
    forall j: nat | j < m + 1 ensures !NoticedAt(b, q, j) { NotNoticedBefore(a, b, root, q, m, j); }
    SegmentsKept(done, segment, rest, n);
  }

  lemma StepAtLink(b: Links, q: Path, m: nat, done: Path, segment: string, rest: Path, n: nat)
    requires After(b, Cursor([], q), m) == Cursor(done, [segment] + rest)
    requires segment != ".." && done + [segment] in b && b[done + [segment]] == Self(segment, n)
    ensures After(b, Cursor([], q), m + 1) == Cursor(done, [segment] + Repeat("x", n) + rest)
    ensures Reenters(b, q, m, m + 1)
  {
    AfterSnoc(b, Cursor([], q), m);
    hide After;
    assert ([segment] + rest)[1..] == rest;
    var t := After(b, Cursor([], q), m + 1);
    assert t.todo[0] == segment;
  }

  lemma SegmentsKept(done: Path, segment: string, rest: Path, n: nat)
    requires n >= |rest| && segment != ".."
    ensures done + [segment] <= Normal(done, [segment] + Repeat("x", n) + rest)
  {
    hide Normal;
    var plain := [segment] + Repeat("x", n);
    assert "x"[0] != ".."[0];
    NormalPlain(done, plain, rest);
    NormalKeeps(done + [segment], done + plain, rest);
  }

  /** Nothing is noticed before: a walk that has begun to repeat itself does not come to the exit. */
  lemma NotNoticedBefore(a: Links, b: Links, root: Path, q: Path, m: nat, k: nat)
    requires ExitsAt(a, root, q, m) && k <= m
    requires forall j: nat :: j <= m ==> After(b, Cursor([], q), j) == After(a, Cursor([], q), j)
    ensures !NoticedAt(b, q, k)
  {
    hide After, Inside, Consulted;
    if i: nat :| Reenters(b, q, i, k) {
      NoticedGoesOn(b, q, i, k);
      assert ConsultedBefore(b, q, k, m);
      var j: nat :| j < k && Consulted(After(b, Cursor([], q), m)) == Consulted(After(b, Cursor([], q), j));
      LeavesAlike(a, root, q, j, m);
      assert false;
    }
  }

  lemma LeavesAlike(links: Links, root: Path, q: Path, j: nat, m: nat)
    requires Consulted(After(links, Cursor([], q), j)) == Consulted(After(links, Cursor([], q), m))
    ensures LeavesAt(links, root, q, j) == LeavesAt(links, root, q, m)
  {
  }

  /** No link and no `..` on the way to this place, and directories only. */
  predicate Clear(links: Links, nodes: map<Path, Node>, place: Path) {
    Settled(links, place) && forall k :: 1 <= k <= |place| ==> IsDirectory(nodes, place[..k])
  }

  /** The walk of a path that begins with the link at the exit meets it without a dead end. */
  lemma MeetsLink(b: Links, nodes: map<Path, Node>, l: Path, x: Path, n: nat)
    requires l != [] && l <= x && l in b && b[l] == Self(l[|l| - 1], n) && l[|l| - 1] != ".."
    requires Clear(b, nodes, l[..|l| - 1])
    ensures StatLoops(b, nodes, x)
  {
    hide After, IsDirectory, Spins, StatLoops, DeadEndAt, Clear, Settled;
    var done, segment, rest := l[..|l| - 1], l[|l| - 1], x[|l|..];
    assert x == done + ([segment] + rest) && done + [segment] == l;
    ClearIsSettled(b, nodes, done);
    WalkTop(b, done, [segment] + rest);
    SelfSpins(b, done, segment, n);
    forall j: nat | j < |done| ensures !DeadEndAt(b, nodes, x, j) {
      PassesClear(b, nodes, done, [segment] + rest, j);
    }
    NoDeadEnds(b, nodes, x, |done|, done, segment, rest);
  }

  lemma ClearIsSettled(links: Links, nodes: map<Path, Node>, place: Path)
    requires Clear(links, nodes, place)
    ensures Settled(links, place)
  {
  }

  lemma PassesClear(links: Links, nodes: map<Path, Node>, place: Path, rest: Path, j: nat)
    requires j < |place| && Clear(links, nodes, place)
    ensures !DeadEndAt(links, nodes, place + rest, j)
  {
    hide After;
    var head, tail := place[..j], place[j..] + rest;
    assert place + rest == head + tail;
    forall k | 1 <= k <= |head| ensures head[..k] !in links {
      assert head[..k] == place[..k];
    }
    WalkTop(links, head, tail);
    assert head + [tail[0]] == place[..j + 1];
  }

  /** With a link to itself at its exit, resolving a leaving path raises. */
  lemma WalkLooped(a: Links, nodes: map<Path, Node>, root: Path, below: Path, q: Path, m: nat) returns (b: Links)
    requires ExitsAt(a, root, q, m) && Passable(a, nodes, root + below) && below != []
    ensures LinksAgree(a, b, root) && Answer(b, nodes, q) == Loop
  {
    hide LinksAgree, Inside, Resolved, After, Passable, StatLoops, GivesUpAt, Remainder, IsDirectory, ExitsAt;
    var l := Exit(a, root, q, m);
    var n: nat;
    b, n := GivesUpAtExit(a, root, q, m);
    AboveIsClear(a, nodes, root, below, q, m, b, n);
    MeetsLink(b, nodes, l, Remainder(b, q, m + 1), n);
    assert GivesUpAt(b, q, m + 1) && StatLoops(b, nodes, Remainder(b, q, m + 1));
  }
}
