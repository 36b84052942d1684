/**
  When the torrc reader raises.  The root guard lets the error of a link loop through, so one looping
  path that is guarded anywhere on the way aborts the whole reading.
 */
module TorrcLoops {
  import opened Text
  import opened Torrc
  import opened TorrcInlining

  /** Each path but the last is inside the root and reads the next. */
  ghost predicate Trail(w: World, ps: seq<Path>) {
    && ps != []
    && (|ps| > 1 ==> w.InRoot(ps[0]) && Call(ps[1]) in Items(w, ps[0]) && Trail(w, ps[1..]))
  }

  /** Reading `p` itself evaluates a guard that raises: its own, or that of a wildcard's directory. */
  ghost predicate Meets(w: World, p: Path) {
    w.Loops(p) || (w.InRoot(p) && exists d :: Guard(d) in Items(w, p) && w.Loops(d))
  }

  /** A trail of at most `n` members, none of them an ancestor, from `p` to a guard that raises. */
  ghost predicate LoopAhead(w: World, p: Path, seen: set<Path>, n: nat) {
    exists ps :: LoopTrail(w, p, ps, seen, n)
  }

  ghost predicate LoopTrail(w: World, p: Path, ps: seq<Path>, seen: set<Path>, n: nat) {
    && Trail(w, ps) && ps[0] == p && |ps| <= n && Meets(w, ps[|ps| - 1])
    && forall q :: q in ps ==> q !in seen
  }

  predicate Distinct(ps: seq<Path>) {
    forall i, j :: 0 <= i < j < |ps| ==> ps[i] != ps[j]
  }

  lemma TrailCons(w: World, p: Path, rest: seq<Path>)
    requires Trail(w, rest) && w.InRoot(p) && Call(rest[0]) in Items(w, p)
    ensures Trail(w, [p] + rest)
  {
    hide Items;
    assert ([p] + rest)[1..] == rest;
  }

  lemma {:induction false} TrailEnd(w: World, ps: seq<Path>, i: nat)
    requires Trail(w, ps) && i < |ps|
    ensures Trail(w, ps[i..])
    decreases i
  {
    hide Items;
    if i > 0 {
      assert ps[1..][i - 1..] == ps[i..];
      TrailEnd(w, ps[1..], i - 1);
    } else {
      assert ps[0..] == ps;
    }
  }

  /** A detour that comes back to the same path can be left out. */
  lemma {:induction false} Shorten(w: World, ps: seq<Path>) returns (qs: seq<Path>)
    requires Trail(w, ps)
    ensures Trail(w, qs) && qs[0] == ps[0] && qs[|qs| - 1] == ps[|ps| - 1] && |qs| <= |ps|
    ensures Distinct(qs) && forall q :: q in qs ==> q in ps
    decreases |ps|
  {
    hide Items;
    if |ps| == 1 {
      qs := ps;
    } else {
      var rest := Shorten(w, ps[1..]);
      if i: nat :| i < |rest| && rest[i] == ps[0] {
        TrailEnd(w, rest, i);
        qs := rest[i..];
      } else {
        TrailCons(w, ps[0], rest);
        qs := [ps[0]] + rest;
        forall j, k | 0 <= j < k < |qs| ensures qs[j] != qs[k] {
          assert qs[k] == rest[k - 1];
          if j > 0 { assert qs[j] == rest[j - 1]; }
        }
      }
      forall q | q in qs ensures q in ps { assert q == ps[0] || q in rest; }
    }
  }

  lemma {:induction false} RaisesTrail(w: World, p: Path, seen: set<Path>, depth: nat) returns (ps: seq<Path>)
    requires Raises(w, p, seen, depth)
    ensures LoopTrail(w, p, ps, seen, Budget(depth))
    decreases Budget(depth)
  {
    hide Items;
    if Meets(w, p) {
      ps := [p];
    } else {
      assert Stuck(w, Items(w, p), seen + {p}, depth + 1);
      var q :| Call(q) in Items(w, p) && Raises(w, q, seen + {p}, depth + 1);
      var rest := RaisesTrail(w, q, seen + {p}, depth + 1);
      TrailCons(w, p, rest);
      ps := [p] + rest;
    }
  }

  lemma {:induction false} TrailRaises(w: World, ps: seq<Path>, seen: set<Path>, depth: nat)
    requires Trail(w, ps) && LoopTrail(w, ps[0], ps, seen, Budget(depth)) && Distinct(ps)
    ensures Raises(w, ps[0], seen, depth)
    decreases |ps|
  {
    hide Items, World.Loops, World.InRoot;
    if |ps| > 1 {
      forall q | q in ps[1..] ensures q !in seen + {ps[0]} {}
      assert Distinct(ps[1..]);
      TrailRaises(w, ps[1..], seen + {ps[0]}, depth + 1);
    }
  }

  /**
    From any point of an expansion, reading raises if and only if some trail within the depth that is
    left, through no ancestor, leads to a guard that meets a link loop.
   */
  lemma RaisesExactly(w: World, p: Path, seen: set<Path>, depth: nat)
    ensures Raises(w, p, seen, depth) <==> LoopAhead(w, p, seen, Budget(depth))
  {
    hide Raises, Trail, Meets;
    if Raises(w, p, seen, depth) {
      var ps := RaisesTrail(w, p, seen, depth);
    }
    if ps :| LoopTrail(w, p, ps, seen, Budget(depth)) {
      var qs := Shorten(w, ps);
      TrailRaises(w, qs, seen, depth);
    }
  }

  /**
    What reading a path means: it raises if and only if a loop is met within 8 hops, and otherwise, if
    no chain has more than 8 hops, it gives the unbounded textual inlining.
   */
  lemma ReadingIsInlining(w: World, p: Path, n: nat)
    requires ChainsAtMost(w, p, MAX_INCLUDE_DEPTH + 1) && n > MAX_INCLUDE_DEPTH
    ensures Read(w, p, {}, 0) == if LoopAhead(w, p, {}, MAX_INCLUDE_DEPTH + 1) then None else Inline(w, p, n)
  {
    hide Raises, LoopAhead, ChainsAtMost, Inline, Resolve;
    RaisesExactly(w, p, {}, 0);
    ExpansionIsInlining(w, p, n);
  }

  lemma NothingToMeet(w: World, p: Path, ps: seq<Path>, seen: set<Path>, n: nat)
    requires forall q :: !w.Loops(q)
    ensures !LoopTrail(w, p, ps, seen, n)
  {
  }

  /** Without link loops nothing raises. */
  lemma NoLoopNoRaise(w: World, p: Path, seen: set<Path>, depth: nat)
    requires forall q :: !w.Loops(q)
    ensures Read(w, p, seen, depth) == Some(Resolve(w, p, seen, depth))
  {
    hide Items, Raises, Resolve, LoopTrail;
    RaisesExactly(w, p, seen, depth);
    forall ps ensures !LoopTrail(w, p, ps, seen, Budget(depth)) { NothingToMeet(w, p, ps, seen, Budget(depth)); }
  }
}
