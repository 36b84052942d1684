/**
  What include expansion means.  `Inline` is plain textual inlining: no ancestor set, no depth
  cap, and no value when the inlining does not finish within `n` levels.
 */
module TorrcInlining {
  import opened Text
  import opened Torrc

  ghost function Inline(w: World, p: Path, n: nat): Option<seq<string>>
    decreases n, 1, 0
  {
    if !w.InRoot(p) then Some([])
    else if n == 0 then None
    else InlineItems(w, Items(w, p), n - 1)
  }

  ghost function InlineItems(w: World, items: seq<Item>, n: nat): Option<seq<string>>
    decreases n, 2, |items|
  {
    if items == [] then Some([])
    else
      var front := InlineItems(w, items[..|items| - 1], n);
      var last := InlineItem(w, items[|items| - 1], n);
      if front.None? || last.None? then None else Some(front.value + last.value)
  }

  ghost function InlineItem(w: World, item: Item, n: nat): Option<seq<string>>
    decreases n, 1, 1
  {
    match item
    case Line(t) => Some([t])
    case Call(q) => Inline(w, q, n)
    case Guard(_) => Some([])
  }

  /** The files and directories of one include chain: each inside the root, each reading the next. */
  ghost predicate Chain(w: World, ps: seq<Path>) {
    && ps != []
    && w.InRoot(ps[0])
    && (|ps| > 1 ==> Call(ps[1]) in Items(w, ps[0]) && Chain(w, ps[1..]))
  }

  /** No include chain that starts at `p` has more than `n` members, that is, `n - 1` hops. */
  ghost predicate ChainsAtMost(w: World, p: Path, n: nat) {
    forall ps :: Chain(w, ps) && ps[0] == p ==> |ps| <= n
  }

  // ----- inlining finishes exactly when chains are bounded -----

  lemma {:induction false} FailingCall(w: World, items: seq<Item>, n: nat) returns (q: Path)
    requires InlineItems(w, items, n).None?
    ensures Call(q) in items && Inline(w, q, n).None?
    decreases |items|
  {
    hide Items;
    var last := items[|items| - 1];
    if InlineItem(w, last, n).None? {
      q := last.target;
    } else {
      q := FailingCall(w, items[..|items| - 1], n);
    }
  }

  lemma ChainCons(w: World, p: Path, rest: seq<Path>)
    requires Chain(w, rest) && w.InRoot(p) && Call(rest[0]) in Items(w, p)
    ensures Chain(w, [p] + rest)
  {
    hide Items;
    assert ([p] + rest)[1..] == rest;
  }

  lemma {:induction false} LongChain(w: World, p: Path, n: nat) returns (ps: seq<Path>)
    requires Inline(w, p, n).None?
    ensures |ps| == n + 1 && ps[0] == p && Chain(w, ps)
    decreases n
  {
    hide Items;
    if n == 0 {
      ps := [p];
    } else {
      var q := FailingCall(w, Items(w, p), n - 1);
      ps := LongChain(w, q, n - 1);
      ChainCons(w, p, ps);
      ps := [p] + ps;
    }
  }

  lemma {:induction false} SucceedingCall(w: World, items: seq<Item>, n: nat, q: Path)
    requires InlineItems(w, items, n).Some? && Call(q) in items
    ensures Inline(w, q, n).Some?
    decreases |items|
  {
    hide Items;
    if items[|items| - 1] == Call(q) {
      assert InlineItem(w, Call(q), n).Some?;
    } else {
      assert Call(q) in items[..|items| - 1];
      SucceedingCall(w, items[..|items| - 1], n, q);
    }
  }

  lemma {:induction false} ChainFits(w: World, ps: seq<Path>, n: nat)
    requires Chain(w, ps) && Inline(w, ps[0], n).Some?
    ensures |ps| <= n
    decreases n
  {
    hide Items;
    if |ps| > 1 {
      SucceedingCall(w, Items(w, ps[0]), n - 1, ps[1]);
      ChainFits(w, ps[1..], n - 1);
    }
  }

  /** Textual inlining of `p` finishes within `n` levels exactly when no chain has more than `n` members. */
  lemma InliningFinishes(w: World, p: Path, n: nat)
    ensures Inline(w, p, n).Some? <==> ChainsAtMost(w, p, n)
  {
    hide Items;
    if Inline(w, p, n).Some? {
      forall ps | Chain(w, ps) && ps[0] == p ensures |ps| <= n {
        ChainFits(w, ps, n);
      }
    } else {
      var ps := LongChain(w, p, n);
    }
  }

  lemma {:induction false} InlineMonotone(w: World, p: Path, n: nat, m: nat)
    requires n <= m && Inline(w, p, n).Some?
    ensures Inline(w, p, m) == Inline(w, p, n)
    decreases n, 1, 0
  {
    hide Items;
    if w.InRoot(p) {
      InlineItemsMonotone(w, Items(w, p), n - 1, m - 1);
    }
  }

  lemma {:induction false} InlineItemsMonotone(w: World, items: seq<Item>, n: nat, m: nat)
    requires n <= m && InlineItems(w, items, n).Some?
    ensures InlineItems(w, items, m) == InlineItems(w, items, n)
    decreases n, 2, |items|
  {
    hide Items;
    if items != [] {
      InlineItemsMonotone(w, items[..|items| - 1], n, m);
      match items[|items| - 1]
      case Call(q) => InlineMonotone(w, q, n, m);
      case _ =>
    }
  }

  // ----- the depth cap alone, without the ancestor set -----

  ghost function Cut(w: World, p: Path, k: nat): seq<string>
    decreases k, 1, 0
  {
    if k == 0 || !w.InRoot(p) then [] else CutItems(w, Items(w, p), k - 1)
  }

  ghost function CutItems(w: World, items: seq<Item>, k: nat): seq<string>
    decreases k, 2, |items|
  {
    if items == [] then []
    else
      CutItems(w, items[..|items| - 1], k) +
      match items[|items| - 1]
      case Line(t) => [t]
      case Call(q) => Cut(w, q, k)
      case Guard(_) => []
  }

  lemma {:induction false} CutIsInline(w: World, p: Path, k: nat)
    requires Inline(w, p, k).Some?
    ensures Cut(w, p, k) == Inline(w, p, k).value
    decreases k, 1, 0
  {
    hide Items;
    if w.InRoot(p) {
      CutItemsIsInline(w, Items(w, p), k - 1);
    }
  }

  lemma {:induction false} CutItemsIsInline(w: World, items: seq<Item>, k: nat)
    requires InlineItems(w, items, k).Some?
    ensures CutItems(w, items, k) == InlineItems(w, items, k).value
    decreases k, 2, |items|
  {
    hide Items;
    if items != [] {
      CutItemsIsInline(w, items[..|items| - 1], k);
      match items[|items| - 1]
      case Call(q) => CutIsInline(w, q, k);
      case _ =>
    }
  }

  lemma StillUnfinished(w: World, seen: set<Path>, n: nat)
    requires n > 0 && forall q :: q in seen ==> Inline(w, q, n).None?
    ensures forall q :: q in seen ==> Inline(w, q, n - 1).None?
  {
    hide Items;
    forall q | q in seen ensures Inline(w, q, n - 1).None? {
      if Inline(w, q, n - 1).Some? { InlineMonotone(w, q, n - 1, n); }
    }
  }

  /**
    Every ancestor needs more levels than `p` does, so `p` is not among them: the ancestor set
    never removes anything from an inlining that finishes.
   */
  lemma {:induction false} SeenIsIrrelevant(w: World, p: Path, seen: set<Path>, depth: nat, n: nat)
    requires Inline(w, p, n).Some?
    requires forall q :: q in seen ==> Inline(w, q, n).None?
    ensures Resolve(w, p, seen, depth) == Cut(w, p, Budget(depth))
    decreases n, 1, 0
  {
    hide Items;
    if w.InRoot(p) && depth <= MAX_INCLUDE_DEPTH {
      StillUnfinished(w, seen, n);
      if Inline(w, p, n - 1).Some? {
        SeenIsIrrelevant(w, p, seen, depth, n - 1);
      } else {
        SeenIsIrrelevantInItems(w, Items(w, p), seen + {p}, depth + 1, n - 1);
      }
    }
  }

  lemma {:induction false} SeenIsIrrelevantInItems(w: World, items: seq<Item>, seen: set<Path>, depth: nat, n: nat)
    requires InlineItems(w, items, n).Some?
    requires forall q :: q in seen ==> Inline(w, q, n).None?
    ensures Expand(w, items, seen, depth) == CutItems(w, items, Budget(depth))
    decreases n, 2, |items|
  {
    hide Items;
    if items != [] {
      SeenIsIrrelevantInItems(w, items[..|items| - 1], seen, depth, n);
      match items[|items| - 1]
      case Call(q) => SeenIsIrrelevant(w, q, seen, depth, n);
      case _ =>
    }
  }

  /**
    Include expansion preserves meaning.  If no chain from `p` has more than 8 hops, the reader
    returns the unbounded textual inlining, duplicates included, however many levels one allows it.
   */
  lemma ExpansionIsInlining(w: World, p: Path, n: nat)
    requires ChainsAtMost(w, p, MAX_INCLUDE_DEPTH + 1)
    requires n > MAX_INCLUDE_DEPTH
    ensures Inline(w, p, n) == Some(Resolve(w, p, {}, 0))
  {
    hide Items;
    InliningFinishes(w, p, MAX_INCLUDE_DEPTH + 1);
    InlineMonotone(w, p, MAX_INCLUDE_DEPTH + 1, n);
    SeenIsIrrelevant(w, p, {}, 0, MAX_INCLUDE_DEPTH + 1);
    CutIsInline(w, p, MAX_INCLUDE_DEPTH + 1);
  }

  /** Chains of any bounded length: then only the depth cap can drop text, never the ancestor set. */
  lemma OnlyTheCapCuts(w: World, p: Path, n: nat)
    requires ChainsAtMost(w, p, n)
    ensures Resolve(w, p, {}, 0) == Cut(w, p, MAX_INCLUDE_DEPTH + 1)
  {
    hide Items;
    InliningFinishes(w, p, n);
    SeenIsIrrelevant(w, p, {}, 0, n);
  }
}
