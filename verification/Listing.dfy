/**
  `sorted(directory.iterdir(), key=lambda p: p.name)`.  A directory holds a set of names; the
  operating system lists them in no particular order; sorting makes the order a function of
  the set alone.
 */
module Listing {
  /** Python's string order: code points, left to right, a prefix first. */
  predicate Before(a: string, b: string) {
    a == [] || (b != [] && (a[0] < b[0] || (a[0] == b[0] && Before(a[1..], b[1..]))))
  }

  /** Where two strings first differ, `a` has the smaller code point. */
  ghost predicate SmallerAt(a: string, b: string, i: int) {
    0 <= i < |a| && i < |b| && a[..i] == b[..i] && a[i] < b[i]
  }

  /** Code points decide, left to right; a proper prefix is smaller. */
  ghost predicate Smaller(a: string, b: string) {
    a < b || exists i :: SmallerAt(a, b, i)
  }

  lemma {:induction false} SmallerTail(a: string, b: string)
    requires a != "" && b != "" && a[0] == b[0]
    ensures Smaller(a, b) <==> Smaller(a[1..], b[1..])
  {
    assert a == [a[0]] + a[1..] && b == [b[0]] + b[1..];
    if i :| SmallerAt(a, b, i) {
      assert i > 0 && a[..i][1..] == a[1..][..i - 1] && b[..i][1..] == b[1..][..i - 1];
      assert SmallerAt(a[1..], b[1..], i - 1);
    }
    if i :| SmallerAt(a[1..], b[1..], i) {
      assert a[..i + 1] == [a[0]] + a[1..][..i] && b[..i + 1] == [b[0]] + b[1..][..i];
      assert SmallerAt(a, b, i + 1);
    }
    if a < b { assert a[1..] == b[1..][..|a| - 1]; }
    if a[1..] < b[1..] { assert a == b[..|a|]; }
  }

  lemma SameStart(a: string, b: string, i: int)
    requires SmallerAt(a, b, i) && i > 0
    ensures a[0] == b[0]
  {
    assert a[..i][0] == b[..i][0];
  }

  lemma LargerStart(a: string, b: string)
    requires a != "" && b != "" && a[0] > b[0]
    ensures !Smaller(a, b)
  {
    if i :| SmallerAt(a, b, i) && i > 0 { SameStart(a, b, i); }
  }

  /** The order of the sort: equal, or smaller in code points where the two first differ. */
  lemma {:induction false} BeforeMeans(a: string, b: string)
    ensures Before(a, b) <==> a == b || Smaller(a, b)
  {
    if a == "" || b == "" {
      assert a == "" && b != "" ==> a < b;
    } else if a[0] == b[0] {
      BeforeMeans(a[1..], b[1..]);
      SmallerTail(a, b);
      assert a == [a[0]] + a[1..] && b == [b[0]] + b[1..];
    } else if a[0] < b[0] {
      assert SmallerAt(a, b, 0);
    } else {
      LargerStart(a, b);
    }
  }

  lemma SmallerIsStrict(a: string, b: string)
    requires Smaller(a, b)
    ensures a != b && !Smaller(b, a)
  {
    BeforeMeans(a, b);
    BeforeMeans(b, a);
    if Smaller(b, a) { BeforeAntisymmetric(a, b); }
  }

  lemma {:induction false} BeforeTotal(a: string, b: string)
    ensures Before(a, b) || Before(b, a)
  {
    if a != [] && b != [] {
      BeforeTotal(a[1..], b[1..]);
    }
  }

  lemma {:induction false} BeforeAntisymmetric(a: string, b: string)
    requires Before(a, b) && Before(b, a)
    ensures a == b
  {
    if a != [] && b != [] {
      BeforeAntisymmetric(a[1..], b[1..]);
      assert a == [a[0]] + a[1..] && b == [b[0]] + b[1..];
    }
  }

  lemma {:induction false} BeforeTransitive(a: string, b: string, c: string)
    requires Before(a, b) && Before(b, c)
    ensures Before(a, c)
  {
    if a != [] && a[0] == b[0] && b[0] == c[0] {
      BeforeTransitive(a[1..], b[1..], c[1..]);
    }
  }

  ghost predicate IsMin(m: string, names: set<string>) {
    m in names && forall n :: n in names ==> Before(m, n)
  }

  lemma {:induction false} MinExists(names: set<string>)
    requires names != {}
    ensures exists m :: IsMin(m, names)
  {
    var x :| x in names;
    BeforeTotal(x, x);
    if names == {x} {
      assert IsMin(x, names);
    } else {
      MinExists(names - {x});
      var k :| IsMin(k, names - {x});
      BeforeTotal(k, x);
      var m := if Before(x, k) then x else k;
      forall n | n in names ensures Before(m, n) {
        if n != x && m == x { BeforeTransitive(x, k, n); }
      }
      assert IsMin(m, names);
    }
  }

  ghost function Min(names: set<string>): (m: string)
    requires names != {}
    ensures IsMin(m, names)
  {
    MinExists(names);
    var m :| IsMin(m, names);
    m
  }

  lemma MinIs(m: string, names: set<string>)
    requires IsMin(m, names)
    ensures Min(names) == m
  {
    BeforeAntisymmetric(m, Min(names));
  }

  /** The names of a directory in sorted order. */
  ghost function Sorted(names: set<string>): (r: seq<string>)
    ensures forall n :: n in r <==> n in names
    ensures |r| == |names|
  {
    if names == {} then [] else
      var m := Min(names);
      [m] + Sorted(names - {m})
  }

  function Insert(n: string, sorted: seq<string>): (r: seq<string>)
    ensures |r| == |sorted| + 1
  {
    if sorted == [] || Before(n, sorted[0]) then [n] + sorted
    else [sorted[0]] + Insert(n, sorted[1..])
  }

  lemma {:induction false} InsertSorted(n: string, names: set<string>)
    requires n !in names
    ensures Insert(n, Sorted(names)) == Sorted(names + {n})
    decreases names
  {
    hide Before;
    var all := names + {n};
    BeforeTotal(n, n);
    if names == {} {
      assert all == {n};
      MinIs(n, all);
      assert all - {n} == {};
    } else {
      var m := Min(names);
      if Before(n, m) {
        forall x | x in all ensures Before(n, x) {
          if x != n { BeforeTransitive(n, m, x); }
        }
        MinIs(n, all);
        assert all - {n} == names;
      } else {
        BeforeTotal(n, m);
        MinIs(m, all);
        InsertSorted(n, names - {m});
        assert all - {m} == names - {m} + {n};
        assert Sorted(names)[1..] == Sorted(names - {m});
      }
    }
  }

  /** Each name is smaller in code points than every later one. */
  ghost predicate Ascends(r: seq<string>) {
    forall i, j :: 0 <= i < j < |r| ==> Smaller(r[i], r[j])
  }

  lemma MinIsSmallest(names: set<string>, n: string)
    requires n in names && n != Min(names)
    ensures Smaller(Min(names), n)
  {
    BeforeMeans(Min(names), n);
  }

  lemma AscendsCons(m: string, tail: seq<string>)
    requires Ascends(tail) && forall n :: n in tail ==> Smaller(m, n)
    ensures Ascends([m] + tail)
  {
    hide Smaller;
    var r := [m] + tail;
    forall i, j | 0 <= i < j < |r| ensures Smaller(r[i], r[j]) {
      assert r[j] == tail[j - 1];
      if i > 0 { assert r[i] == tail[i - 1]; }
    }
  }

  lemma {:induction false} SortedAscends(names: set<string>)
    ensures Ascends(Sorted(names))
    decreases names
  {
    hide Smaller, Ascends;
    if names == {} {
      NothingAscends();
    } else {
      var m := Min(names);
      SortedAscends(names - {m});
      forall n | n in Sorted(names - {m}) ensures Smaller(m, n) { MinIsSmallest(names, n); }
      AscendsCons(m, Sorted(names - {m}));
    }
  }

  lemma NothingAscends()
    ensures Ascends([])
  {
  }

  /** What the operating system's names are listed as: all of them, each smaller than every later one. */
  ghost predicate Lists(r: seq<string>, names: set<string>) {
    Ascends(r) && forall n :: n in r <==> n in names
  }

  lemma ListedTail(r: seq<string>, names: set<string>)
    requires Lists(r, names) && r != []
    ensures IsMin(r[0], names) && Lists(r[1..], names - {r[0]})
  {
    hide Before;
    var m, tail := r[0], r[1..];
    assert r == [m] + tail;
    assert forall n :: n in r <==> n == m || n in tail;
    assert forall j :: 0 < j < |r| ==> Smaller(m, r[j]);
    forall n | n in tail ensures n != m && Before(m, n) {
      var j :| 0 <= j < |tail| && tail[j] == n;
      assert r[j + 1] == n;
      BeforeMeans(m, n);
    }
    BeforeTotal(m, m);
    assert forall i, j :: 0 <= i < j < |tail| ==> tail[i] == r[i + 1] && tail[j] == r[j + 1];
  }

  /** There is one such list of a set of names, and it is the sorted one. */
  lemma {:induction false} ListedIsSorted(r: seq<string>, names: set<string>)
    ensures Lists(r, names) <==> r == Sorted(names)
    decreases names
  {
    SortedAscends(names);
    if Lists(r, names) {
      hide Ascends, IsMin;
      if r == [] {
        assert names == {};
      } else {
        ListedTail(r, names);
        MinIs(r[0], names);
        ListedIsSorted(r[1..], names - {r[0]});
      }
    }
  }

  /** Whatever order the operating system lists the names in, sorting yields the one ascending list of them. */
  method SortNames(names: set<string>) returns (r: seq<string>)
    ensures r == Sorted(names)
    ensures Lists(r, names)
  {
    hide *;
    ListedIsSorted(Sorted(names), names);
    r := [];
    var rest, done := names, {};
    while rest != {}
      invariant done + rest == names && done !! rest
      invariant r == Sorted(done)
      decreases |rest|
    {
      var n :| n in rest;
      InsertSorted(n, done);
      r, rest, done := Insert(n, r), rest - {n}, done + {n};
    }
    assert done == names;
  }
}
