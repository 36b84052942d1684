/**
  Where the promises of the torrc reader end: the depth cap is exact, an absolute wildcard in `/`
  is read as a relative one, and `config_present` is not confined.
 */
module TorrcLimits {
  import opened Text
  import opened Torrc
  import opened TorrcInlining
  import opened TorrcConfinement
  import opened TorrcLinks
  import opened TorrcLoops

  // ----- lines of the examples -----

  lemma Ends(name: string)
    requires name != "" && !IsSpace(name[0]) && !IsSpace(name[|name| - 1])
    ensures var line := "%include " + name;
      line != "" && !IsSpace(line[0]) && !IsSpace(line[|line| - 1])
    ensures LStrip(" " + name) == LStrip(name)
  {
    var line := "%include " + name;
    assert line[0] == '%' && line[|line| - 1] == name[|name| - 1];
    assert (" " + name)[1..] == name;
  }

  lemma IncludeArgument(line: string, name: string)
    requires line == "%include " + name && name != "" && LStrip(" " + name) == name && TakeNonSpace(name) == name
    ensures ParseInclude(line) == Some(name)
  {
    hide LStrip, TakeNonSpace;
    assert line[..8] == "%include" && Fold("%include") == "%include";
    assert line[8..] == " " + name;
    assert name[|name|..] == "";
    assert LStrip("") == "" by { assert |LStrip("")| == 0; }
  }

  lemma IncludeOf(name: string)
    requires name != "" && TakeNonSpace(name) == name && !IsSpace(name[0]) && !IsSpace(name[|name| - 1])
    ensures Classify("%include " + name) == Include(name)
  {
    hide ParseInclude, TakeNonSpace, LStrip, RStrip, Strip, IsSpace;
    var line := "%include " + name;
    Ends(name);
    StripNothing(line);
    StripNothing(name);
    IncludeArgument(line, name);
    assert line[..1][0] == '%' && "#"[0] == '#';
  }

  lemma NotKeyword(s: string)
    requires s != "" && s[0] != '%'
    ensures Fold(s) != "%include"
  {
    assert "%include"[0] == '%' && Fold(s)[0] == FoldCase(s[0]) != '%';
  }

  lemma SocksIsPlain(line: string)
    requires line == "SocksPort 9050" || line == "SocksPort 0"
    ensures Classify(line) == Plain(line)
  {
    assert line[0] == 'S' && line[|line| - 1] == '0' && line[..8][0] == 'S';
    hide LStrip, RStrip, Strip, TakeNonSpace, Fold;
    StripNothing(line);
    NotKeyword(line[..8]);
    hide IsSpace;
    assert ParseInclude(line) == None;
  }

  // ----- the depth cap -----

  function Name(i: nat): (r: string)
    ensures |r| == i + 1 && forall k :: 0 <= k < |r| ==> r[k] == 'a'
  {
    seq(i + 1, _ => 'a')
  }

  /** `k + 1` files in one directory, each including the next; the last holds one line. */
  function Hops(k: nat): World {
    World([], p => Place(p), p => true, map p: Path | p in AllNames(k) :: HopNode(k, p), (n, pattern) => false)
  }

  function AllNames(k: nat): (r: set<Path>)
    ensures forall i :: 0 <= i <= k ==> [Name(i)] in r
  {
    if k == 0 then {[Name(0)]} else AllNames(k - 1) + {[Name(k)]}
  }

  function HopNode(k: nat, p: Path): Node {
    if |p| == 1 && 1 <= |p[0]| <= k then File(["%include " + Name(|p[0]|)]) else File(["SocksPort 9050"])
  }

  lemma {:induction false} NoSpaceIn(s: string)
    requires forall k :: 0 <= k < |s| ==> s[k] == 'a'
    ensures TakeNonSpace(s) == s
    ensures AfterLastSlash(s) == 0
  {
    if s != "" {
      NoSpaceIn(s[1..]);
      NoSpaceIn(s[..|s| - 1]);
    }
  }

  lemma NameIsPlain(w: World, i: nat, dir: Path)
    ensures IncludeItems(w, Name(i), dir) == [Call(dir + [Name(i)])]
  {
    NoSpaceIn(Name(i));
    assert Name(i)[0..] == Name(i);
    forall j ensures !At(Name(i), j, "/") {
      if 0 <= j < |Name(i)| { assert Name(i)[j..j + 1][0] == 'a'; }
    }
    assert SplitWildcard(Name(i)) == None;
    assert Parts(Name(i)) == [Name(i)];
  }

  lemma HopLookup(k: nat, i: nat)
    requires i <= k
    ensures Hops(k).InRoot([Name(i)])
    ensures Hops(k).Lookup([Name(i)]) == Some(HopNode(k, [Name(i)]))
  {
  }

  lemma HopInclude(k: nat, i: nat)
    requires i < k
    ensures Items(Hops(k), [Name(i)]) == [Call([Name(i + 1)])]
  {
    var line := "%include " + Name(i + 1);
    HopFile(k, i, line);
    hide *;
    HopLine(i + 1);
    OneLineFile(Hops(k), [Name(i)], line);
    ItemsOf(Hops(k), Include(Name(i + 1)), []);
    NameIsPlain(Hops(k), i + 1, []);
    assert [] + [Name(i + 1)] == [Name(i + 1)];
  }

  lemma HopFile(k: nat, i: nat, line: string)
    requires i < k && line == "%include " + Name(i + 1)
    ensures Hops(k).Lookup([Name(i)]) == Some(File([line]))
  {
    HopLookup(k, i);
    hide Hops;
    assert |[Name(i)][0]| == i + 1;
  }

  lemma HopLine(i: nat)
    ensures Classify("%include " + Name(i)) == Include(Name(i))
  {
    NoSpaceIn(Name(i));
    hide TakeNonSpace, Classify;
    IncludeOf(Name(i));
  }

  lemma ItemsOf(w: World, raw: Raw, dir: Path)
    ensures raw.Include? ==> LineItems(w, raw, dir) == IncludeItems(w, raw.arg, dir)
    ensures raw.Plain? ==> LineItems(w, raw, dir) == [Line(raw.text)]
  {
  }

  lemma HopLast(k: nat)
    ensures Items(Hops(k), [Name(k)]) == [Line("SocksPort 9050")]
  {
    var line := "SocksPort 9050";
    HopLookup(k, k);
    assert HopNode(k, [Name(k)]) == File([line]);
    hide *;
    SocksIsPlain(line);
    OneLineFile(Hops(k), [Name(k)], line);
    ItemsOf(Hops(k), Plain(line), []);
  }

  lemma HopItems(k: nat, i: nat)
    requires i <= k
    ensures Hops(k).InRoot([Name(i)])
    ensures Items(Hops(k), [Name(i)]) == if i < k then [Call([Name(i + 1)])] else [Line("SocksPort 9050")]
  {
    HopLookup(k, i);
    hide Hops, Items;
    if i < k { HopInclude(k, i); } else { HopLast(k); }
  }

  lemma OneLine(w: World, line: string, dir: Path)
    ensures TextItems(w, Classified([line]), dir) == LineItems(w, Classify(line), dir)
  {
    hide Classify, LineItems;
    var raws := Classified([line]);
    assert raws[..0] == [];
    assert TextItems(w, [], dir) == [];
    assert [] + LineItems(w, raws[0], dir) == LineItems(w, raws[0], dir);
  }

  lemma OneLineFile(w: World, p: Path, line: string)
    requires p != [] && w.Lookup(p) == Some(File([line]))
    ensures Items(w, p) == LineItems(w, Classify(line), p[..|p| - 1])
  {
    hide Classify, LineItems, TextItems, Classified;
    OneLine(w, line, Parent(p));
  }

  lemma {:induction false} HopsResolve(k: nat, i: nat, seen: set<Path>)
    requires i <= k
    requires forall j :: i <= j <= k ==> [Name(j)] !in seen
    ensures Resolve(Hops(k), [Name(i)], seen, i) == if k <= MAX_INCLUDE_DEPTH then ["SocksPort 9050"] else []
    decreases k - i
  {
    hide Hops, Items;
    var w, p := Hops(k), [Name(i)];
    HopItems(k, i);
    if i <= MAX_INCLUDE_DEPTH {
      if i < k {
        forall j | i < j <= k ensures [Name(j)] !in seen + {p} {
          assert |Name(j)| != |Name(i)|;
        }
        HopsResolve(k, i + 1, seen + {p});
        ExpandCall(w, [Name(i + 1)], seen + {p}, i + 1);
      } else {
        assert Expand(w, [Line("SocksPort 9050")][..0], seen + {p}, i + 1) == [];
      }
    }
  }

  lemma {:induction false} HopsInline(k: nat, i: nat)
    requires i <= k
    ensures Inline(Hops(k), [Name(i)], k + 1 - i) == Some(["SocksPort 9050"])
    decreases k - i
  {
    hide Hops, Items;
    HopItems(k, i);
    var w, n := Hops(k), k - i;
    var item := if i < k then Call([Name(i + 1)]) else Line("SocksPort 9050");
    InlineOne(w, item, n);
    if i < k {
      HopsInline(k, i + 1);
    }
  }

  lemma InlineOne(w: World, item: Item, n: nat)
    ensures InlineItems(w, [item], n) == InlineItem(w, item, n)
  {
    hide Inline;
    assert [item][..0] == [];
    assert InlineItems(w, [], n) == Some([]);
    if InlineItem(w, item, n).Some? {
      assert [] + InlineItem(w, item, n).value == InlineItem(w, item, n).value;
    }
  }

  /** On a chain of `k` hops the reader returns the inlining if and only if `k` is at most 8. */
  lemma DepthCapIsExact(k: nat)
    ensures Inline(Hops(k), [Name(0)], k + 1) == Some(["SocksPort 9050"])
    ensures Inline(Hops(k), [Name(0)], k + 1) == Read(Hops(k), [Name(0)], {}, 0) <==> k <= 8
  {
    hide Inline, Resolve, Raises;
    forall q ensures !Hops(k).Loops(q) {}
    hide Hops;
    HopsInline(k, 0);
    HopsResolve(k, 0, {});
    NoLoopNoRaise(Hops(k), [Name(0)], {}, 0);
  }

  // ----- an absolute wildcard include -----

  /**
    The directory of an absolute wildcard include is taken below the root, except when the
    wildcard sits directly in `/`: then it is taken to be the directory of the including file.
   */
  lemma AbsoluteWildcardDirectory(w: World, arg: string, dir: Path)
    requires StartsWith(arg, "/") && SplitWildcard(arg).Some?
    ensures var (d, pattern) := SplitWildcard(arg).value;
      TargetPath(w, d, dir) == (if arg == "/" + pattern then dir else w.root + Parts(d))
  {
    var (d, pattern) := SplitWildcard(arg).value;
    var i := AfterLastSlash(arg);
    assert arg == arg[..i] + pattern;
    assert i > 0 by { assert arg[0] == '/'; }
    if i == 1 {
      assert arg[..1] == "/";
      assert dir + Parts("") == dir;
    } else {
      assert d[0] == '/';
      assert |arg| != 1 + |pattern|;
    }
  }

  // ----- config_present -----

  /** `config_present`, the one field `parse_tor_config` derives from an unguarded `is_file`. */
  ghost function ConfigPresent(w: World): Option<bool> {
    match Effective(w)
    case None => None
    case Some(lines) => Some(w.IsFile(MainFile(w)) || lines != [])
  }

  /** With the main file inside the root, `config_present` is confined like every other field. */
  lemma ConfigPresentConfined(w: World, v: World)
    requires AgreeOn(w, v, AllAsked(w))
    ensures w.InRoot(MainFile(w)) ==> ConfigPresent(w) == ConfigPresent(v)
    ensures !w.InRoot(MainFile(w)) ==>
      (ConfigPresent(w) == ConfigPresent(v) <==> w.IsFile(MainFile(w)) == v.IsFile(MainFile(v)))
  {
    hide Effective, AskedBelow, EntriesOf;
    MainIsAsked(w);
    assert AgreeAt(w, v, MainFile(w));
    if w.InRoot(MainFile(w)) {
      EffectiveLinesAreConfined(w, v);
    } else {
      OutsideMain(w);
      OutsideMain(v);
    }
  }

  lemma OutsideMain(w: World)
    requires !w.InRoot(MainFile(w))
    ensures Effective(w) == if w.IsFile(MainFile(w)) && w.Loops(MainFile(w)) then None else Some([])
    ensures AllAsked(w) == {MainFile(w)}
  {
    hide Expand, Items, EntriesOf, AskedBelow, Stuck;
  }

  /** Two worlds that differ only outside the root, and the field tells them apart. */
  lemma ConfigPresentLeaks() returns (w: World, v: World)
    ensures AgreeOn(w, v, AllAsked(w)) && v == w.(nodes := v.nodes)
    ensures (forall c :: w.root <= c ==> (c in w.nodes <==> c in v.nodes))
    ensures ConfigPresent(w) == Some(true) && ConfigPresent(v) == Some(false)
  {
    hide Expand, Items, Asked, Stuck;
    var resolve: Path -> Resolution := p => if p == ["r", "etc", "tor", "torrc"] then Place(["out"]) else Place(p);
    w := World(["r"], resolve, p => true, map[["out"] := File([])], (n, pattern) => false);
    v := w.(nodes := map[]);
    assert MainFile(w) == ["r", "etc", "tor", "torrc"] == MainFile(v);
    assert |"r"| != |"out"| && ["out"][0] == "out";
    OutsideMain(w);
    OutsideMain(v);
  }
}
