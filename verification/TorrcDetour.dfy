/**
  One include that leaves the root, `%include /../l`, and three file systems that differ only in what
  lies outside the root: nothing at `/l`, a link back into the root, or a link to itself.
 */
module TorrcDetour {
  import opened Text
  import opened Torrc
  import opened TorrcLimits
  import opened TorrcLinks
  import opened TorrcOutside

  lemma FindSlash(raw: string, i: nat)
    requires i < |raw| && raw[i] == '/' && '/' !in raw[..i]
    ensures Find(raw, "/") == Some(i)
  {
    assert raw[i..i + 1] == "/" && At(raw, i, "/");
    forall j | 0 <= j < i ensures !At(raw, j, "/") { assert raw[..i][j] == raw[j] && raw[j..j + 1][0] == raw[j]; }
  }

  lemma SlashFirst(raw: string, i: nat)
    requires i < |raw| && raw[i] == '/' && '/' !in raw[..i]
    ensures Parts(raw) == Segment(raw[..i]) + Parts(raw[i + 1..])
  {
    hide Find, Segment;
    FindSlash(raw, i);
  }

  lemma NoSlash(raw: string)
    requires '/' !in raw
    ensures Parts(raw) == Segment(raw)
  {
    forall j ensures !At(raw, j, "/") {
      if 0 <= j < |raw| { assert raw[j..j + 1][0] == raw[j]; }
    }
  }

  /** The include of the example: out of the root, and to a link. */
  const OUT := "/../l"

  lemma PartsOf(raw: string)
    requires |raw| == 5 && raw[0] == '/' && raw[1..][..2] == ".." && raw[1..][2] == '/' && raw[1..][3..] == "l"
    ensures Parts(raw) == ["..", "l"]
  {
    hide Find;
    assert raw[..0] == "" && "l"[0] == 'l';
    SlashFirst(raw, 0);
    SlashFirst(raw[1..], 2);
    NoSlash("l");
    assert ".."[0] == '.' && ".."[1] == '.';
  }

  lemma OutHasNoWildcard()
    ensures SplitWildcard(OUT) == None
  {
    assert OUT[..|OUT| - 1][3] == '/';
    assert AfterLastSlash(OUT) == 4 && OUT[4..] == "l";
  }

  lemma OutIsOne()
    ensures OUT != "" && TakeNonSpace(OUT) == OUT && !IsSpace(OUT[0]) && !IsSpace(OUT[|OUT| - 1])
  {
  }

  const DIRECTORY: Node := Dir({})

  /** The files and directories of the example; which links there are varies. */
  const NODES: map<Path, Node> := map[
    ["r"] := DIRECTORY, ["r", "etc"] := DIRECTORY, ["r", "etc", "tor"] := DIRECTORY,
    ["r", "etc", "tor", "torrc"] := File(["%include " + OUT]), ["r", "s"] := File(["SocksPort 0"])]

  ghost function Outside(links: Links): World {
    Relinked(World(["r"], p => Failed, p => false, NODES, (n, pattern) => false), links)
  }

  /** Outside the root a link back into it, a link to itself, or none. */
  const BACK: Links := map[["l"] := To(["r", "s"])]
  const LOOP: Links := map[["l"] := Self("l", 0)]
  const NONE: Links := map[]

  lemma PlainPath(links: Links, nodes: map<Path, Node>, p: Path)
    requires p != [] && Settled(links, p) && Clear(links, nodes, p[..|p| - 1])
    ensures Resolved(links, p) == Some(p) && Opens(links, nodes, p)
  {
    hide After, Settled, Clear;
    WalkTop(links, p, []);
    assert p + [] == p;
    ArrivedAt(links, p, |p|, Cursor(p, []));
    forall n: nat ensures !DeadEndAt(links, nodes, p, n) { PlainStep(links, nodes, p, n); }
  }

  lemma PlainStep(links: Links, nodes: map<Path, Node>, p: Path, n: nat)
    requires p != [] && Settled(links, p) && Clear(links, nodes, p[..|p| - 1])
    ensures !DeadEndAt(links, nodes, p, n)
  {
    hide After, Settled, Clear;
    var front, last := p[..|p| - 1], p[|p| - 1..];
    assert p == front + last && p == p + [];
    if n < |front| {
      PassesClear(links, nodes, front, last, n);
    } else if n == |front| {
      ClearIsSettled(links, nodes, front);
      WalkTop(links, front, last);
    } else {
      WalkTop(links, p, []);
      AfterSum(links, Cursor([], p), |p|, n - |p|);
      EndStays(links, Cursor(p, []), n - |p|);
    }
  }

  lemma Letters()
    ensures "r" != "l" && "r" != ".." && "l" != ".." && "s" != ".." && "etc" != ".." && "tor" != ".." && "torrc" != ".."
      && "out" != "r"
  {
    assert "r"[0] == 'r' && "l"[0] == 'l';
  }

  lemma RootIsClear(links: Links)
    requires links == BACK || links == LOOP || links == NONE
    ensures Settled(links, ["r"]) && Settled(links, ["r", "etc", "tor", "torrc"])
    ensures Clear(links, NODES, []) && Clear(links, NODES, ["r", "etc", "tor"])
  {
    Letters();
    var main: Path := ["r", "etc", "tor", "torrc"];
    forall k | 1 <= k <= 4 ensures main[..k] !in links { assert main[..k][0] == "r"; }
    forall k | 1 <= k <= 1 ensures ["r"][..k] !in links { assert ["r"][..k][0] == "r"; }
    var dir: Path := ["r", "etc", "tor"];
    forall k | 1 <= k <= 3 ensures dir[..k] !in links && IsDirectory(NODES, dir[..k]) {
      assert dir[..k][0] == "r";
      assert dir[..1] == ["r"] && dir[..2] == ["r", "etc"] && dir[..3] == ["r", "etc", "tor"];
    }
  }

  lemma MainResolves(links: Links)
    requires links == BACK || links == LOOP || links == NONE
    ensures var main: Path := ["r", "etc", "tor", "torrc"];
      Resolved(links, ["r"]) == Some(["r"]) && Resolved(links, main) == Some(main) && Opens(links, NODES, main)
  {
    RootIsClear(links);
    hide *;
    var main: Path := ["r", "etc", "tor", "torrc"];
    assert main[..3] == ["r", "etc", "tor"] && ["r"][..0] == [];
    PlainPath(links, NODES, main);
    PlainPath(links, NODES, ["r"]);
  }

  lemma NextPlain(links: Links, done: Path, segment: string, rest: Path)
    requires segment != ".." && done + [segment] !in links
    ensures Next(links, Cursor(done, [segment] + rest)) == Cursor(done + [segment], rest)
  {
    assert ([segment] + rest)[1..] == rest;
  }

  lemma NextUp(links: Links, segment: string, rest: Path)
    ensures Next(links, Cursor([segment], [".."] + rest)) == Cursor([], rest)
  {
    assert ([".."] + rest)[1..] == rest && [segment][..0] == [];
  }

  lemma NextLink(links: Links, segment: string, target: Path)
    requires segment != ".." && [segment] in links && links[[segment]] == To(target)
    ensures Next(links, Cursor([], [segment])) == Cursor([], target)
  {
    assert [] + [segment] == [segment] && target + [segment][1..] == target;
  }

  /** Out of the root by `..`, up to a place that may be a link. */
  lemma OutAndUp(links: Links, nodes: map<Path, Node>, r: string, l: string)
    requires r != ".." && [r] !in links && IsDirectory(nodes, [r])
    ensures var q := [r, "..", l];
      && After(links, Cursor([], q), 2) == Cursor([], [l])
      && (forall n: nat :: n < 2 ==> !DeadEndAt(links, nodes, q, n) && ConsultsNoLink(links, q, n))
  {
    hide After, Next, IsDirectory;
    var q: Path := [r, "..", l];
    assert q == [r] + ["..", l] && ["..", l] == [".."] + [l] && [] + [r] == [r];
    NextPlain(links, [], r, ["..", l]);
    NextUp(links, r, [l]);
    OneStep(links, Cursor([], q), Cursor([r], ["..", l]));
    TwoSteps(links, Cursor([], q), Cursor([r], ["..", l]), Cursor([], [l]));
    NoStep(links, Cursor([], q));
    forall n: nat | n < 2 ensures !DeadEndAt(links, nodes, q, n) && ConsultsNoLink(links, q, n) {
      assert n == 0 || n == 1;
    }
  }

  ghost predicate ConsultsNoLink(links: Links, q: Path, n: nat) {
    var c := Consulted(After(links, Cursor([], q), n)); c.Some? ==> c.value !in links
  }

  lemma BackIn(links: Links, nodes: map<Path, Node>, r: string, l: string, s: string)
    requires r != ".." && l != ".." && s != ".." && [r] !in links && [r, s] !in links && IsDirectory(nodes, [r])
    requires [l] in links && links[[l]] == To([r, s])
    ensures Resolved(links, [r, "..", l]) == Some([r, s]) && Opens(links, nodes, [r, "..", l])
  {
    hide After, Next, Resolved, IsDirectory;
    var q: Path := [r, "..", l];
    OutAndUp(links, nodes, r, l);
    NextLink(links, l, [r, s]);
    assert [r, s] == [r] + [s] && [] + [r] == [r] && [s] == [s] + [] && [r] + [s] == [r, s] && [] + [l] == [l];
    NextPlain(links, [], r, [s]);
    NextPlain(links, [r], s, []);
    OneStep(links, Cursor([], [l]), Cursor([], [r, s]));
    TwoSteps(links, Cursor([], [l]), Cursor([], [r, s]), Cursor([r], [s]));
    ThreeSteps(links, Cursor([], [l]), Cursor([], [r, s]), Cursor([r], [s]), Cursor([r, s], []));
    forall m: nat ensures After(links, Cursor([], q), 2 + m) == After(links, Cursor([], [l]), m) {
      AfterSum(links, Cursor([], q), 2, m);
    }
    ArrivedAt(links, q, 2 + 3, Cursor([r, s], []));
    NoStep(links, Cursor([], [l]));
    forall n: nat ensures !DeadEndAt(links, nodes, q, n) {
      if n >= 5 {
        AfterSum(links, Cursor([], q), 5, n - 5);
        EndStays(links, Cursor([r, s], []), n - 5);
      } else if n >= 2 {
        assert After(links, Cursor([], q), 2 + (n - 2)) == After(links, Cursor([], [l]), n - 2);
        assert n - 2 == 0 || n - 2 == 1 || n - 2 == 2;
      }
    }
  }

  lemma NotBack(r: string, l: string, nodes: map<Path, Node>)
    requires r != ".." && l != ".." && IsDirectory(nodes, [r])
    ensures Resolved(NONE, [r, "..", l]) == Some([l])
  {
    hide After, Next, Resolved, IsDirectory;
    OutAndUp(NONE, nodes, r, l);
    assert [] + [l] == [l] && [l] == [l] + [];
    NextPlain(NONE, [], l, []);
    OneStep(NONE, Cursor([], [l]), Cursor([l], []));
    AfterSum(NONE, Cursor([], [r, "..", l]), 2, 1);
    ArrivedAt(NONE, [r, "..", l], 3, Cursor([l], []));
  }

  /** A link to itself at the end: `realpath` gives up on it, and `stat` finds the loop. */
  lemma LoopsThere(links: Links, nodes: map<Path, Node>, r: string, l: string)
    requires r != ".." && l != ".." && [r] !in links && IsDirectory(nodes, [r])
    requires [l] in links && links[[l]] == Self(l, 0)
    ensures Answer(links, nodes, [r, "..", l]) == Loop
  {
    hide After, Next, Resolved, IsDirectory, Spins, Reenters;
    var q: Path := [r, "..", l];
    OutAndUp(links, nodes, r, l);
    assert [] + [l] == [l] && [l] + Repeat("x", 0) + [] == [l];
    SelfSpins(links, [], l, 0);
    SpinNeverEnds(links, q, 2, [], l, [], 1);
    StepAtLink(links, q, 2, [], l, [], 0);
    assert NoticedAt(links, q, 3);
    forall k: nat | k < 3 ensures !NoticedAt(links, q, k) { NotNoticed(links, q, k); }
    assert Normal([], [l]) == [l] by { assert Normal([l], []) == [l] && [l][1..] == []; }
    NoStep(links, Cursor([], [l]));
    NoDeadEnds(links, nodes, [l], 0, [], l, []);
    assert GivesUpAt(links, q, 3) && StatLoops(links, nodes, Remainder(links, q, 3));
  }

  lemma NotNoticed(links: Links, q: Path, k: nat)
    requires k < 3 && forall n: nat :: n < 2 ==> ConsultsNoLink(links, q, n)
    ensures !NoticedAt(links, q, k)
  {
    hide After, Consulted;
    forall m: nat ensures !Reenters(links, q, m, k) {
      if m < 2 { assert ConsultsNoLink(links, q, m); }
    }
  }

  lemma LinksAre()
    ensures ["l"] in BACK && BACK[["l"]] == To(["r", "s"]) && ["r"] !in BACK && ["r", "s"] !in BACK
    ensures ["l"] in LOOP && LOOP[["l"]] == Self("l", 0) && ["r"] !in LOOP
    ensures IsDirectory(NODES, ["r"])
  {
    Letters();
    hide Self;
    assert ["r"][0] == "r" && ["r", "s"][0] == "r" && ["l"][0] == "l";
    assert |["r"]| == 1;
  }

  lemma OutResolves()
    ensures var q := ["r", "..", "l"];
      && Resolved(BACK, q) == Some(["r", "s"]) && Opens(BACK, NODES, q)
      && Resolved(NONE, q) == Some(["l"]) && Answer(LOOP, NODES, q) == Loop
  {
    Letters();
    LinksAre();
    assert ["r"] !in NONE;
    hide *;
    BackIn(BACK, NODES, "r", "l", "s");
    NotBack("r", "l", NODES);
    LoopsThere(LOOP, NODES, "r", "l");
  }

  lemma NoStep(links: Links, s: Cursor)
    ensures After(links, s, 0) == s
  {
  }

  lemma OneStep(links: Links, s: Cursor, t: Cursor)
    requires s.todo != [] && Next(links, s) == t
    ensures After(links, s, 1) == t
  {
    hide Next;
    assert After(links, t, 0) == t;
  }

  lemma TwoSteps(links: Links, s: Cursor, t: Cursor, u: Cursor)
    requires s.todo != [] && Next(links, s) == t && t.todo != [] && Next(links, t) == u
    ensures After(links, s, 2) == u
  {
    hide Next;
    OneStep(links, t, u);
  }

  lemma ThreeSteps(links: Links, s: Cursor, t: Cursor, u: Cursor, v: Cursor)
    requires s.todo != [] && Next(links, s) == t && t.todo != [] && Next(links, t) == u && u.todo != []
      && Next(links, u) == v
    ensures After(links, s, 3) == v
  {
    hide Next;
    TwoSteps(links, t, u, v);
  }

  lemma LinkIsOutside(link: Link)
    ensures LinksAgree(NONE, NONE[["l"] := link], ["r"])
  {
    MainResolves(NONE);
    Letters();
    hide Resolved;
    var s := Cursor([], ["r"]);
    forall n: nat ensures !ConsultsAt(NONE, ["r"], n, ["l"]) {
      if n > 0 {
        assert ["r"][0] == "r" && [] + ["r"] == ["r"] && ["r"][1..] == [];
        OneStep(NONE, s, Cursor(["r"], []));
        AfterSum(NONE, s, 1, n - 1);
        EndStays(NONE, Cursor(["r"], []), n - 1);
      } else {
        assert Consulted(s) == Some(["r"]) by { assert [] + ["r"] == ["r"]; }
        assert ["r"][0] != ["l"][0];
      }
    }
    assert !(["r"] <= ["l"]) by { assert ["r"][0] != ["l"][0]; }
    assert !Inside(NONE, ["r"], ["l"]);
  }

  lemma SameFilesInside(link: Link)
    ensures SameInside(Outside(NONE), NONE, Outside(NONE[["l"] := link]), NONE[["l"] := link])
  {
    hide Resolved, LinksAgree, Answer, Opens, NODES, Inside;
    LinkIsOutside(link);
  }

  lemma MainIsRead(links: Links)
    requires links == BACK || links == LOOP || links == NONE
    ensures var w := Outside(links);
      && MainFile(w) == ["r", "etc", "tor", "torrc"] && w.InRoot(MainFile(w))
      && w.Lookup(MainFile(w)) == Some(File(["%include " + OUT]))
  {
    MainResolves(links);
    MainNode();
    hide Resolved, Opens, BACK, LOOP, NONE, OUT, NODES;
    var main := ["r", "etc", "tor", "torrc"];
    assert ["r"] + ["etc", "tor", "torrc"] == main && ["r"] <= main;
    assert Answer(links, NODES, main) == Place(main) && Answer(links, NODES, ["r"]) == Place(["r"]);
  }

  lemma MainNode()
    ensures var main := ["r", "etc", "tor", "torrc"]; main in NODES && NODES[main] == File(["%include " + OUT])
    ensures ["r", "s"] in NODES && NODES[["r", "s"]] == File(["SocksPort 0"])
  {
    hide OUT;
    Letters();
    var main: Path := ["r", "etc", "tor", "torrc"];
    assert |main| == 4 && |["r", "s"]| == 2 && |["r", "etc", "tor"]| == 3 && |["r", "etc"]| == 2;
    assert ["r", "etc"][1] == "etc" && ["r", "s"][1] == "s" && |"etc"| != |"s"|;
  }

  lemma ReadsOut(links: Links)
    requires links == BACK || links == LOOP || links == NONE
    ensures var w, q := Outside(links), ["r", "..", "l"];
      && w.InRoot(MainFile(w)) && w.IsFile(MainFile(w)) && Items(w, MainFile(w)) == [Call(q)] && q != MainFile(w)
  {
    hide Answer, Opens, Classify, Classified, BACK, LOOP, NONE, NODES, OUT, TextItems, LineItems, Items, MainFile,
      IncludeItems;
    MainIsRead(links);
    var w := Outside(links);
    var main := MainFile(w);
    assert |main| == 4;
    OneLineFile(w, main, "%include " + OUT);
    OutLine();
    OutItems(w, main[..3]);
    ItemsOf(w, Include(OUT), main[..3]);
  }

  lemma OutLine()
    ensures Classify("%include " + OUT) == Include(OUT)
  {
    OutIsOne();
    hide *;
    IncludeOf(OUT);
  }

  lemma OutItems(w: World, dir: Path)
    requires w.root == ["r"]
    ensures IncludeItems(w, OUT, dir) == [Call(["r", "..", "l"])]
  {
    assert OUT[0] == '/' && OUT[1..] == "../l" && "../l"[..2] == ".." && "../l"[3..] == "l" && "../l"[2] == '/';
    hide SplitWildcard, Parts;
    PartsOf(OUT);
    OutHasNoWildcard();
    assert ["r"] + ["..", "l"] == ["r", "..", "l"];
  }

  lemma SmallFile(w: World, q: Path)
    requires q != [] && w.InRoot(q) && w.Lookup(q) == Some(File(["SocksPort 0"]))
    ensures Read(w, q, {MainFile(w)}, 1) == Some(if q == MainFile(w) then [] else ["SocksPort 0"])
  {
    hide TextItems, LineItems, Items, Classify, Classified, Expand, Stuck;
    var line := "SocksPort 0";
    SocksIsPlain(line);
    OneLineFile(w, q, line);
    ItemsOf(w, Plain(line), q[..|q| - 1]);
    ReadOne(w, Line(line), {MainFile(w)} + {q}, 2);
  }

  /**
    What the exact conditions are about: three file systems with the same files and links inside the
    root, and a torrc with the one line `%include /../l`.  Where there is no `/l` nothing is read; where
    `/l` is a link back into the root there is an effective line; where it is a link to itself the
    reader raises.
   */
  lemma OutsideLinkChangesLines() returns (w: World, a: Links, v: World, b: Links, u: World, c: Links)
    ensures SameInside(w, a, v, b) && SameInside(w, a, u, c)
    ensures Effective(w) == Some([]) && Effective(v) == Some(["SocksPort 0"]) && Effective(u) == None
  {
    a, b, c := NONE, BACK, LOOP;
    hide *;
    w, v, u := Outside(a), Outside(b), Outside(c);
    SameFilesInside(To(["r", "s"]));
    SameFilesInside(Self("l", 0));
    Relabel();
    ReadsOut(a);
    ReadsOut(b);
    ReadsOut(c);
    OutTarget();
    SmallFile(v, ["r", "..", "l"]);
    ReadsThrough(w, ["r", "..", "l"]);
    ReadsThrough(v, ["r", "..", "l"]);
    ReadsThrough(u, ["r", "..", "l"]);
    NothingOutside(w, ["r", "..", "l"], {MainFile(w)});
    RaisesAtOnce(u, ["r", "..", "l"], {MainFile(u)});
  }

  lemma Relabel()
    ensures NONE[["l"] := To(["r", "s"])] == BACK && NONE[["l"] := Self("l", 0)] == LOOP
  {
  }

  lemma OutTarget()
    ensures var q := ["r", "..", "l"];
      && Outside(BACK).InRoot(q) && Outside(BACK).Lookup(q) == Some(File(["SocksPort 0"]))
      && !Outside(NONE).InRoot(q) && !Outside(NONE).Loops(q) && Outside(LOOP).Loops(q)
      && q != MainFile(Outside(BACK)) && q != MainFile(Outside(LOOP))
  {
    OutResolves();
    RootIsPlace(BACK);
    RootIsPlace(NONE);
    RootIsPlace(LOOP);
    MainNode();
    Letters();
    hide Answer, Opens, BACK, LOOP, NONE, OUT, NODES;
    assert ["r"] <= ["r", "s"];
    assert ["r"][0] != ["l"][0];
    assert |["r", "..", "l"]| == 3;
    PlaceOf(BACK, ["r", "..", "l"]);
    PlaceOf(NONE, ["r", "..", "l"]);
  }

  lemma RootIsPlace(links: Links)
    requires links == BACK || links == LOOP || links == NONE
    ensures Outside(links).resolve(["r"]) == Place(["r"]) && Outside(links).root == ["r"]
  {
    hide Answer, Opens, BACK, LOOP, NONE, NODES;
    MainResolves(links);
    PlaceOf(links, ["r"]);
  }

  lemma PlaceOf(links: Links, p: Path)
    ensures Resolved(links, p).Some? ==> Answer(links, NODES, p) == Place(Resolved(links, p).value)
  {
    hide Resolved;
  }

  lemma ReadsThrough(w: World, q: Path)
    requires w.InRoot(MainFile(w)) && w.IsFile(MainFile(w)) && Items(w, MainFile(w)) == [Call(q)]
    ensures Effective(w) == Read(w, q, {MainFile(w)}, 1)
  {
    ReadOne(w, Call(q), {MainFile(w)}, 1);
    hide Items, Read, Expand, Stuck;
    assert {} + {MainFile(w)} == {MainFile(w)};
    ReadInside(w, MainFile(w), {}, 0);
  }

  lemma ReadInside(w: World, p: Path, seen: set<Path>, depth: nat)
    requires depth <= MAX_INCLUDE_DEPTH && p !in seen && w.InRoot(p)
    ensures Read(w, p, seen, depth) == ReadItems(w, Items(w, p), seen + {p}, depth + 1)
  {
    hide Items, Expand, Stuck;
  }

  lemma NothingOutside(w: World, q: Path, seen: set<Path>)
    requires !w.InRoot(q) && !w.Loops(q)
    ensures Read(w, q, seen, 1) == Some([])
  {
  }

  lemma RaisesAtOnce(w: World, q: Path, seen: set<Path>)
    requires w.Loops(q) && q !in seen
    ensures Read(w, q, seen, 1) == None
  {
  }
}
