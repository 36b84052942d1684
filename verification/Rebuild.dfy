/**
  The rebuild command of `src/serein/distribution/iso.py`: builder-owned options are filtered out
  of the replayed boot flags, so that the command carries one effective volume ID.
 */
module Rebuild {
  import opened Text
  import opened Shlex

  const OWNED: set<string> := {"-V", "-volid"}

  /** The flags without every owned option and the one value that follows it. */
  function Filter(flags: seq<string>, owned: set<string>): Result<seq<string>> {
    if flags == [] then Ok([])
    else if flags[0] in owned then
      if |flags| == 1 then Err(MissingValue(flags[0])) else Filter(flags[2..], owned)
    else
      match Filter(flags[1..], owned)
      case Err(e) => Err(e)
      case Ok(rest) => Ok([flags[0]] + rest)
  }

  method FilterBuilderOwnedBootFlags(flags: seq<string>, owned: set<string>) returns (r: Result<seq<string>>)
    ensures r == Filter(flags, owned)
  {
    var filtered, index := [], 0;
    assert flags[0..] == flags;
    assert forall rest: seq<string> :: [] + rest == rest && rest + [] == rest;
    while index < |flags|
      invariant 0 <= index <= |flags|
      invariant Filter(flags, owned) ==
        match Filter(flags[index..], owned)
        case Err(e) => Err(e)
        case Ok(rest) => Ok(filtered + rest)
    {
      var token := flags[index];
      if token in owned {
        if index + 1 >= |flags| {
          return Err(MissingValue(token));
        }
        assert flags[index..][2..] == flags[index + 2..];
        index := index + 2;
        continue;
      }
      assert flags[index..][1..] == flags[index + 1..];
      assert forall rest: seq<string> :: filtered + ([token] + rest) == (filtered + [token]) + rest;
      filtered := filtered + [token];
      index := index + 1;
    }
    assert flags[|flags|..] == [] && filtered + [] == filtered;
    r := Ok(filtered);
  }

  // ----- what the filter accepts and what it keeps -----

  /** A flag list is read as kept tokens and adjacent (owned option, value) pairs. */
  datatype Piece = Kept(token: string) | Pair(option: string, value: string)

  predicate Proper(pieces: seq<Piece>, owned: set<string>) {
    forall i :: 0 <= i < |pieces| ==>
      match pieces[i]
      case Kept(token) => token !in owned
      case Pair(option, _) => option in owned
  }

  function Spell(pieces: seq<Piece>): seq<string> {
    if pieces == [] then []
    else
      (match pieces[0]
       case Kept(token) => [token]
       case Pair(option, value) => [option, value]) + Spell(pieces[1..])
  }

  function Keep(pieces: seq<Piece>): seq<string> {
    if pieces == [] then []
    else (if pieces[0].Kept? then [pieces[0].token] else []) + Keep(pieces[1..])
  }

  lemma {:induction false} FilterOfPieces(pieces: seq<Piece>, owned: set<string>)
    requires Proper(pieces, owned)
    ensures Filter(Spell(pieces), owned) == Ok(Keep(pieces))
    decreases |pieces|
  {
    if pieces != [] {
      FilterOfPieces(pieces[1..], owned);
      var s := Spell(pieces);
      match pieces[0]
      case Kept(token) => assert s[1..] == Spell(pieces[1..]);
      case Pair(option, value) =>
        assert s[2..] == Spell(pieces[1..]) && s[0] == option;
        assert [] + Keep(pieces[1..]) == Keep(pieces[1..]);
    }
  }

  lemma {:induction false} PiecesOf(flags: seq<string>, owned: set<string>) returns (pieces: seq<Piece>)
    requires Filter(flags, owned).Ok?
    ensures Proper(pieces, owned) && Spell(pieces) == flags
    decreases |flags|
  {
    if flags == [] {
      pieces := [];
    } else if flags[0] in owned {
      var rest := PiecesOf(flags[2..], owned);
      pieces := [Pair(flags[0], flags[1])] + rest;
      assert pieces[1..] == rest && flags == [flags[0], flags[1]] + flags[2..];
    } else {
      var rest := PiecesOf(flags[1..], owned);
      pieces := [Kept(flags[0])] + rest;
      assert pieces[1..] == rest && flags == [flags[0]] + flags[1..];
    }
  }

  /**
    The filter accepts `flags` with result `kept` exactly when `flags` is made of tokens that are
    not owned and adjacent (owned option, value) pairs, and `kept` is those tokens in order.
   */
  lemma FilterMeaning(flags: seq<string>, kept: seq<string>, owned: set<string>)
    ensures Filter(flags, owned) == Ok(kept) <==>
      exists pieces :: Proper(pieces, owned) && Spell(pieces) == flags && Keep(pieces) == kept
  {
    if Filter(flags, owned) == Ok(kept) {
      var pieces := PiecesOf(flags, owned);
      FilterOfPieces(pieces, owned);
    }
    forall pieces | Proper(pieces, owned) && Spell(pieces) == flags && Keep(pieces) == kept
      ensures Filter(flags, owned) == Ok(kept)
    {
      FilterOfPieces(pieces, owned);
    }
  }

  lemma {:induction false} NothingOwnedIsKept(flags: seq<string>, owned: set<string>)
    requires Filter(flags, owned).Ok?
    ensures forall t :: t in Filter(flags, owned).value ==> t !in owned
    decreases |flags|
  {
    if flags != [] {
      NothingOwnedIsKept(flags[if flags[0] in owned then 2 else 1..], owned);
    }
  }

  /** Filtering an accepted list followed by any list filters the two separately. */
  lemma {:induction false} FilterDistributes(a: seq<string>, b: seq<string>, owned: set<string>)
    requires Filter(a, owned).Ok?
    ensures Filter(a + b, owned) ==
      match Filter(b, owned)
      case Err(e) => Err(e)
      case Ok(kept) => Ok(Filter(a, owned).value + kept)
    decreases |a|
  {
    if a == [] {
      assert a + b == b;
      match Filter(b, owned)
      case Err(_) =>
      case Ok(kept) => assert [] + kept == kept;
    } else {
      var n := if a[0] in owned then 2 else 1;
      FilterDistributes(a[n..], b, owned);
      assert (a + b)[n..] == a[n..] + b;
      match Filter(b, owned)
      case Err(_) =>
      case Ok(kept) =>
        assert n == 1 ==>
          [a[0]] + (Filter(a[1..], owned).value + kept) == ([a[0]] + Filter(a[1..], owned).value) + kept;
    }
  }

  /** How many owned options stand at the very end of the list. */
  function TrailingOwned(flags: seq<string>, owned: set<string>): (n: nat)
    ensures n <= |flags|
  {
    if flags == [] || flags[|flags| - 1] !in owned then 0
    else 1 + TrailingOwned(flags[..|flags| - 1], owned)
  }

  lemma {:induction false} TrailingOfTail(flags: seq<string>, owned: set<string>, n: nat)
    requires n <= |flags|
    ensures TrailingOwned(flags, owned) <= |flags| - n ==>
      TrailingOwned(flags[n..], owned) == TrailingOwned(flags, owned)
    ensures TrailingOwned(flags, owned) >= |flags| - n ==> TrailingOwned(flags[n..], owned) == |flags| - n
    decreases |flags|
  {
    if n < |flags| && flags[|flags| - 1] in owned {
      TrailingOfTail(flags[..|flags| - 1], owned, n);
      assert flags[n..][..|flags[n..]| - 1] == flags[..|flags| - 1][n..];
    }
  }

  lemma {:induction false} AllTrailing(flags: seq<string>, owned: set<string>, k: nat)
    requires k < |flags| && TrailingOwned(flags, owned) > |flags| - 1 - k
    ensures flags[k] in owned
    decreases |flags|
  {
    if k < |flags| - 1 { AllTrailing(flags[..|flags| - 1], owned, k); }
  }

  /** The filter refuses a list if and only if an odd number of owned options ends it. */
  lemma {:induction false} RefusedIffOddTail(flags: seq<string>, owned: set<string>)
    ensures Filter(flags, owned).Err? <==> TrailingOwned(flags, owned) % 2 == 1
    decreases |flags|
  {
    if flags != [] {
      if flags[0] !in owned {
        RefusedIffOddTail(flags[1..], owned);
        TrailingOfTail(flags, owned, 1);
        if TrailingOwned(flags, owned) == |flags| { AllTrailing(flags, owned, 0); }
      } else if |flags| == 1 {
        assert flags[..0] == [];
      } else {
        RefusedIffOddTail(flags[2..], owned);
        TrailingOfTail(flags, owned, 2);
        if TrailingOwned(flags, owned) == |flags| - 1 { OneMore(flags, owned); }
      }
    }
  }

  lemma {:induction false} OneMore(flags: seq<string>, owned: set<string>)
    requires flags != [] && TrailingOwned(flags, owned) == |flags| - 1
    ensures flags[0] !in owned
    decreases |flags|
  {
    if |flags| > 1 { OneMore(flags[..|flags| - 1], owned); }
  }

  // ----- the rebuild command and the volume ID it sets -----

  function RebuildCommand(tree: string, bootFlags: seq<string>, output: string, volumeId: string): Result<seq<string>> {
    if bootFlags == [] then Err(NoFlags)
    else
      match Filter(bootFlags, OWNED)
      case Err(e) => Err(e)
      case Ok(kept) => if kept == [] then Err(NothingLeft) else Ok(Prefix(volumeId) + kept + ["-o", output, tree])
  }

  function Prefix(volumeId: string): seq<string> {
    ["xorriso", "-as", "mkisofs", "-V", volumeId, "-r", "-J", "-joliet-long"]
  }

  /** The volume ID a command line sets: an owned option takes the next word, and the last one wins. */
  function VolumeId(argv: seq<string>, current: Option<string>): Option<string> {
    if argv == [] then current
    else if argv[0] in OWNED then
      if |argv| == 1 then current else VolumeId(argv[2..], Some(argv[1]))
    else VolumeId(argv[1..], current)
  }

  function LastPair(pieces: seq<Piece>, current: Option<string>): Option<string> {
    if pieces == [] then current
    else LastPair(pieces[1..], if pieces[0].Pair? then Some(pieces[0].value) else current)
  }

  lemma {:induction false} VolumeIdOfPieces(pieces: seq<Piece>, rest: seq<string>, current: Option<string>)
    requires Proper(pieces, OWNED)
    ensures VolumeId(Spell(pieces) + rest, current) == VolumeId(rest, LastPair(pieces, current))
    decreases |pieces|
  {
    hide OWNED;
    var s := Spell(pieces) + rest;
    if pieces == [] {
      assert s == rest;
    } else {
      match pieces[0]
      case Kept(token) =>
        assert s[1..] == Spell(pieces[1..]) + rest;
        VolumeIdOfPieces(pieces[1..], rest, current);
      case Pair(option, value) =>
        assert s[2..] == Spell(pieces[1..]) + rest;
        VolumeIdOfPieces(pieces[1..], rest, Some(value));
    }
  }

  lemma {:induction false} VolumeIdOfPlain(tokens: seq<string>, rest: seq<string>, current: Option<string>)
    requires forall t :: t in tokens ==> t !in OWNED
    ensures VolumeId(tokens + rest, current) == VolumeId(rest, current)
    decreases |tokens|
  {
    hide OWNED;
    if tokens == [] {
      assert tokens + rest == rest;
    } else {
      assert (tokens + rest)[1..] == tokens[1..] + rest;
      VolumeIdOfPlain(tokens[1..], rest, current);
    }
  }

  lemma NotOwned(t: string)
    requires t != "-volid" && (|t| == 2 ==> t[1] != 'V')
    ensures t !in OWNED
  {
    assert |"-V"| == 2 && "-V"[1] == 'V' && |"-volid"| == 6;
  }

  lemma VolumeIdOfPrefix(volumeId: string, rest: seq<string>)
    ensures VolumeId(Prefix(volumeId) + rest, None) == VolumeId(rest, Some(volumeId))
  {
    var a, b := ["xorriso", "-as", "mkisofs"], ["-r", "-J", "-joliet-long"];
    assert "xorriso"[0] == 'x' && "-volid"[0] == '-';
    NotOwned(a[0]); NotOwned(a[1]); NotOwned(a[2]);
    NotOwned(b[0]); NotOwned(b[1]); NotOwned(b[2]);
    var set1 := ["-V", volumeId] + (b + rest);
    assert "-V" in OWNED;
    hide OWNED;
    assert Prefix(volumeId) + rest == a + set1;
    VolumeIdOfPlain(a, set1, None);
    assert set1[2..] == b + rest;
    VolumeIdOfPlain(b, rest, Some(volumeId));
  }

  lemma VolumeIdOfOutput(output: string, tree: string, current: Option<string>)
    ensures VolumeId(["-o", output, tree], current) == if output in OWNED then Some(tree) else current
  {
    NotOwned("-o");
    hide OWNED;
    var argv := ["-o", output, tree];
    assert argv[1..] == [output, tree] && argv[1..][1..] == [tree] && argv[1..][2..] == [] && [tree][1..] == [];
    assert VolumeId(argv, current) == VolumeId(argv[1..], current);
    assert VolumeId([tree], current) == current by { assert VolumeId([], current) == current; }
    assert VolumeId([], Some(tree)) == Some(tree);
  }

  /**
    One effective volume ID: whatever the replayed report says, the command sets exactly
    `volumeId`, unless the output path itself spells an owned option.
   */
  lemma OneEffectiveVolumeId(tree: string, bootFlags: seq<string>, output: string, volumeId: string)
    requires RebuildCommand(tree, bootFlags, output, volumeId).Ok?
    ensures var argv := RebuildCommand(tree, bootFlags, output, volumeId).value;
      VolumeId(argv, None) == Some(volumeId) <==> output !in OWNED || tree == volumeId
  {
    hide OWNED, VolumeId, Prefix;
    var kept := Filter(bootFlags, OWNED).value;
    NothingOwnedIsKept(bootFlags, OWNED);
    var tail := ["-o", output, tree];
    assert Prefix(volumeId) + kept + tail == Prefix(volumeId) + (kept + tail);
    VolumeIdOfPrefix(volumeId, kept + tail);
    VolumeIdOfPlain(kept, tail, Some(volumeId));
    VolumeIdOfOutput(output, tree, Some(volumeId));
  }

  /** Why the filter is there: replayed unfiltered, the last volume ID of the report would win. */
  lemma UnfilteredReportWins(pieces: seq<Piece>, output: string, tree: string, volumeId: string)
    requires Proper(pieces, OWNED) && output !in OWNED
    ensures VolumeId(Prefix(volumeId) + Spell(pieces) + ["-o", output, tree], None) == LastPair(pieces, Some(volumeId))
  {
    hide OWNED, VolumeId, Prefix;
    var tail := ["-o", output, tree];
    assert Prefix(volumeId) + Spell(pieces) + tail == Prefix(volumeId) + (Spell(pieces) + tail);
    VolumeIdOfPrefix(volumeId, Spell(pieces) + tail);
    VolumeIdOfPieces(pieces, tail, Some(volumeId));
    VolumeIdOfOutput(output, tree, LastPair(pieces, Some(volumeId)));
  }

  /** A rendered report, parsed and rebuilt: the command replays exactly the tokens that are not owned. */
  lemma ReportToCommand(report: seq<ReportLine>, pieces: seq<Piece>, tree: string, output: string, volumeId: string)
    requires forall l :: l in report ==> l.Valid()
    requires Proper(pieces, OWNED) && ReportTokens(report) == Spell(pieces) && Keep(pieces) != []
    ensures ParseReport(RenderReport(report)) == Ok(Spell(pieces))
    ensures RebuildCommand(tree, Spell(pieces), output, volumeId)
      == Ok(Prefix(volumeId) + Keep(pieces) + ["-o", output, tree])
  {
    hide OWNED;
    ReportRoundTrip(report);
    FilterOfPieces(pieces, OWNED);
  }
}
