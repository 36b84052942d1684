/**
  The checksum catalog as bytes.  `md5sum -c` cuts the file at newline bytes and does not decode it;
  the updater decodes it leniently and cuts it at every line end of Unicode.  A line both read alike is
  legible here.
 */
module CatalogBytes {
  import opened Text
  import opened Utf8
  import opened ExtractedTree
  import opened Catalog
  import opened QaTransition

  const NEWLINE: Byte := 10

  function UntilNewline(bs: seq<Byte>): (n: nat)
    ensures n <= |bs| && NEWLINE !in bs[..n] && (n < |bs| ==> bs[n] == NEWLINE)
  {
    if bs == [] || bs[0] == NEWLINE then 0
    else
      var n := UntilNewline(bs[1..]);
      assert bs[..n + 1] == [bs[0]] + bs[1..][..n];
      n + 1
  }

  /** The lines `md5sum -c` reads. */
  function ByteLines(bs: seq<Byte>): seq<seq<Byte>>
    decreases |bs|
  {
    if bs == [] then []
    else
      var n := UntilNewline(bs);
      if n == |bs| then [bs] else [bs[..n]] + ByteLines(bs[n + 1..])
  }

  function EncodeAll(lines: seq<string>): (r: seq<seq<Byte>>)
    ensures |r| == |lines| && forall i :: 0 <= i < |lines| ==> r[i] == Encode(lines[i])
  {
    seq(|lines|, i requires 0 <= i < |lines| => Encode(lines[i]))
  }

  /** Well-formed UTF-8 without any line end. */
  predicate IsLegible(line: seq<Byte>) {
    match DecodeStrict(line)
    case None => false
    case Some(text) => forall c :: c in text ==> !IsLineEnd(c)
  }

  // ----- encoded lines -----

  lemma EncodedChar(c: char)
    requires c != '\n'
    ensures NEWLINE !in EncodeChar(c)
  {
  }

  lemma {:induction false} EncodedLine(line: string)
    requires NoLineEnd(line)
    ensures NEWLINE !in Encode(line)
    decreases |line|
  {
    hide EncodeChar;
    if line != "" {
      assert line[0] in line && IsLineEnd('\n');
      EncodedChar(line[0]);
      EncodedLine(line[1..]);
    }
  }

  lemma EncodeFirst(s: string)
    requires s != ""
    ensures Encode(s) == EncodeChar(s[0]) + Encode(s[1..])
  {
  }

  lemma {:induction false} EncodeJoin(a: string, b: string)
    ensures Encode(a + b) == Encode(a) + Encode(b)
    decreases |a|
  {
    if a == "" {
      assert a + b == b;
    } else {
      hide Encode, EncodeChar;
      EncodeFirst(a);
      EncodeFirst(a + b);
      assert (a + b)[1..] == a[1..] + b;
      EncodeJoin(a[1..], b);
      JoinAssociates(EncodeChar(a[0]), Encode(a[1..]), Encode(b));
    }
  }

  lemma JoinAssociates<T>(a: seq<T>, b: seq<T>, c: seq<T>)
    ensures a + b + c == a + (b + c)
  {
  }

  lemma DecodeFirst(c: char, more: seq<Byte>)
    ensures Decode(EncodeChar(c) + more) == [c] + Decode(more)
  {
    hide Step, EncodeChar;
    StepOfEncoded(c, more);
    assert (EncodeChar(c) + more)[|EncodeChar(c)|..] == more;
  }

  /** Decoding goes on behind what was encoded. */
  lemma {:induction false} DecodeJoin(a: string, more: seq<Byte>)
    ensures Decode(Encode(a) + more) == a + Decode(more)
    decreases |a|
  {
    hide Decode, EncodeChar;
    if a == "" {
      assert Encode(a) + more == more && a + Decode(more) == Decode(more);
    } else {
      hide Encode;
      EncodeFirst(a);
      DecodeJoin(a[1..], more);
      JoinAssociates(EncodeChar(a[0]), Encode(a[1..]), more);
      DecodeFirst(a[0], Encode(a[1..]) + more);
      JoinAssociates([a[0]], a[1..], Decode(more));
      assert [a[0]] + a[1..] == a;
    }
  }

  lemma NewlineBytes(more: seq<Byte>)
    ensures Encode("\n") == [NEWLINE] && Decode([NEWLINE] + more) == "\n" + Decode(more)
  {
    assert "\n"[1..] == "" && ([NEWLINE] + more)[1..] == more;
  }

  lemma {:induction false} UntilNewlineIs(line: seq<Byte>, more: seq<Byte>)
    requires NEWLINE !in line
    ensures UntilNewline(line + [NEWLINE] + more) == |line|
    decreases |line|
  {
    if line == [] {
      assert line + [NEWLINE] + more == [NEWLINE] + more;
    } else {
      assert (line + [NEWLINE] + more)[1..] == line[1..] + [NEWLINE] + more;
      UntilNewlineIs(line[1..], more);
    }
  }

  lemma ByteLinesOfOne(line: seq<Byte>, more: seq<Byte>)
    requires NEWLINE !in line
    ensures ByteLines(line + [NEWLINE] + more) == [line] + ByteLines(more)
  {
    hide UntilNewline;
    UntilNewlineIs(line, more);
    var bs := line + [NEWLINE] + more;
    assert bs[..|line|] == line && bs[|line| + 1..] == more;
  }

  lemma {:induction false} ByteLinesOfDocument(lines: seq<string>)
    requires forall l :: l in lines ==> NoLineEnd(l)
    ensures ByteLines(Encode(Document(lines))) == EncodeAll(lines)
    decreases |lines|
  {
    hide NoLineEnd, Encode, ByteLines;
    if lines == [] {
      NoByteLines();
    } else {
      ByteLinesOfDocument(lines[1..]);
      DocumentBytes(lines[0], Document(lines[1..]));
      EncodedLine(lines[0]);
      ByteLinesOfOne(Encode(lines[0]), Encode(Document(lines[1..])));
      assert EncodeAll(lines) == [Encode(lines[0])] + EncodeAll(lines[1..]);
    }
  }

  lemma NoByteLines()
    ensures ByteLines(Encode("")) == []
  {
  }

  lemma DocumentBytes(line: string, rest: string)
    ensures Encode(line + "\n" + rest) == Encode(line) + [NEWLINE] + Encode(rest)
  {
    hide Encode;
    EncodeJoin(line + "\n", rest);
    EncodeJoin(line, "\n");
    NewlineBytes([]);
  }

  lemma LegibleIsEncoded(line: seq<Byte>) returns (text: string)
    requires IsLegible(line)
    ensures NoLineEnd(text) && line == Encode(text) && Decode(line) == text
  {
    hide Encode, Decode;
    text := DecodeStrict(line).value;
  }

  lemma ByteLinesStep(bs: seq<Byte>)
    requires bs != []
    ensures var n := UntilNewline(bs);
      ByteLines(bs) == if n == |bs| then [bs] else [bs[..n]] + ByteLines(bs[n + 1..])
  {
    hide UntilNewline;
  }

  lemma EncodeAllCons(line: string, lines: seq<string>)
    ensures EncodeAll([line] + lines) == [Encode(line)] + EncodeAll(lines)
    ensures EncodeAll([]) == []
  {
  }

  /** On a catalog of legible lines `md5sum -c` and the updater read the same lines. */
  lemma {:induction false} LegibleReads(bs: seq<Byte>)
    requires forall l :: l in ByteLines(bs) ==> IsLegible(l)
    ensures ByteLines(bs) == EncodeAll(SplitLines(Decode(bs)))
    decreases |bs|
  {
    if bs == [] {
      NothingToDecode();
      NothingToSplit();
    } else {
      hide *;
      ByteLinesStep(bs);
      var n := UntilNewline(bs);
      assert ByteLines(bs)[0] == if n == |bs| then bs else bs[..n];
      if n == |bs| {
        var text := LegibleIsEncoded(bs);
        LastLine(text, bs);
        EncodeAllCons(text, []);
        assert [text] + [] == [text] && [bs] + [] == [bs];
      } else {
        var text := LegibleIsEncoded(bs[..n]);
        MoreLines(bs, n, text);
        forall l | l in ByteLines(bs[n + 1..]) ensures IsLegible(l) { assert l in ByteLines(bs); }
        LegibleReads(bs[n + 1..]);
        EncodeAllCons(text, SplitLines(Decode(bs[n + 1..])));
      }
    }
  }

  lemma MoreLines(bs: seq<Byte>, n: nat, text: string)
    requires n < |bs| && bs[n] == NEWLINE && bs[..n] == Encode(text) && NoLineEnd(text)
    ensures SplitLines(Decode(bs)) == [text] + SplitLines(Decode(bs[n + 1..]))
  {
    hide Encode, Decode, SplitLines, NoLineEnd;
    var rest := bs[n + 1..];
    assert bs == bs[..n] + ([NEWLINE] + rest);
    DecodeJoin(text, [NEWLINE] + rest);
    NewlineBytes(rest);
    SplitOneLine(text, Decode(rest));
    assert text + ("\n" + Decode(rest)) == text + "\n" + Decode(rest);
  }

  lemma NothingToDecode()
    ensures Decode([]) == ""
  {
  }

  lemma LastLine(text: string, bs: seq<Byte>)
    requires bs != [] && NoLineEnd(text) && Decode(bs) == text && bs == Encode(text)
    ensures SplitLines(text) == [text]
  {
    hide Decode, TakeLine;
    TakeAll(text);
    assert text[|text|..] == "";
  }

  lemma {:induction false} TakeAll(text: string)
    requires NoLineEnd(text)
    ensures TakeLine(text) == text
    decreases |text|
  {
    if text != "" { TakeAll(text[1..]); }
  }

  // ----- the catalog before and after a transition -----

  /** After a normal return the catalog is the old bytes, or a document of lines without line ends. */
  lemma CatalogIs(fs: Fs, lib: Library, faults: Faults)
    requires fs.Valid() && Transition(fs, lib, faults).1.Done?
    requires OwnCatalog(fs, Transition(fs, lib, faults).1.grub)
    requires forall b :: IsDigest(lib.md5(b))
    ensures var (after, outcome) := Transition(fs, lib, faults);
      && after.IsFile(CATALOG)
      && (!outcome.catalogUpdated ==> after.Read(CATALOG) == fs.Read(CATALOG))
      && (outcome.catalogUpdated ==> exists lines: seq<string> ::
          after.Read(CATALOG) == Encode(Document(lines)) && forall l :: l in lines ==> NoLineEnd(l))
  {
    hide Transition, UpdateCatalog, CANDIDATES, Refers, NewLine, CATALOG, Encode, Decode, SplitLines, PatchOf, Document,
      NoLineEnd;
    var (after, outcome) := Transition(fs, lib, faults);
    var data := DoneSteps(fs, lib, faults);
    PutKeepsFiles(fs, outcome.grub, data);
    PutReads(fs, outcome.grub, data, CATALOG);
    UpdateIs(fs.Put(outcome.grub, data), lib.md5, outcome.grub, faults.catalog);
  }

  lemma UpdateIs(fs: Fs, md5: seq<Byte> -> string, grub: Path, fault: Option<seq<Byte>>)
    requires fs.Valid() && OwnCatalog(fs, grub) && grub in CANDIDATES
    requires forall b :: IsDigest(md5(b))
    requires UpdateCatalog(fs, md5, grub, fault).1.Updated?
    ensures var (after, update) := UpdateCatalog(fs, md5, grub, fault);
      && after.IsFile(CATALOG)
      && (!update.done ==> after.Read(CATALOG) == fs.Read(CATALOG))
      && (update.done ==> exists lines: seq<string> ::
          after.Read(CATALOG) == Encode(Document(lines)) && forall l :: l in lines ==> NoLineEnd(l))
  {
    PlainCandidates(grub);
    hide CANDIDATES, Refers, LStripDotSlash, NewLine, CATALOG, Encode, Decode, SplitLines, Document, IsPlainPath,
      NoLineEnd;
    var lines, digest := CatalogLines(fs), md5(fs.Read(grub));
    if AnyRefers(lines, grub) {
      SplitLinesHaveNoEnds(Decode(fs.Read(CATALOG)));
      var rewritten := Rewrite(lines, grub, digest);
      RewrittenHaveNoEnds(lines, grub, digest);
      PutReads(fs, CATALOG, Encode(Document(rewritten)), CATALOG);
    }
  }

  lemma LineIsLegible(line: string)
    requires NoLineEnd(line)
    ensures IsLegible(Encode(line))
  {
    hide Encode, DecodeStrict;
    RoundTrip(line);
  }

  lemma EncodedIsLegible(lines: seq<string>)
    requires forall l :: l in lines ==> NoLineEnd(l)
    ensures forall l :: l in EncodeAll(lines) ==> IsLegible(l)
  {
    hide Encode, IsLegible, NoLineEnd;
    forall l | l in EncodeAll(lines) ensures IsLegible(l) {
      var i :| 0 <= i < |lines| && l == EncodeAll(lines)[i];
      LineIsLegible(lines[i]);
    }
  }

  /**
    A rewrite leaves legible lines only: a line that is not, say with a name in another encoding or
    with a form feed in it, is no line of the catalog any more.
   */
  lemma IllegibleLineIsLost(fs: Fs, lib: Library, faults: Faults, line: seq<Byte>)
    requires fs.Valid() && Transition(fs, lib, faults).1.Done? && Transition(fs, lib, faults).1.catalogUpdated
    requires OwnCatalog(fs, Transition(fs, lib, faults).1.grub)
    requires forall b :: IsDigest(lib.md5(b))
    requires !IsLegible(line)
    ensures var after := Transition(fs, lib, faults).0; after.IsFile(CATALOG) && line !in ByteLines(after.Read(CATALOG))
  {
    hide Transition, OwnCatalog, Encode, Document, ByteLines, IsLegible, NoLineEnd;
    var after := Transition(fs, lib, faults).0;
    CatalogIs(fs, lib, faults);
    var lines: seq<string> :| after.Read(CATALOG) == Encode(Document(lines)) && forall l :: l in lines ==> NoLineEnd(l);
    ByteLinesOfDocument(lines);
    EncodedIsLegible(lines);
  }

  /**
    If every line of the catalog is legible, then as `md5sum -c` reads it: after a normal return there
    are as many lines, the lines about the configuration hold the digest of its new bytes, and every
    other line is byte for byte what and where it was.
   */
  lemma ByteLinesAfter(fs: Fs, lib: Library, faults: Faults, i: nat)
    requires fs.Valid() && Transition(fs, lib, faults).1.Done?
    requires OwnCatalog(fs, Transition(fs, lib, faults).1.grub)
    requires forall b :: IsDigest(lib.md5(b))
    requires i < |ByteLines(fs.Read(CATALOG))| && forall l :: l in ByteLines(fs.Read(CATALOG)) ==> IsLegible(l)
    ensures var (after, outcome) := Transition(fs, lib, faults);
      && after.IsFile(CATALOG) && after.IsFile(outcome.grub)
      && var before, now := ByteLines(fs.Read(CATALOG)), ByteLines(after.Read(CATALOG));
      && |now| == |before| == |CatalogLines(fs)| && before[i] == Encode(CatalogLines(fs)[i])
      && now[i] ==
        if Refers(CatalogLines(fs)[i], outcome.grub) then
          Encode(NewLine(lib.md5(after.Read(outcome.grub)), outcome.grub))
        else before[i]
  {
    hide Transition, Encode, Decode, Document, ByteLines, IsLegible, NoLineEnd, CATALOG, SplitLines, Refers, NewLine;
    var after := Transition(fs, lib, faults).0;
    LegibleReads(fs.Read(CATALOG));
    CatalogLinesAfter(fs, lib, faults, i);
    CatalogIs(fs, lib, faults);
    if Transition(fs, lib, faults).1.catalogUpdated {
      var lines: seq<string> :|
        after.Read(CATALOG) == Encode(Document(lines)) && forall l :: l in lines ==> NoLineEnd(l);
      ByteLinesOfDocument(lines);
      EncodedIsLegible(lines);
    }
    LegibleReads(after.Read(CATALOG));
  }

  /** What a byte line says is true. */
  predicate ByteMatches(line: seq<Byte>, fs: Fs, md5: seq<Byte> -> string) {
    match DecodeStrict(line)
    case None => false
    case Some(text) => Matches(text, fs, md5)
  }

  /**
    So on a legible catalog `md5sum -c` finds every honest line true that was true, and every line
    about the configuration.
   */
  lemma ByteLinesStayTrue(fs: Fs, lib: Library, faults: Faults, i: nat)
    requires fs.Valid() && Injective(lib.sha256) && Transition(fs, lib, faults).1.Done?
    requires OwnCatalog(fs, Transition(fs, lib, faults).1.grub)
    requires forall b :: IsDigest(lib.md5(b))
    requires i < |CatalogLines(fs)| && Honest(CatalogLines(fs)[i], fs, Transition(fs, lib, faults).1.grub)
    requires forall l :: l in ByteLines(fs.Read(CATALOG)) ==> IsLegible(l)
    ensures var (after, outcome) := Transition(fs, lib, faults);
      && after.IsFile(CATALOG)
      && var before, now := ByteLines(fs.Read(CATALOG)), ByteLines(after.Read(CATALOG));
      && |now| == |before| == |CatalogLines(fs)|
      && (Refers(CatalogLines(fs)[i], outcome.grub) || ByteMatches(before[i], fs, lib.md5)
          ==> ByteMatches(now[i], after, lib.md5))
  {
    hide Transition, Encode, Decode, DecodeStrict, ByteLines, IsLegible, CATALOG, Refers, NewLine, Matches, Honest,
      Injective, IsDigest, SplitLines;
    LegibleReads(fs.Read(CATALOG));
    ByteLinesAfter(fs, lib, faults, i);
    CatalogLinesAfter(fs, lib, faults, i);
    CatalogStaysTrue(fs, lib, faults, i);
    RoundTrip(CatalogLines(fs)[i]);
    RoundTrip(CatalogLines(Transition(fs, lib, faults).0)[i]);
  }

  /** Two lines that are not legible: a name in Latin-1, and a name with a form feed. */
  lemma NotLegible()
    ensures !IsLegible(Encode("./caf") + [0xE9])
    ensures !IsLegible(Encode("./a\U{C}b"))
  {
    hide Encode, Decode;
    DecodeJoin("./caf", [0xE9]);
    LoneByte();
    EncodeJoin("./caf", [REPLACEMENT]);
    RoundTrip("./a\U{C}b");
    assert "./a\U{C}b"[3] == '\U{C}' && IsLineEnd('\U{C}');
  }

  lemma LoneByte()
    ensures Decode([0xE9]) == [REPLACEMENT] && |Encode([REPLACEMENT])| == 3
  {
    var bs: seq<Byte> := [0xE9];
    assert bs[1..] == [];
    assert [REPLACEMENT][1..] == "";
  }
}
