/**
  The bounded tail read of `src/serein/distribution/bootsmoke.py`: every poll decodes at most the
  last 65536 bytes of a growing log.  When is that as good as reading the whole log?
 */
module TailWindow {
  import opened Text
  import opened Utf8

  const LOG_TAIL_BYTES := 65_536

  function ReadTail(log: seq<Byte>): string {
    Decode(Window(log))
  }

  function Window(log: seq<Byte>): (w: seq<Byte>)
    ensures |w| <= LOG_TAIL_BYTES
  {
    if |log| > LOG_TAIL_BYTES then log[|log| - LOG_TAIL_BYTES..] else log
  }

  // ----- decoding neither hides nor invents text -----

  predicate BytesAt(bs: seq<Byte>, i: int, m: seq<Byte>) {
    0 <= i <= |bs| - |m| && bs[i..i + |m|] == m
  }

  ghost predicate ContainsBytes(bs: seq<Byte>, m: seq<Byte>) {
    exists i :: BytesAt(bs, i, m)
  }

  /** A text a log can show as such: the replacement character stands for bytes that are no text. */
  predicate IsShowable(s: string) {
    s != "" && REPLACEMENT !in s
  }

  lemma EncodeCons(s: string)
    requires s != ""
    ensures Encode(s) == EncodeChar(s[0]) + Encode(s[1..]) && Encode(s) != [] && IsLead(Encode(s)[0])
  {
    EncodedLead(s[0]);
  }

  lemma EncodedAhead(bs: seq<Byte>, m: seq<Byte>, rest: seq<Byte>)
    requires BytesAt(bs, 0, m + rest)
    ensures bs == m + bs[|m|..] && BytesAt(bs[|m|..], 0, rest)
  {
    assert bs[..|m|] == bs[0..|m + rest|][..|m|] == m;
    SubSlice(bs, |m|, |bs|, 0, |rest|);
    SubSlice(bs, 0, |m + rest|, |m|, |m + rest|);
  }

  lemma {:induction false} EncodedIsDecoded(bs: seq<Byte>, s: string)
    requires BytesAt(bs, 0, Encode(s))
    ensures At(Decode(bs), 0, s)
    decreases |s|
  {
    hide Step, EncodeChar;
    if s != "" {
      var m, tail := EncodeChar(s[0]), s[1..];
      EncodeCons(s);
      EncodedAhead(bs, m, Encode(tail));
      StepOfEncoded(s[0], bs[|m|..]);
      EncodedIsDecoded(bs[|m|..], tail);
      var d := Decode(bs);
      assert d[1..] == Decode(bs[|m|..]) && d[..|s|] == [d[0]] + d[1..][..|tail|];
    }
  }

  lemma {:induction false} DecodedIsEncoded(bs: seq<Byte>, s: string)
    requires At(Decode(bs), 0, s) && REPLACEMENT !in s
    ensures BytesAt(bs, 0, Encode(s))
    decreases |s|
  {
    hide Step, EncodeChar;
    if s != "" {
      var (n, c) := Step(bs);
      var d, tail := Decode(bs), s[1..];
      assert d[0] == d[0..|s|][0] == s[0] && s[0] in s;
      StepIsEncoded(bs);
      assert d[1..] == Decode(bs[n..]) && d[1..][..|tail|] == d[0..|s|][1..];
      DecodedIsEncoded(bs[n..], tail);
      assert bs[..|Encode(s)|] == bs[..n] + bs[n..][..|Encode(tail)|];
    }
  }

  lemma LaterInDecoded(bs: seq<Byte>, s: string)
    requires bs != [] && Contains(Decode(bs[Step(bs).0..]), s)
    ensures Contains(Decode(bs), s)
  {
    hide Step;
    var k :| At(Decode(bs[Step(bs).0..]), k, s);
    SubSlice(Decode(bs), 1, |Decode(bs)|, k, k + |s|);
    assert At(Decode(bs), k + 1, s);
  }

  lemma {:induction false} BytesAreDecoded(bs: seq<Byte>, s: string, a: nat)
    requires s != "" && BytesAt(bs, a, Encode(s))
    ensures Contains(Decode(bs), s)
    decreases |bs|
  {
    hide Step, Encode, EncodeChar, Decode;
    EncodeCons(s);
    if a == 0 {
      EncodedIsDecoded(bs, s);
    } else {
      var (n, c) := Step(bs);
      var m := |Encode(s)|;
      assert bs[a] == bs[a..a + m][0] == Encode(s)[0];
      LeadsStop(bs);
      SubSlice(bs, n, |bs|, a - n, a - n + m);
      BytesAreDecoded(bs[n..], s, a - n);
      LaterInDecoded(bs, s);
    }
  }

  lemma {:induction false} DecodedIsBytes(bs: seq<Byte>, s: string, k: nat)
    requires IsShowable(s) && At(Decode(bs), k, s)
    ensures ContainsBytes(bs, Encode(s))
    decreases |bs|
  {
    hide Step, Encode;
    if k == 0 {
      DecodedIsEncoded(bs, s);
    } else {
      var (n, c) := Step(bs);
      SubSlice(Decode(bs), 1, |Decode(bs)|, k - 1, k - 1 + |s|);
      DecodedIsBytes(bs[n..], s, k - 1);
      var a :| BytesAt(bs[n..], a, Encode(s));
      SubSlice(bs, n, |bs|, a, a + |Encode(s)|);
      assert BytesAt(bs, a + n, Encode(s));
    }
  }

  /** A window may start inside a multi-byte character: the text around it is unaffected. */
  lemma DecodingKeepsText(bs: seq<Byte>, s: string)
    requires IsShowable(s)
    ensures Contains(Decode(bs), s) <==> ContainsBytes(bs, Encode(s))
  {
    if Contains(Decode(bs), s) {
      var k :| At(Decode(bs), k, s);
      DecodedIsBytes(bs, s, k);
    }
    if ContainsBytes(bs, Encode(s)) {
      var a :| BytesAt(bs, a, Encode(s));
      BytesAreDecoded(bs, s, a);
    }
  }

  // ----- polling an append-only log -----

  /** The sizes of an append-only log at consecutive reads. */
  ghost predicate Grows(sizes: seq<nat>, log: seq<Byte>) {
    && sizes != []
    && (forall i, j :: 0 <= i <= j < |sizes| ==> sizes[i] <= sizes[j])
    && sizes[|sizes| - 1] <= |log|
  }

  /** The first read sees everything, and no two consecutive reads are further apart than the bound. */
  ghost predicate PollsOftenEnough(sizes: seq<nat>, m: nat) {
    && (sizes != [] ==> sizes[0] <= 65_536)
    && forall i :: 0 < i < |sizes| ==> sizes[i] - sizes[i - 1] <= 65_536 - m + 1
  }

  lemma {:induction false} SomeWindowCovers(sizes: seq<nat>, log: seq<Byte>, m: nat, a: nat, k: nat)
    requires Grows(sizes, log) && PollsOftenEnough(sizes, m)
    requires k < |sizes| && a + m <= sizes[k]
    ensures exists i :: 0 <= i <= k && a + m <= sizes[i] && sizes[i] <= a + LOG_TAIL_BYTES
    decreases k
  {
    if k > 0 && a + m <= sizes[k - 1] {
      SomeWindowCovers(sizes, log, m, a, k - 1);
    } else {
      assert a + m <= sizes[k] && sizes[k] <= a + LOG_TAIL_BYTES;
    }
  }

  lemma InWindow(log: seq<Byte>, m: seq<Byte>, a: nat)
    requires BytesAt(log, a, m) && |log| <= a + LOG_TAIL_BYTES
    ensures ContainsBytes(Window(log), m)
  {
    var start := if |log| > LOG_TAIL_BYTES then |log| - LOG_TAIL_BYTES else 0;
    assert Window(log) == log[start..|log|];
    SubSlice(log, start, |log|, a - start, a - start + |m|);
    assert BytesAt(Window(log), a - start, m);
  }

  lemma InLog(log: seq<Byte>, size: nat, last: nat, m: seq<Byte>)
    requires size <= last <= |log| && ContainsBytes(Window(log[..size]), m)
    ensures ContainsBytes(log[..last], m)
  {
    var w, all := log[..size], log[..last];
    var start := if |w| > LOG_TAIL_BYTES then |w| - LOG_TAIL_BYTES else 0;
    var a :| BytesAt(Window(w), a, m);
    assert Window(w) == all[start..size];
    SubSlice(all, start, size, a, a + |m|);
    assert BytesAt(all, a + start, m);
  }

  /**
    Tail-window completeness: if the log only grows, and by at most 65536 - m + 1 bytes between
    reads, then some read of the tail shows a marker of m bytes exactly when reading the whole log at
    the last read would.
   */
  lemma TailsSeeWhatTheLogShows(log: seq<Byte>, sizes: seq<nat>, marker: string)
    requires Grows(sizes, log) && IsShowable(marker)
    requires PollsOftenEnough(sizes, |Encode(marker)|)
    ensures (exists i :: 0 <= i < |sizes| && Contains(ReadTail(log[..sizes[i]]), marker))
      <==> Contains(Decode(log[..sizes[|sizes| - 1]]), marker)
  {
    hide Decode, Window, Encode, IsShowable;
    var last, m := sizes[|sizes| - 1], Encode(marker);
    DecodingKeepsText(log[..last], marker);
    if i :| 0 <= i < |sizes| && Contains(ReadTail(log[..sizes[i]]), marker) {
      DecodingKeepsText(Window(log[..sizes[i]]), marker);
      InLog(log, sizes[i], last, m);
    }
    if ContainsBytes(log[..last], m) {
      var i := SomeWindowShows(log, sizes, m);
      DecodingKeepsText(Window(log[..sizes[i]]), marker);
    }
  }

  lemma SomeWindowShows(log: seq<Byte>, sizes: seq<nat>, m: seq<Byte>) returns (i: nat)
    requires Grows(sizes, log) && PollsOftenEnough(sizes, |m|)
    requires ContainsBytes(log[..sizes[|sizes| - 1]], m)
    ensures i < |sizes| && ContainsBytes(Window(log[..sizes[i]]), m)
  {
    hide Window;
    var last := sizes[|sizes| - 1];
    var a :| BytesAt(log[..last], a, m);
    SomeWindowCovers(sizes, log, |m|, a, |sizes| - 1);
    i :| 0 <= i < |sizes| && a + |m| <= sizes[i] && sizes[i] <= a + LOG_TAIL_BYTES;
    SubSlice(log, 0, sizes[i], a, a + |m|);
    SubSlice(log, 0, last, a, a + |m|);
    InWindow(log[..sizes[i]], m, a);
  }

  // ----- the bound cannot be relaxed by a single byte -----

  function Around(before: nat, m: seq<Byte>, after: nat): seq<Byte> {
    seq(before, _ => 0) + m + seq(after, _ => 0)
  }

  lemma NoPartialMarker(bs: seq<Byte>, m: seq<Byte>, i: nat, cut: seq<Byte>)
    requires m != [] && 0 !in m
    requires |cut| < |m| && i + |cut| <= |bs| && bs[i..i + |cut|] == cut
    requires forall k :: 0 <= k < |bs| && !(i <= k < i + |cut|) ==> bs[k] == 0
    ensures !ContainsBytes(bs, m)
  {
    forall a | 0 <= a <= |bs| - |m| ensures !BytesAt(bs, a, m) {
      var k := if a < i then a else if a + |m| - 1 >= i + |cut| then a + |m| - 1 else a;
      assert bs[a..a + |m|][k - a] == bs[k] == 0;
    }
  }

  lemma {:induction false} NoZeroByte(s: string)
    requires '\0' !in s
    ensures 0 !in Encode(s)
    decreases |s|
  {
    if s != "" {
      NoZeroByte(s[1..]);
      assert s[0] != '\0';
    }
  }

  /** A marker that ends just after the first read and starts just before the second window. */
  lemma MissedTwice(m: seq<Byte>) returns (log: seq<Byte>, first: nat)
    requires m != [] && 0 !in m && |m| <= LOG_TAIL_BYTES
    ensures first == |m| - 1 && |log| == first + LOG_TAIL_BYTES - |m| + 2
    ensures ContainsBytes(log, m) && !ContainsBytes(Window(log[..first]), m) && !ContainsBytes(Window(log), m)
  {
    first := |m| - 1;
    log := Around(0, m, LOG_TAIL_BYTES + 1 - |m|);
    assert log[0..|m|] == m && BytesAt(log, 0, m);
    var w1, w2 := Window(log[..first]), Window(log);
    assert w1 == m[..first];
    NoPartialMarker(w1, m, 0, m[..first]);
    assert w2 == log[1..];
    assert w2[0..first] == m[1..];
    NoPartialMarker(w2, m, 0, m[1..]);
  }

  /** With one byte more between two reads a marker can be missed by both. */
  lemma GrowthBoundIsExact(marker: string) returns (log: seq<Byte>, sizes: seq<nat>)
    requires IsShowable(marker) && '\0' !in marker && |Encode(marker)| <= 65_536
    ensures Grows(sizes, log) && |sizes| == 2 && sizes[0] <= 65_536
    ensures sizes[1] - sizes[0] == 65_536 - |Encode(marker)| + 2
    ensures Contains(Decode(log[..sizes[1]]), marker)
    ensures !Contains(ReadTail(log[..sizes[0]]), marker) && !Contains(ReadTail(log[..sizes[1]]), marker)
  {
    EncodeCons(marker);
    NoZeroByte(marker);
    hide Decode, Encode, EncodeChar, IsLead, Window;
    var first;
    log, first := MissedTwice(Encode(marker));
    sizes := [first, |log|];
    assert log[..|log|] == log;
    DecodingKeepsText(log, marker);
    DecodingKeepsText(Window(log[..first]), marker);
    DecodingKeepsText(Window(log), marker);
  }

  function Zeros(n: nat): seq<Byte> {
    seq(n, _ => 0)
  }

  lemma {:induction false} DecodedZeros(n: nat)
    ensures REPLACEMENT !in Decode(Zeros(n))
  {
    if n > 0 {
      assert Zeros(n)[1..] == Zeros(n - 1);
      DecodedZeros(n - 1);
    }
  }

  /**
    Why the replacement character is no marker: the tail of a log that holds one two-byte character
    and then zeros shows it, because the window cuts that character in two; the log does not.
   */
  lemma ReplacementIsCut() returns (log: seq<Byte>)
    ensures REPLACEMENT in ReadTail(log) && REPLACEMENT !in Decode(log)
  {
    var n := LOG_TAIL_BYTES - 1;
    log := [0xC3, 0xA9] + Zeros(n);
    DecodedZeros(n);
    assert log[2..] == Zeros(n) && Window(log) == [0xA9] + Zeros(n);
    assert Step(log).0 == 2 && Step(log).1 != REPLACEMENT;
    assert Step(Window(log)) == (1, REPLACEMENT);
  }
}
