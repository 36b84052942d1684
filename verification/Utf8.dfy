/**
  UTF-8 as Python's codec reads and writes it: `bytes.decode("utf-8", errors="replace")`,
  the strict variant that refuses ill-formed input, and encoding.
 */
module Utf8 {
  import opened Text

  type Byte = b: int | 0 <= b < 256

  // ----- bytes.decode("utf-8", errors="replace") -----

  const REPLACEMENT := '\U{FFFD}'

  predicate Continues(bs: seq<Byte>, i: nat, low: int, high: int) {
    i < |bs| && low <= bs[i] <= high
  }

  function SecondLow(b: Byte): int {
    if b == 0xE0 then 0xA0 else if b == 0xF0 then 0x90 else 0x80
  }

  function SecondHigh(b: Byte): int {
    if b == 0xED then 0x9F else if b == 0xF4 then 0x8F else 0xBF
  }

  function Above(b: Byte, base: int): int {
    var value: int := b;
    value - base
  }

  /** One decoding step: how many bytes it takes and the character it yields (tables 3-7 and 3-8 of Unicode). */
  function Step(bs: seq<Byte>): (r: (nat, char))
    requires bs != []
    ensures 1 <= r.0 <= |bs|
    ensures bs[0] < 0x80 ==> r == (1, bs[0] as char)
    ensures bs[0] >= 0x80 ==> r.1 >= '\U{80}' && forall i :: 0 <= i < r.0 ==> bs[i] >= 0x80
  {
    var b := bs[0];
    if b < 0x80 then (1, b as char)
    else if b < 0xC2 || b > 0xF4 then (1, REPLACEMENT)
    else if !Continues(bs, 1, SecondLow(b), SecondHigh(b)) then (1, REPLACEMENT)
    else if b < 0xE0 then (2, (Above(b, 0xC0) * 0x40 + Above(bs[1], 0x80)) as char)
    else if !Continues(bs, 2, 0x80, 0xBF) then (2, REPLACEMENT)
    else if b < 0xF0 then (3, (Above(b, 0xE0) * 0x1000 + Above(bs[1], 0x80) * 0x40 + Above(bs[2], 0x80)) as char)
    else if !Continues(bs, 3, 0x80, 0xBF) then (3, REPLACEMENT)
    else (4, (Above(b, 0xF0) * 0x4_0000 + Above(bs[1], 0x80) * 0x1000 + Above(bs[2], 0x80) * 0x40 +
      Above(bs[3], 0x80)) as char)
  }

  function Decode(bs: seq<Byte>): string
    decreases |bs|
  {
    if bs == [] then ""
    else
      var (n, c) := Step(bs);
      [c] + Decode(bs[n..])
  }

  function EncodeChar(c: char): (r: seq<Byte>)
    ensures r != []
  {
    var n := c as int;
    if n < 0x80 then [n]
    else if n < 0x800 then [0xC0 + n / 0x40, 0x80 + n % 0x40]
    else if n < 0x1_0000 then [0xE0 + n / 0x1000, 0x80 + n / 0x40 % 0x40, 0x80 + n % 0x40]
    else [0xF0 + n / 0x4_0000, 0x80 + n / 0x1000 % 0x40, 0x80 + n / 0x40 % 0x40, 0x80 + n % 0x40]
  }

  function Encode(s: string): seq<Byte> {
    if s == "" then [] else EncodeChar(s[0]) + Encode(s[1..])
  }

  /** Strict decoding accepts exactly the encodings. */
  function DecodeStrict(bs: seq<Byte>): Option<string> {
    var s := Decode(bs);
    if Encode(s) == bs then Some(s) else None
  }

  /** The base-64 digits of a number. */
  lemma Digits(n: nat) returns (x: nat, y: nat, z: nat)
    requires n < 0x11_0000
    ensures x == n / 0x1000 && y == n / 0x40 % 0x40 && z == n % 0x40
    ensures y < 0x40 && z < 0x40 && n == 0x1000 * x + 0x40 * y + z
  {
    x, y, z := n / 0x1000, n / 0x40 % 0x40, n % 0x40;
    assert n == 0x40 * (n / 0x40) + z && n / 0x40 == 0x40 * (n / 0x40 / 0x40) + y;
    assert n / 0x40 / 0x40 == n / 0x1000;
  }

  lemma StepThree(bs: seq<Byte>, x: nat, y: nat, z: nat)
    requires |bs| >= 3 && bs[0] == 0xE0 + x && bs[1] == 0x80 + y && bs[2] == 0x80 + z
    requires x < 0x10 && y < 0x40 && z < 0x40
    requires x == 0 ==> y >= 0x20
    requires x == 0xD ==> y < 0x20
    ensures Step(bs) == (3, (0x1000 * x + 0x40 * y + z) as char)
  {
  }

  lemma StepFour(bs: seq<Byte>, v: nat, w: nat, y: nat, z: nat)
    requires |bs| >= 4 && bs[0] == 0xF0 + v && bs[1] == 0x80 + w && bs[2] == 0x80 + y && bs[3] == 0x80 + z
    requires v <= 4 && w < 0x40 && y < 0x40 && z < 0x40
    requires v == 0 ==> w >= 0x10
    requires v == 4 ==> w < 0x10
    ensures Step(bs) == (4, (0x4_0000 * v + 0x1000 * w + 0x40 * y + z) as char)
  {
  }

  lemma StepOfEncoded(c: char, rest: seq<Byte>)
    ensures Step(EncodeChar(c) + rest) == (|EncodeChar(c)|, c)
  {
    var n, bs := c as int, EncodeChar(c) + rest;
    if 0x800 <= n {
      hide Step;
      var x, y, z := Digits(n);
      if n < 0x1_0000 {
        StepThree(bs, x, y, z);
      } else {
        assert x == 0x40 * (x / 0x40) + x % 0x40 && x / 0x40 == n / 0x4_0000;
        StepFour(bs, x / 0x40, x % 0x40, y, z);
      }
    }
  }

  /** Every text survives being written and read back. */
  lemma {:induction false} RoundTrip(s: string)
    ensures Decode(Encode(s)) == s
    ensures DecodeStrict(Encode(s)) == Some(s)
    decreases |s|
  {
    if s != "" {
      hide Step, EncodeChar;
      var bs := Encode(s);
      RoundTrip(s[1..]);
      StepOfEncoded(s[0], Encode(s[1..]));
      assert bs[|EncodeChar(s[0])|..] == Encode(s[1..]);
    }
  }

  // ----- decoding neither hides nor invents a character -----

  /** A number has only one spelling in base-64 digits. */
  lemma DigitsOf(x: nat, y: nat, z: nat)
    requires y < 0x40 && z < 0x40
    ensures var n := 0x1000 * x + 0x40 * y + z;
      n / 0x1000 == x && n / 0x40 % 0x40 == y && n % 0x40 == z && n / 0x40 == 0x40 * x + y
  {
  }

  lemma TwoBytes(c: char, x: nat, y: nat)
    requires 2 <= x < 0x20 && y < 0x40 && c as int == 0x40 * x + y
    ensures EncodeChar(c) == [0xC0 + x, 0x80 + y]
  {
    assert c as int / 0x40 == x && c as int % 0x40 == y;
  }

  lemma ThreeBytes(c: char, x: nat, y: nat, z: nat)
    requires y < 0x40 && z < 0x40 && c as int == 0x1000 * x + 0x40 * y + z && 0x800 <= c as int < 0x1_0000
    ensures x < 0x10 && EncodeChar(c) == [0xE0 + x, 0x80 + y, 0x80 + z]
  {
    DigitsOf(x, y, z);
  }

  lemma FourBytes(c: char, v: nat, w: nat, y: nat, z: nat)
    requires v < 8 && w < 0x40 && y < 0x40 && z < 0x40
    requires c as int == 0x4_0000 * v + 0x1000 * w + 0x40 * y + z && 0x1_0000 <= c as int
    ensures EncodeChar(c) == [0xF0 + v, 0x80 + w, 0x80 + y, 0x80 + z]
  {
    var n, x := c as int, 0x40 * v + w;
    DigitsOf(x, y, z);
    assert n == 0x1000 * x + 0x40 * y + z;
    assert n / 0x4_0000 == v && x % 0x40 == w;
  }

  /** A step that yields anything but the replacement character has read that character's encoding. */
  lemma StepIsEncoded(bs: seq<Byte>)
    requires bs != [] && Step(bs).1 != REPLACEMENT
    ensures bs[..Step(bs).0] == EncodeChar(Step(bs).1)
  {
    var (n, c) := Step(bs);
    if n == 1 {
      assert bs[..1] == [bs[0]];
    } else if n == 2 {
      TwoBytes(c, bs[0] - 0xC0, bs[1] - 0x80);
      assert bs[..2] == [bs[0], bs[1]];
    } else if n == 3 {
      ThreeBytes(c, bs[0] - 0xE0, bs[1] - 0x80, bs[2] - 0x80);
      assert bs[..3] == [bs[0], bs[1], bs[2]];
    } else {
      FourBytes(c, bs[0] - 0xF0, bs[1] - 0x80, bs[2] - 0x80, bs[3] - 0x80);
      assert bs[..4] == [bs[0], bs[1], bs[2], bs[3]];
    }
  }

  predicate IsLead(b: Byte) {
    b < 0x80 || 0xC0 <= b
  }

  /** An encoding starts with a lead byte, and a step never reads past one. */
  lemma LeadsStop(bs: seq<Byte>)
    requires bs != []
    ensures forall i :: 1 <= i < Step(bs).0 ==> !IsLead(bs[i])
  {
  }

  lemma EncodedLead(c: char)
    ensures IsLead(EncodeChar(c)[0])
  {
  }
}
