/** UTF-8 as the wire format uses it: the byte form of a Rust `String`, and the check that
    `from_utf8` makes. The well-formed ranges are those of section 4 of RFC 3629. */
module Utf8 {
  import opened Prelude

  /** A trailing byte: 80-BF. */
  predicate IsTail(b: u8) {
    0x80 <= b <= 0xBF
  }

  /** A scalar value in base 64, the low digits in trailing bytes. */
  function EncodeScalar(c: char): (bytes: seq<u8>)
    ensures 1 <= |bytes| <= 4
  {
    var x := c as int;
    var q := x / 0x40;
    var r := q / 0x40;
    if x < 0x80 then [x]
    else if x < 0x800 then [0xC0 + q, 0x80 + x % 0x40]
    else if x < 0x1_0000 then [0xE0 + r, 0x80 + q % 0x40, 0x80 + x % 0x40]
    else [0xF0 + r / 0x40, 0x80 + r % 0x40, 0x80 + q % 0x40, 0x80 + x % 0x40]
  }

  function Encode(s: string): seq<u8> {
    if s == "" then [] else EncodeScalar(s[0]) + Encode(s[1..])
  }

  /** The length of the well-formed character at the head of `b`, or 0 if there is none. */
  function ScalarLength(b: seq<u8>): (n: nat)
    ensures n <= 4 && n <= |b|
  {
    if |b| >= 1 && b[0] <= 0x7F then 1
    else if |b| >= 2 && 0xC2 <= b[0] <= 0xDF && IsTail(b[1]) then 2
    else if |b| >= 3 && SecondOfThree(b[0], b[1]) && IsTail(b[2]) then 3
    else if |b| >= 4 && SecondOfFour(b[0], b[1]) && IsTail(b[2]) && IsTail(b[3]) then 4
    else 0
  }

  predicate SecondOfThree(first: u8, second: u8) {
    || (first == 0xE0 && 0xA0 <= second <= 0xBF)
    || (0xE1 <= first <= 0xEC && IsTail(second))
    || (first == 0xED && 0x80 <= second <= 0x9F)
    || (0xEE <= first <= 0xEF && IsTail(second))
  }

  predicate SecondOfFour(first: u8, second: u8) {
    || (first == 0xF0 && 0x90 <= second <= 0xBF)
    || (0xF1 <= first <= 0xF3 && IsTail(second))
    || (first == 0xF4 && 0x80 <= second <= 0x8F)
  }

  /** Appends the six bits of a trailing byte to the digits read so far. */
  function Shift(high: int, tail: int): int {
    high * 0x40 + (tail - 0x80)
  }

  function ScalarNumber(b: seq<u8>): (x: int)
    requires ScalarLength(b) > 0
    ensures 0 <= x < 0xD800 || 0xE000 <= x < 0x11_0000
  {
    var lead: int := b[0];
    match ScalarLength(b)
    case 1 => lead
    case 2 => Shift(lead - 0xC0, b[1])
    case 3 => Shift(Shift(lead - 0xE0, b[1]), b[2])
    case _ => Shift(Shift(Shift(lead - 0xF0, b[1]), b[2]), b[3])
  }

  function ScalarValue(b: seq<u8>): char
    requires ScalarLength(b) > 0
  {
    ScalarNumber(b) as char
  }

  function Decode(b: seq<u8>): Option<string> {
    if b == [] then Some("")
    else
      var n := ScalarLength(b);
      if n == 0 then None
      else
        match Decode(b[n..])
        case None => None
        case Some(rest) => Some([ScalarValue(b)] + rest)
  }

  lemma ScalarReadsBack(c: char, rest: seq<u8>)
    ensures ScalarLength(EncodeScalar(c) + rest) == |EncodeScalar(c)|
    ensures ScalarValue(EncodeScalar(c) + rest) == c
  {
    var x := c as int;
    var q := x / 0x40;
    var r := q / 0x40;
    var bytes := EncodeScalar(c);
    var b := bytes + rest;
    assert b[..|bytes|] == bytes;
    Digits(x);
    if |bytes| == 2 {
      assert b[0] == bytes[0] && b[1] == bytes[1];
    } else if |bytes| == 3 {
      Digits(q);
      assert b[0] == bytes[0] && b[1] == bytes[1] && b[2] == bytes[2];
    } else if |bytes| == 4 {
      Digits(q);
      Digits(r);
      assert b[0] == bytes[0] && b[1] == bytes[1] && b[2] == bytes[2] && b[3] == bytes[3];
    }
  }

  lemma Digits(x: nat)
    ensures Shift(x / 0x40, 0x80 + x % 0x40) == x
  {
  }

  lemma ShiftDigits(high: int, tail: u8)
    requires IsTail(tail)
    ensures Shift(high, tail) / 0x40 == high && Shift(high, tail) % 0x40 == tail - 0x80
  {
  }

  lemma ScalarIsCanonical(b: seq<u8>)
    requires ScalarLength(b) > 0
    ensures EncodeScalar(ScalarValue(b)) == b[..ScalarLength(b)]
  {
    var lead: int, n := b[0], ScalarLength(b);
    if n == 2 {
      ShiftDigits(lead - 0xC0, b[1]);
    } else if n == 3 {
      var high := Shift(lead - 0xE0, b[1]);
      ShiftDigits(lead - 0xE0, b[1]);
      ShiftDigits(high, b[2]);
    } else if n == 4 {
      var high := Shift(lead - 0xF0, b[1]);
      ShiftDigits(lead - 0xF0, b[1]);
      ShiftDigits(high, b[2]);
      ShiftDigits(Shift(high, b[2]), b[3]);
    }
  }

  lemma {:induction false} DecodeEncode(s: string)
    ensures Decode(Encode(s)) == Some(s)
  {
    if s == "" {
    } else {
      DecodeEncode(s[1..]);
      ScalarReadsBack(s[0], Encode(s[1..]));
      var b, n := Encode(s), |EncodeScalar(s[0])|;
      assert b[n..] == Encode(s[1..]);
      assert s == [s[0]] + s[1..];
    }
  }

  lemma {:induction false} EncodeDecode(b: seq<u8>)
    ensures Decode(b).Some? ==> Encode(Decode(b).value) == b
  {
    if b != [] && ScalarLength(b) > 0 && Decode(b).Some? {
      var n := ScalarLength(b);
      EncodeDecode(b[n..]);
      ScalarIsCanonical(b);
      Rejoin(b, n, ScalarValue(b), Decode(b[n..]).value);
    }
  }

  lemma Rejoin(b: seq<u8>, n: nat, c: char, s: string)
    requires n <= |b| && EncodeScalar(c) == b[..n] && Encode(s) == b[n..]
    ensures Encode([c] + s) == b
  {
    assert ([c] + s)[1..] == s;
    assert b == b[..n] + b[n..];
  }

  /** The byte strings accepted are exactly the encodings of strings of scalar values. */
  lemma WellFormedIffEncoding(b: seq<u8>)
    ensures Decode(b).Some? <==> exists s :: Encode(s) == b
  {
    EncodeDecode(b);
    forall s | Encode(s) == b ensures Decode(b).Some? {
      DecodeEncode(s);
    }
  }

  /** The number that the low bits of the bytes spell, `lead` of them in the first byte and six in
      each other. */
  function Spells(b: seq<u8>, lead: int): int
    requires b != [] && lead > 0
    decreases |b|
  {
    var last: int := b[|b| - 1];
    if |b| == 1 then last % lead else Spells(b[..|b| - 1], lead) * 64 + last % 64
  }

  /** The table of section 3 of RFC 3629: how many bytes a number takes, the marks in their high bits,
      and the number in the bits that remain. */
  lemma ScalarFollowsTable(c: char)
    ensures var x, b := c as int, EncodeScalar(c);
            && |b| == (if x <= 0x7F then 1 else if x <= 0x7FF then 2 else if x <= 0xFFFF then 3 else 4)
            && (|b| == 1 ==> b[0] / 128 == 0 && Spells(b, 128) == x)
            && (|b| == 2 ==> b[0] / 32 == 6 && Spells(b, 32) == x)
            && (|b| == 3 ==> b[0] / 16 == 14 && Spells(b, 16) == x)
            && (|b| == 4 ==> b[0] / 8 == 30 && Spells(b, 8) == x)
            && (forall i :: 1 <= i < |b| ==> b[i] / 64 == 2)
  {
    hide Spells;
    var x, b := c as int, EncodeScalar(c);
    var q := x / 0x40;
    var r := q / 0x40;
    TailBits(x);
    TailBits(q);
    TailBits(r);
    if |b| == 1 {
      SpellsOne(b[0], 128);
    } else if |b| == 2 {
      SpellsOne(b[0], 32);
      SpellsMore(b[..1], b[1], 32);
      assert b == b[..1] + [b[1]];
    } else if |b| == 3 {
      SpellsOne(b[0], 16);
      SpellsMore(b[..1], b[1], 16);
      SpellsMore(b[..2], b[2], 16);
      assert b == b[..2] + [b[2]] && b[..2] == b[..1] + [b[1]];
    } else {
      SpellsOne(b[0], 8);
      SpellsMore(b[..1], b[1], 8);
      SpellsMore(b[..2], b[2], 8);
      SpellsMore(b[..3], b[3], 8);
      assert b == b[..3] + [b[3]] && b[..3] == b[..2] + [b[2]] && b[..2] == b[..1] + [b[1]];
    }
    if |b| > 1 { assert b[..1] == [b[0]]; }
  }

  lemma TailBits(x: nat)
    ensures (0x80 + x % 0x40) / 64 == 2 && (0x80 + x % 0x40) % 64 == x % 0x40 && x == x / 0x40 * 64 + x % 0x40
  {
  }

  lemma SpellsOne(first: u8, lead: int)
    requires lead > 0
    ensures Spells([first], lead) == first % lead
  {
  }

  lemma SpellsMore(b: seq<u8>, last: u8, lead: int)
    requires b != [] && lead > 0
    ensures Spells(b + [last], lead) == Spells(b, lead) * 64 + last % 64
  {
    assert (b + [last])[..|b|] == b;
  }
}
