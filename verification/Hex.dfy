// Hexadecimal text: how sha1.cpp prints a digest and how utils.cpp reads it back.
module Hex {
  import opened Types

  const DIGITS: string := "0123456789abcdef"

  function DigitOf(d: nat): char
    requires d < 16
  {
    DIGITS[d]
  }

  // A 32-bit number printed with std::hex, std::setfill('0') and std::setw(8).
  function Printed8(n: nat): string {
    [DigitOf(n / 0x1000_0000 % 16), DigitOf(n / 0x100_0000 % 16),
     DigitOf(n / 0x10_0000 % 16), DigitOf(n / 0x1_0000 % 16),
     DigitOf(n / 0x1000 % 16), DigitOf(n / 0x100 % 16),
     DigitOf(n / 0x10 % 16), DigitOf(n % 16)]
  }

  // The value of a hexadecimal digit, either case.
  function ValueOf(c: char): Option<nat> {
    if '0' <= c <= '9' then Some(c as int - '0' as int)
    else if 'a' <= c <= 'f' then Some(c as int - 'a' as int + 10)
    else if 'A' <= c <= 'F' then Some(c as int - 'A' as int + 10)
    else None
  }

  // Two lower-case digits for every byte, the high half first.
  function Encode(s: bytes): (text: string)
    ensures |text| == 2 * |s|
  {
    if |s| == 0 then [] else [DigitOf(s[0] / 16), DigitOf(s[0] % 16)] + Encode(s[1..])
  }

  predicate IsSpace(c: char) {
    c == ' ' || '\t' <= c <= '\r'
  }

  // strtol with base 16 on at most two characters, then narrowed to a char: leading white space
  // or one sign is skipped, digits are taken while they last, and anything else reads as zero.
  // The text "0x" reads as its leading zero.
  function ReadPair(text: string): (b: byte)
    requires 1 <= |text| <= 2
  {
    match ValueOf(text[0])
    case Some(high) =>
      if |text| == 2 && ValueOf(text[1]).Some? then 16 * high + ValueOf(text[1]).value else high
    case None =>
      if |text| == 2 && ValueOf(text[1]).Some? then
        if IsSpace(text[0]) || text[0] == '+' then ValueOf(text[1]).value
        else if text[0] == '-' then (256 - ValueOf(text[1]).value) % 256
        else 0
      else 0
  }

  // The number that the hexadecimal digits at the front of a text make, after the digits read so far.
  function Leading(text: string, number: nat): nat
    decreases |text|
  {
    if text == "" || ValueOf(text[0]).None? then number else Leading(text[1..], 16 * number + ValueOf(text[0]).value)
  }

  // strtol with base 16, without the prefix 0x.
  function Strtol(text: string): int
    decreases |text|
  {
    if text == "" then 0
    else if IsSpace(text[0]) then Strtol(text[1..])
    else if text[0] == '-' then 0 - Leading(text[1..], 0)
    else if text[0] == '+' then Leading(text[1..], 0)
    else Leading(text, 0)
  }

  // The byte is the number modulo 256, negative numbers included.
  lemma PairIsStrtol(text: string)
    requires 1 <= |text| <= 2
    ensures ReadPair(text) == Strtol(text) % 256
  {
    if |text| == 1 {
      LeadingOne(text);
    } else {
      var rest := text[1..];
      LeadingOne(rest);
      assert ValueOf(text[0]).Some? ==> Leading(text, 0) == Leading(rest, ValueOf(text[0]).value);
      assert ValueOf(text[0]).None? ==> Leading(text, 0) == 0;
    }
  }

  lemma LeadingOne(text: string)
    requires |text| == 1
    ensures forall n: nat :: Leading(text, n) == if ValueOf(text[0]).Some? then 16 * n + ValueOf(text[0]).value else n
    ensures Strtol(text) == if ValueOf(text[0]).Some? then ValueOf(text[0]).value else 0
  {
    assert text[1..] == "";
    assert forall n: nat :: Leading("", n) == n;
    assert Leading(text, 0) == if ValueOf(text[0]).Some? then ValueOf(text[0]).value else 0;
    if IsSpace(text[0]) { assert Strtol(text) == Strtol("") == 0; }
  }

  function Decoded(text: string): bytes
    decreases |text|
  {
    if |text| == 0 then []
    else if |text| == 1 then [ReadPair(text)]
    else [ReadPair(text[..2])] + Decoded(text[2..])
  }

  lemma {:induction false} DecodedSplits(s: string, t: string)
    requires |s| % 2 == 0
    ensures Decoded(s + t) == Decoded(s) + Decoded(t)
    decreases |s|
  {
    if |s| == 0 {
      assert s + t == t;
    } else {
      DecodedSplits(s[2..], t);
      assert (s + t)[2..] == s[2..] + t && (s + t)[..2] == s[..2];
    }
  }

  // hexDecode.
  method HexDecode(value: string) returns (decoded: bytes)
    ensures decoded == Decoded(value)
  {
    decoded := [];
    var i := 0;
    while i < |value|
      invariant 0 <= i <= |value| + 1
      invariant i <= |value| ==> i % 2 == 0 && decoded == Decoded(value[..i])
      invariant i == |value| + 1 ==> decoded == Decoded(value)
    {
      var end := if i + 2 <= |value| then i + 2 else |value|;
      var pair := value[i..end];
      DecodedSplits(value[..i], pair);
      assert value[..end] == value[..i] + pair;
      if end == i + 2 { assert pair[..2] == pair; }
      decoded := decoded + [ReadPair(pair)];
      i := i + 2;
      if i > |value| { assert value[..end] == value; }
    }
    if i == |value| { assert value[..i] == value; }
  }

  lemma DigitRoundTrip(d: nat)
    requires d < 16
    ensures ValueOf(DigitOf(d)) == Some(d)
  {
    assert DIGITS[d] == "0123456789abcdef"[d];
  }

  lemma PairRoundTrip(b: byte)
    ensures ReadPair([DigitOf(b / 16), DigitOf(b % 16)]) == b
  {
    hide DigitOf, ValueOf;
    DigitRoundTrip(b / 16);
    DigitRoundTrip(b % 16);
  }

  // Whatever bytes are printed in hexadecimal are read back unchanged.
  lemma {:induction false} RoundTrip(s: bytes)
    ensures Decoded(Encode(s)) == s
  {
    hide DigitOf, ReadPair;
    if |s| > 0 {
      PairRoundTrip(s[0]);
      RoundTrip(s[1..]);
      assert Encode(s)[..2] == [DigitOf(s[0] / 16), DigitOf(s[0] % 16)];
      assert Encode(s)[2..] == Encode(s[1..]);
    }
  }

  lemma {:induction false} EncodeConcat(s: bytes, t: bytes)
    ensures Encode(s + t) == Encode(s) + Encode(t)
  {
    if |s| == 0 {
      assert s + t == t;
    } else {
      assert (s + t)[1..] == s[1..] + t;
      EncodeConcat(s[1..], t);
    }
  }

  // Printing a number is printing its four bytes, the most significant first.
  lemma Printed8IsEncode(n: nat)
    ensures Printed8(n) == Encode([n / 0x100_0000 % 0x100, n / 0x1_0000 % 0x100, n / 0x100 % 0x100, n % 0x100])
  {
    hide DigitOf, Encode;
    EncodeFour(n / 0x100_0000 % 0x100, n / 0x1_0000 % 0x100, n / 0x100 % 0x100, n % 0x100);
    assert n / 0x1000_0000 == n / 0x100_0000 / 16;
    assert n / 0x10_0000 == n / 0x1_0000 / 16;
    assert n / 0x1000 == n / 0x100 / 16;
    Nibbles(n / 0x100_0000);
    Nibbles(n / 0x1_0000);
    Nibbles(n / 0x100);
    Nibbles(n);
  }

  lemma Nibbles(m: nat)
    ensures m % 0x100 / 16 == m / 16 % 16 && m % 0x100 % 16 == m % 16
  {
    var q, high, low := m / 0x100, m % 0x100 / 16, m % 16;
    assert m == 0x100 * q + 16 * high + low;
    assert m / 16 == 16 * q + high;
  }

  lemma EncodeFour(a: byte, b: byte, c: byte, d: byte)
    ensures Encode([a, b, c, d])
         == [DigitOf(a / 16), DigitOf(a % 16), DigitOf(b / 16), DigitOf(b % 16),
             DigitOf(c / 16), DigitOf(c % 16), DigitOf(d / 16), DigitOf(d % 16)]
  {
    hide DigitOf;
    assert [a, b, c, d][1..] == [b, c, d] && [b, c, d][1..] == [c, d];
    assert [c, d][1..] == [d] && [d][1..] == [];
    assert Encode([d]) == [DigitOf(d / 16), DigitOf(d % 16)];
    assert Encode([c, d]) == [DigitOf(c / 16), DigitOf(c % 16)] + Encode([d]);
    assert Encode([b, c, d]) == [DigitOf(b / 16), DigitOf(b % 16)] + Encode([c, d]);
    assert Encode([a, b, c, d]) == [DigitOf(a / 16), DigitOf(a % 16)] + Encode([b, c, d]);
  }
}
