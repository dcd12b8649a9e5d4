// What the second decoder, src/bencode/decode.cpp, reads from a substring, and
// where it agrees with the stream decoder.
module SubstringDecoding {
  import opened Types
  import opened Numerals
  import opened Bencode
  import opened StreamDecoding

  // ----- strings -----

  // The digits at the start of s.
  function LeadingDigits(s: string): (digits: string)
    ensures AllDigits(digits) && digits <= s
    ensures |digits| < |s| ==> !IsDigit(s[|digits|])
  {
    if s == "" || !IsDigit(s[0]) then "" else [s[0]] + LeadingDigits(s[1..])
  }

  // The first run of digits anywhere in s.
  function FirstDigits(s: string): string {
    if s == "" then "" else if IsDigit(s[0]) then LeadingDigits(s) else FirstDigits(s[1..])
  }

  // The sum is an int: over INT_MAX it turns negative, which as a size is longer than any string.
  predicate Fits(s: string, sum: nat) {
    sum <= INT_MAX && sum <= |s|
  }

  function SubString(s: string): (r: Parse<string>)
    ensures r.Parsed? ==> |r.rest| < |s|
  {
    if s == "" || !IsDigit(s[0]) then Failed
    else
      var digits := FirstDigits(s);
      var d := |digits|;
      if Value(digits) > INT_MAX || |s| < d + 1 || s[d] != ':' || !Fits(s, d + 1 + Value(digits)) then Failed
      else Parsed(s[d + 1..d + 1 + Value(digits)], s[d + 1 + Value(digits)..])
  }

  // ----- integers -----

  // boost::lexical_cast<unsigned long long>: a minus sign negates modulo 2^64.
  function LexicalCast(text: string): Option<nat> {
    var digits := Unsigned(text);
    if digits == "" || !AllDigits(digits) || Value(digits) >= SIZE_LIMIT then None
    else if text[0] == '-' then Some((SIZE_LIMIT - Value(digits)) % SIZE_LIMIT)
    else Some(Value(digits))
  }

  function SubInteger(s: string): (r: Parse<Item>)
    requires s != "" && s[0] == 'i'
    ensures r.Parsed? ==> |r.rest| < |s|
  {
    var k := Before(s, 'e');
    if k == |s| then Failed
    else
      match LexicalCast(s[1..k])
      case None => Failed
      case Some(n) => Parsed(Integer(n), s[k + 1..])
  }

  // ----- items -----

  function SubItem(s: string): (r: Parse<Item>)
    ensures r.Parsed? ==> |r.rest| < |s|
    decreases |s|, 0
  {
    if s == "" then Failed
    else if s[0] == 'i' then SubInteger(s)
    else if s[0] == 'l' then
      match SubItems(s[1..], [])
      case Failed => Failed
      case Parsed(items, rest) => Parsed(List(items), rest)
    else if s[0] == 'd' then
      match SubEntries(s[1..], [])
      case Failed => Failed
      case Parsed(entries, rest) => Parsed(Dictionary(entries), rest)
    else
      match SubString(s)
      case Failed => Failed
      case Parsed(text, rest) => Parsed(String(text), rest)
  }

  // Appends items up to an e, which is consumed, or up to the end of the input.
  function SubItems(s: string, items: seq<Item>): (r: Parse<seq<Item>>)
    ensures r.Parsed? ==> |r.rest| <= |s|
    decreases |s|, 1
  {
    if s == "" then Parsed(items, "")
    else if s[0] == 'e' then Parsed(items, s[1..])
    else
      match SubItem(s)
      case Failed => Failed
      case Parsed(item, rest) => SubItems(rest, items + [item])
  }

  function SubEntries(s: string, entries: seq<Entry>): (r: Parse<seq<Entry>>)
    ensures r.Parsed? ==> |r.rest| <= |s|
    decreases |s|, 1
  {
    if s == "" then Parsed(entries, "")
    else if s[0] == 'e' then Parsed(entries, s[1..])
    else
      match SubItem(s)
      case Failed => Failed
      case Parsed(key, rest) =>
        if !key.String? then Failed
        else
          match SubItem(rest)
          case Failed => Failed
          case Parsed(value, rest') => SubEntries(rest', Insert(entries, key.text, value))
  }

  // ----- agreement -----

  lemma {:induction false} LeadingDigitsAre(s: string, k: nat)
    requires k < |s| && AllDigits(s[..k]) && !IsDigit(s[k])
    ensures LeadingDigits(s) == s[..k]
  {
    if k > 0 {
      assert s[..k][0] == s[0] && s[1..][..k - 1] == s[..k][1..];
      LeadingDigitsAre(s[1..], k - 1);
      assert s[..k] == [s[0]] + s[1..][..k - 1];
    }
  }

  // On inputs that an int can index, the two string parsers are the same function.
  lemma StringsAgree(s: string)
    requires s != "" && IsDigit(s[0]) && |s| <= INT_MAX
    ensures SubString(s) == StreamDecoding.DecodeString(s)
  {
    hide SubString, DecodeString;
    var d := |LeadingDigits(s)|;
    if d < |s| && s[d] == ':' {
      ColonAfterDigits(s, d);
      FirstIsLeading(s);
      BothSplit(s, s[..d]);
    } else {
      NoColonFails(s, d);
    }
  }

  lemma BothSplit(s: string, digits: string)
    requires s != "" && IsDigit(s[0]) && |s| <= INT_MAX && |digits| < |s| && s[|digits|] == ':'
    requires FirstDigits(s) == digits == s[..|digits|] && Before(s, ':') == |digits| && AllDigits(digits)
    ensures SubString(s) == StreamDecoding.DecodeString(s)
  {
    hide SubString, DecodeString, Value, Before, AllDigits, IsDigit, FirstDigits;
    SubStringAt(s, digits);
    DecodeStringAt(s, |digits|);
  }

  lemma SubStringAt(s: string, digits: string)
    requires s != "" && IsDigit(s[0]) && FirstDigits(s) == digits && |digits| < |s| && s[|digits|] == ':'
    ensures AllDigits(digits)
    ensures var d := |digits|;
      SubString(s)
         == if Value(digits) <= INT_MAX && Fits(s, d + 1 + Value(digits))
            then Parsed(s[d + 1..d + 1 + Value(digits)], s[d + 1 + Value(digits)..]) else Failed
  {
    FirstIsLeading(s);
    hide Value, AllDigits, IsDigit, LeadingDigits, FirstDigits, Fits;
  }

  lemma FirstIsLeading(s: string)
    requires s != "" && IsDigit(s[0])
    ensures FirstDigits(s) == LeadingDigits(s) == s[..|LeadingDigits(s)|]
  {
  }

  lemma NoColonFails(s: string, d: nat)
    requires s != "" && IsDigit(s[0]) && d == |LeadingDigits(s)| && (d < |s| ==> s[d] != ':')
    ensures SubString(s).Failed? && StreamDecoding.DecodeString(s).Failed?
  {
    assert FirstDigits(s) == LeadingDigits(s);
    var k := Before(s, ':');
    if k < |s| && AllDigits(s[..k]) { LeadingDigitsAre(s, k); }
    hide Value, LeadingDigits, FirstDigits;
  }

  lemma ColonAfterDigits(s: string, d: nat)
    requires d < |s| && AllDigits(s[..d]) && s[d] == ':'
    ensures Before(s, ':') == d
  {
    forall i | 0 <= i < d ensures s[i] != ':' { assert s[i] == s[..d][i]; }
    BeforeIs(s, ':', d);
  }

  // An integer that the stream decoder accepts is read alike by both exactly
  // when it lies in [0, INT64_MAX].
  lemma IntegersAgreeExactlyWhen(s: string)
    requires s != "" && s[0] == 'i' && DecodeInteger(s, false).Parsed?
    ensures SubInteger(s) == DecodeInteger(s, false) <==> 0 <= IntegerOf(s[1..Before(s, 'e')]) <= 0x7fff_ffff_ffff_ffff
  {
    hide Value;
    var text := s[1..Before(s, 'e')];
    var magnitude := Value(Unsigned(text));
    if magnitude < SIZE_LIMIT {
      if text[0] == '-' && magnitude > 0 {
        assert (SIZE_LIMIT - magnitude) % SIZE_LIMIT == SIZE_LIMIT - magnitude;
      } else if text[0] == '-' {
        assert SIZE_LIMIT % SIZE_LIMIT == 0;
      }
    }
  }

  // What the stream decoder accepts with all integers in [0, INT64_MAX], the
  // substring decoder reads as the same value of the same length.
  lemma {:induction false} DecodersAgree(s: string)
    requires DecodeItem(s, true).Parsed? && |s| <= INT_MAX
    ensures SubItem(s) == DecodeItem(s, true) == DecodeItem(s, false)
    decreases |s|, 0
  {
    hide SubInteger, DecodeInteger, SubString, DecodeString;
    if s[0] == 'd' {
      EntriesAgree(s[1..], []);
    } else if s[0] == 'i' {
      PlainIntegersAgree(s);
    } else if s[0] == 'l' {
      ItemsAgree(s[1..], []);
    } else {
      StringsAgree(s);
    }
  }

  lemma PlainIntegersAgree(s: string)
    requires s != "" && s[0] == 'i' && DecodeInteger(s, true).Parsed?
    ensures SubInteger(s) == DecodeInteger(s, true) == DecodeInteger(s, false)
  {
    hide IsInteger, IntegerOf, SubInteger;
    IntegersAgreeExactlyWhen(s);
  }

  lemma {:induction false} ItemsAgree(s: string, items: seq<Item>)
    requires DecodeItems(s, items, true).Parsed? && |s| <= INT_MAX
    ensures var r := DecodeItems(s, items, true);
      SubItems(s, items) == Parsed(r.value, r.rest[1..]) && DecodeItems(s, items, false) == r
    decreases |s|, 1
  {
    if s[0] != 'e' {
      DecodersAgree(s);
      var r := DecodeItem(s, true);
      ItemsAgree(r.rest, items + [r.value]);
    }
  }

  lemma {:induction false} EntriesAgree(s: string, entries: seq<Entry>)
    requires DecodeEntries(s, entries, true).Parsed? && |s| <= INT_MAX
    ensures var r := DecodeEntries(s, entries, true);
      SubEntries(s, entries) == Parsed(r.value, r.rest[1..]) && DecodeEntries(s, entries, false) == r
    decreases |s|, 1
  {
    hide Insert;
    if s[0] != 'e' {
      DecodersAgree(s);
      var k := DecodeItem(s, true);
      DecodersAgree(k.rest);
      var v := DecodeItem(k.rest, true);
      EntriesAgree(v.rest, Insert(entries, k.value.text, v.value));
    }
  }

  // So the substring decoder too gives back what the library encodes.
  lemma SubRoundTrip(item: Item, suffix: string)
    requires WellFormed(item) && NoneNegative(item) && |Encode(item) + suffix| <= INT_MAX
    ensures SubItem(Encode(item) + suffix) == Parsed(item, suffix)
  {
    RoundTrip(item, suffix, true);
    DecodersAgree(Encode(item) + suffix);
  }
}
