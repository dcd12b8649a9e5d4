// What the stream decoder of libs/bencode/Decoder.cpp reads from the rest of its input, and its laws.
module StreamDecoding {
  import opened Types
  import opened Numerals
  import opened Bencode

  // A value and the input after it, or a DecodingError.
  datatype Parse<+T> = Parsed(value: T, rest: string) | Failed

  // The length of the text before the first c.
  function Before(s: string, c: char): (k: nat)
    ensures k <= |s| && (k < |s| ==> s[k] == c)
    ensures forall i :: 0 <= i < k ==> s[i] != c
  {
    if s == "" || s[0] == c then 0 else 1 + Before(s[1..], c)
  }

  lemma {:induction false} BeforeIs(s: string, c: char, k: nat)
    requires k < |s| && s[k] == c && forall i :: 0 <= i < k ==> s[i] != c
    ensures Before(s, c) == k
  {
    if k > 0 { BeforeIs(s[1..], c, k - 1); }
  }

  // ----- integers -----

  function Unsigned(text: string): (digits: string)
    ensures |digits| <= |text|
  {
    if text != "" && (text[0] == '+' || text[0] == '-') then text[1..] else text
  }

  // [-+]?(0|[1-9][0-9]*)
  predicate IsInteger(text: string) {
    var digits := Unsigned(text);
    digits != "" && AllDigits(digits) && (digits[0] == '0' ==> |digits| == 1)
  }

  function IntegerOf(text: string): int
    requires IsInteger(text)
  {
    var n: int := Value(Unsigned(text));
    if text[0] == '-' then -n else n
  }

  // Extraction to a 64-bit integer stores the nearest limit when the number is out of range.
  function Clamp(n: int): int {
    if n < INT64_MIN then INT64_MIN else if n > INT64_MAX then INT64_MAX else n
  }

  function Distance(m: int, n: int): nat { if m < n then n - m else m - n }

  // What is stored is the 64-bit integer nearest to the number.
  lemma ClampIsNearest(n: int, m: int)
    requires -0x8000_0000_0000_0000 <= m <= 0x7fff_ffff_ffff_ffff
    ensures -0x8000_0000_0000_0000 <= Clamp(n) <= 0x7fff_ffff_ffff_ffff
    ensures m != Clamp(n) ==> Distance(Clamp(n), n) < Distance(m, n)
  {
  }

  // Decodes an integer; under plain, only one in [0, INT64_MAX].
  function DecodeInteger(s: string, plain: bool): (r: Parse<Item>)
    requires s != "" && s[0] == 'i'
    ensures r.Parsed? ==> |r.rest| < |s|
  {
    var k := Before(s, 'e');
    if k == |s| then Failed
    else
      var text := s[1..k];
      if !IsInteger(text) || (plain && !(0 <= IntegerOf(text) <= INT64_MAX)) then Failed
      else Parsed(Integer(Clamp(IntegerOf(text))), s[k + 1..])
  }

  // ----- strings -----

  function DecodeString(s: string): (r: Parse<string>)
    requires s != "" && IsDigit(s[0])
    ensures r.Parsed? ==> |r.rest| < |s|
  {
    var k := Before(s, ':');
    if k == |s| || !AllDigits(s[..k]) then Failed
    else
      var length := Value(s[..k]);
      if length >= SIZE_LIMIT || k + 1 + length > |s| then Failed
      else Parsed(s[k + 1..k + 1 + length], s[k + 1 + length..])
  }

  // ----- items -----

  function DecodeItem(s: string, plain: bool): (r: Parse<Item>)
    ensures r.Parsed? ==> |r.rest| < |s|
    decreases |s|, 0
  {
    if s == "" then Failed
    else if s[0] == 'd' then
      match DecodeEntries(s[1..], [], plain)
      case Failed => Failed
      case Parsed(entries, rest) => Parsed(Dictionary(entries), rest[1..])
    else if s[0] == 'i' then DecodeInteger(s, plain)
    else if s[0] == 'l' then
      match DecodeItems(s[1..], [], plain)
      case Failed => Failed
      case Parsed(items, rest) => Parsed(List(items), rest[1..])
    else if IsDigit(s[0]) then
      match DecodeString(s)
      case Failed => Failed
      case Parsed(text, rest) => Parsed(String(text), rest)
    else Failed
  }

  // Appends items up to the closing e, which is left in the input.
  function DecodeItems(s: string, items: seq<Item>, plain: bool): (r: Parse<seq<Item>>)
    ensures r.Parsed? ==> 0 < |r.rest| <= |s| && r.rest[0] == 'e'
    decreases |s|, 1
  {
    if s == "" then Failed
    else if s[0] == 'e' then Parsed(items, s)
    else
      match DecodeItem(s, plain)
      case Failed => Failed
      case Parsed(item, rest) => DecodeItems(rest, items + [item], plain)
  }

  // Inserts entries up to the closing e, which is left in the input.
  function DecodeEntries(s: string, entries: seq<Entry>, plain: bool): (r: Parse<seq<Entry>>)
    ensures r.Parsed? ==> 0 < |r.rest| <= |s| && r.rest[0] == 'e'
    decreases |s|, 1
  {
    if s == "" then Failed
    else if s[0] == 'e' then Parsed(entries, s)
    else
      match DecodeItem(s, plain)
      case Failed => Failed
      case Parsed(key, rest) =>
        if !key.String? then Failed
        else
          match DecodeItem(rest, plain)
          case Failed => Failed
          case Parsed(value, rest') => DecodeEntries(rest', Insert(entries, key.text, value), plain)
  }

  // decode(const std::string &): the whole input must be one item.
  function Decode(s: string, plain: bool): Option<Item> {
    match DecodeItem(s, plain)
    case Failed => None
    case Parsed(item, rest) => if rest == "" then Some(item) else None
  }

  // Successive decodes of one stream until it is empty.
  function DecodeStream(s: string): Option<seq<Item>>
    decreases |s|
  {
    if s == "" then Some([])
    else
      match DecodeItem(s, false)
      case Failed => None
      case Parsed(item, rest) =>
        match DecodeStream(rest)
        case None => None
        case Some(items) => Some([item] + items)
  }

  // ----- round trip -----

  // The numeral that std::to_string writes is accepted and stands for the number.
  lemma NumeralRoundTrip(n: int)
    ensures IsInteger(ToString(n)) && IntegerOf(ToString(n)) == n
    ensures forall i :: 0 <= i < |ToString(n)| ==> ToString(n)[i] != 'e'
  {
    var text := ToString(n);
    var magnitude := if n < 0 then -n else n;
    ValueOfDigits(magnitude);
    NoLeadingZero(magnitude);
    assert IsDigit(Digits(magnitude)[0]);
    assert Unsigned(text) == Digits(magnitude);
    hide Value, Digits;
    if |Digits(magnitude)| != 1 { DigitsOfZero(); }
  }

  lemma DigitsOfZero()
    ensures |Digits(0)| == 1
  {
  }

  lemma IntegerRoundTrip(n: int, suffix: string, plain: bool)
    requires if plain then 0 <= n <= INT64_MAX else INT64_MIN <= n <= INT64_MAX
    ensures DecodeItem(Encode(Integer(n)) + suffix, plain) == Parsed(Integer(n), suffix)
  {
    hide IsInteger, IntegerOf, ToString;
    var text := ToString(n);
    var s := Encode(Integer(n)) + suffix;
    assert s == ['i'] + text + ['e'] + suffix;
    NumeralRoundTrip(n);
    BeforeIs(s, 'e', 1 + |text|);
    assert s[1..1 + |text|] == text;
    assert s[2 + |text|..] == suffix;
  }

  lemma StringRoundTrip(text: string, suffix: string)
    requires |text| < SIZE_LIMIT
    ensures var s := EncodeString(text) + suffix; IsDigit(s[0]) && DecodeString(s) == Parsed(text, suffix)
  {
    var s := EncodeString(text) + suffix;
    var k := |Digits(|text|)|;
    assert s == Digits(|text|) + [':'] + text + suffix;
    ValueOfDigits(|text|);
    BeforeIs(s, ':', k);
    assert s[..k] == Digits(|text|);
    assert s[k + 1..k + 1 + |text|] == text;
    assert s[k + 1 + |text|..] == suffix;
  }

  // Any digits are a length, with leading zeros or not, if the number has 64 bits and the text is that long.
  lemma LengthAcceptedExactlyWhen(digits: string, text: string)
    requires digits != "" && AllDigits(digits)
    ensures DecodeString(digits + ":" + text)
         == if Value(digits) < 0x1_0000_0000_0000_0000 && Value(digits) <= |text|
            then Parsed(text[..Value(digits)], text[Value(digits)..]) else Failed
  {
    hide Value, Before, DecodeString, AllDigits;
    var s, k, n := digits + ":" + text, |digits|, Value(digits);
    ColonAfter(digits, text);
    assert s[..k] == digits;
    DecodeStringAt(s, k);
    if n <= |text| { AfterColon(digits, text, n); }
  }

  lemma DecodeStringAt(s: string, k: nat)
    requires s != "" && IsDigit(s[0]) && Before(s, ':') == k < |s| && AllDigits(s[..k])
    ensures DecodeString(s)
         == if Value(s[..k]) < SIZE_LIMIT && k + 1 + Value(s[..k]) <= |s|
            then Parsed(s[k + 1..k + 1 + Value(s[..k])], s[k + 1 + Value(s[..k])..]) else Failed
  {
    hide Value, Before, AllDigits, IsDigit;
  }

  lemma ColonAfter(digits: string, text: string)
    requires digits != "" && AllDigits(digits)
    ensures Before(digits + ":" + text, ':') == |digits| && (digits + ":" + text)[0] == digits[0]
    ensures IsDigit(digits[0])
  {
    var s, k := digits + ":" + text, |digits|;
    assert s == digits + [':'] + text;
    forall i | 0 <= i < k ensures s[i] != ':' { assert s[i] == digits[i]; }
    BeforeIs(s, ':', k);
  }

  lemma AfterColon(digits: string, text: string, n: nat)
    requires n <= |text|
    ensures var s, k := digits + ":" + text, |digits|;
      s[k + 1..k + 1 + n] == text[..n] && s[k + 1 + n..] == text[n..]
  {
    var s := digits + ":" + text;
    assert s == digits + [':'] + text;
  }

  lemma StringItemRoundTrip(text: string, suffix: string, plain: bool)
    requires |text| < SIZE_LIMIT
    ensures DecodeItem(Encode(String(text)) + suffix, plain) == Parsed(String(text), suffix)
  {
    hide DecodeString;
    StringRoundTrip(text, suffix);
  }

  // What the plain decoder can return: no integer below zero.
  predicate NoneNegative(item: Item) {
    match item
    case Integer(n) => n >= 0
    case String(_) => true
    case List(items) => forall i :: 0 <= i < |items| ==> NoneNegative(items[i])
    case Dictionary(entries) => forall i :: 0 <= i < |entries| ==> NoneNegative(entries[i].value)
  }

  lemma EncodeOfString(text: string)
    ensures Encode(String(text)) == EncodeString(text)
  {
  }

  lemma EncodeStarts(item: Item)
    ensures Encode(item) != "" && Encode(item)[0] != 'e'
  {
    match item
    case String(text) => assert Encode(item)[0] == Digits(|text|)[0];
    case _ =>
  }

  lemma ListStep(items: seq<Item>, suffix: string, plain: bool)
    requires DecodeItems(EncodeItems(items) + ("e" + suffix), [], plain) == Parsed(items, "e" + suffix)
    ensures DecodeItem(Encode(List(items)) + suffix, plain) == Parsed(List(items), suffix)
  {
    hide DecodeItems, EncodeItems;
    var s := Encode(List(items)) + suffix;
    assert s[0] == 'l' && s[1..] == EncodeItems(items) + ("e" + suffix);
    assert ("e" + suffix)[1..] == suffix;
  }

  lemma DictionaryStep(entries: seq<Entry>, suffix: string, plain: bool)
    requires DecodeEntries(EncodeEntries(entries) + ("e" + suffix), [], plain) == Parsed(entries, "e" + suffix)
    ensures DecodeItem(Encode(Dictionary(entries)) + suffix, plain) == Parsed(Dictionary(entries), suffix)
  {
    hide DecodeEntries, EncodeEntries;
    var s := Encode(Dictionary(entries)) + suffix;
    assert s[0] == 'd' && s[1..] == EncodeEntries(entries) + ("e" + suffix);
    assert ("e" + suffix)[1..] == suffix;
  }

  // Decoding the encoding of an item gives the item back and leaves what follows it.
  lemma {:induction false} RoundTrip(item: Item, suffix: string, plain: bool)
    requires WellFormed(item) && (plain ==> NoneNegative(item))
    ensures DecodeItem(Encode(item) + suffix, plain) == Parsed(item, suffix)
    decreases item, 1
  {
    hide DecodeItem, DecodeItems, DecodeEntries, Encode;
    match item
    case Integer(n) => IntegerRoundTrip(n, suffix, plain);
    case String(text) => StringItemRoundTrip(text, suffix, plain);
    case List(items) =>
      ItemsRoundTrip(items, [], suffix, plain);
      assert [] + items == items;
      ListStep(items, suffix, plain);
    case Dictionary(entries) =>
      assert [] + entries == entries;
      EntriesRoundTrip(entries, [], suffix, plain);
      DictionaryStep(entries, suffix, plain);
  }

  lemma {:induction false} ItemsRoundTrip(items: seq<Item>, done: seq<Item>, suffix: string, plain: bool)
    requires forall i :: 0 <= i < |items| ==> WellFormed(items[i]) && (plain ==> NoneNegative(items[i]))
    ensures DecodeItems(EncodeItems(items) + ("e" + suffix), done, plain) == Parsed(done + items, "e" + suffix)
    decreases items, 0
  {
    hide WellFormed, NoneNegative, Encode, DecodeItem, DecodeEntries;
    var tail := "e" + suffix;
    if items == [] {
      assert "" + tail == tail && done + items == done;
    } else {
      var s := EncodeItems(items) + tail;
      assert s == Encode(items[0]) + (EncodeItems(items[1..]) + tail);
      EncodeStarts(items[0]);
      RoundTrip(items[0], EncodeItems(items[1..]) + tail, plain);
      ItemsRoundTrip(items[1..], done + [items[0]], suffix, plain);
      assert done + [items[0]] + items[1..] == done + items;
    }
  }

  lemma EntryStep(s: string, entries: seq<Entry>, plain: bool)
    requires s != "" && s[0] != 'e'
    requires DecodeItem(s, plain).Parsed? && DecodeItem(s, plain).value.String?
    requires DecodeItem(DecodeItem(s, plain).rest, plain).Parsed?
    ensures var k := DecodeItem(s, plain);
      var v := DecodeItem(k.rest, plain);
      DecodeEntries(s, entries, plain) == DecodeEntries(v.rest, Insert(entries, k.value.text, v.value), plain)
  {
    hide DecodeItem;
  }

  lemma {:induction false} EntriesRoundTrip(entries: seq<Entry>, done: seq<Entry>, suffix: string, plain: bool)
    requires Sorted(done + entries) && WellFormedEntries(entries)
    requires plain ==> forall i :: 0 <= i < |entries| ==> NoneNegative(entries[i].value)
    ensures DecodeEntries(EncodeEntries(entries) + ("e" + suffix), done, plain) == Parsed(done + entries, "e" + suffix)
    decreases entries, 0
  {
    hide WellFormed, NoneNegative, Encode, EncodeString, DecodeItem, DecodeItems, Insert;
    var tail := "e" + suffix;
    if entries == [] {
      assert "" + tail == tail && done + entries == done;
    } else {
      hide DecodeEntries;
      var first, rest := entries[0], entries[1..];
      var tail1 := EncodeEntries(rest) + tail;
      var tail2 := Encode(first.value) + tail1;
      EncodeOfString(first.key);
      EncodeStarts(String(first.key));
      assert EncodeEntries(entries) + tail == Encode(String(first.key)) + tail2;
      StringItemRoundTrip(first.key, tail2, plain);
      RoundTrip(first.value, tail1, plain);
      EntryStep(Encode(String(first.key)) + tail2, done, plain);
      forall i | 0 <= i < |done| ensures Less(done[i].key, first.key) {
        assert (done + entries)[i] == done[i] && (done + entries)[|done|] == first;
      }
      InsertAtEnd(done, first.key, first.value);
      assert done + [first] + rest == done + entries;
      EntriesRoundTrip(rest, done + [first], suffix, plain);
    }
  }

  // The encoding is injective, and no encoding is a proper prefix of another.
  lemma PrefixFree(a: Item, b: Item, u: string, v: string)
    requires WellFormed(a) && WellFormed(b)
    requires Encode(a) + u == Encode(b) + v
    ensures a == b && u == v
  {
    RoundTrip(a, u, false);
    RoundTrip(b, v, false);
  }

  // Encodings written one after another are split again into the items.
  lemma {:induction false} SplitStream(items: seq<Item>)
    requires forall i :: 0 <= i < |items| ==> WellFormed(items[i])
    ensures DecodeStream(EncodeItems(items)) == Some(items)
  {
    if items != [] {
      EncodeStarts(items[0]);
      RoundTrip(items[0], EncodeItems(items[1..]), false);
      SplitStream(items[1..]);
      assert items == [items[0]] + items[1..];
    }
  }

  // ----- longer input -----

  lemma SliceOfLonger(s: string, t: string, from: nat, to: nat)
    requires from <= to <= |s|
    ensures (s + t)[from..to] == s[from..to] && (s + t)[to..] == s[to..] + t
  {
  }

  lemma IntegerExtends(s: string, t: string, plain: bool)
    requires s != "" && s[0] == 'i' && DecodeInteger(s, plain).Parsed?
    ensures var r := DecodeInteger(s, plain); DecodeInteger(s + t, plain) == Parsed(r.value, r.rest + t)
  {
    hide IsInteger, IntegerOf, Clamp;
    var k := Before(s, 'e');
    BeforeIs(s + t, 'e', k);
    SliceOfLonger(s, t, 1, k);
    SliceOfLonger(s, t, 1, k + 1);
  }

  lemma StringExtends(s: string, t: string)
    requires s != "" && IsDigit(s[0]) && DecodeString(s).Parsed?
    ensures var r := DecodeString(s); DecodeString(s + t) == Parsed(r.value, r.rest + t)
  {
    hide AllDigits, Value;
    var k := Before(s, ':');
    BeforeIs(s + t, ':', k);
    SliceOfLonger(s, t, 0, k);
    assert (s + t)[..k] == s[..k];
    SliceOfLonger(s, t, k + 1, k + 1 + Value(s[..k]));
  }

  // Input that arrives after an item does not change what was decoded.
  lemma {:induction false} DecodeExtends(s: string, t: string, plain: bool)
    requires DecodeItem(s, plain).Parsed?
    ensures var r := DecodeItem(s, plain); DecodeItem(s + t, plain) == Parsed(r.value, r.rest + t)
    decreases |s|, 0
  {
    hide DecodeInteger, DecodeString;
    assert (s + t)[0] == s[0] && (s + t)[1..] == s[1..] + t;
    if s[0] == 'd' {
      DecodeEntriesExtends(s[1..], [], t, plain);
    } else if s[0] == 'i' {
      IntegerExtends(s, t, plain);
    } else if s[0] == 'l' {
      DecodeItemsExtends(s[1..], [], t, plain);
    } else {
      StringExtends(s, t);
    }
  }

  lemma {:induction false} DecodeItemsExtends(s: string, items: seq<Item>, t: string, plain: bool)
    requires DecodeItems(s, items, plain).Parsed?
    ensures var r := DecodeItems(s, items, plain);
      DecodeItems(s + t, items, plain) == Parsed(r.value, r.rest + t) && (r.rest + t)[1..] == r.rest[1..] + t
    decreases |s|, 1
  {
    if s[0] != 'e' {
      DecodeExtends(s, t, plain);
      var r := DecodeItem(s, plain);
      DecodeItemsExtends(r.rest, items + [r.value], t, plain);
    }
  }

  lemma {:induction false} DecodeEntriesExtends(s: string, entries: seq<Entry>, t: string, plain: bool)
    requires DecodeEntries(s, entries, plain).Parsed?
    ensures var r := DecodeEntries(s, entries, plain);
      DecodeEntries(s + t, entries, plain) == Parsed(r.value, r.rest + t) && (r.rest + t)[1..] == r.rest[1..] + t
    decreases |s|, 1
  {
    hide Insert;
    if s[0] != 'e' {
      var k := DecodeItem(s, plain);
      DecodeExtends(s, t, plain);
      var v := DecodeItem(k.rest, plain);
      DecodeExtends(k.rest, t, plain);
      DecodeEntriesExtends(v.rest, Insert(entries, k.value.text, v.value), t, plain);
    }
  }

  // A truncated encoding is never accepted.
  lemma TruncatedIsRejected(item: Item, k: nat)
    requires WellFormed(item) && k < |Encode(item)|
    ensures Decode(Encode(item)[..k], false) == None
  {
    var s, t := Encode(item)[..k], Encode(item)[k..];
    assert s + t == Encode(item) + "";
    RoundTrip(item, "", false);
    if DecodeItem(s, false).Parsed? { DecodeExtends(s, t, false); }
  }

  // ----- canonical form -----

  // The numeral of the stored value is no longer than the text it was read from.
  lemma ClampedNumeralIsShort(text: string)
    requires IsInteger(text)
    ensures |ToString(Clamp(IntegerOf(text)))| <= |text|
  {
    hide Value, Digits, AllDigits;
    var digits := Unsigned(text);
    var n := Clamp(IntegerOf(text));
    DigitsShortest(digits);
    DigitsMonotone(if n < 0 then -n else n, Value(digits));
  }

  lemma IntegerIsCanonical(s: string, plain: bool)
    requires s != "" && s[0] == 'i' && DecodeInteger(s, plain).Parsed?
    ensures var r := DecodeInteger(s, plain);
      WellFormed(r.value) && |Encode(r.value)| <= |s| - |r.rest| && (plain ==> NoneNegative(r.value))
  {
    hide IsInteger, IntegerOf, ToString;
    ClampedNumeralIsShort(s[1..Before(s, 'e')]);
  }

  lemma StringIsCanonical(s: string)
    requires s != "" && IsDigit(s[0]) && DecodeString(s).Parsed?
    ensures var r := DecodeString(s); |r.value| < SIZE_LIMIT && |EncodeString(r.value)| <= |s| - |r.rest|
  {
    DigitsShortest(s[..Before(s, ':')]);
  }

  // A decoded item is well formed, so its keys are strictly increasing, and its
  // encoding is no longer than the text it was read from.
  lemma {:induction false} DecodedIsCanonical(s: string, plain: bool)
    requires DecodeItem(s, plain).Parsed?
    ensures var r := DecodeItem(s, plain);
      WellFormed(r.value) && |Encode(r.value)| <= |s| - |r.rest| && (plain ==> NoneNegative(r.value))
    decreases |s|, 0
  {
    hide DecodeInteger, DecodeString, EncodeString, IsDigit;
    if s[0] == 'd' {
      DecodedEntriesAreCanonical(s[1..], [], plain);
    } else if s[0] == 'i' {
      IntegerIsCanonical(s, plain);
    } else if s[0] == 'l' {
      DecodedItemsAreCanonical(s[1..], [], plain);
    } else {
      StringIsCanonical(s);
    }
  }

  // The keys of every dictionary decoded, nested ones included, are in lexicographic order.
  lemma DecodedKeysAscend(s: string, plain: bool)
    requires DecodeItem(s, plain).Parsed?
    ensures KeysAscend(DecodeItem(s, plain).value)
  {
    hide DecodeItem, WellFormed;
    DecodedIsCanonical(s, plain);
    WellFormedKeysAscend(DecodeItem(s, plain).value);
  }

  lemma {:induction false} DecodedItemsAreCanonical(s: string, items: seq<Item>, plain: bool)
    requires forall i :: 0 <= i < |items| ==> WellFormed(items[i]) && (plain ==> NoneNegative(items[i]))
    requires DecodeItems(s, items, plain).Parsed?
    ensures var r := DecodeItems(s, items, plain);
      && (forall i :: 0 <= i < |r.value| ==> WellFormed(r.value[i]) && (plain ==> NoneNegative(r.value[i])))
      && |EncodeItems(r.value)| <= |EncodeItems(items)| + |s| - |r.rest|
    decreases |s|, 1
  {
    hide WellFormed, NoneNegative, Encode;
    if s[0] != 'e' {
      DecodedIsCanonical(s, plain);
      var r := DecodeItem(s, plain);
      EncodeItemsAppend(items, r.value);
      DecodedItemsAreCanonical(r.rest, items + [r.value], plain);
    }
  }

  ghost predicate Canonical(entries: seq<Entry>, plain: bool) {
    && Sorted(entries) && WellFormedEntries(entries)
    && (plain ==> forall i :: 0 <= i < |entries| ==> NoneNegative(entries[i].value))
  }

  lemma InsertIsCanonical(entries: seq<Entry>, key: string, value: Item, plain: bool)
    requires Canonical(entries, plain) && |key| < SIZE_LIMIT && WellFormed(value) && (plain ==> NoneNegative(value))
    ensures Canonical(Insert(entries, key, value), plain)
  {
    hide WellFormed, NoneNegative;
    InsertKeepsSorted(entries, key, value);
    var r := Insert(entries, key, value);
    forall i | 0 <= i < |r|
      ensures |r[i].key| < SIZE_LIMIT && WellFormed(r[i].value) && (plain ==> NoneNegative(r[i].value))
    {
      InsertMembers(entries, key, value, r[i]);
    }
  }

  lemma {:induction false} DecodedEntriesAreCanonical(s: string, entries: seq<Entry>, plain: bool)
    requires Canonical(entries, plain)
    requires DecodeEntries(s, entries, plain).Parsed?
    ensures var r := DecodeEntries(s, entries, plain);
      Canonical(r.value, plain) && |EncodeEntries(r.value)| <= |EncodeEntries(entries)| + |s| - |r.rest|
    decreases |s|, 1
  {
    hide Canonical, EncodeEntries, NoneNegative;
    if s[0] != 'e' {
      var k := DecodeItem(s, plain);
      DecodedIsCanonical(s, plain);
      var v := DecodeItem(k.rest, plain);
      DecodedIsCanonical(k.rest, plain);
      InsertLength(entries, k.value.text, v.value);
      InsertIsCanonical(entries, k.value.text, v.value, plain);
      DecodedEntriesAreCanonical(v.rest, Insert(entries, k.value.text, v.value), plain);
    }
  }

  // Re-encoding an accepted input gives a text that is accepted, decodes to the
  // same value, is no longer, and is its own re-encoding.
  lemma Canonicalisation(s: string)
    requires Decode(s, false).Some?
    ensures var item := Decode(s, false).value;
      && WellFormed(item)
      && |Encode(item)| <= |s|
      && Decode(Encode(item), false) == Some(item)
  {
    DecodedIsCanonical(s, false);
    var item := Decode(s, false).value;
    RoundTrip(item, "", false);
    assert Encode(item) + "" == Encode(item);
  }
}
