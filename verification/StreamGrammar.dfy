// The language of the stream decoder: every way to write an item that it
// accepts, and proof that it accepts nothing else.
module StreamGrammar {
  import opened Numerals
  import opened Bencode
  import opened StreamDecoding
  import opened BencodeSyntax

  // ----- numerals -----

  // The pattern accepts exactly an optional sign and a numeral without leading zeros.
  lemma {:induction false} DigitsOfValue(digits: string)
    requires digits != "" && AllDigits(digits) && (digits[0] == '0' ==> |digits| == 1)
    ensures Digits(Value(digits)) == digits
    ensures Value(digits) == 0 ==> digits == "0"
    decreases |digits|
  {
    var k := |digits| - 1;
    var front, d := digits[..k], DigitValue(digits[k]);
    assert digits == front + [digits[k]];
    assert DigitChar(d) == digits[k];
    if front == "" {
      assert Value(front) == 0 && Value(digits) == d;
    } else {
      assert front[0] == digits[0] != '0';
      DigitsOfValue(front);
      assert Value(digits) / 10 == Value(front) && Value(digits) % 10 == d;
    }
  }

  lemma NumeralsAccepted(text: string)
    ensures IsInteger(text) <==>
      exists sign, n: nat :: (sign == "" || sign == "+" || sign == "-") && text == sign + Digits(n)
  {
    if IsInteger(text) {
      var sign, n := SplitNumeral(text);
      assert text == sign + Digits(n);
    }
    forall sign, n: nat | (sign == "" || sign == "+" || sign == "-") && text == sign + Digits(n)
      ensures IsInteger(text)
    {
      JoinNumeral(sign, n);
    }
  }

  lemma SplitNumeral(text: string) returns (sign: string, n: nat)
    requires IsInteger(text)
    ensures (sign == "" || sign == "+" || sign == "-") && text == sign + Digits(n)
    ensures IntegerOf(text) == Signed(sign, n)
  {
    var digits := Unsigned(text);
    DigitsOfValue(digits);
    n := Value(digits);
    sign := if text[0] == '+' then "+" else if text[0] == '-' then "-" else "";
    hide Digits, Value;
    assert text == sign + digits;
  }

  lemma JoinNumeral(sign: string, n: nat)
    requires sign == "" || sign == "+" || sign == "-"
    ensures var text := sign + Digits(n);
      && IsInteger(text) && IntegerOf(text) == Signed(sign, n)
      && forall i :: 0 <= i < |text| ==> text[i] != 'e'
  {
    var digits := Digits(n);
    ValueOfDigits(n);
    NoLeadingZero(n);
    if n == 0 { DigitsOfZero(); }
    hide Value, Digits;
    assert IsDigit(digits[0]);
    assert Unsigned(sign + digits) == digits;
  }

  // ----- completeness: whatever is well written is accepted -----

  lemma NumberIsDecoded(sign: string, n: nat, suffix: string)
    requires sign == "" || sign == "+" || sign == "-"
    ensures DecodeItem(Write(Number(sign, n)) + suffix, false) == Parsed(Meaning(Clamping, Number(sign, n)), suffix)
  {
    hide IsInteger, IntegerOf, Digits;
    var text := sign + Digits(n);
    var s := Write(Number(sign, n)) + suffix;
    assert s == ['i'] + text + ['e'] + suffix;
    JoinNumeral(sign, n);
    BeforeIs(s, 'e', 1 + |text|);
    assert s[1..1 + |text|] == text;
    assert s[2 + |text|..] == suffix;
  }

  lemma TextIsDecoded(length: string, text: string, suffix: string)
    requires IsLength(length, text)
    ensures DecodeItem(length + ":" + text + suffix, false) == Parsed(String(text), suffix)
  {
    hide Value;
    var s := length + ":" + text + suffix;
    var k := |length|;
    assert s[0] == length[0] && IsDigit(s[0]);
    BeforeIs(s, ':', k);
    assert s[..k] == length;
    assert s[k + 1..k + 1 + |text|] == text;
    assert s[k + 1 + |text|..] == suffix;
  }

  lemma WriteStarts(t: Syntax)
    requires WellWritten(t)
    ensures Write(t) != "" && Write(t)[0] != 'e'
  {
    match t
    case Text(length, text) => assert Write(t)[0] == length[0] && IsDigit(length[0]);
    case _ =>
  }

  lemma {:induction false} WrittenIsDecoded(t: Syntax, suffix: string)
    requires WellWritten(t)
    ensures DecodeItem(Write(t) + suffix, false) == Parsed(Meaning(Clamping, t), suffix)
    decreases t, 1
  {
    hide DecodeItem, DecodeItems, DecodeEntries;
    match t
    case Number(sign, n) => NumberIsDecoded(sign, n, suffix);
    case Text(length, text) => TextIsDecoded(length, text, suffix);
    case Sequence(items) =>
      ItemsAreDecoded(items, [], suffix);
      assert [] + Meanings(Clamping, items) == Meanings(Clamping, items);
      SequenceStep(items, suffix);
    case Mapping(pairs) =>
      PairsAreDecoded(pairs, [], suffix);
      MappingStep(pairs, suffix);
  }

  lemma SequenceStep(items: seq<Syntax>, suffix: string)
    requires DecodeItems(WriteItems(items) + ("e" + suffix), [], false)
          == Parsed(Meanings(Clamping, items), "e" + suffix)
    ensures DecodeItem(Write(Sequence(items)) + suffix, false) == Parsed(Meaning(Clamping, Sequence(items)), suffix)
  {
    hide DecodeItems, WriteItems, Meanings;
    var s := Write(Sequence(items)) + suffix;
    assert s[0] == 'l' && s[1..] == WriteItems(items) + ("e" + suffix);
    assert ("e" + suffix)[1..] == suffix;
  }

  lemma MappingStep(pairs: seq<Pair>, suffix: string)
    requires DecodeEntries(WritePairs(pairs) + ("e" + suffix), [], false)
          == Parsed(InsertAll(Clamping, [], pairs), "e" + suffix)
    ensures DecodeItem(Write(Mapping(pairs)) + suffix, false) == Parsed(Meaning(Clamping, Mapping(pairs)), suffix)
  {
    hide DecodeEntries, WritePairs, InsertAll;
    var s := Write(Mapping(pairs)) + suffix;
    assert s[0] == 'd' && s[1..] == WritePairs(pairs) + ("e" + suffix);
    assert ("e" + suffix)[1..] == suffix;
  }

  lemma ItemStep(s: string, items: seq<Item>)
    requires s != "" && s[0] != 'e' && DecodeItem(s, false).Parsed?
    ensures var r := DecodeItem(s, false); DecodeItems(s, items, false) == DecodeItems(r.rest, items + [r.value], false)
  {
    hide DecodeItem;
  }

  lemma {:induction false} ItemsAreDecoded(items: seq<Syntax>, done: seq<Item>, suffix: string)
    requires forall i :: 0 <= i < |items| ==> WellWritten(items[i])
    ensures DecodeItems(WriteItems(items) + ("e" + suffix), done, false)
         == Parsed(done + Meanings(Clamping, items), "e" + suffix)
    decreases items, 0
  {
    hide WellWritten, Write, Meaning, DecodeItem;
    var tail := "e" + suffix;
    if items == [] {
      assert "" + tail == tail && done + [] == done;
    } else {
      hide DecodeItems, WriteItems, Meanings;
      var rest := WriteItems(items[1..]) + tail;
      assert items == [items[0]] + items[1..];
      ItemsCons(Clamping, items[0], items[1..], done, tail);
      WriteStarts(items[0]);
      WrittenIsDecoded(items[0], rest);
      ItemStep(Write(items[0]) + rest, done);
      ItemsAreDecoded(items[1..], done + [Meaning(Clamping, items[0])], suffix);
    }
  }

  lemma {:induction false} PairsAreDecoded(pairs: seq<Pair>, done: seq<Entry>, suffix: string)
    requires forall i :: 0 <= i < |pairs| ==> IsLength(pairs[i].length, pairs[i].key) && WellWritten(pairs[i].value)
    ensures DecodeEntries(WritePairs(pairs) + ("e" + suffix), done, false)
         == Parsed(InsertAll(Clamping, done, pairs), "e" + suffix)
    decreases pairs, 0
  {
    hide WellWritten, Write, Meaning, DecodeItem, Insert, Value;
    var tail := "e" + suffix;
    if pairs == [] {
      assert "" + tail == tail;
    } else {
      hide DecodeEntries, WritePairs, InsertAll;
      var first, rest := pairs[0], pairs[1..];
      var tail1 := WritePairs(rest) + tail;
      var tail2 := Write(first.value) + tail1;
      var s := first.length + ":" + first.key + tail2;
      assert pairs == [first] + rest;
      PairsCons(Clamping, first, rest, done, tail);
      assert s[0] == first.length[0] && IsDigit(first.length[0]);
      TextIsDecoded(first.length, first.key, tail2);
      WrittenIsDecoded(first.value, tail1);
      EntryStep(s, done, false);
      PairsAreDecoded(rest, Insert(done, first.key, Meaning(Clamping, first.value)), suffix);
    }
  }

  // ----- soundness: whatever is accepted is well written -----

  lemma IntegerIsWritten(s: string) returns (t: Syntax)
    requires s != "" && s[0] == 'i' && DecodeInteger(s, false).Parsed?
    ensures var r := DecodeInteger(s, false);
      WellWritten(t) && s == Write(t) + r.rest && Meaning(Clamping, t) == r.value
  {
    hide IsInteger, IntegerOf, Digits;
    var k := Before(s, 'e');
    var sign, n := SplitNumeral(s[1..k]);
    t := Number(sign, n);
    assert s == ['i'] + s[1..k] + ['e'] + s[k + 1..];
  }

  lemma StringIsWritten(s: string) returns (length: string)
    requires s != "" && IsDigit(s[0]) && DecodeString(s).Parsed?
    ensures var r := DecodeString(s); IsLength(length, r.value) && s == length + ":" + r.value + r.rest
  {
    hide Value;
    var k := Before(s, ':');
    length := s[..k];
    var end := k + 1 + Value(length);
    assert s == s[..k] + [s[k]] + s[k + 1..end] + s[end..];
  }

  lemma Enclosed(s: string, open: char, body: string, rest: string)
    requires s != "" && s[0] == open && s[1..] == body + rest && rest != "" && rest[0] == 'e'
    ensures s == [open] + body + "e" + rest[1..]
  {
    assert rest == "e" + rest[1..];
  }

  lemma {:induction false} DecodedIsWritten(s: string) returns (t: Syntax)
    requires DecodeItem(s, false).Parsed?
    ensures var r := DecodeItem(s, false); WellWritten(t) && s == Write(t) + r.rest && Meaning(Clamping, t) == r.value
    decreases |s|, 0
  {
    hide DecodeInteger, DecodeString, DecodeItems, DecodeEntries, IsLength, WriteItems, WritePairs, Meanings, InsertAll;
    if s[0] == 'd' {
      var r := DecodeEntries(s[1..], [], false);
      var pairs := DecodedEntriesAreWritten(s[1..], []);
      t := Mapping(pairs);
      Enclosed(s, 'd', WritePairs(pairs), r.rest);
    } else if s[0] == 'i' {
      t := IntegerIsWritten(s);
    } else if s[0] == 'l' {
      var r := DecodeItems(s[1..], [], false);
      var items := DecodedItemsAreWritten(s[1..], []);
      t := Sequence(items);
      assert [] + Meanings(Clamping, items) == Meanings(Clamping, items);
      Enclosed(s, 'l', WriteItems(items), r.rest);
    } else {
      var length := StringIsWritten(s);
      t := Text(length, DecodeString(s).value);
    }
  }

  lemma {:induction false} DecodedItemsAreWritten(s: string, items: seq<Item>) returns (ts: seq<Syntax>)
    requires DecodeItems(s, items, false).Parsed?
    ensures var r := DecodeItems(s, items, false);
      && (forall i :: 0 <= i < |ts| ==> WellWritten(ts[i]))
      && s == WriteItems(ts) + r.rest && r.value == items + Meanings(Clamping, ts)
    decreases |s|, 1
  {
    hide WellWritten, Write, Meaning, DecodeItem;
    if s[0] == 'e' {
      ts := [];
    } else {
      var first := DecodeItem(s, false);
      var t := DecodedIsWritten(s);
      ItemStep(s, items);
      hide DecodeItems, WriteItems, Meanings;
      var rest := DecodedItemsAreWritten(first.rest, items + [first.value]);
      ts := [t] + rest;
      ItemsCons(Clamping, t, rest, items, DecodeItems(s, items, false).rest);
    }
  }

  lemma {:induction false} DecodedEntriesAreWritten(s: string, entries: seq<Entry>) returns (ps: seq<Pair>)
    requires DecodeEntries(s, entries, false).Parsed?
    ensures var r := DecodeEntries(s, entries, false);
      && (forall i :: 0 <= i < |ps| ==> IsLength(ps[i].length, ps[i].key) && WellWritten(ps[i].value))
      && s == WritePairs(ps) + r.rest && r.value == InsertAll(Clamping, entries, ps)
    decreases |s|, 1
  {
    hide WellWritten, Write, Meaning, DecodeItem, Insert, IsLength;
    if s[0] == 'e' {
      ps := [];
    } else {
      var k := DecodeItem(s, false);
      var length := KeyIsWritten(s);
      var v := DecodeItem(k.rest, false);
      var t := DecodedIsWritten(k.rest);
      EntryStep(s, entries, false);
      hide DecodeEntries, WritePairs, InsertAll;
      var rest := DecodedEntriesAreWritten(v.rest, Insert(entries, k.value.text, v.value));
      ps := [Pair(length, k.value.text, t)] + rest;
      PairsCons(Clamping, ps[0], rest, entries, DecodeEntries(s, entries, false).rest);
    }
  }

  lemma KeyIsWritten(s: string) returns (length: string)
    requires DecodeItem(s, false).Parsed? && DecodeItem(s, false).value.String?
    ensures var r := DecodeItem(s, false); IsLength(length, r.value.text) && s == length + ":" + r.value.text + r.rest
  {
    hide DecodeString, DecodeEntries, DecodeItems, IsLength;
    length := StringIsWritten(s);
  }

  // The stream decoder reads v from the front of s and leaves rest exactly when
  // the front of s is a well-written text that stands for v.
  lemma LanguageIsExact(s: string, v: Item, rest: string)
    ensures DecodeItem(s, false) == Parsed(v, rest)
       <==> exists t :: WellWritten(t) && Meaning(Clamping, t) == v && s == Write(t) + rest
  {
    hide DecodeItem, WellWritten, Meaning, Write;
    if DecodeItem(s, false) == Parsed(v, rest) {
      var t := DecodedIsWritten(s);
      assert WellWritten(t) && Meaning(Clamping, t) == v && s == Write(t) + rest;
    }
    forall t | WellWritten(t) && Meaning(Clamping, t) == v && s == Write(t) + rest
      ensures DecodeItem(s, false) == Parsed(v, rest)
    {
      WrittenIsDecoded(t, rest);
    }
  }

  // ----- an input whose keys are not in order -----

  const UNORDERED: seq<Pair> := [Pair("1", "b", Number("", 0)), Pair("2", "aa", Number("", 1))]

  lemma SmallTexts()
    ensures Write(Number("", 0)) == "i0e" && Write(Number("", 1)) == "i1e"
    ensures IsLength("1", "b") && IsLength("2", "aa")
  {
    assert Value("1") == 1 by { assert "1"[..0] == "" && DigitValue('1') == 1; }
    assert Value("2") == 2 by { assert "2"[..0] == "" && DigitValue('2') == 2; }
    assert Digits(0) == "0" && Digits(1) == "1";
  }

  lemma UnorderedWritten()
    ensures WritePairs(UNORDERED) == "1:bi0e2:aai1e" && WellWritten(Mapping(UNORDERED))
  {
    SmallTexts();
    hide Write, IsLength;
    assert UNORDERED[1..] == [UNORDERED[1]] && UNORDERED[1..][1..] == [];
    assert WritePairs(UNORDERED[1..]) == "2:aai1e";
  }

  lemma UnorderedMeans()
    ensures InsertAll(Clamping, [], UNORDERED) == [Entry("aa", Integer(1)), Entry("b", Integer(0))]
  {
    var b := [Entry("b", Integer(0))];
    assert UNORDERED[1..] == [UNORDERED[1]] && UNORDERED[1..][1..] == [];
    assert Less("aa", "b");
    assert InsertAll(Clamping, b, UNORDERED[1..]) == Insert(b, "aa", Integer(1)) == [Entry("aa", Integer(1))] + b;
  }

  // It is decoded with its keys in order, whatever their length, and encoded so again.
  lemma KeysAreReordered()
    ensures var sorted := Dictionary([Entry("aa", Integer(1)), Entry("b", Integer(0))]);
      DecodeItem("d1:bi0e2:aai1ee", false) == Parsed(sorted, "") && Encode(sorted) == "d2:aai1e1:bi0ee"
  {
    UnorderedWritten();
    UnorderedMeans();
    hide WritePairs, InsertAll, WellWritten, DecodeItem, Encode;
    assert Write(Mapping(UNORDERED)) + "" == "d1:bi0e2:aai1ee";
    WrittenIsDecoded(Mapping(UNORDERED), "");
    SortedEncoded();
  }

  lemma SortedEncoded()
    ensures Encode(Dictionary([Entry("aa", Integer(1)), Entry("b", Integer(0))])) == "d2:aai1e1:bi0ee"
  {
    var first, second := Entry("aa", Integer(1)), Entry("b", Integer(0));
    assert Digits(0) == "0" && Digits(1) == "1" && Digits(2) == "2";
    assert [first, second][1..] == [second] && [second][1..] == [];
    assert EncodeEntries([second]) == "1:bi0e";
    assert EncodeEntries([first, second]) == "2:aai1e" + "1:bi0e";
  }
}
