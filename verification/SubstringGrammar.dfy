// What the substring decoder makes of the texts that the stream decoder accepts, and exactly when the two
// agree on them.
module SubstringGrammar {
  import opened Types
  import opened Numerals
  import opened Bencode
  import opened StreamDecoding
  import opened BencodeSyntax
  import opened StreamGrammar
  import opened SubstringDecoding

  // Every number written has a magnitude of 64 bits.
  predicate Castable(t: Syntax) {
    match t
    case Number(_, n) => n < SIZE_LIMIT
    case Text(_, _) => true
    case Sequence(items) => forall i :: 0 <= i < |items| ==> Castable(items[i])
    case Mapping(pairs) => forall i :: 0 <= i < |pairs| ==> Castable(pairs[i].value)
  }

  // ----- the substring decoder on well-written texts -----

  lemma NumeralIsCast(sign: string, n: nat)
    requires sign == "" || sign == "+" || sign == "-"
    ensures LexicalCast(sign + Digits(n))
         == if n < 0x1_0000_0000_0000_0000 then Some(NumberRead(Casting, sign, n)) else None
  {
    UnsignedOf(sign, n);
    ValueOfDigits(n);
    assert IsDigit(Digits(n)[0]);
    hide Digits, Value;
  }

  lemma SubIntegerOf(text: string, suffix: string)
    requires forall i :: 0 <= i < |text| ==> text[i] != 'e'
    ensures var r := LexicalCast(text);
      SubItem("i" + text + "e" + suffix) == if r.Some? then Parsed(Integer(r.value), suffix) else Failed
  {
    hide LexicalCast;
    var s := "i" + text + "e" + suffix;
    assert s == ['i'] + text + ['e'] + suffix;
    BeforeIs(s, 'e', 1 + |text|);
    assert s[1..1 + |text|] == text;
    assert s[2 + |text|..] == suffix;
  }

  lemma NumberIsCast(sign: string, n: nat, suffix: string)
    requires sign == "" || sign == "+" || sign == "-"
    ensures SubItem(Write(Number(sign, n)) + suffix)
         == if n < SIZE_LIMIT then Parsed(Meaning(Casting, Number(sign, n)), suffix) else Failed
  {
    JoinNumeral(sign, n);
    NumeralIsCast(sign, n);
    hide IsInteger, IntegerOf, Digits, LexicalCast, NumberRead, SubItem;
    SubIntegerOf(sign + Digits(n), suffix);
  }

  lemma UnsignedOf(sign: string, n: nat)
    requires sign == "" || sign == "+" || sign == "-"
    ensures Unsigned(sign + Digits(n)) == Digits(n)
  {
    assert IsDigit(Digits(n)[0]);
    hide Digits;
  }

  lemma TextIsSub(length: string, text: string, suffix: string)
    requires IsLength(length, text) && |length + ":" + text + suffix| <= INT_MAX
    ensures SubItem(length + ":" + text + suffix) == Parsed(String(text), suffix)
  {
    hide SubString, StreamDecoding.DecodeString, Value;
    var s := length + ":" + text + suffix;
    assert s[0] == length[0] && IsDigit(length[0]);
    TextIsDecoded(length, text, suffix);
    StringsAgree(s);
  }

  lemma {:induction false} WrittenIsSub(t: Syntax, suffix: string)
    requires WellWritten(t) && |Write(t) + suffix| <= INT_MAX
    ensures SubItem(Write(t) + suffix) == if Castable(t) then Parsed(Meaning(Casting, t), suffix) else Failed
    decreases t, 1
  {
    hide SubItem, SubItems, SubEntries;
    match t
    case Number(sign, n) => NumberIsCast(sign, n, suffix);
    case Text(length, text) => TextIsSub(length, text, suffix);
    case Sequence(items) =>
      SubListStep(items, suffix);
      ItemsAreSub(items, [], suffix);
      assert [] + Meanings(Casting, items) == Meanings(Casting, items);
    case Mapping(pairs) =>
      SubMappingStep(pairs, suffix);
      PairsAreSub(pairs, [], suffix);
  }

  lemma SubListStep(items: seq<Syntax>, suffix: string)
    ensures var r := SubItems(WriteItems(items) + ("e" + suffix), []);
      SubItem(Write(Sequence(items)) + suffix) == if r.Parsed? then Parsed(List(r.value), r.rest) else Failed
    ensures |WriteItems(items) + ("e" + suffix)| < |Write(Sequence(items)) + suffix|
  {
    hide SubItems, WriteItems;
    var s := Write(Sequence(items)) + suffix;
    assert s[0] == 'l' && s[1..] == WriteItems(items) + ("e" + suffix);
  }

  lemma SubMappingStep(pairs: seq<Pair>, suffix: string)
    ensures var r := SubEntries(WritePairs(pairs) + ("e" + suffix), []);
      SubItem(Write(Mapping(pairs)) + suffix) == if r.Parsed? then Parsed(Dictionary(r.value), r.rest) else Failed
    ensures |WritePairs(pairs) + ("e" + suffix)| < |Write(Mapping(pairs)) + suffix|
  {
    hide SubEntries, WritePairs;
    var s := Write(Mapping(pairs)) + suffix;
    assert s[0] == 'd' && s[1..] == WritePairs(pairs) + ("e" + suffix);
  }

  lemma SubItemsStep(s: string, items: seq<Item>)
    requires s != "" && s[0] != 'e'
    ensures var r := SubItem(s); SubItems(s, items) == if r.Parsed? then SubItems(r.rest, items + [r.value]) else Failed
  {
    hide SubItem;
  }

  lemma SubEnd(suffix: string, items: seq<Item>, entries: seq<Entry>)
    ensures SubItems("" + ("e" + suffix), items) == Parsed(items, suffix)
    ensures SubEntries("" + ("e" + suffix), entries) == Parsed(entries, suffix)
  {
    assert "" + ("e" + suffix) == "e" + suffix;
    assert ("e" + suffix)[1..] == suffix;
  }

  lemma {:induction false} ItemsAreSub(items: seq<Syntax>, done: seq<Item>, suffix: string)
    requires forall i :: 0 <= i < |items| ==> WellWritten(items[i])
    requires |WriteItems(items) + ("e" + suffix)| <= INT_MAX
    ensures SubItems(WriteItems(items) + ("e" + suffix), done)
         == if forall i :: 0 <= i < |items| ==> Castable(items[i])
            then Parsed(done + Meanings(Casting, items), suffix) else Failed
    decreases items, 0
  {
    hide WellWritten, Write, Meaning, Castable, SubItem, SubItems;
    var tail := "e" + suffix;
    if items == [] {
      SubEnd(suffix, done, []);
      assert done + [] == done;
    } else {
      var rest := WriteItems(items[1..]) + tail;
      assert items == [items[0]] + items[1..];
      ItemsCons(Casting, items[0], items[1..], done, tail);
      hide WriteItems, Meanings;
      WriteStarts(items[0]);
      WrittenIsSub(items[0], rest);
      SubItemsStep(Write(items[0]) + rest, done);
      ItemsAreSub(items[1..], done + [Meaning(Casting, items[0])], suffix);
      assert forall i :: 1 <= i < |items| ==> items[i] == items[1..][i - 1];
    }
  }

  lemma SubEntriesStep(s: string, entries: seq<Entry>)
    requires s != "" && s[0] != 'e' && SubItem(s).Parsed? && SubItem(s).value.String?
    ensures var k := SubItem(s);
      var v := SubItem(k.rest);
      SubEntries(s, entries)
         == if v.Parsed? then SubEntries(v.rest, Insert(entries, k.value.text, v.value)) else Failed
  {
    hide SubItem, Insert;
  }

  lemma {:induction false} PairsAreSub(pairs: seq<Pair>, done: seq<Entry>, suffix: string)
    requires forall i :: 0 <= i < |pairs| ==> IsLength(pairs[i].length, pairs[i].key) && WellWritten(pairs[i].value)
    requires |WritePairs(pairs) + ("e" + suffix)| <= INT_MAX
    ensures SubEntries(WritePairs(pairs) + ("e" + suffix), done)
         == if forall i :: 0 <= i < |pairs| ==> Castable(pairs[i].value)
            then Parsed(InsertAll(Casting, done, pairs), suffix) else Failed
    decreases pairs, 0
  {
    hide WellWritten, Write, Meaning, Castable, SubItem, SubEntries, Insert, Value;
    var tail := "e" + suffix;
    if pairs == [] {
      SubEnd(suffix, [], done);
    } else {
      var first, rest := pairs[0], pairs[1..];
      var tail1 := WritePairs(rest) + tail;
      var tail2 := Write(first.value) + tail1;
      var s := first.length + ":" + first.key + tail2;
      assert pairs == [first] + rest;
      PairsCons(Casting, first, rest, done, tail);
      hide WritePairs, InsertAll;
      assert s[0] == first.length[0] && IsDigit(first.length[0]);
      TextIsSub(first.length, first.key, tail2);
      WrittenIsSub(first.value, tail1);
      SubEntriesStep(s, done);
      PairsAreSub(rest, Insert(done, first.key, Meaning(Casting, first.value)), suffix);
      assert forall i :: 1 <= i < |pairs| ==> pairs[i] == rest[i - 1];
    }
  }

  // ----- exact agreement -----

  // A pair that no later pair overwrites.
  predicate LastOf(pairs: seq<Pair>, i: nat)
    requires i < |pairs|
  {
    forall j :: i < j < |pairs| ==> pairs[j].key != pairs[i].key
  }

  // Every number that is not overwritten lies in [0, INT64_MAX].
  predicate LivePlain(t: Syntax) {
    match t
    case Number(sign, n) => 0 <= Signed(sign, n) <= INT64_MAX
    case Text(_, _) => true
    case Sequence(items) => forall i :: 0 <= i < |items| ==> LivePlain(items[i])
    case Mapping(pairs) => forall i :: 0 <= i < |pairs| && LastOf(pairs, i) ==> LivePlain(pairs[i].value)
  }

  lemma {:induction false} LastValueIs(reader: Reader, pairs: seq<Pair>, i: nat)
    requires i < |pairs| && LastOf(pairs, i)
    ensures LastValue(reader, pairs, pairs[i].key) == Some(Meaning(reader, pairs[i].value))
  {
    hide Meaning;
    if i > 0 {
      assert forall j :: 0 <= j < |pairs| - 1 ==> pairs[1..][j] == pairs[j + 1];
      LastValueIs(reader, pairs[1..], i - 1);
    } else {
      NoLastValue(reader, pairs[1..], pairs[0].key);
    }
  }

  lemma {:induction false} NoLastValue(reader: Reader, pairs: seq<Pair>, key: string)
    requires forall i :: 0 <= i < |pairs| ==> pairs[i].key != key
    ensures LastValue(reader, pairs, key) == None
  {
    if pairs != [] { NoLastValue(reader, pairs[1..], key); }
  }

  // A key that has a last value has a last pair.
  lemma {:induction false} LastPair(reader: Reader, pairs: seq<Pair>, key: string) returns (i: nat)
    requires LastValue(reader, pairs, key).Some?
    ensures i < |pairs| && pairs[i].key == key && LastOf(pairs, i)
  {
    hide Meaning;
    if LastValue(reader, pairs[1..], key).Some? {
      i := LastPair(reader, pairs[1..], key);
      i := i + 1;
      assert forall j :: 0 <= j < |pairs| - 1 ==> pairs[1..][j] == pairs[j + 1];
    } else {
      i := 0;
      forall j | 0 < j < |pairs| ensures pairs[j].key != pairs[0].key {
        if pairs[j].key == pairs[0].key { SomeLastValue(reader, pairs[1..], j - 1); }
      }
    }
  }

  lemma {:induction false} SomeLastValue(reader: Reader, pairs: seq<Pair>, j: nat)
    requires j < |pairs|
    ensures LastValue(reader, pairs, pairs[j].key).Some?
  {
    hide Meaning;
    if j > 0 { SomeLastValue(reader, pairs[1..], j - 1); }
  }

  lemma {:induction false} SameMeaningExactlyWhen(t: Syntax)
    requires WellWritten(t) && Castable(t)
    ensures Meaning(Casting, t) == Meaning(Clamping, t) <==> LivePlain(t)
    decreases t, 1
  {
    match t
    case Number(sign, n) => SameNumberExactlyWhen(sign, n);
    case Text(_, _) =>
    case Sequence(items) => SameItemsExactlyWhen(items);
    case Mapping(pairs) => SamePairsExactlyWhen(pairs);
  }

  // A number is cast to the one of 64 bits without a sign that it is congruent to.
  lemma CastIsModulo(sign: string, n: nat)
    requires n < 0x1_0000_0000_0000_0000
    ensures 0 <= NumberRead(Casting, sign, n) < 0x1_0000_0000_0000_0000
    ensures (NumberRead(Casting, sign, n) - Signed(sign, n)) % 0x1_0000_0000_0000_0000 == 0
  {
  }

  lemma SameNumberExactlyWhen(sign: string, n: nat)
    requires n < SIZE_LIMIT
    ensures NumberRead(Casting, sign, n) == NumberRead(Clamping, sign, n) <==> 0 <= Signed(sign, n) <= INT64_MAX
  {
    if n > 0 { assert (SIZE_LIMIT - n) % SIZE_LIMIT == SIZE_LIMIT - n; }
  }

  lemma {:induction false} SameItemsExactlyWhen(items: seq<Syntax>)
    requires forall i :: 0 <= i < |items| ==> WellWritten(items[i]) && Castable(items[i])
    ensures Meanings(Casting, items) == Meanings(Clamping, items)
       <==> forall i :: 0 <= i < |items| ==> LivePlain(items[i])
    decreases items, 0
  {
    hide WellWritten, Castable, LivePlain, Meaning;
    if items != [] {
      SameMeaningExactlyWhen(items[0]);
      SameItemsExactlyWhen(items[1..]);
      assert forall i :: 1 <= i < |items| ==> items[i] == items[1..][i - 1];
      var a, b := Meanings(Casting, items), Meanings(Clamping, items);
      assert a[0] == Meaning(Casting, items[0]) && a[1..] == Meanings(Casting, items[1..]);
      assert b[0] == Meaning(Clamping, items[0]) && b[1..] == Meanings(Clamping, items[1..]);
    }
  }

  lemma {:induction false} SamePairsExactlyWhen(pairs: seq<Pair>)
    requires forall i :: 0 <= i < |pairs| ==> WellWritten(pairs[i].value) && Castable(pairs[i].value)
    ensures InsertAll(Casting, [], pairs) == InsertAll(Clamping, [], pairs)
       <==> forall i :: 0 <= i < |pairs| && LastOf(pairs, i) ==> LivePlain(pairs[i].value)
    decreases pairs, 0
  {
    hide WellWritten, Castable, LivePlain, Meaning, InsertAll, LastValue;
    var a, b := InsertAll(Casting, [], pairs), InsertAll(Clamping, [], pairs);
    forall i | 0 <= i < |pairs| && LastOf(pairs, i)
      ensures Meaning(Casting, pairs[i].value) == Meaning(Clamping, pairs[i].value) <==> LivePlain(pairs[i].value)
      ensures a == b ==> Meaning(Casting, pairs[i].value) == Meaning(Clamping, pairs[i].value)
    {
      SameMeaningExactlyWhen(pairs[i].value);
      LastValueIs(Casting, pairs, i);
      LastValueIs(Clamping, pairs, i);
      var e := Entry(pairs[i].key, Meaning(Casting, pairs[i].value));
      LastWins(Casting, [], pairs, e);
      LastWins(Clamping, [], pairs, e);
    }
    if forall i :: 0 <= i < |pairs| && LastOf(pairs, i) ==> LivePlain(pairs[i].value) {
      forall e: Entry ensures e in a <==> e in b {
        LastWins(Casting, [], pairs, e);
        LastWins(Clamping, [], pairs, e);
        SameLastValue(pairs, e.key);
      }
      var any := Entry("", Integer(0));
      LastWins(Casting, [], pairs, any);
      LastWins(Clamping, [], pairs, any);
      SortedSame(a, b);
    }
  }

  lemma SameLastValue(pairs: seq<Pair>, key: string)
    requires forall i :: 0 <= i < |pairs| && LastOf(pairs, i) ==>
      Meaning(Casting, pairs[i].value) == Meaning(Clamping, pairs[i].value)
    ensures LastValue(Casting, pairs, key) == LastValue(Clamping, pairs, key)
  {
    hide Meaning, LastValue;
    if LastValue(Casting, pairs, key).Some? {
      var i := LastPair(Casting, pairs, key);
      LastValueIs(Casting, pairs, i);
      LastValueIs(Clamping, pairs, i);
    } else if LastValue(Clamping, pairs, key).Some? {
      var i := LastPair(Clamping, pairs, key);
      LastValueIs(Casting, pairs, i);
    }
  }

  // On a text that the stream decoder accepts, the substring decoder reads the same value of the same
  // length exactly when every number has a magnitude of 64 bits and every number that is not overwritten
  // lies in [0, INT64_MAX].
  lemma DecodersAgreeExactlyWhen(t: Syntax, rest: string)
    requires WellWritten(t) && |Write(t) + rest| <= INT_MAX
    ensures DecodeItem(Write(t) + rest, false) == Parsed(Meaning(Clamping, t), rest)
    ensures SubItem(Write(t) + rest) == DecodeItem(Write(t) + rest, false) <==> Castable(t) && LivePlain(t)
  {
    hide SubItem, DecodeItem, Write, Meaning, WellWritten, Castable, LivePlain;
    WrittenIsDecoded(t, rest);
    WrittenIsSub(t, rest);
    if Castable(t) { SameMeaningExactlyWhen(t); }
  }

  // ----- without repeated keys -----

  predicate NoRepeats(t: Syntax) {
    match t
    case Number(_, _) => true
    case Text(_, _) => true
    case Sequence(items) => forall i :: 0 <= i < |items| ==> NoRepeats(items[i])
    case Mapping(pairs) => forall i :: 0 <= i < |pairs| ==> LastOf(pairs, i) && NoRepeats(pairs[i].value)
  }

  // Every number lies in [0, INT64_MAX].
  predicate AllPlain(t: Syntax) {
    match t
    case Number(sign, n) => 0 <= Signed(sign, n) <= INT64_MAX
    case Text(_, _) => true
    case Sequence(items) => forall i :: 0 <= i < |items| ==> AllPlain(items[i])
    case Mapping(pairs) => forall i :: 0 <= i < |pairs| ==> AllPlain(pairs[i].value)
  }

  lemma {:induction false} AllAreLive(t: Syntax)
    requires WellWritten(t) && NoRepeats(t)
    ensures AllPlain(t) <==> Castable(t) && LivePlain(t)
    decreases t
  {
    match t
    case Number(sign, n) =>
    case Text(_, _) =>
    case Sequence(items) =>
      forall i | 0 <= i < |items| ensures AllPlain(items[i]) <==> Castable(items[i]) && LivePlain(items[i]) {
        AllAreLive(items[i]);
      }
    case Mapping(pairs) =>
      forall i | 0 <= i < |pairs|
        ensures LastOf(pairs, i)
        ensures AllPlain(pairs[i].value) <==> Castable(pairs[i].value) && LivePlain(pairs[i].value)
      {
        AllAreLive(pairs[i].value);
      }
  }

  // Without repeated keys they agree exactly when every number lies in [0, INT64_MAX].
  lemma AgreeWithoutRepeats(t: Syntax, rest: string)
    requires WellWritten(t) && NoRepeats(t) && |Write(t) + rest| <= INT_MAX
    ensures SubItem(Write(t) + rest) == Parsed(Meaning(Clamping, t), rest) <==> AllPlain(t)
  {
    DecodersAgreeExactlyWhen(t, rest);
    AllAreLive(t);
  }

  // ----- two inputs -----

  const TWICE: seq<Pair> := [Pair("1", "a", Number("-", 5)), Pair("1", "a", Number("", 3))]

  lemma SmallNumbers()
    ensures Write(Number("-", 5)) == "i-5e" && Write(Number("", 3)) == "i3e" && IsLength("1", "a")
  {
    assert Value("1") == 1 by { assert "1"[..0] == "" && DigitValue('1') == 1; }
    assert Digits(5) == "5" && Digits(3) == "3";
  }

  lemma PairsWritten()
    ensures WritePairs(TWICE) == "1:ai-5e1:ai3e"
  {
    SmallNumbers();
    hide Write, IsLength, WritePairs;
    assert TWICE == [TWICE[0]] + [TWICE[1]] && [TWICE[1]] == [TWICE[1]] + [];
    PairsCons(Clamping, TWICE[1], [], [], "");
    PairsCons(Clamping, TWICE[0], [TWICE[1]], [], "");
    NoPairs();
    assert WritePairs([TWICE[1]]) + "" == "1:ai3e";
    assert WritePairs(TWICE) == WritePairs(TWICE) + "";
  }

  lemma TwiceWritten()
    ensures WellWritten(Mapping(TWICE)) && Write(Mapping(TWICE)) == "d1:ai-5e1:ai3ee"
  {
    SmallNumbers();
    PairsWritten();
    hide Digits, IsLength, WritePairs;
  }

  lemma NoPairs()
    ensures WritePairs([]) == ""
  {
  }

  lemma TwiceMeans()
    ensures Meaning(Clamping, Mapping(TWICE)) == Dictionary([Entry("a", Integer(3))])
  {
    assert TWICE[1..] == [TWICE[1]] && TWICE[1..][1..] == [];
    assert [Entry("a", Integer(-5))][1..] == [];
    assert Insert([], "a", Integer(-5)) == [Entry("a", Integer(-5))];
    assert Insert([Entry("a", Integer(-5))], "a", Integer(3)) == [Entry("a", Integer(3))];
  }

  // A negative number that a later pair overwrites does not matter.
  lemma OverwrittenNumberAgrees()
    ensures SubItem("d1:ai-5e1:ai3ee") == DecodeItem("d1:ai-5e1:ai3ee", false)
         == Parsed(Dictionary([Entry("a", Integer(3))]), "")
  {
    TwiceWritten();
    TwiceMeans();
    var t := Mapping(TWICE);
    assert Castable(t) && LivePlain(t) by {
      assert !LastOf(TWICE, 0) by { assert TWICE[1].key == TWICE[0].key; }
      assert LivePlain(TWICE[1].value);
    }
    hide SubItem, DecodeItem, Write, Meaning, WellWritten, Castable, LivePlain;
    assert Write(t) + "" == "d1:ai-5e1:ai3ee";
    DecodersAgreeExactlyWhen(t, "");
  }

  // One that stays does.
  lemma NegativeNumberDisagrees()
    ensures SubItem("i-5e") == Parsed(Integer(SIZE_LIMIT - 5), "")
    ensures DecodeItem("i-5e", false) == Parsed(Integer(-5), "")
  {
    var t := Number("-", 5);
    assert Write(t) + "" == "i-5e";
    WrittenIsSub(t, "");
    WrittenIsDecoded(t, "");
  }
}
