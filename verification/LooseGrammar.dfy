// The language of the substring decoder, src/bencode/decode.cpp: every way to write an item that it
// accepts, and proof that it accepts nothing else.
module LooseGrammar {
  import opened Types
  import opened Numerals
  import opened Bencode
  import opened StreamDecoding
  import opened SubstringDecoding
  import opened SubstringGrammar

  // A text as it may be written: numbers and lengths may have leading zeros, keys may be in any order and
  // occur more than once, and a list or a dictionary may lack its closing e.
  datatype Loose =
    | Number(sign: string, digits: string)
    | Text(length: string, text: string)
    | Sequence(items: seq<Loose>, closed: bool)
    | Mapping(pairs: seq<Member>, closed: bool)

  datatype Member = Member(length: string, key: string, value: Loose)

  predicate Open(t: Loose) {
    (t.Sequence? || t.Mapping?) && !t.closed
  }

  predicate IsNumeral(sign: string, digits: string) {
    && (sign == "" || sign == "+" || sign == "-")
    && digits != "" && AllDigits(digits) && Value(digits) < 0x1_0000_0000_0000_0000
  }

  // The length, the colon and the text together are counted by an int.
  predicate IsCount(length: string, text: string) {
    length != "" && AllDigits(length) && Value(length) == |text| && |length| + 1 + |text| <= 0x7fff_ffff
  }

  // Only the last thing written may be open, and then whatever encloses it is open too.
  predicate Valid(t: Loose)
    decreases t, 1
  {
    match t
    case Number(sign, digits) => IsNumeral(sign, digits)
    case Text(length, text) => IsCount(length, text)
    case Sequence(items, closed) => ValidItems(items, closed)
    case Mapping(pairs, closed) => ValidPairs(pairs, closed)
  }

  predicate ValidItems(items: seq<Loose>, closed: bool)
    decreases items, 0
  {
    forall i :: 0 <= i < |items| ==> Valid(items[i]) && (Open(items[i]) ==> !closed && i == |items| - 1)
  }

  predicate ValidPairs(pairs: seq<Member>, closed: bool)
    decreases pairs, 0
  {
    forall i :: 0 <= i < |pairs| ==>
      && IsCount(pairs[i].length, pairs[i].key) && Valid(pairs[i].value)
      && (Open(pairs[i].value) ==> !closed && i == |pairs| - 1)
  }

  function End(closed: bool): string {
    if closed then "e" else ""
  }

  function Write(t: Loose): string
    decreases t, 1
  {
    match t
    case Number(sign, digits) => "i" + (sign + digits) + "e"
    case Text(length, text) => length + ":" + text
    case Sequence(items, closed) => "l" + WriteItems(items) + End(closed)
    case Mapping(pairs, closed) => "d" + WritePairs(pairs) + End(closed)
  }

  function WriteItems(items: seq<Loose>): string
    decreases items, 0
  {
    if items == [] then "" else Write(items[0]) + WriteItems(items[1..])
  }

  function WritePairs(pairs: seq<Member>): string
    decreases pairs, 0
  {
    if pairs == [] then ""
    else pairs[0].length + ":" + pairs[0].key + (Write(pairs[0].value) + WritePairs(pairs[1..]))
  }

  // A minus sign negates modulo 2^64.
  function NumberOf(sign: string, n: nat): int {
    if sign == "-" then (SIZE_LIMIT - n) % SIZE_LIMIT else n
  }

  // The item that a valid text stands for.
  function Meaning(t: Loose): Item
    decreases t, 1
  {
    match t
    case Number(sign, digits) => Integer(if AllDigits(digits) then NumberOf(sign, Value(digits)) else 0)
    case Text(_, text) => String(text)
    case Sequence(items, _) => List(Meanings(items))
    case Mapping(pairs, _) => Dictionary(InsertAll([], pairs))
  }

  function Meanings(items: seq<Loose>): seq<Item>
    decreases items, 0
  {
    if items == [] then [] else [Meaning(items[0])] + Meanings(items[1..])
  }

  function InsertAll(entries: seq<Entry>, pairs: seq<Member>): seq<Entry>
    decreases pairs, 0
  {
    if pairs == [] then entries
    else InsertAll(Insert(entries, pairs[0].key, Meaning(pairs[0].value)), pairs[1..])
  }

  lemma ItemsCons(t: Loose, rest: seq<Loose>, closed: bool)
    ensures ValidItems([t] + rest, closed)
      <==> Valid(t) && ValidItems(rest, closed) && (Open(t) ==> !closed && rest == [])
  {
    hide Valid, Open;
    var items := [t] + rest;
    assert items[0] == t && forall i :: 0 <= i < |rest| ==> items[i + 1] == rest[i];
    assert forall i :: 0 <= i < |items| ==> items[i] == if i == 0 then t else rest[i - 1];
  }

  lemma PairsCons(p: Member, rest: seq<Member>, closed: bool)
    ensures ValidPairs([p] + rest, closed)
      <==> (&& IsCount(p.length, p.key) && Valid(p.value) && ValidPairs(rest, closed)
            && (Open(p.value) ==> !closed && rest == []))
  {
    hide Valid, Open, IsCount;
    var pairs := [p] + rest;
    assert pairs[0] == p && forall i :: 0 <= i < |rest| ==> pairs[i + 1] == rest[i];
    assert forall i :: 0 <= i < |pairs| ==> pairs[i] == if i == 0 then p else rest[i - 1];
  }

  // ----- completeness: whatever is valid is accepted -----

  lemma NumberIsRead(sign: string, digits: string, suffix: string)
    requires IsNumeral(sign, digits)
    ensures SubItem(Write(Number(sign, digits)) + suffix) == Parsed(Meaning(Number(sign, digits)), suffix)
  {
    hide SubItem, Value;
    assert IsDigit(digits[0]);
    assert Unsigned(sign + digits) == digits;
    SubIntegerOf(sign + digits, suffix);
  }

  lemma TextIsRead(length: string, text: string, suffix: string)
    requires IsCount(length, text)
    ensures SubItem(length + ":" + text + suffix) == Parsed(String(text), suffix)
  {
    hide Value;
    var s := length + ":" + text + suffix;
    var k := |length|;
    assert s[..k] == length && s[k] == ':';
    assert s[0] == length[0] && IsDigit(s[0]);
    LeadingDigitsAre(s, k);
    assert s[k + 1..k + 1 + |text|] == text;
    assert s[k + 1 + |text|..] == suffix;
  }

  lemma WriteStarts(t: Loose)
    requires Valid(t)
    ensures Write(t) != "" && Write(t)[0] != 'e'
  {
    match t
    case Text(length, text) => assert Write(t)[0] == length[0] && IsDigit(length[0]);
    case _ =>
  }

  lemma EndIsRead(closed: bool, suffix: string, items: seq<Item>, entries: seq<Entry>)
    requires !closed ==> suffix == ""
    ensures SubItems(End(closed) + suffix, items) == Parsed(items, suffix)
    ensures SubEntries(End(closed) + suffix, entries) == Parsed(entries, suffix)
  {
    assert ("e" + suffix)[1..] == suffix && "" + suffix == suffix;
  }

  lemma {:induction false} ValidIsRead(t: Loose, suffix: string)
    requires Valid(t) && (Open(t) ==> suffix == "")
    ensures SubItem(Write(t) + suffix) == Parsed(Meaning(t), suffix)
    decreases t, 1
  {
    hide SubItem, SubItems, SubEntries;
    match t
    case Number(sign, digits) => NumberIsRead(sign, digits, suffix);
    case Text(length, text) => TextIsRead(length, text, suffix);
    case Sequence(items, closed) =>
      ItemsAreRead(items, closed, [], suffix);
      assert [] + Meanings(items) == Meanings(items);
      SequenceIsRead(items, closed, suffix);
    case Mapping(pairs, closed) =>
      PairsAreRead(pairs, closed, [], suffix);
      MappingIsRead(pairs, closed, suffix);
  }

  lemma SequenceIsRead(items: seq<Loose>, closed: bool, suffix: string)
    requires ValidItems(items, closed)
    requires SubItems(WriteItems(items) + (End(closed) + suffix), []) == Parsed(Meanings(items), suffix)
    ensures Valid(Sequence(items, closed))
    ensures SubItem(Write(Sequence(items, closed)) + suffix) == Parsed(Meaning(Sequence(items, closed)), suffix)
  {
    hide SubItems, WriteItems, Meanings, End;
    var s := Write(Sequence(items, closed)) + suffix;
    assert s[0] == 'l' && s[1..] == WriteItems(items) + (End(closed) + suffix);
  }

  lemma MappingIsRead(pairs: seq<Member>, closed: bool, suffix: string)
    requires ValidPairs(pairs, closed)
    requires SubEntries(WritePairs(pairs) + (End(closed) + suffix), []) == Parsed(InsertAll([], pairs), suffix)
    ensures Valid(Mapping(pairs, closed))
    ensures SubItem(Write(Mapping(pairs, closed)) + suffix) == Parsed(Meaning(Mapping(pairs, closed)), suffix)
  {
    hide SubEntries, WritePairs, InsertAll, End;
    var s := Write(Mapping(pairs, closed)) + suffix;
    assert s[0] == 'd' && s[1..] == WritePairs(pairs) + (End(closed) + suffix);
  }

  lemma {:induction false} ItemsAreRead(items: seq<Loose>, closed: bool, done: seq<Item>, suffix: string)
    requires ValidItems(items, closed) && (!closed ==> suffix == "")
    ensures SubItems(WriteItems(items) + (End(closed) + suffix), done) == Parsed(done + Meanings(items), suffix)
    decreases items, 0
  {
    hide Valid, Open, Write, Meaning, SubItem, SubItems, End;
    var tail := End(closed) + suffix;
    EndIsRead(closed, suffix, done, []);
    if items == [] {
      assert "" + tail == tail && done + [] == done;
    } else {
      var first, others := items[0], items[1..];
      var rest := WriteItems(others) + tail;
      assert items == [first] + others;
      ItemsCons(first, others, closed);
      hide ValidItems;
      assert WriteItems(items) + tail == Write(first) + rest;
      if Open(first) { EndOfOpen(closed, suffix); }
      WriteStarts(first);
      ValidIsRead(first, rest);
      SubItemsStep(Write(first) + rest, done);
      ItemsAreRead(others, closed, done + [Meaning(first)], suffix);
      assert done + [Meaning(first)] + Meanings(others) == done + Meanings(items);
    }
  }

  lemma EndOfOpen(closed: bool, suffix: string)
    requires !closed && suffix == ""
    ensures End(closed) + suffix == "" && WriteItems([]) == "" && WritePairs([]) == ""
  {
  }

  lemma {:induction false} PairsAreRead(pairs: seq<Member>, closed: bool, done: seq<Entry>, suffix: string)
    requires ValidPairs(pairs, closed) && (!closed ==> suffix == "")
    ensures SubEntries(WritePairs(pairs) + (End(closed) + suffix), done) == Parsed(InsertAll(done, pairs), suffix)
    decreases pairs, 0
  {
    hide Valid, Open, Write, Meaning, SubItem, SubEntries, Insert, End, Value;
    var tail := End(closed) + suffix;
    EndIsRead(closed, suffix, [], done);
    if pairs == [] {
      assert "" + tail == tail;
    } else {
      var first, others := pairs[0], pairs[1..];
      var tail1 := WritePairs(others) + tail;
      var tail2 := Write(first.value) + tail1;
      var s := first.length + ":" + first.key + tail2;
      assert pairs == [first] + others;
      PairsCons(first, others, closed);
      hide ValidPairs;
      assert WritePairs(pairs) + tail == s;
      if Open(first.value) { EndOfOpen(closed, suffix); }
      assert s[0] == first.length[0] && IsDigit(first.length[0]);
      TextIsRead(first.length, first.key, tail2);
      ValidIsRead(first.value, tail1);
      SubEntriesStep(s, done);
      PairsAreRead(others, closed, Insert(done, first.key, Meaning(first.value)), suffix);
    }
  }

  // ----- soundness: whatever is accepted is valid -----

  lemma IntegerIsValid(s: string) returns (t: Loose)
    requires s != "" && s[0] == 'i' && SubInteger(s).Parsed?
    ensures Valid(t) && !Open(t) && Meaning(t) == SubInteger(s).value && s == Write(t) + SubInteger(s).rest
  {
    hide Value;
    var k := Before(s, 'e');
    var text := s[1..k];
    var sign := if text[0] == '+' then "+" else if text[0] == '-' then "-" else "";
    t := Number(sign, Unsigned(text));
    assert text == sign + Unsigned(text);
    assert s == ['i'] + text + ['e'] + s[k + 1..];
  }

  lemma StringIsValid(s: string) returns (length: string)
    requires SubString(s).Parsed?
    ensures var r := SubString(s); IsCount(length, r.value) && s == length + ":" + r.value + r.rest
  {
    hide Value;
    length := FirstDigits(s);
    var d := |length|;
    var end := d + 1 + Value(length);
    assert length == LeadingDigits(s) == s[..d];
    assert s == s[..d] + [s[d]] + s[d + 1..end] + s[end..];
  }

  lemma Enclosed(s: string, open: char, body: string, closed: bool, rest: string)
    requires s != "" && s[0] == open && s[1..] == body + (End(closed) + rest)
    ensures s == [open] + body + End(closed) + rest
  {
    hide End;
    assert s == [open] + s[1..];
  }

  lemma {:induction false} ReadIsValid(s: string) returns (t: Loose)
    requires SubItem(s).Parsed?
    ensures Valid(t) && (Open(t) ==> SubItem(s).rest == "")
    ensures Meaning(t) == SubItem(s).value && s == Write(t) + SubItem(s).rest
    decreases |s|, 0
  {
    hide SubInteger, SubString, SubItems, SubEntries, IsCount, WriteItems, WritePairs, Meanings, InsertAll, End;
    if s[0] == 'i' {
      t := IntegerIsValid(s);
    } else if s[0] == 'l' {
      var items, closed := ItemsAreValid(s[1..], []);
      t := Sequence(items, closed);
      assert [] + Meanings(items) == Meanings(items);
      Enclosed(s, 'l', WriteItems(items), closed, SubItems(s[1..], []).rest);
    } else if s[0] == 'd' {
      var pairs, closed := EntriesAreValid(s[1..], []);
      t := Mapping(pairs, closed);
      Enclosed(s, 'd', WritePairs(pairs), closed, SubEntries(s[1..], []).rest);
    } else {
      var length := StringIsValid(s);
      t := Text(length, SubString(s).value);
    }
  }

  lemma EndIsValid(s: string, items: seq<Item>, entries: seq<Entry>) returns (closed: bool)
    requires s == "" || s[0] == 'e'
    ensures closed <==> s != ""
    ensures var rest := if closed then s[1..] else "";
      && s == End(closed) + rest
      && SubItems(s, items) == Parsed(items, rest) && SubEntries(s, entries) == Parsed(entries, rest)
  {
    closed := s != "";
    if closed { assert s == "e" + s[1..]; }
  }

  lemma {:induction false} ItemsAreValid(s: string, items: seq<Item>) returns (ts: seq<Loose>, closed: bool)
    requires SubItems(s, items).Parsed?
    ensures var r := SubItems(s, items);
      && ValidItems(ts, closed) && (!closed ==> r.rest == "")
      && s == WriteItems(ts) + (End(closed) + r.rest) && r.value == items + Meanings(ts)
    decreases |s|, 1
  {
    hide Valid, Open, Write, Meaning, SubItem, SubItems, End;
    if s == "" || s[0] == 'e' {
      ts := [];
      closed := EndIsValid(s, items, []);
      assert "" + s == s && items + [] == items;
    } else {
      SubItemsStep(s, items);
      var first := SubItem(s);
      var t := ReadIsValid(s);
      var rest;
      rest, closed := ItemsAreValid(first.rest, items + [first.value]);
      ts := [t] + rest;
      assert ts[1..] == rest;
      if Open(t) { NothingAfterOpen(rest, closed, items + [first.value]); }
      ItemsCons(t, rest, closed);
      hide ValidItems;
      assert items + [first.value] + Meanings(rest) == items + Meanings(ts);
    }
  }

  lemma NothingAfterOpen(ts: seq<Loose>, closed: bool, items: seq<Item>)
    requires ValidItems(ts, closed) && WriteItems(ts) + (End(closed) + SubItems("", items).rest) == ""
    ensures ts == [] && !closed
  {
  }

  lemma NoPairAfterOpen(ps: seq<Member>, closed: bool, entries: seq<Entry>)
    requires ValidPairs(ps, closed) && WritePairs(ps) + (End(closed) + SubEntries("", entries).rest) == ""
    ensures ps == [] && !closed
  {
  }

  lemma {:induction false} EntriesAreValid(s: string, entries: seq<Entry>) returns (ps: seq<Member>, closed: bool)
    requires SubEntries(s, entries).Parsed?
    ensures var r := SubEntries(s, entries);
      && ValidPairs(ps, closed) && (!closed ==> r.rest == "")
      && s == WritePairs(ps) + (End(closed) + r.rest) && r.value == InsertAll(entries, ps)
    decreases |s|, 1
  {
    hide Valid, Open, Write, Meaning, SubItem, SubEntries, End, Insert, IsCount;
    if s == "" || s[0] == 'e' {
      ps := [];
      closed := EndIsValid(s, [], entries);
      assert "" + s == s;
    } else {
      KeyOfEntry(s, entries);
      SubEntriesStep(s, entries);
      var k := SubItem(s);
      var v := SubItem(k.rest);
      var length := KeyIsValid(s);
      var t := ReadIsValid(k.rest);
      var rest;
      var more := Insert(entries, k.value.text, v.value);
      rest, closed := EntriesAreValid(v.rest, more);
      var p := Member(length, k.value.text, t);
      ps := [p] + rest;
      assert ps[1..] == rest;
      if Open(t) { NoPairAfterOpen(rest, closed, more); }
      PairsCons(p, rest, closed);
      hide ValidPairs;
      var end := End(closed) + SubEntries(s, entries).rest;
      assert s == length + ":" + k.value.text + (Write(t) + (WritePairs(rest) + end));
      assert s == WritePairs(ps) + end;
    }
  }

  lemma KeyOfEntry(s: string, entries: seq<Entry>)
    requires s != "" && s[0] != 'e' && SubEntries(s, entries).Parsed?
    ensures SubItem(s).Parsed? && SubItem(s).value.String?
  {
    hide SubItem;
  }

  lemma KeyIsValid(s: string) returns (length: string)
    requires SubItem(s).Parsed? && SubItem(s).value.String?
    ensures var r := SubItem(s); IsCount(length, r.value.text) && s == length + ":" + r.value.text + r.rest
  {
    hide SubString, SubItems, SubEntries, IsCount;
    length := StringIsValid(s);
  }

  // The substring decoder reads v from the front of s and leaves rest exactly when the front of s is a valid
  // text that stands for v, and all of s when that text is open.
  lemma LanguageIsExact(s: string, v: Item, rest: string)
    ensures SubItem(s) == Parsed(v, rest)
       <==> exists t :: Valid(t) && (Open(t) ==> rest == "") && Meaning(t) == v && s == Write(t) + rest
  {
    hide SubItem, Valid, Open, Meaning, Write;
    if SubItem(s) == Parsed(v, rest) {
      var t := ReadIsValid(s);
      assert Valid(t) && (Open(t) ==> rest == "") && Meaning(t) == v && s == Write(t) + rest;
    }
    forall t | Valid(t) && (Open(t) ==> rest == "") && Meaning(t) == v && s == Write(t) + rest
      ensures SubItem(s) == Parsed(v, rest)
    {
      ValidIsRead(t, rest);
    }
  }
}
