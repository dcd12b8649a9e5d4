// What the substring decoder makes of a truncated encoding.
module SubstringCuts {
  import opened Types
  import opened Numerals
  import opened Bencode
  import opened StreamDecoding
  import opened BencodeSyntax
  import opened StreamGrammar
  import opened SubstringDecoding
  import opened SubstringGrammar

  // ----- whole encodings -----

  // The text that the library writes for an item, as a syntax tree.
  function SyntaxOf(item: Item): Syntax
    decreases item, 1
  {
    match item
    case Integer(n) => Number(if n < 0 then "-" else "", if n < 0 then -n else n)
    case String(text) => Text(Digits(|text|), text)
    case List(items) => Sequence(SyntaxesOf(items))
    case Dictionary(entries) => Mapping(PairsOf(entries))
  }

  function SyntaxesOf(items: seq<Item>): seq<Syntax>
    decreases items, 0
  {
    if items == [] then [] else [SyntaxOf(items[0])] + SyntaxesOf(items[1..])
  }

  function PairsOf(entries: seq<Entry>): seq<Pair>
    decreases entries, 0
  {
    if entries == [] then []
    else [Pair(Digits(|entries[0].key|), entries[0].key, SyntaxOf(entries[0].value))] + PairsOf(entries[1..])
  }

  lemma {:induction false} SyntaxOfWrites(item: Item)
    requires WellFormed(item)
    ensures var t := SyntaxOf(item); WellWritten(t) && Castable(t) && Write(t) == Encode(item)
    decreases item, 1
  {
    match item
    case Integer(n) =>
    case String(text) => ValueOfDigits(|text|);
    case List(items) => SyntaxesOfWrite(items);
    case Dictionary(entries) => PairsOfWrite(entries);
  }

  lemma {:induction false} SyntaxesOfWrite(items: seq<Item>)
    requires forall i :: 0 <= i < |items| ==> WellFormed(items[i])
    ensures var ts := SyntaxesOf(items);
      WriteItems(ts) == EncodeItems(items) && forall i :: 0 <= i < |ts| ==> WellWritten(ts[i]) && Castable(ts[i])
    decreases items, 0
  {
    hide WellFormed, WellWritten, Castable, SyntaxOf, Write, Encode;
    if items != [] {
      SyntaxOfWrites(items[0]);
      SyntaxesOfWrite(items[1..]);
      assert SyntaxesOf(items)[1..] == SyntaxesOf(items[1..]);
    }
  }

  lemma {:induction false} PairsOfWrite(entries: seq<Entry>)
    requires WellFormedEntries(entries)
    ensures var ps := PairsOf(entries);
      && WritePairs(ps) == EncodeEntries(entries)
      && forall i :: 0 <= i < |ps| ==>
           IsLength(ps[i].length, ps[i].key) && WellWritten(ps[i].value) && Castable(ps[i].value)
    decreases entries, 0
  {
    hide WellFormed, WellWritten, Castable, SyntaxOf, Write, Encode, Value;
    if entries != [] {
      ValueOfDigits(|entries[0].key|);
      SyntaxOfWrites(entries[0].value);
      PairsOfWrite(entries[1..]);
      assert PairsOf(entries)[1..] == PairsOf(entries[1..]);
    }
  }

  // An item as the substring decoder reads its encoding: negative integers are cast.
  function Cast(item: Item): Item {
    Meaning(Casting, SyntaxOf(item))
  }

  lemma WholeIsRead(item: Item, suffix: string)
    requires WellFormed(item) && |Encode(item) + suffix| <= INT_MAX
    ensures SubItem(Encode(item) + suffix) == Parsed(Cast(item), suffix)
  {
    hide SubItem, WellFormed, Meaning, SyntaxOf;
    SyntaxOfWrites(item);
    WrittenIsSub(SyntaxOf(item), suffix);
  }

  lemma CastOfPlain(item: Item)
    requires WellFormed(item) && NoneNegative(item) && |Encode(item)| <= INT_MAX
    ensures Cast(item) == item
  {
    hide SubItem, WellFormed, NoneNegative, Meaning, SyntaxOf;
    assert Encode(item) + "" == Encode(item);
    WholeIsRead(item, "");
    SubRoundTrip(item, "");
  }

  // ----- cuts -----

  // The first k characters of the encoding are accepted: the cut is after a whole number of items or
  // entries of a list or dictionary, or inside an item or a value that is itself accepted.
  predicate CutAccepted(item: Item, k: nat)
    decreases item, 1
  {
    match item
    case Integer(_) => false
    case String(_) => false
    case List(items) => k >= 1 && ItemsCut(items, k - 1)
    case Dictionary(entries) => k >= 1 && EntriesCut(entries, k - 1)
  }

  predicate ItemsCut(items: seq<Item>, k: nat)
    decreases items, 0
  {
    k == 0
    || (items != []
        && var n := |Encode(items[0])|;
           if k < n then CutAccepted(items[0], k) else ItemsCut(items[1..], k - n))
  }

  // A cut inside a key, or between a key and its value, is not accepted.
  predicate EntriesCut(entries: seq<Entry>, k: nat)
    decreases entries, 0
  {
    k == 0
    || (entries != []
        && var m := |EncodeString(entries[0].key)|;
           var n := |Encode(entries[0].value)|;
           if k < m + n then k > m && CutAccepted(entries[0].value, k - m) else EntriesCut(entries[1..], k - m - n))
  }

  // What is read of it.
  function CutItem(item: Item, k: nat): Item
    requires CutAccepted(item, k)
    decreases item, 1
  {
    match item
    case List(items) => List(CutItems(items, k - 1, []))
    case Dictionary(entries) => Dictionary(CutEntries(entries, k - 1, []))
  }

  function CutItems(items: seq<Item>, k: nat, done: seq<Item>): seq<Item>
    requires ItemsCut(items, k)
    decreases items, 0
  {
    if k == 0 then done
    else
      var n := |Encode(items[0])|;
      if k < n then done + [CutItem(items[0], k)] else CutItems(items[1..], k - n, done + [Cast(items[0])])
  }

  function CutEntries(entries: seq<Entry>, k: nat, done: seq<Entry>): seq<Entry>
    requires EntriesCut(entries, k)
    decreases entries, 0
  {
    if k == 0 then done
    else
      var e := entries[0];
      var m, n := |EncodeString(e.key)|, |Encode(e.value)|;
      if k < m + n then Insert(done, e.key, CutItem(e.value, k - m))
      else CutEntries(entries[1..], k - m - n, Insert(done, e.key, Cast(e.value)))
  }

  // ----- they are exact -----

  lemma IntegerCut(n: int, k: nat)
    requires k < |Encode(Integer(n))|
    ensures SubItem(Encode(Integer(n))[..k]) == Failed
  {
    var s := Encode(Integer(n))[..k];
    NumeralRoundTrip(n);
    hide ToString;
    assert forall i :: 0 <= i < k ==> s[i] != 'e';
  }

  lemma StringCut(text: string, k: nat)
    requires |text| < SIZE_LIMIT && k < |EncodeString(text)| <= INT_MAX
    ensures SubItem(EncodeString(text)[..k]) == Failed
  {
    var s, t := EncodeString(text)[..k], EncodeString(text)[k..];
    assert EncodeString(text) + "" == s + t;
    StringRoundTrip(text, "");
    if s != "" {
      assert s[0] == EncodeString(text)[0] && IsDigit(s[0]);
      hide SubString, StreamDecoding.DecodeString, EncodeString;
      StringsAgree(s);
      if StreamDecoding.DecodeString(s).Parsed? { StringExtends(s, t); }
    }
  }

  // Of the first k characters of the encoding exactly this is read, and all of it.
  ghost predicate CutRead(item: Item, k: nat)
    requires k < |Encode(item)|
  {
    SubItem(Encode(item)[..k]) == if CutAccepted(item, k) then Parsed(CutItem(item, k), "") else Failed
  }

  lemma {:induction false} CutIsExact(item: Item, k: nat)
    requires WellFormed(item) && k < |Encode(item)| <= INT_MAX
    ensures CutRead(item, k)
    decreases item, 1
  {
    hide SubItem, SubItems, SubEntries, ItemsCut, EntriesCut, CutItem, CutItems, CutEntries;
    hide EncodeString, EncodeItems, EncodeEntries;
    match item
    case Integer(n) => IntegerCut(n, k);
    case String(text) => StringCut(text, k);
    case List(items) =>
      hide CutRead;
      if k > 0 { ItemsCutIsExact(items, k - 1, []); }
      ListCut(items, k);
    case Dictionary(entries) =>
      hide CutRead;
      if k > 0 { EntriesCutIsExact(entries, k - 1, []); }
      DictionaryCut(entries, k);
  }

  lemma ListCut(items: seq<Item>, k: nat)
    requires k < |Encode(List(items))|
    requires var r := if k > 0 && ItemsCut(items, k - 1) then Parsed(CutItems(items, k - 1, []), "") else Failed;
      k > 0 ==> SubItems(EncodeItems(items)[..k - 1], []) == r
    ensures CutRead(List(items), k)
  {
    hide SubItems, ItemsCut, CutItems, EncodeItems;
    var s := Encode(List(items))[..k];
    assert k > 0 ==> s[0] == 'l' && s[1..] == EncodeItems(items)[..k - 1];
  }

  lemma DictionaryCut(entries: seq<Entry>, k: nat)
    requires k < |Encode(Dictionary(entries))|
    requires
      var r := if k > 0 && EntriesCut(entries, k - 1) then Parsed(CutEntries(entries, k - 1, []), "") else Failed;
      k > 0 ==> SubEntries(EncodeEntries(entries)[..k - 1], []) == r
    ensures CutRead(Dictionary(entries), k)
  {
    hide SubEntries, EntriesCut, CutEntries, EncodeEntries;
    var s := Encode(Dictionary(entries))[..k];
    assert k > 0 ==> s[0] == 'd' && s[1..] == EncodeEntries(entries)[..k - 1];
  }

  lemma SubNothing(items: seq<Item>, entries: seq<Entry>)
    ensures SubItem("") == Failed
    ensures SubItems("", items) == Parsed(items, "") && SubEntries("", entries) == Parsed(entries, "")
  {
  }

  lemma {:induction false} ItemsCutIsExact(items: seq<Item>, k: nat, done: seq<Item>)
    requires forall i :: 0 <= i < |items| ==> WellFormed(items[i])
    requires k <= |EncodeItems(items)| <= INT_MAX
    ensures SubItems(EncodeItems(items)[..k], done)
         == if ItemsCut(items, k) then Parsed(CutItems(items, k, done), "") else Failed
    decreases items, 0
  {
    hide WellFormed, Encode, SubItem, SubItems, CutAccepted, CutItem, Cast;
    SubNothing(done, []);
    if k == 0 {
      assert EncodeItems(items)[..0] == "";
    } else {
      var first, rest := Encode(items[0]), EncodeItems(items[1..]);
      var n, s := |first|, EncodeItems(items)[..k];
      EncodeStarts(items[0]);
      assert s[0] == first[0];
      SubItemsStep(s, done);
      if k < n {
        assert s == first[..k];
        CutIsExact(items[0], k);
        if CutAccepted(items[0], k) { SubNothing(done + [CutItem(items[0], k)], []); }
      } else {
        assert s == first + rest[..k - n];
        WholeIsRead(items[0], rest[..k - n]);
        ItemsCutIsExact(items[1..], k - n, done + [Cast(items[0])]);
      }
    }
  }

  lemma SubEntriesFails(s: string, entries: seq<Entry>)
    requires s != "" && s[0] != 'e' && SubItem(s).Failed?
    ensures SubEntries(s, entries) == Failed
  {
    hide SubItem;
  }

  // One entry cut short: before its colon ends the key fails, before its value starts there is no value.
  lemma EntryCut(e: Entry, k: nat, done: seq<Entry>, s: string)
    requires |e.key| < SIZE_LIMIT && |EncodeString(e.key) + Encode(e.value)| <= INT_MAX
    requires 0 < k < |EncodeString(e.key)| + |Encode(e.value)| && s == (EncodeString(e.key) + Encode(e.value))[..k]
    requires k > |EncodeString(e.key)| ==> CutRead(e.value, k - |EncodeString(e.key)|)
    ensures var m := |EncodeString(e.key)|;
      SubEntries(s, done)
         == if k > m && CutAccepted(e.value, k - m) then Parsed(Insert(done, e.key, CutItem(e.value, k - m)), "")
            else Failed
  {
    var key, value := EncodeString(e.key), Encode(e.value);
    var m := |key|;
    KeyStarts(e.key);
    hide Encode, EncodeString, SubItem, SubEntries, CutAccepted, CutItem, Insert;
    assert s[0] == key[0];
    if k < m {
      assert s == key[..k];
      StringCut(e.key, k);
      SubEntriesFails(s, done);
    } else {
      var tail := value[..k - m];
      assert s == key + tail;
      KeyIsRead(e.key, tail);
      SubEntriesStep(s, done);
      SubNothing([], done);
      if k > m && CutAccepted(e.value, k - m) { SubNothing([], Insert(done, e.key, CutItem(e.value, k - m))); }
    }
  }

  lemma {:induction false} EntriesCutIsExact(entries: seq<Entry>, k: nat, done: seq<Entry>)
    requires WellFormedEntries(entries) && k <= |EncodeEntries(entries)| <= INT_MAX
    ensures SubEntries(EncodeEntries(entries)[..k], done)
         == if EntriesCut(entries, k) then Parsed(CutEntries(entries, k, done), "") else Failed
    decreases entries, 0
  {
    hide WellFormed, Encode, EncodeString, SubItem, SubEntries, CutAccepted, CutItem, Cast, Insert;
    SubNothing([], done);
    if k == 0 {
      assert EncodeEntries(entries)[..0] == "";
    } else {
      var e, rest := entries[0], EncodeEntries(entries[1..]);
      var key, value := EncodeString(e.key), Encode(e.value);
      var m, n, s := |key|, |value|, EncodeEntries(entries)[..k];
      if k < m + n {
        assert s == (key + value)[..k];
        if k > m { CutIsExact(e.value, k - m); }
        EntryCut(e, k, done, s);
      } else {
        var left := rest[..k - m - n];
        assert s == key + (value + left);
        EntryIsRead(e, left, done);
        EntriesCutIsExact(entries[1..], k - m - n, Insert(done, e.key, Cast(e.value)));
      }
    }
  }

  lemma EntryIsRead(e: Entry, suffix: string, done: seq<Entry>)
    requires |e.key| < SIZE_LIMIT && WellFormed(e.value)
    requires |EncodeString(e.key) + (Encode(e.value) + suffix)| <= INT_MAX
    ensures SubEntries(EncodeString(e.key) + (Encode(e.value) + suffix), done)
         == SubEntries(suffix, Insert(done, e.key, Cast(e.value)))
  {
    KeyStarts(e.key);
    hide WellFormed, Encode, EncodeString, SubItem, SubEntries, Cast, Insert;
    KeyIsRead(e.key, Encode(e.value) + suffix);
    WholeIsRead(e.value, suffix);
    SubEntriesStep(EncodeString(e.key) + (Encode(e.value) + suffix), done);
  }

  lemma KeyStarts(key: string)
    ensures EncodeString(key) != "" && EncodeString(key)[0] != 'e'
  {
    assert IsDigit(EncodeString(key)[0]);
  }

  lemma KeyIsRead(key: string, suffix: string)
    requires |key| < SIZE_LIMIT && |EncodeString(key) + suffix| <= INT_MAX
    ensures SubItem(EncodeString(key) + suffix) == Parsed(String(key), suffix)
  {
    ValueOfDigits(|key|);
    TextIsSub(Digits(|key|), key, suffix);
  }

  // In particular a list that lacks only its closing e is accepted, and a string or an integer never is.
  lemma {:induction false} UnclosedItemsAreCut(items: seq<Item>)
    ensures ItemsCut(items, |EncodeItems(items)|)
  {
    if items != [] { UnclosedItemsAreCut(items[1..]); }
  }

  // A list cut off before its closing e is accepted here and rejected by the stream decoder.
  lemma TruncatedListIsAccepted(items: seq<Item>)
    requires forall i :: 0 <= i < |items| ==> WellFormed(items[i]) && NoneNegative(items[i])
    requires |EncodeItems(items)| + 2 <= INT_MAX
    ensures var s := "l" + EncodeItems(items);
      SubItem(s) == Parsed(List(items), "") && Decode(s, false) == None
  {
    var s := "l" + EncodeItems(items);
    assert Encode(List(items))[..|s|] == s;
    UnclosedItemsAreCut(items);
    CutIsExact(List(items), |s|);
    UnclosedItemsKept(items, []);
    assert [] + items == items;
    TruncatedIsRejected(List(items), |s|);
  }

  lemma {:induction false} UnclosedItemsKept(items: seq<Item>, done: seq<Item>)
    requires forall i :: 0 <= i < |items| ==> WellFormed(items[i]) && NoneNegative(items[i])
    requires |EncodeItems(items)| <= INT_MAX
    ensures ItemsCut(items, |EncodeItems(items)|) && CutItems(items, |EncodeItems(items)|, done) == done + items
  {
    hide WellFormed, NoneNegative, Encode, CutItem, CutAccepted, Cast;
    UnclosedItemsAreCut(items);
    if items == [] {
      assert done + [] == done;
    } else {
      EncodeStarts(items[0]);
      CastOfPlain(items[0]);
      UnclosedItemsKept(items[1..], done + [items[0]]);
      assert done + [items[0]] + items[1..] == done + items;
    }
  }
}
