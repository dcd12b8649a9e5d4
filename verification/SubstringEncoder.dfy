// The second encoder, EncodeVisitor of src/bencode/encode.cpp, and where it
// agrees with the library encoder.
module SubstringEncoder {
  import opened Types
  import opened Numerals
  import opened Bencode
  import opened StreamDecoding

  const INT_MIN: int := -0x8000_0000

  // The integer overload takes an int: a longer one loses its high bits.
  function Narrow(n: int): (i: int)
    ensures -0x8000_0000 <= i < 0x8000_0000 && (n - i) % 0x1_0000_0000 == 0
    ensures i == n <==> INT_MIN <= n <= INT_MAX
  {
    (n - INT_MIN) % 0x1_0000_0000 + INT_MIN
  }

  function SubEncodeString(text: string): Option<string> {
    if text == "" then None else Some(EncodeString(text))
  }

  function SubEncode(item: Item): Option<string>
    decreases item, 1
  {
    match item
    case Integer(n) => Some("i" + ToString(Narrow(n)) + "e")
    case String(text) => SubEncodeString(text)
    case List(items) =>
      (match SubEncodeItems(items) case None => None case Some(body) => Some("l" + body + "e"))
    case Dictionary(entries) =>
      match SubEncodeEntries(entries) case None => None case Some(body) => Some("d" + body + "e")
  }

  function Joined(a: Option<string>, b: Option<string>): Option<string> {
    if a.Some? && b.Some? then Some(a.value + b.value) else None
  }

  function SubEncodeItems(items: seq<Item>): Option<string>
    decreases items, 0
  {
    if items == [] then Some("")
    else Joined(SubEncodeItems(items[..|items| - 1]), SubEncode(items[|items| - 1]))
  }

  function SubEncodeEntries(entries: seq<Entry>): Option<string>
    decreases entries, 0
  {
    if entries == [] then Some("")
    else
      var e := entries[|entries| - 1];
      Joined(SubEncodeEntries(entries[..|entries| - 1]), Joined(SubEncodeString(e.key), SubEncode(e.value)))
  }

  // ----- the visitor -----

  datatype InvalidArgument = InvalidArgument

  ghost predicate Throws(r: Result<string, InvalidArgument>, spec: Option<string>) {
    match spec case None => r.Err? case Some(text) => r == Ok(text)
  }

  method EncodeText(value: string) returns (r: Result<string, InvalidArgument>)
    ensures Throws(r, SubEncodeString(value))
  {
    if value == "" { return Err(InvalidArgument); }
    r := Ok(Digits(|value|) + ":" + value);
  }

  method EncodeDictionary(dict: seq<Entry>) returns (r: Result<string, InvalidArgument>)
    ensures Throws(r, SubEncode(Dictionary(dict)))
    decreases dict, 0
  {
    hide SubEncodeString, SubEncodeEntries, Narrow, Digits;
    var stream := "d";
    NoEntries(dict);
    for i := 0 to |dict|
      invariant SubEncodeEntries(dict[..i]).Some? && stream == "d" + SubEncodeEntries(dict[..i]).value
    {
      ghost var body := SubEncodeEntries(dict[..i]).value;
      EntriesExtend(dict, i);
      hide SubEncode;
      var key := EncodeText(dict[i].key);
      if key.Err? { return key; }
      var value := EncodeValue(dict[i].value);
      if value.Err? { return value; }
      assert SubEncodeEntries(dict[..i + 1]) == Some(body + (key.value + value.value));
      stream := stream + key.value + value.value;
      assert stream == "d" + (body + (key.value + value.value));
    }
    assert dict[..|dict|] == dict;
    r := Ok(stream + "e");
  }

  method EncodeList(vec: seq<Item>) returns (r: Result<string, InvalidArgument>)
    ensures Throws(r, SubEncode(List(vec)))
    decreases vec, 0
  {
    var stream := "l";
    assert vec[..|vec|] == vec;
    for i := 0 to |vec|
      invariant SubEncodeItems(vec[..i]).Some? && stream == "l" + SubEncodeItems(vec[..i]).value
    {
      ItemsPrefixFails(vec, i + 1);
      assert vec[..i + 1][..i] == vec[..i];
      var value := EncodeValue(vec[i]);
      if value.Err? { return value; }
      stream := stream + value.value;
    }
    r := Ok(stream + "e");
  }

  method EncodeValue(value: Item) returns (r: Result<string, InvalidArgument>)
    ensures Throws(r, SubEncode(value))
    decreases value, 1
  {
    match value
    case Integer(n) => r := Ok("i" + ToString(Narrow(n)) + "e");
    case String(text) => r := EncodeText(text);
    case List(items) => r := EncodeList(items);
    case Dictionary(entries) => r := EncodeDictionary(entries);
  }

  lemma {:induction false} ItemsPrefixFails(items: seq<Item>, k: nat)
    requires k <= |items|
    ensures SubEncodeItems(items[..k]).None? ==> SubEncodeItems(items).None?
    decreases |items| - k
  {
    if k < |items| {
      ItemsPrefixFails(items, k + 1);
      assert items[..k + 1][..k] == items[..k];
    } else {
      assert items[..k] == items;
    }
  }

  lemma {:induction false} EntriesPrefixFails(entries: seq<Entry>, k: nat)
    requires k <= |entries|
    ensures SubEncodeEntries(entries[..k]).None? ==> SubEncodeEntries(entries).None?
    decreases |entries| - k
  {
    if k < |entries| {
      EntriesPrefixFails(entries, k + 1);
      assert entries[..k + 1][..k] == entries[..k];
    } else {
      assert entries[..k] == entries;
    }
  }

  lemma NoEntries(entries: seq<Entry>)
    ensures SubEncodeEntries(entries[..0]) == Some("")
  {
  }

  lemma EntriesExtend(entries: seq<Entry>, i: nat)
    requires i < |entries|
    ensures SubEncodeEntries(entries[..i + 1])
         == Joined(SubEncodeEntries(entries[..i]), Joined(SubEncodeString(entries[i].key), SubEncode(entries[i].value)))
    ensures SubEncodeEntries(entries[..i + 1]).None? ==> SubEncode(Dictionary(entries)).None?
  {
    EntriesPrefixFails(entries, i + 1);
    assert entries[..i + 1][..i] == entries[..i];
  }

  // ----- agreement -----

  // No text in the tree, as a value or as a key, is empty.
  predicate NoEmptyText(item: Item) {
    match item
    case Integer(_) => true
    case String(text) => text != ""
    case List(items) => forall i :: 0 <= i < |items| ==> NoEmptyText(items[i])
    case Dictionary(entries) => forall i :: 0 <= i < |entries| ==> entries[i].key != "" && NoEmptyText(entries[i].value)
  }

  predicate AllInts(item: Item) {
    match item
    case Integer(n) => INT_MIN <= n <= INT_MAX
    case String(_) => true
    case List(items) => forall i :: 0 <= i < |items| ==> AllInts(items[i])
    case Dictionary(entries) => forall i :: 0 <= i < |entries| ==> AllInts(entries[i].value)
  }

  // The tree with every integer cut down to an int.
  function Narrowed(item: Item): Item
    decreases item
  {
    match item
    case Integer(n) => Integer(Narrow(n))
    case String(_) => item
    case List(items) => List(seq(|items|, i requires 0 <= i < |items| => Narrowed(items[i])))
    case Dictionary(entries) =>
      Dictionary(seq(|entries|, i requires 0 <= i < |entries| => Entry(entries[i].key, Narrowed(entries[i].value))))
  }

  lemma {:induction false} NarrowedIsSameExactlyWhen(item: Item)
    ensures Narrowed(item) == item <==> AllInts(item)
    decreases item
  {
    match item
    case Integer(n) =>
    case String(_) =>
    case List(items) =>
      forall i | 0 <= i < |items| ensures Narrowed(items[i]) == items[i] <==> AllInts(items[i]) {
        NarrowedIsSameExactlyWhen(items[i]);
      }
      var narrowed := Narrowed(item).items;
      assert forall i :: 0 <= i < |items| ==> narrowed[i] == Narrowed(items[i]);
      if AllInts(item) { assert narrowed == items; }
    case Dictionary(entries) =>
      forall i | 0 <= i < |entries|
        ensures Narrowed(entries[i].value) == entries[i].value <==> AllInts(entries[i].value)
      {
        NarrowedIsSameExactlyWhen(entries[i].value);
      }
      var narrowed := Narrowed(item).entries;
      assert forall i :: 0 <= i < |entries| ==> narrowed[i] == Entry(entries[i].key, Narrowed(entries[i].value));
      if AllInts(item) {
        assert forall i :: 0 <= i < |entries| ==> narrowed[i] == entries[i];
        assert narrowed == entries;
      }
  }

  lemma {:induction false} NarrowedIsWellFormed(item: Item)
    requires WellFormed(item)
    ensures WellFormed(Narrowed(item))
    decreases item
  {
    match item
    case Integer(n) =>
    case String(_) =>
    case List(items) =>
      forall i | 0 <= i < |items| ensures WellFormed(Narrowed(items[i])) { NarrowedIsWellFormed(items[i]); }
    case Dictionary(entries) =>
      forall i | 0 <= i < |entries| ensures WellFormed(Narrowed(entries[i].value)) {
        NarrowedIsWellFormed(entries[i].value);
      }
  }

  // The visitor throws exactly when some text is empty; otherwise it writes what
  // the library writes for the narrowed tree.
  lemma {:induction false} SubEncodeIs(item: Item)
    ensures SubEncode(item) == if NoEmptyText(item) then Some(Encode(Narrowed(item))) else None
    decreases item, 1
  {
    match item
    case Integer(n) =>
    case String(_) =>
    case List(items) =>
      SubEncodeItemsIs(items, Narrowed(item).items);
    case Dictionary(entries) =>
      SubEncodeEntriesIs(entries, Narrowed(item).entries);
  }

  lemma {:induction false} SubEncodeItemsIs(items: seq<Item>, narrowed: seq<Item>)
    requires |narrowed| == |items| && forall i :: 0 <= i < |items| ==> narrowed[i] == Narrowed(items[i])
    ensures SubEncodeItems(items)
         == if forall i :: 0 <= i < |items| ==> NoEmptyText(items[i]) then Some(EncodeItems(narrowed)) else None
    decreases items, 0
  {
    hide SubEncode, NoEmptyText, Narrowed, Encode;
    if items != [] {
      var n := |items| - 1;
      SubEncodeItemsIs(items[..n], narrowed[..n]);
      SubEncodeIs(items[n]);
      EncodeItemsAppend(narrowed[..n], narrowed[n]);
      assert narrowed == narrowed[..n] + [narrowed[n]];
      assert forall i :: 0 <= i < n ==> items[..n][i] == items[i];
    }
  }

  lemma {:induction false} SubEncodeEntriesIs(entries: seq<Entry>, narrowed: seq<Entry>)
    requires |narrowed| == |entries|
    requires forall i :: 0 <= i < |entries| ==> narrowed[i] == Entry(entries[i].key, Narrowed(entries[i].value))
    ensures SubEncodeEntries(entries)
         == if forall i :: 0 <= i < |entries| ==> entries[i].key != "" && NoEmptyText(entries[i].value)
            then Some(EncodeEntries(narrowed)) else None
    decreases entries, 0
  {
    hide SubEncode, NoEmptyText, Narrowed, Encode, EncodeString;
    if entries != [] {
      hide EncodeEntries;
      var n := |entries| - 1;
      SubEncodeEntriesIs(entries[..n], narrowed[..n]);
      SubEncodeIs(entries[n].value);
      EncodeEntriesAppend(narrowed[..n], narrowed[n]);
      assert narrowed == narrowed[..n] + [narrowed[n]];
      assert forall i :: 0 <= i < n ==> entries[..n][i] == entries[i];
    }
  }

  // The two encoders write the same text exactly when no text in the tree is
  // empty and every integer is an int.
  lemma EncodersAgreeExactlyWhen(item: Item)
    requires WellFormed(item)
    ensures SubEncode(item) == Some(Encode(item)) <==> NoEmptyText(item) && AllInts(item)
  {
    SubEncodeIs(item);
    NarrowedIsSameExactlyWhen(item);
    if NoEmptyText(item) && Encode(Narrowed(item)) == Encode(item) {
      NarrowedIsWellFormed(item);
      PrefixFree(Narrowed(item), item, "", "");
    }
  }
}
