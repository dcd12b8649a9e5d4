// Bencoded items and their encoding by the visitor of libs/bencode/Encoder.cpp.
module Bencode {
  import opened Numerals

  datatype Item =
    | Integer(value: int)
    | String(text: string)
    | List(items: seq<Item>)
    | Dictionary(entries: seq<Entry>)

  // A dictionary is a sorted map: its entries in the order of their keys.
  datatype Entry = Entry(key: string, value: Item)

  const INT64_MIN: int := -0x8000_0000_0000_0000
  const INT64_MAX: int := 0x7fff_ffff_ffff_ffff
  const SIZE_LIMIT: int := 0x1_0000_0000_0000_0000

  // The order of std::string.
  predicate Less(s: string, t: string) {
    if s == "" then t != ""
    else t != "" && (s[0] < t[0] || (s[0] == t[0] && Less(s[1..], t[1..])))
  }

  lemma {:induction false} LessIrreflexive(s: string)
    ensures !Less(s, s)
  {
    if s != "" { LessIrreflexive(s[1..]); }
  }

  lemma {:induction false} LessTransitive(s: string, t: string, u: string)
    requires Less(s, t) && Less(t, u)
    ensures Less(s, u)
  {
    if s != "" && s[0] == t[0] && t[0] == u[0] { LessTransitive(s[1..], t[1..], u[1..]); }
  }

  lemma {:induction false} LessTotal(s: string, t: string)
    ensures Less(s, t) || s == t || Less(t, s)
  {
    if s != "" && t != "" && s[0] == t[0] {
      LessTotal(s[1..], t[1..]);
      assert s == [s[0]] + s[1..] && t == [t[0]] + t[1..];
    }
  }

  // What that order is: a proper prefix comes first, and otherwise the first difference decides.
  predicate Lexicographic(s: string, t: string) {
    || (|s| < |t| && s == t[..|s|])
    || exists k :: 0 <= k < |s| && k < |t| && s[..k] == t[..k] && s[k] < t[k]
  }

  lemma {:induction false} LessExactlyWhen(s: string, t: string)
    ensures Less(s, t) <==> Lexicographic(s, t)
  {
    if s != "" && t != "" {
      assert s == [s[0]] + s[1..] && t == [t[0]] + t[1..];
      if s[0] == t[0] {
        LessExactlyWhen(s[1..], t[1..]);
        TailsLexicographic(s, t);
      } else if s[0] < t[0] {
        assert s[..0] == t[..0] && s[0] < t[0];
      } else {
        assert forall k :: 0 < k < |s| && k < |t| ==> s[..k][0] != t[..k][0];
      }
    }
  }

  lemma TailsLexicographic(s: string, t: string)
    requires s != "" && t != "" && s[0] == t[0]
    ensures Lexicographic(s, t) <==> Lexicographic(s[1..], t[1..])
  {
    var u, v := s[1..], t[1..];
    forall k | 0 <= k < |u| && k < |v| ensures u[..k] == v[..k] <==> s[..k + 1] == t[..k + 1] {
      assert s[..k + 1] == [s[0]] + u[..k] && t[..k + 1] == [t[0]] + v[..k];
    }
    if k :| 0 <= k < |u| && k < |v| && u[..k] == v[..k] && u[k] < v[k] {
      assert s[..k + 1] == t[..k + 1] && s[k + 1] < t[k + 1];
    }
    if k :| 0 <= k < |s| && k < |t| && s[..k] == t[..k] && s[k] < t[k] {
      assert u[..k - 1] == v[..k - 1] && u[k - 1] < v[k - 1];
    }
    assert s == [s[0]] + u && t == [t[0]] + v;
    if |u| < |v| { assert t[..|s|] == [t[0]] + v[..|u|]; }
  }

  predicate Sorted(entries: seq<Entry>) {
    forall i, j :: 0 <= i < j < |entries| ==> Less(entries[i].key, entries[j].key)
  }

  // What a BItem can hold: 64-bit integers, strings of a size_t length, dictionaries sorted by key.
  predicate WellFormed(item: Item) {
    match item
    case Integer(n) => INT64_MIN <= n <= INT64_MAX
    case String(text) => |text| < SIZE_LIMIT
    case List(items) => forall i :: 0 <= i < |items| ==> WellFormed(items[i])
    case Dictionary(entries) => Sorted(entries) && WellFormedEntries(entries)
  }

  predicate WellFormedEntries(entries: seq<Entry>) {
    forall i :: 0 <= i < |entries| ==> |entries[i].key| < SIZE_LIMIT && WellFormed(entries[i].value)
  }

  // In every dictionary of the item each key comes before all later ones.
  predicate KeysAscend(item: Item) {
    match item
    case Integer(_) => true
    case String(_) => true
    case List(items) => forall i :: 0 <= i < |items| ==> KeysAscend(items[i])
    case Dictionary(entries) =>
      && (forall i, j :: 0 <= i < j < |entries| ==> Lexicographic(entries[i].key, entries[j].key))
      && forall i :: 0 <= i < |entries| ==> KeysAscend(entries[i].value)
  }

  lemma {:induction false} WellFormedKeysAscend(item: Item)
    requires WellFormed(item)
    ensures KeysAscend(item)
  {
    hide Less, Lexicographic;
    match item
    case Integer(_) =>
    case String(_) =>
    case List(items) =>
      forall i | 0 <= i < |items| ensures KeysAscend(items[i]) { WellFormedKeysAscend(items[i]); }
    case Dictionary(entries) =>
      forall i, j | 0 <= i < j < |entries| ensures Lexicographic(entries[i].key, entries[j].key) {
        LessExactlyWhen(entries[i].key, entries[j].key);
      }
      forall i | 0 <= i < |entries| ensures KeysAscend(entries[i].value) { WellFormedKeysAscend(entries[i].value); }
  }

  // itemMap[key] = value.
  function Insert(entries: seq<Entry>, key: string, value: Item): seq<Entry> {
    if entries == [] then [Entry(key, value)]
    else if entries[0].key == key then [Entry(key, value)] + entries[1..]
    else if Less(key, entries[0].key) then [Entry(key, value)] + entries
    else [entries[0]] + Insert(entries[1..], key, value)
  }

  function EncodeString(text: string): string {
    Digits(|text|) + ":" + text
  }

  function Encode(item: Item): string
    decreases item, 1
  {
    match item
    case Integer(n) => "i" + ToString(n) + "e"
    case String(text) => EncodeString(text)
    case List(items) => "l" + EncodeItems(items) + "e"
    case Dictionary(entries) => "d" + EncodeEntries(entries) + "e"
  }

  function EncodeItems(items: seq<Item>): string
    decreases items, 0
  {
    if items == [] then "" else Encode(items[0]) + EncodeItems(items[1..])
  }

  function EncodeEntries(entries: seq<Entry>): string
    decreases entries, 0
  {
    if entries == [] then ""
    else EncodeString(entries[0].key) + Encode(entries[0].value) + EncodeEntries(entries[1..])
  }

  lemma {:induction false} EncodeItemsAppend(items: seq<Item>, item: Item)
    ensures EncodeItems(items + [item]) == EncodeItems(items) + Encode(item)
  {
    if items == [] {
      assert items + [item] == [item] && [item][1..] == [];
    } else {
      assert (items + [item])[1..] == items[1..] + [item];
      EncodeItemsAppend(items[1..], item);
    }
  }

  lemma {:induction false} EncodeEntriesAppend(entries: seq<Entry>, e: Entry)
    ensures EncodeEntries(entries + [e]) == EncodeEntries(entries) + (EncodeString(e.key) + Encode(e.value))
  {
    if entries == [] {
      assert entries + [e] == [e] && [e][1..] == [];
    } else {
      assert (entries + [e])[1..] == entries[1..] + [e];
      EncodeEntriesAppend(entries[1..], e);
    }
  }

  // ----- insertion -----

  lemma SortedRest(entries: seq<Entry>)
    requires Sorted(entries) && entries != []
    ensures Sorted(entries[1..])
    ensures forall e :: e in entries[1..] ==> Less(entries[0].key, e.key)
  {
    assert forall i :: 0 <= i < |entries| - 1 ==> entries[1..][i] == entries[i + 1];
  }

  lemma SortedCons(first: Entry, rest: seq<Entry>)
    requires Sorted(rest) && forall e :: e in rest ==> Less(first.key, e.key)
    ensures Sorted([first] + rest)
  {
    var r := [first] + rest;
    forall i, j | 0 <= i < j < |r| ensures Less(r[i].key, r[j].key) {
      assert r[j] in rest;
    }
  }

  // Insertion gives the key its value and changes no other key.
  lemma {:induction false} InsertMembers(entries: seq<Entry>, key: string, value: Item, e: Entry)
    requires Sorted(entries)
    ensures e in Insert(entries, key, value) <==> e == Entry(key, value) || (e in entries && e.key != key)
  {
    if entries != [] {
      var first, rest := entries[0], entries[1..];
      assert entries == [first] + rest;
      SortedRest(entries);
      LessIrreflexive(key);
      if first.key == key {
      } else if Less(key, first.key) {
        if e in rest { LessTransitive(key, first.key, e.key); }
      } else {
        InsertMembers(rest, key, value, e);
      }
    }
  }

  // Insertion keeps the order.
  lemma {:induction false} InsertKeepsSorted(entries: seq<Entry>, key: string, value: Item)
    requires Sorted(entries)
    ensures Sorted(Insert(entries, key, value))
  {
    if entries != [] {
      var first, rest := entries[0], entries[1..];
      assert entries == [first] + rest;
      SortedRest(entries);
      if first.key == key {
        SortedCons(Entry(key, value), rest);
      } else if Less(key, first.key) {
        forall e | e in entries ensures Less(key, e.key) {
          if e in rest { LessTransitive(key, first.key, e.key); }
        }
        SortedCons(Entry(key, value), entries);
      } else {
        LessTotal(key, first.key);
        InsertKeepsSorted(rest, key, value);
        forall e | e in Insert(rest, key, value) ensures Less(first.key, e.key) {
          InsertMembers(rest, key, value, e);
        }
        SortedCons(first, Insert(rest, key, value));
      }
    }
  }

  // A key beyond all others goes to the end.
  lemma {:induction false} InsertAtEnd(entries: seq<Entry>, key: string, value: Item)
    requires forall i :: 0 <= i < |entries| ==> Less(entries[i].key, key)
    ensures Insert(entries, key, value) == entries + [Entry(key, value)]
  {
    if entries != [] {
      LessIrreflexive(key);
      if Less(key, entries[0].key) { LessTransitive(key, entries[0].key, key); }
      InsertAtEnd(entries[1..], key, value);
      assert entries == [entries[0]] + entries[1..];
    }
  }

  // Insertion adds at most the encoding of the new entry.
  lemma {:induction false} InsertLength(entries: seq<Entry>, key: string, value: Item)
    ensures |EncodeEntries(Insert(entries, key, value))|
         <= |EncodeEntries(entries)| + |EncodeString(key)| + |Encode(value)|
  {
    hide EncodeString, Encode;
    if entries == [] {
      assert [Entry(key, value)][1..] == [];
    } else {
      var r := Insert(entries, key, value);
      if entries[0].key == key {
        assert r[1..] == entries[1..];
      } else if Less(key, entries[0].key) {
        assert r[1..] == entries;
      } else {
        assert r[1..] == Insert(entries[1..], key, value);
        InsertLength(entries[1..], key, value);
      }
    }
  }
}
