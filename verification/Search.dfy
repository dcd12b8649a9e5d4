// getValue: the search for a key through nested dictionaries and lists.
module Search {
  import opened Types
  import opened Bencode

  // Every entry the search can reach, in preorder: an entry before the
  // dictionaries below it, which are its value or directly inside its value.
  function Flatten(entries: seq<Entry>): seq<Entry>
    decreases entries, 0
  {
    if entries == [] then [] else [entries[0]] + Below(entries[0].value) + Flatten(entries[1..])
  }

  function Below(value: Item): seq<Entry>
    decreases value, 1
  {
    match value
    case Dictionary(entries) => Flatten(entries)
    case List(items) => FlattenItems(items)
    case _ => []
  }

  // Of the items of a list only dictionaries are entered: a list inside it is skipped.
  function FlattenItems(items: seq<Item>): seq<Entry>
    decreases items, 0
  {
    if items == [] then []
    else if items[0].Dictionary? then Flatten(items[0].entries) + FlattenItems(items[1..])
    else FlattenItems(items[1..])
  }

  function FirstMatch(entries: seq<Entry>, key: string): Option<Item> {
    if entries == [] then None
    else if entries[0].key == key then Some(entries[0].value)
    else FirstMatch(entries[1..], key)
  }

  // It is the value at the first position of the key, and None exactly when there is none.
  lemma {:induction false} FirstMatchIsFirst(entries: seq<Entry>, key: string)
    ensures FirstMatch(entries, key).None? <==> forall i :: 0 <= i < |entries| ==> entries[i].key != key
    ensures FirstMatch(entries, key).Some? ==>
      exists i :: 0 <= i < |entries| && entries[i] == Entry(key, FirstMatch(entries, key).value)
        && forall j :: 0 <= j < i ==> entries[j].key != key
  {
    if entries != [] {
      FirstMatchIsFirst(entries[1..], key);
      var first, rest := entries[0], entries[1..];
      assert forall i :: 1 <= i < |entries| ==> entries[i] == rest[i - 1];
      if first.key == key {
        assert entries[0] == Entry(key, FirstMatch(entries, key).value);
      } else if FirstMatch(rest, key).Some? {
        var i :| 0 <= i < |rest| && rest[i] == Entry(key, FirstMatch(rest, key).value)
          && forall j :: 0 <= j < i ==> rest[j].key != key;
        assert entries[i + 1] == Entry(key, FirstMatch(entries, key).value);
      }
    }
  }

  lemma {:induction false} FirstMatchOfConcat(a: seq<Entry>, b: seq<Entry>, key: string)
    ensures FirstMatch(a + b, key) == if FirstMatch(a, key).Some? then FirstMatch(a, key) else FirstMatch(b, key)
  {
    if a == [] {
      assert a + b == b;
    } else {
      assert (a + b)[1..] == a[1..] + b;
      FirstMatchOfConcat(a[1..], b, key);
    }
  }

  lemma {:induction false} FlattenOfConcat(a: seq<Entry>, b: seq<Entry>)
    ensures Flatten(a + b) == Flatten(a) + Flatten(b)
  {
    hide Below;
    if a == [] {
      assert a + b == b;
    } else {
      assert (a + b)[1..] == a[1..] + b;
      FlattenOfConcat(a[1..], b);
    }
  }

  lemma FlattenStep(entries: seq<Entry>, key: string)
    requires entries != []
    ensures FirstMatch(Flatten(entries), key)
         == if entries[0].key == key then Some(entries[0].value)
            else if FirstMatch(Below(entries[0].value), key).Some? then FirstMatch(Below(entries[0].value), key)
            else FirstMatch(Flatten(entries[1..]), key)
  {
    hide Below;
    FirstMatchOfConcat([entries[0]] + Below(entries[0].value), Flatten(entries[1..]), key);
    FirstMatchOfConcat([entries[0]], Below(entries[0].value), key);
    assert [entries[0]][1..] == [];
  }

  // The key is in the dictionary, or in one inside a value, or in one directly inside a list that is a value.
  predicate Has(entries: seq<Entry>, key: string)
    decreases entries, 0
  {
    exists i :: 0 <= i < |entries| && (entries[i].key == key || HasBelow(entries[i].value, key))
  }

  predicate HasBelow(value: Item, key: string)
    decreases value, 1
  {
    match value
    case Dictionary(entries) => Has(entries, key)
    case List(items) => exists i :: 0 <= i < |items| && HasDirectly(items[i], key)
    case _ => false
  }

  predicate HasDirectly(item: Item, key: string)
    decreases item, 0
  {
    item.Dictionary? && Has(item.entries, key)
  }

  lemma {:induction false} FoundExactlyWhen(entries: seq<Entry>, key: string)
    ensures FirstMatch(Flatten(entries), key).Some? <==> Has(entries, key)
    decreases entries, 0
  {
    hide Below, HasBelow, FirstMatch;
    if entries == [] {
      FlattenEmpty();
      FirstMatchIsFirst([], key);
    } else {
      FlattenStep(entries, key);
      FoundBelowExactlyWhen(entries[0].value, key);
      FoundExactlyWhen(entries[1..], key);
      assert forall i :: 1 <= i < |entries| ==> entries[i] == entries[1..][i - 1];
      if Has(entries[1..], key) {
        var i :| 0 <= i < |entries| - 1
          && (entries[1..][i].key == key || HasBelow(entries[1..][i].value, key));
        assert entries[i + 1] == entries[1..][i];
      }
    }
  }

  lemma {:induction false} FoundBelowExactlyWhen(value: Item, key: string)
    ensures FirstMatch(Below(value), key).Some? <==> HasBelow(value, key)
    decreases value, 1
  {
    hide Flatten, Has, FirstMatch;
    FirstMatchIsFirst([], key);
    match value
    case Dictionary(entries) => FoundExactlyWhen(entries, key);
    case List(items) => FoundInItemsExactlyWhen(items, key);
    case _ =>
  }

  lemma {:induction false} FoundInItemsExactlyWhen(items: seq<Item>, key: string)
    ensures FirstMatch(FlattenItems(items), key).Some?
       <==> exists i :: 0 <= i < |items| && HasDirectly(items[i], key)
    decreases items, 0
  {
    hide Flatten, Has, FirstMatch;
    if items == [] {
      FirstMatchIsFirst([], key);
    } else {
      var rest := items[1..];
      FoundInItemsExactlyWhen(rest, key);
      assert forall i :: 1 <= i < |items| ==> items[i] == rest[i - 1];
      if items[0].Dictionary? {
        FirstMatchOfConcat(Flatten(items[0].entries), FlattenItems(rest), key);
        FoundExactlyWhen(items[0].entries, key);
      }
      if i :| 0 <= i < |rest| && HasDirectly(rest[i], key) { assert HasDirectly(items[i + 1], key); }
    }
  }

  // The first entry that has the key or leads to it decides: its own key before what is below it.
  lemma {:induction false} FirstEntryDecides(entries: seq<Entry>, key: string, i: nat)
    requires i < |entries| && (entries[i].key == key || HasBelow(entries[i].value, key))
    requires forall j :: 0 <= j < i ==> entries[j].key != key && !HasBelow(entries[j].value, key)
    ensures FirstMatch(Flatten(entries), key)
         == if entries[i].key == key then Some(entries[i].value) else FirstMatch(Below(entries[i].value), key)
  {
    hide Below, HasBelow, FirstMatch, Flatten;
    FlattenStep(entries, key);
    FoundBelowExactlyWhen(entries[0].value, key);
    if i > 0 { FirstEntryDecides(entries[1..], key, i - 1); }
  }

  // In a list the first dictionary with the key decides.
  lemma {:induction false} FirstDictionaryDecides(items: seq<Item>, key: string, i: nat)
    requires i < |items| && HasDirectly(items[i], key)
    requires forall j :: 0 <= j < i ==> !HasDirectly(items[j], key)
    ensures FirstMatch(Below(List(items)), key) == FirstMatch(Flatten(items[i].entries), key)
    decreases i
  {
    hide FirstMatch, Flatten, Has;
    if items[0].Dictionary? {
      FirstMatchOfConcat(Flatten(items[0].entries), FlattenItems(items[1..]), key);
      FoundExactlyWhen(items[0].entries, key);
    }
    if i > 0 { FirstDictionaryDecides(items[1..], key, i - 1); }
  }

  method DictionaryGetValue(entries: seq<Entry>, key: string) returns (r: Option<Item>)
    ensures r == FirstMatch(Flatten(entries), key)
    decreases entries, 0
  {
    hide Flatten, FlattenItems;
    assert entries[0..] == entries;
    for i := 0 to |entries|
      invariant FirstMatch(Flatten(entries), key) == FirstMatch(Flatten(entries[i..]), key)
    {
      FlattenStep(entries[i..], key);
      assert entries[i..][1..] == entries[i + 1..];
      if entries[i].key == key { return Some(entries[i].value); }
      if entries[i].value.Dictionary? {
        var potentialValue := DictionaryGetValue(entries[i].value.entries, key);
        if potentialValue.Some? { return potentialValue; }
      } else if entries[i].value.List? {
        var potentialValue := ListGetValue(entries[i].value.items, key);
        if potentialValue.Some? { return potentialValue; }
      }
    }
    FlattenEmpty();
    r := None;
  }

  method ListGetValue(items: seq<Item>, key: string) returns (r: Option<Item>)
    ensures r == FirstMatch(FlattenItems(items), key)
    decreases items, 0
  {
    hide Flatten;
    assert items[0..] == items;
    for i := 0 to |items|
      invariant FirstMatch(FlattenItems(items), key) == FirstMatch(FlattenItems(items[i..]), key)
    {
      assert items[i..][1..] == items[i + 1..];
      if items[i].Dictionary? {
        FirstMatchOfConcat(Flatten(items[i].entries), FlattenItems(items[i + 1..]), key);
        var potentialValue := DictionaryGetValue(items[i].entries, key);
        if potentialValue.Some? { return potentialValue; }
      }
    }
    r := None;
  }

  lemma FlattenEmpty()
    ensures Flatten([]) == []
  {
  }

  predicate FirstPosition(entries: seq<Entry>, key: string, j: nat) {
    j < |entries| && entries[j].key == key && forall k :: 0 <= k < j ==> entries[k].key != key
  }

  // The comment at the search promises the current level before anything
  // nested. For a key at this level, the search returns its value exactly when
  // the first entry with the key among those that the entries before it lead
  // to, if there is one, has that value.
  lemma CurrentLevelFirstExactlyWhen(entries: seq<Entry>, i: nat)
    requires i < |entries|
    ensures var key, value := entries[i].key, entries[i].value;
      var earlier := Flatten(entries[..i]);
      (FirstMatch(Flatten(entries), key) == Some(value))
        <==> (forall j: nat :: FirstPosition(earlier, key, j) ==> earlier[j].value == value)
  {
    hide Flatten;
    var key, value := entries[i].key, entries[i].value;
    var earlier := Flatten(entries[..i]);
    assert entries == entries[..i] + entries[i..];
    FlattenOfConcat(entries[..i], entries[i..]);
    FirstMatchOfConcat(earlier, Flatten(entries[i..]), key);
    FlattenStep(entries[i..], key);
    FirstMatchIsFirst(earlier, key);
    hide FirstMatch;
    if FirstMatch(earlier, key).Some? {
      var j :| 0 <= j < |earlier| && earlier[j] == Entry(key, FirstMatch(earlier, key).value)
        && forall k :: 0 <= k < j ==> earlier[k].key != key;
      assert FirstPosition(earlier, key, j);
    }
  }

  // A nested value that comes before the one at the current level.
  lemma NestedValueComesFirst()
    ensures var inner := Dictionary([Entry("k", Integer(1))]);
      var entries := [Entry("a", inner), Entry("k", Integer(2))];
      WellFormed(Dictionary(entries)) && FirstMatch(Flatten(entries), "k") == Some(Integer(1))
  {
    var inner := [Entry("k", Integer(1))];
    var entries := [Entry("a", Dictionary(inner)), Entry("k", Integer(2))];
    FlattenStep(entries, "k");
    FlattenStep(inner, "k");
    assert Below(entries[0].value) == Flatten(inner);
    assert WellFormed(Dictionary(inner));
  }
}
