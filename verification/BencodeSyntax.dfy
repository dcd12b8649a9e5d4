// Bencoded texts as syntax trees: how an item may be written and what it stands for.
module BencodeSyntax {
  import opened Types
  import opened Numerals
  import opened Bencode
  import opened StreamDecoding

  // A text as it is written: a numeral may have a sign, a length may have
  // leading zeros, keys may be in any order and occur more than once.
  datatype Syntax =
    | Number(sign: string, n: nat)
    | Text(length: string, text: string)
    | Sequence(items: seq<Syntax>)
    | Mapping(pairs: seq<Pair>)

  datatype Pair = Pair(length: string, key: string, value: Syntax)

  predicate IsLength(length: string, text: string) {
    length != "" && AllDigits(length) && Value(length) == |text| && |text| < SIZE_LIMIT
  }

  predicate WellWritten(t: Syntax) {
    match t
    case Number(sign, _) => sign == "" || sign == "+" || sign == "-"
    case Text(length, text) => IsLength(length, text)
    case Sequence(items) => forall i :: 0 <= i < |items| ==> WellWritten(items[i])
    case Mapping(pairs) =>
      forall i :: 0 <= i < |pairs| ==> IsLength(pairs[i].length, pairs[i].key) && WellWritten(pairs[i].value)
  }

  function Write(t: Syntax): string
    decreases t, 1
  {
    match t
    case Number(sign, n) => "i" + (sign + Digits(n)) + "e"
    case Text(length, text) => length + ":" + text
    case Sequence(items) => "l" + WriteItems(items) + "e"
    case Mapping(pairs) => "d" + WritePairs(pairs) + "e"
  }

  function WriteItems(items: seq<Syntax>): string
    decreases items, 0
  {
    if items == [] then "" else Write(items[0]) + WriteItems(items[1..])
  }

  function WritePairs(pairs: seq<Pair>): string
    decreases pairs, 0
  {
    if pairs == [] then ""
    else pairs[0].length + ":" + pairs[0].key + (Write(pairs[0].value) + WritePairs(pairs[1..]))
  }

  function Signed(sign: string, n: int): int {
    if sign == "-" then -n else n
  }

  // The two ways in which the decoders read a number that does not fit.
  datatype Reader = Clamping | Casting

  function NumberRead(reader: Reader, sign: string, n: nat): int {
    match reader
    case Clamping => Clamp(Signed(sign, n))
    case Casting => if sign == "-" then (SIZE_LIMIT - n) % SIZE_LIMIT else n
  }

  // The item that a text stands for.
  function Meaning(reader: Reader, t: Syntax): Item
    decreases t, 1
  {
    match t
    case Number(sign, n) => Integer(NumberRead(reader, sign, n))
    case Text(_, text) => String(text)
    case Sequence(items) => List(Meanings(reader, items))
    case Mapping(pairs) => Dictionary(InsertAll(reader, [], pairs))
  }

  function Meanings(reader: Reader, items: seq<Syntax>): seq<Item>
    decreases items, 0
  {
    if items == [] then [] else [Meaning(reader, items[0])] + Meanings(reader, items[1..])
  }

  function InsertAll(reader: Reader, entries: seq<Entry>, pairs: seq<Pair>): seq<Entry>
    decreases pairs, 0
  {
    if pairs == [] then entries
    else InsertAll(reader, Insert(entries, pairs[0].key, Meaning(reader, pairs[0].value)), pairs[1..])
  }

  lemma ItemsCons(reader: Reader, t: Syntax, rest: seq<Syntax>, before: seq<Item>, tail: string)
    ensures WriteItems([t] + rest) + tail == Write(t) + (WriteItems(rest) + tail)
    ensures before + Meanings(reader, [t] + rest) == before + [Meaning(reader, t)] + Meanings(reader, rest)
  {
    hide Write, Meaning;
    assert ([t] + rest)[1..] == rest;
  }

  lemma PairsCons(reader: Reader, p: Pair, rest: seq<Pair>, before: seq<Entry>, tail: string)
    ensures WritePairs([p] + rest) + tail == p.length + ":" + p.key + (Write(p.value) + (WritePairs(rest) + tail))
    ensures InsertAll(reader, before, [p] + rest)
         == InsertAll(reader, Insert(before, p.key, Meaning(reader, p.value)), rest)
  {
    hide Write, Meaning, Insert;
    assert ([p] + rest)[1..] == rest;
  }

  // The value of the last pair with a key.
  function LastValue(reader: Reader, pairs: seq<Pair>, key: string): Option<Item> {
    if pairs == [] then None
    else if LastValue(reader, pairs[1..], key).Some? then LastValue(reader, pairs[1..], key)
    else if pairs[0].key == key then Some(Meaning(reader, pairs[0].value))
    else None
  }

  // A dictionary is sorted and maps exactly the keys written to the value written last.
  lemma {:induction false} LastWins(reader: Reader, entries: seq<Entry>, pairs: seq<Pair>, e: Entry)
    requires Sorted(entries)
    ensures Sorted(InsertAll(reader, entries, pairs))
    ensures e in InsertAll(reader, entries, pairs) <==>
      LastValue(reader, pairs, e.key) == Some(e.value) || (LastValue(reader, pairs, e.key) == None && e in entries)
    decreases pairs
  {
    hide Insert, Meaning, Sorted;
    if pairs != [] {
      var first := pairs[0];
      InsertKeepsSorted(entries, first.key, Meaning(reader, first.value));
      InsertMembers(entries, first.key, Meaning(reader, first.value), e);
      LastWins(reader, Insert(entries, first.key, Meaning(reader, first.value)), pairs[1..], e);
      assert e == Entry(e.key, e.value);
    }
  }

  // Sorted entries are determined by what they map.
  lemma {:induction false} SortedSame(a: seq<Entry>, b: seq<Entry>)
    requires Sorted(a) && Sorted(b)
    requires forall e :: e in a <==> e in b
    ensures a == b
  {
    hide Less;
    HasMember(a);
    HasMember(b);
    if a != [] {
      SortedHead(a, b);
      forall e ensures e in a[1..] <==> e in b[1..] {
        SortedMember(a, e);
        SortedMember(b, e);
      }
      SortedRest(a);
      SortedRest(b);
      SortedSame(a[1..], b[1..]);
      assert a == [a[0]] + a[1..] && b == [b[0]] + b[1..];
    }
  }

  lemma HasMember(a: seq<Entry>)
    ensures a != [] ==> a[0] in a
  {
  }

  lemma SortedHead(a: seq<Entry>, b: seq<Entry>)
    requires Sorted(a) && Sorted(b) && a != [] && b != [] && a[0] in b && b[0] in a
    ensures a[0] == b[0]
  {
    var i :| 0 <= i < |b| && b[i] == a[0];
    var j :| 0 <= j < |a| && a[j] == b[0];
    if i > 0 && j > 0 {
      LessTransitive(a[0].key, a[j].key, a[0].key);
      LessIrreflexive(a[0].key);
    }
  }

  lemma SortedMember(a: seq<Entry>, e: Entry)
    requires Sorted(a) && a != []
    ensures e in a[1..] <==> e in a && e != a[0]
  {
    SortedRest(a);
    LessIrreflexive(a[0].key);
    assert a == [a[0]] + a[1..];
  }
}
