// The visitor of libs/bencode/Encoder.cpp, which accumulates into encodedData.
module StreamEncoder {
  import opened Types
  import opened Numerals
  import opened Bencode
  import opened StreamDecoding

  lemma EncodeEntriesEmpty()
    ensures EncodeEntries([]) == ""
  {
  }

  lemma Regroup(a: string, b: string, c: string, d: string)
    ensures a + b + c + d == a + (b + (c + d)) == a + (b + c + d)
  {
  }

  class Encoder {
    var encodedData: string

    constructor ()
      ensures encodedData == ""
    {
      encodedData := "";
    }

    // What is returned includes what earlier calls have accumulated.
    method Encode(data: Item) returns (r: string)
      modifies this
      ensures encodedData == old(encodedData) + Bencode.Encode(data)
      ensures r == encodedData
    {
      Accept(data);
      r := encodedData;
    }

    method Accept(item: Item)
      modifies this
      ensures encodedData == old(encodedData) + Bencode.Encode(item)
      decreases item, 1
    {
      match item
      case Integer(n) => VisitInteger(n);
      case String(text) => VisitString(text);
      case List(items) => VisitList(items);
      case Dictionary(entries) => VisitDictionary(entries);
    }

    method VisitDictionary(entries: seq<Entry>)
      modifies this
      ensures encodedData == old(encodedData) + ("d" + EncodeEntries(entries) + "e")
      decreases entries, 0
    {
      hide EncodeString, Bencode.Encode, EncodeEntries;
      ghost var before := encodedData;
      encodedData := encodedData + "d";
      EncodeEntriesEmpty();
      for i := 0 to |entries|
        invariant encodedData == before + ("d" + EncodeEntries(entries[..i]))
      {
        ghost var e := entries[i];
        VisitString(entries[i].key);
        Accept(entries[i].value);
        EncodeEntriesAppend(entries[..i], e);
        assert entries[..i + 1] == entries[..i] + [e];
        Regroup(before, "d" + EncodeEntries(entries[..i]), EncodeString(e.key), Bencode.Encode(e.value));
        Regroup("", "d", EncodeEntries(entries[..i]), EncodeString(e.key) + Bencode.Encode(e.value));
      }
      assert entries[..|entries|] == entries;
      encodedData := encodedData + "e";
    }

    method VisitInteger(n: int)
      modifies this
      ensures encodedData == old(encodedData) + Bencode.Encode(Integer(n))
    {
      var encodedInteger := "i" + ToString(n) + "e";
      encodedData := encodedData + encodedInteger;
    }

    method VisitList(items: seq<Item>)
      modifies this
      ensures encodedData == old(encodedData) + ("l" + EncodeItems(items) + "e")
      decreases items, 0
    {
      hide Bencode.Encode;
      ghost var before := encodedData;
      encodedData := encodedData + "l";
      for i := 0 to |items|
        invariant encodedData == before + ("l" + EncodeItems(items[..i]))
      {
        Accept(items[i]);
        EncodeItemsAppend(items[..i], items[i]);
        assert items[..i + 1] == items[..i] + [items[i]];
      }
      assert items[..|items|] == items;
      encodedData := encodedData + "e";
    }

    method VisitString(text: string)
      modifies this
      ensures encodedData == old(encodedData) + EncodeString(text)
      ensures EncodeString(text) == Bencode.Encode(String(text))
    {
      var encodedString := Digits(|text|) + ":" + text;
      encodedData := encodedData + encodedString;
    }
  }

  // When an encoder that has encoded items encodes one more, what it returns is
  // split by successive decodes into all of them.
  lemma AccumulatedEncodingSplits(items: seq<Item>, item: Item)
    requires WellFormed(item) && forall i :: 0 <= i < |items| ==> WellFormed(items[i])
    ensures DecodeStream(EncodeItems(items) + Encode(item)) == Some(items + [item])
  {
    EncodeItemsAppend(items, item);
    SplitStream(items + [item]);
  }
}
