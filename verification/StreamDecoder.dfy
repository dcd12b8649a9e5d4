// The recursive stream parser of libs/bencode/Decoder.cpp, over a stream whose position it advances.
module StreamDecoder {
  import opened Types
  import opened Numerals
  import opened Bencode
  import opened StreamDecoding

  // std::istringstream: the characters and the position of the next one.
  class InputStream {
    const data: string
    var pos: nat

    constructor (data: string)
      ensures Valid() && Rest() == data
    {
      this.data := data;
      pos := 0;
    }

    ghost predicate Valid() reads this { pos <= |data| }

    ghost function Rest(): string
      requires Valid()
      reads this
    {
      data[pos..]
    }

    // The next character; None at the end of the input.
    function Peek(): (c: Option<char>)
      requires Valid()
      reads this
      ensures c == if Rest() == "" then None else Some(Rest()[0])
    {
      if pos < |data| then Some(data[pos]) else None
    }

    method Get() returns (c: Option<char>)
      requires Valid()
      modifies this
      ensures Valid() && c == old(Peek())
      ensures Rest() == if c.None? then old(Rest()) else old(Rest())[1..]
    {
      c := Peek();
      if c.Some? { pos := pos + 1; }
    }

    // read: as many of n characters as there are.
    method Read(n: nat) returns (text: string)
      requires Valid()
      modifies this
      ensures Valid()
      ensures var k := if n <= |old(Rest())| then n else |old(Rest())|;
        text == old(Rest())[..k] && Rest() == old(Rest())[k..]
    {
      var end := if n <= |data| - pos then pos + n else |data|;
      text := data[pos..end];
      pos := end;
    }

    method ReadUpTo(sentinel: char) returns (ok: bool, text: string)
      requires Valid()
      modifies this
      ensures Valid()
      ensures var k := Before(old(Rest()), sentinel);
        text == old(Rest())[..k] && Rest() == old(Rest())[k..] && ok == (k < |old(Rest())|)
    {
      ghost var rest := Rest();
      ghost var k := Before(rest, sentinel);
      text := "";
      while Peek().Some? && Peek() != Some(sentinel)
        invariant Valid() && |text| <= k
        invariant text == rest[..|text|] && Rest() == rest[|text|..]
        decreases |data| - pos
      {
        var c := Get();
        text := text + [c.value];
      }
      ok := Peek() == Some(sentinel);
    }

    method ReadUntil(last: char) returns (ok: bool, text: string)
      requires Valid()
      modifies this
      ensures Valid()
      ensures var k := Before(old(Rest()), last);
        ok == (k < |old(Rest())|) && (ok ==> text == old(Rest())[..k + 1] && Rest() == old(Rest())[k + 1..])
    {
      ghost var rest := Rest();
      ghost var k := Before(rest, last);
      text := "";
      while Peek().Some?
        invariant Valid() && |text| <= k
        invariant text == rest[..|text|] && Rest() == rest[|text|..]
        decreases |data| - pos
      {
        var c := Get();
        text := text + [c.value];
        if c.value == last { return true, text; }
      }
      ok := false;
    }
  }

  datatype DecodingError = DecodingError

  // The outcome of a method that must return what a specification parses, or throw when it fails.
  ghost predicate Reads<T>(input: InputStream, r: Result<T, DecodingError>, spec: Parse<T>)
    reads input
  {
    input.Valid() && r.Ok? == spec.Parsed? && (r.Ok? ==> r.value == spec.value && input.Rest() == spec.rest)
  }

  class Decoder {
    constructor () {}

    method ReadExpectedChar(input: InputStream, expected: char) returns (ok: bool)
      requires input.Valid()
      modifies input
      ensures input.Valid()
      ensures ok == (old(input.Peek()) == Some(expected))
      ensures ok ==> input.Rest() == old(input.Rest())[1..]
    {
      var c := input.Get();
      ok := c == Some(expected);
    }

    method DecodeNext(input: InputStream) returns (r: Result<Item, DecodingError>)
      requires input.Valid()
      modifies input
      ensures Reads(input, r, DecodeItem(old(input.Rest()), false))
      decreases |input.data| - input.pos, 1
    {
      hide StreamDecoding.DecodeInteger, StreamDecoding.DecodeString, DecodeItems, DecodeEntries;
      var c := input.Peek();
      if c == Some('d') {
        r := DecodeDictionary(input);
      } else if c == Some('i') {
        r := DecodeInteger(input);
      } else if c == Some('l') {
        r := DecodeList(input);
      } else if c.Some? && IsDigit(c.value) {
        var text := DecodeString(input);
        r := match text case Ok(t) => Ok(String(t)) case Err(e) => Err(e);
      } else {
        r := Err(DecodingError);
      }
    }

    method DecodeDictionary(input: InputStream) returns (r: Result<Item, DecodingError>)
      requires input.Valid() && input.Peek() == Some('d')
      modifies input
      ensures Reads(input, r, DecodeItem(old(input.Rest()), false))
      decreases |input.data| - input.pos, 0
    {
      hide DecodeEntries;
      var _ := ReadExpectedChar(input, 'd');
      var entries := DecodeDictionaryItems(input);
      if entries.Err? { return Err(entries.error); }
      var _ := ReadExpectedChar(input, 'e');
      r := Ok(Dictionary(entries.value));
    }

    method DecodeDictionaryItems(input: InputStream) returns (r: Result<seq<Entry>, DecodingError>)
      requires input.Valid()
      modifies input
      ensures Reads(input, r, DecodeEntries(old(input.Rest()), [], false))
      decreases |input.data| - input.pos, 3
    {
      hide DecodeItem, Insert;
      var entries: seq<Entry> := [];
      while input.Peek() != Some('e')
        invariant input.Valid() && input.pos >= old(input.pos)
        invariant DecodeEntries(input.Rest(), entries, false) == DecodeEntries(old(input.Rest()), [], false)
        decreases |input.data| - input.pos
      {
        var key := DecodeDictionaryKey(input);
        if key.Err? { return Err(key.error); }
        var value := DecodeNext(input);
        if value.Err? { return Err(value.error); }
        entries := Insert(entries, key.value, value.value);
      }
      r := Ok(entries);
    }

    method DecodeDictionaryKey(input: InputStream) returns (r: Result<string, DecodingError>)
      requires input.Valid()
      modifies input
      ensures var spec := DecodeItem(old(input.Rest()), false);
        Reads(input, r, if spec.Parsed? && spec.value.String? then Parsed(spec.value.text, spec.rest) else Failed)
      decreases |input.data| - input.pos, 2
    {
      hide DecodeItem;
      var key := DecodeNext(input);
      if key.Err? { return Err(key.error); }
      r := if key.value.String? then Ok(key.value.text) else Err(DecodingError);
    }

    method DecodeList(input: InputStream) returns (r: Result<Item, DecodingError>)
      requires input.Valid() && input.Peek() == Some('l')
      modifies input
      ensures Reads(input, r, DecodeItem(old(input.Rest()), false))
      decreases |input.data| - input.pos, 0
    {
      hide DecodeItems;
      var _ := ReadExpectedChar(input, 'l');
      var items := DecodeListItems(input);
      if items.Err? { return Err(items.error); }
      var _ := ReadExpectedChar(input, 'e');
      r := Ok(List(items.value));
    }

    method DecodeListItems(input: InputStream) returns (r: Result<seq<Item>, DecodingError>)
      requires input.Valid()
      modifies input
      ensures Reads(input, r, DecodeItems(old(input.Rest()), [], false))
      decreases |input.data| - input.pos, 2
    {
      hide DecodeItem;
      var items: seq<Item> := [];
      while input.Peek() != Some('e')
        invariant input.Valid() && input.pos >= old(input.pos)
        invariant DecodeItems(input.Rest(), items, false) == DecodeItems(old(input.Rest()), [], false)
        decreases |input.data| - input.pos
      {
        var item := DecodeNext(input);
        if item.Err? { return Err(item.error); }
        items := items + [item.value];
      }
      r := Ok(items);
    }

    method DecodeInteger(input: InputStream) returns (r: Result<Item, DecodingError>)
      requires input.Valid() && input.Peek() == Some('i')
      modifies input
      ensures Reads(input, r, StreamDecoding.DecodeInteger(old(input.Rest()), false))
    {
      ghost var rest := input.Rest();
      var ok, encoded := input.ReadUntil('e');
      if !ok { return Err(DecodingError); }
      var text := encoded[1..|encoded| - 1];
      assert text == rest[1..Before(rest, 'e')];
      if !IsInteger(text) { return Err(DecodingError); }
      r := Ok(Integer(Clamp(IntegerOf(text))));
    }

    method DecodeString(input: InputStream) returns (r: Result<string, DecodingError>)
      requires input.Valid() && input.Peek().Some? && IsDigit(input.Peek().value)
      modifies input
      ensures Reads(input, r, StreamDecoding.DecodeString(old(input.Rest())))
    {
      hide AllDigits, Value;
      ghost var rest := input.Rest();
      var length := ReadStringLength(input);
      if length.Err? { return Err(length.error); }
      var _ := ReadExpectedChar(input, ':');
      ghost var start := Before(rest, ':') + 1;
      assert input.Rest() == rest[start..];
      r := ReadStringOfGivenLength(input, length.value);
      ghost var end := start + length.value;
      assert end <= |rest| ==>
        rest[start..][..length.value] == rest[start..end] && rest[start..][length.value..] == rest[end..];
    }

    method ReadStringLength(input: InputStream) returns (r: Result<nat, DecodingError>)
      requires input.Valid()
      modifies input
      ensures var rest := old(input.Rest());
        var k := Before(rest, ':');
        Reads(input, r,
          if k < |rest| && AllDigits(rest[..k]) && Value(rest[..k]) < SIZE_LIMIT
          then Parsed(Value(rest[..k]), rest[k..]) else Failed)
    {
      hide AllDigits, Value;
      var ok, length := input.ReadUpTo(':');
      if !ok || !AllDigits(length) || Value(length) >= SIZE_LIMIT { return Err(DecodingError); }
      r := Ok(Value(length));
    }

    method ReadStringOfGivenLength(input: InputStream, length: nat) returns (r: Result<string, DecodingError>)
      requires input.Valid()
      modifies input
      ensures var rest := old(input.Rest());
        Reads(input, r, if length <= |rest| then Parsed(rest[..length], rest[length..]) else Failed)
    {
      var text := input.Read(length);
      r := if |text| == length then Ok(text) else Err(DecodingError);
    }

    // The input must hold one item and nothing else.
    method Decode(data: string) returns (r: Result<Item, DecodingError>)
      ensures r.Ok? == StreamDecoding.Decode(data, false).Some?
      ensures r.Ok? ==> Some(r.value) == StreamDecoding.Decode(data, false)
    {
      var input := new InputStream(data);
      hide DecodeItem;
      r := DecodeNext(input);
      if r.Ok? && input.Peek().Some? { r := Err(DecodingError); }
    }
  }
}
