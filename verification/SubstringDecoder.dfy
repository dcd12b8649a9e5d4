// The second decoder, src/bencode/decode.cpp: each helper takes a substring and
// returns a value with the number of characters it stands for.
module SubstringDecoder {
  import opened Types
  import opened Numerals
  import opened Bencode
  import opened StreamDecoding
  import opened SubstringDecoding

  datatype InvalidArgument = InvalidArgument

  type Offset<T> = Result<(T, nat), InvalidArgument>

  // r is the parse of s, with its length; it throws when the parse fails.
  ghost predicate Decodes<T>(s: string, r: Offset<T>, spec: Parse<T>) {
    && r.Ok? == spec.Parsed?
    && (r.Ok? ==> r.value.0 == spec.value && r.value.1 <= |s| && s[r.value.1..] == spec.rest)
  }

  lemma RestOfRest(s: string, i: nat, j: nat)
    requires i + j <= |s|
    ensures s[i..][j..] == s[i + j..]
  {
  }

  lemma DigitsStep(s: string)
    ensures s == "" ==> LeadingDigits(s) == FirstDigits(s) == ""
    ensures s != "" && IsDigit(s[0]) ==> FirstDigits(s) == LeadingDigits(s) == [s[0]] + LeadingDigits(s[1..])
    ensures s != "" && !IsDigit(s[0]) ==> FirstDigits(s) == FirstDigits(s[1..]) && LeadingDigits(s) == ""
  {
  }

  method FirstDigit(str: string) returns (number: string)
    ensures number == FirstDigits(str)
  {
    hide LeadingDigits, FirstDigits;
    number := "";
    assert str[0..] == str;
    for i := 0 to |str|
      invariant number == "" ==> FirstDigits(str) == FirstDigits(str[i..])
      invariant number != "" ==> FirstDigits(str) == number + LeadingDigits(str[i..])
    {
      DigitsStep(str[i..]);
      assert str[i..][1..] == str[i + 1..];
      if IsDigit(str[i]) {
        number := number + [str[i]];
      } else if number != "" {
        return;
      }
    }
    DigitsStep("");
  }

  method DecodeInt(s: string) returns (r: Offset<Item>)
    requires s != "" && s[0] == 'i'
    ensures Decodes(s, r, SubInteger(s))
  {
    var eIndex := Before(s, 'e');
    if eIndex == |s| { return Err(InvalidArgument); }
    var value := LexicalCast(s[1..eIndex]);
    if value.None? { return Err(InvalidArgument); }
    r := Ok((Integer(value.value), eIndex + 1));
  }

  method DecodeString(s: string) returns (r: Offset<string>)
    ensures Decodes(s, r, SubString(s))
  {
    if s == "" || !IsDigit(s[0]) { return Err(InvalidArgument); }
    var lengthPart := FirstDigit(s);
    var digitsInString := |lengthPart|;
    if Value(lengthPart) > INT_MAX { return Err(InvalidArgument); }
    var length := Value(lengthPart);
    if |s| < digitsInString + 1 || s[digitsInString] != ':' { return Err(InvalidArgument); }
    if !Fits(s, digitsInString + 1 + length) { return Err(InvalidArgument); }
    r := Ok((s[digitsInString + 1..digitsInString + 1 + length], digitsInString + 1 + length));
  }

  // The characters after the first, where a list or a dictionary starts reading.
  function Body(s: string): string {
    if s == "" then "" else s[1..]
  }

  method DecodeList(s: string) returns (r: Offset<seq<Item>>)
    requires s != ""
    ensures Decodes(s, r, SubItems(Body(s), []))
    decreases |s|, 0
  {
    hide SubItem;
    var xs: seq<Item> := [];
    var index := 1;
    while index < |s|
      invariant 1 <= index <= |s|
      invariant SubItems(s[index..], xs) == SubItems(Body(s), [])
    {
      if s[index] == 'e' {
        RestOfRest(s, index, 1);
        return Ok((xs, index + 1));
      }
      var item := DecodeValue(s[index..]);
      if item.Err? { return Err(item.error); }
      RestOfRest(s, index, item.value.1);
      xs := xs + [item.value.0];
      index := index + item.value.1;
    }
    r := Ok((xs, index));
  }

  lemma SubEntriesUnfolds(s: string, entries: seq<Entry>)
    ensures SubEntries("", entries) == Parsed(entries, "")
    ensures s != "" && s[0] == 'e' ==> SubEntries(s, entries) == Parsed(entries, s[1..])
    ensures s != "" && s[0] != 'e' ==>
      var k := SubItem(s);
      if k.Failed? || !k.value.String? then SubEntries(s, entries) == Failed
      else
        var v := SubItem(k.rest);
        SubEntries(s, entries)
          == if v.Failed? then Failed else SubEntries(v.rest, Insert(entries, k.value.text, v.value))
  {
    hide SubItem, Insert;
  }

  // For the empty string the offset is 1, beyond its end.
  method DecodeDict(s: string) returns (r: Offset<seq<Entry>>)
    ensures s != "" ==> Decodes(s, r, SubEntries(Body(s), []))
    ensures s == "" ==> r == Ok(([], 1))
    decreases |s|, 0
  {
    hide SubItem, SubEntries, Insert;
    var dict: seq<Entry> := [];
    var index := 1;
    while index < |s|
      invariant if s == "" then index == 1 && dict == [] else 1 <= index <= |s|
      invariant s != "" ==> SubEntries(s[index..], dict) == SubEntries(Body(s), [])
    {
      SubEntriesUnfolds(s[index..], dict);
      if s[index] == 'e' {
        RestOfRest(s, index, 1);
        return Ok((dict, index + 1));
      }
      var key := DecodeValue(s[index..]);
      if key.Err? || !key.value.0.String? { return Err(InvalidArgument); }
      RestOfRest(s, index, key.value.1);
      index := index + key.value.1;
      var value := DecodeValue(s[index..]);
      if value.Err? { return Err(value.error); }
      RestOfRest(s, index, value.value.1);
      dict := Insert(dict, key.value.0.text, value.value.0);
      index := index + value.value.1;
    }
    SubEntriesUnfolds("", dict);
    r := Ok((dict, index));
  }

  method DecodeValue(s: string) returns (r: Offset<Item>)
    ensures Decodes(s, r, SubItem(s))
    decreases |s|, 1
  {
    hide SubInteger, SubString, SubItems, SubEntries;
    if s == "" { return Err(InvalidArgument); }
    if s[0] == 'i' {
      r := DecodeInt(s);
    } else if s[0] == 'l' {
      var list := DecodeList(s);
      r := match list case Ok((xs, offset)) => Ok((List(xs), offset)) case Err(e) => Err(e);
    } else if s[0] == 'd' {
      var dict := DecodeDict(s);
      r := match dict case Ok((entries, offset)) => Ok((Dictionary(entries), offset)) case Err(e) => Err(e);
    } else {
      var text := DecodeString(s);
      r := match text case Ok((t, offset)) => Ok((String(t), offset)) case Err(e) => Err(e);
    }
  }

  // Characters after the value are ignored.
  method Decode(str: string) returns (r: Result<Item, InvalidArgument>)
    ensures r.Ok? == SubItem(str).Parsed? && (r.Ok? ==> r.value == SubItem(str).value)
  {
    var item := DecodeValue(str);
    r := match item case Ok((value, _)) => Ok(value) case Err(e) => Err(e);
  }
}
