// The integers inside peer messages: requestPiece and the handling of a piece
// message in PeerConnection.cpp, and bytesToInt of utils.cpp.
module PeerPayloads {
  import opened Types
  import opened Framing

  // ----- bytesToInt -----

  function Pow2(n: nat): nat { if n == 0 then 1 else 2 * Pow2(n - 1) }

  function Bit(n: nat): char { if n % 2 == 0 then '0' else '1' }

  // std::bitset<width>(n).to_string().
  function Binary(n: nat, width: nat): (s: string)
    ensures |s| == width
    ensures forall i :: 0 <= i < width ==> s[i] == '0' || s[i] == '1'
  {
    if width == 0 then "" else Binary(n / 2, width - 1) + [Bit(n)]
  }

  // The number that binary digits stand for.
  function BinaryValue(s: string): nat {
    if s == "" then 0 else 2 * BinaryValue(s[..|s| - 1]) + if s[|s| - 1] == '1' then 1 else 0
  }

  lemma DoubleProduct(a: nat, k: nat)
    requires k > 0
    ensures Pow2(k) == 2 * Pow2(k - 1) && a * Pow2(k) == 2 * (a * Pow2(k - 1))
  {
  }

  lemma {:induction false} BinaryValueAppend(s: string, n: nat, width: nat)
    requires n < Pow2(width)
    ensures BinaryValue(s + Binary(n, width)) == BinaryValue(s) * Pow2(width) + n
  {
    if width == 0 {
      assert s + "" == s;
    } else {
      hide Pow2;
      var longer := s + Binary(n, width);
      var front := s + Binary(n / 2, width - 1);
      assert longer == front + [Bit(n)] && longer[..|longer| - 1] == front;
      DoubleProduct(BinaryValue(s), width);
      BinaryValueAppend(s, n / 2, width - 1);
      assert BinaryValue(longer) == 2 * BinaryValue(front) + n % 2;
    }
  }

  lemma Pow2Of8()
    ensures Pow2(8) == 0x100
  {
    assert Pow2(4) == 16;
    assert Pow2(6) == 64;
  }

  // stoi(s, 0, 2) of binary digits: it throws on the empty string and over INT_MAX.
  function StoiBinary(s: string): Option<int> {
    if s == "" || BinaryValue(s) > INT_MAX then None else Some(BinaryValue(s))
  }

  // The number that the bytes stand for, when there are some and it is an int.
  function BytesToInt(b: bytes): (r: Option<int>)
    ensures r.Some? ==> 0 <= r.value <= 0x7fff_ffff
  {
    if b == [] || ValueOf(b) > INT_MAX then None else Some(ValueOf(b))
  }

  datatype InvalidOrOutOfRange = InvalidOrOutOfRange

  method BytesToIntViaBinary(b: bytes) returns (r: Result<int, InvalidOrOutOfRange>)
    ensures r.Ok? == BytesToInt(b).Some?
    ensures r.Ok? ==> Some(r.value) == BytesToInt(b)
  {
    hide Binary, BinaryValue, Pow2;
    Pow2Of8();
    BinaryValueOfEmpty();
    var binStr := "";
    for i := 0 to |b|
      invariant |binStr| == 8 * i && BinaryValue(binStr) == ValueOf(b[..i])
    {
      BinaryValueAppend(binStr, b[i], 8);
      assert b[..i + 1][..i] == b[..i];
      binStr := binStr + Binary(b[i], 8);
    }
    assert b[..|b|] == b;
    var value := StoiBinary(binStr);
    r := if value.Some? then Ok(value.value) else Err(InvalidOrOutOfRange);
  }

  lemma BinaryValueOfEmpty()
    ensures BinaryValue("") == 0
  {
  }

  // A 32-bit integer is recovered from its four bytes exactly when its top bit is clear.
  lemma RecoveredExactlyWhen(n: nat)
    requires n < UINT32
    ensures BytesToInt(Bytes4(n)) == Some(n) <==> n < 0x8000_0000
    ensures BytesToInt(Bytes4(n)).None? <==> n >= 0x8000_0000
  {
    ValueOfBytes4(n);
  }

  // ----- request -----

  // memcpy of three words in network order, then a copy byte by byte.
  method RequestPayload(piece: nat, offset: nat, length: nat) returns (payload: bytes)
    requires piece < UINT32 && offset < UINT32 && length < UINT32
    ensures payload == Request(piece, offset, length)
  {
    var temp := new byte[12](_ => 0);
    var index, begin, size := Bytes4(piece), Bytes4(offset), Bytes4(length);
    for i := 0 to 4
      invariant temp[..i] == index[..i]
    {
      temp[i] := index[i];
    }
    for i := 0 to 4
      invariant temp[..4] == index && temp[4..4 + i] == begin[..i]
    {
      temp[4 + i] := begin[i];
    }
    for i := 0 to 4
      invariant temp[..4] == index && temp[4..8] == begin && temp[8..8 + i] == size[..i]
    {
      temp[8 + i] := size[i];
    }
    payload := [];
    for i := 0 to 12
      invariant payload == temp[..i]
    {
      payload := payload + [temp[i]];
    }
    assert payload == temp[..4] + temp[4..8] + temp[8..12];
  }

  function Request(piece: nat, offset: nat, length: nat): bytes
    requires piece < UINT32 && offset < UINT32 && length < UINT32
  {
    Bytes4(piece) + Bytes4(offset) + Bytes4(length)
  }

  // Reading the request with bytesToInt recovers all three numbers exactly when they are ints.
  lemma RequestRecoveredExactlyWhen(piece: nat, offset: nat, length: nat)
    requires piece < UINT32 && offset < UINT32 && length < UINT32
    ensures var p := Request(piece, offset, length);
      && |p| == 12
      && (BytesToInt(p[..4]) == Some(piece) && BytesToInt(p[4..8]) == Some(offset) && BytesToInt(p[8..]) == Some(length)
          <==> piece <= INT_MAX && offset <= INT_MAX && length <= INT_MAX)
  {
    hide Bytes4, BytesToInt;
    var p := Request(piece, offset, length);
    assert p[..4] == Bytes4(piece) && p[4..8] == Bytes4(offset) && p[8..] == Bytes4(length);
    RecoveredExactlyWhen(piece);
    RecoveredExactlyWhen(offset);
    RecoveredExactlyWhen(length);
  }

  // ----- piece -----

  // std::string::substr: it throws beyond the end, and stops at it.
  function Substr(b: bytes, from: nat, count: nat): Option<bytes> {
    if from > |b| then None else Some(b[from..if count <= |b| - from then from + count else |b|])
  }

  // The index, the begin offset and the block of a piece message; None where it throws.
  function ParsePiece(payload: bytes): Option<(int, int, bytes)> {
    var index := BytesToInt(Substr(payload, 0, 4).value);
    if index.None? || Substr(payload, 4, 4).None? then None
    else
      var begin := BytesToInt(Substr(payload, 4, 4).value);
      var data := Substr(payload, 8, |payload|);
      if begin.None? || data.None? then None else Some((index.value, begin.value, data.value))
  }

  // A piece message is accepted exactly when it has both numbers and they are
  // ints; what is read from it determines the whole payload.
  lemma PieceParsedExactlyWhen(payload: bytes)
    ensures ParsePiece(payload).Some?
       <==> |payload| >= 8 && ValueOf(payload[..4]) <= INT_MAX && ValueOf(payload[4..8]) <= INT_MAX
    ensures ParsePiece(payload).Some? ==>
      var (index, begin, data) := ParsePiece(payload).value;
      0 <= index <= INT_MAX && 0 <= begin <= INT_MAX && payload == Bytes4(index) + Bytes4(begin) + data
  {
    hide ValueOf, Bytes4;
    if |payload| >= 8 {
      assert payload[0..4] == payload[..4] && payload[8..|payload|] == payload[8..];
      assert payload == payload[..4] + payload[4..8] + payload[8..];
      Bytes4OfValue(payload[..4]);
      Bytes4OfValue(payload[4..8]);
    }
  }

  lemma PieceRoundTrip(index: nat, begin: nat, data: bytes)
    requires index <= INT_MAX && begin <= INT_MAX
    ensures ParsePiece(Bytes4(index) + Bytes4(begin) + data) == Some((index, begin, data))
  {
    hide Bytes4, ValueOf;
    var p := Bytes4(index) + Bytes4(begin) + data;
    assert p[0..4] == Bytes4(index) && p[4..8] == Bytes4(begin) && p[8..] == data && p[8..|p|] == data;
    ValueOfBytes4(index);
    ValueOfBytes4(begin);
  }
}
