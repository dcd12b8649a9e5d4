// Peer messages on the wire: BitTorrentMessage.cpp writes them, receiveData of
// connect.cpp and receiveMessage of PeerConnection.cpp read them back.
module Framing {
  import opened Types

  const UINT32: int := 0x1_0000_0000

  // ----- 32-bit integers as bytes -----

  // htonl, as the four bytes in memory.
  function Bytes4(n: nat): (b: bytes)
    requires n < UINT32
    ensures |b| == 4
  {
    [n / 0x100_0000, n / 0x1_0000 % 0x100, n / 0x100 % 0x100, n % 0x100]
  }

  // The number that bytes stand for, the most significant first.
  function ValueOf(b: bytes): nat {
    if b == [] then 0 else 0x100 * ValueOf(b[..|b| - 1]) + b[|b| - 1]
  }

  lemma ValueOfFour(b: bytes)
    requires |b| == 4
    ensures ValueOf(b) == 0x100 * (0x100 * (0x100 * (b[0] as int) + b[1] as int) + b[2] as int) + b[3] as int
  {
    assert b[..3][..2] == b[..2] && b[..2][..1] == b[..1] && b[..1][..0] == [];
    assert ValueOf(b[..1]) == b[0];
    assert ValueOf(b[..2]) == 0x100 * (b[0] as int) + b[1] as int;
  }

  lemma ValueOfBytes4(n: nat)
    requires n < UINT32
    ensures ValueOf(Bytes4(n)) == n
  {
    ValueOfFour(Bytes4(n));
    hide ValueOf;
    assert n / 0x1_0000 == 0x100 * (n / 0x100_0000) + n / 0x1_0000 % 0x100;
    assert n / 0x100 == 0x100 * (n / 0x1_0000) + n / 0x100 % 0x100;
  }

  lemma Bytes4OfValue(b: bytes)
    requires |b| == 4
    ensures ValueOf(b) < UINT32 && Bytes4(ValueOf(b)) == b
  {
    hide ValueOf;
    ValueOfFour(b);
    BytesOfNumber(b[0] as int, b[1] as int, b[2] as int, b[3] as int);
    assert b == [b[0], b[1], b[2], b[3]];
  }

  lemma BytesOfNumber(b0: nat, b1: nat, b2: nat, b3: nat)
    requires b0 < 0x100 && b1 < 0x100 && b2 < 0x100 && b3 < 0x100
    ensures var n := 0x100 * (0x100 * (0x100 * b0 + b1) + b2) + b3;
      n < UINT32 && n / 0x100_0000 == b0 && n / 0x1_0000 % 0x100 == b1 && n / 0x100 % 0x100 == b2 && n % 0x100 == b3
  {
    var q1 := 0x100 * b0 + b1;
    var q2 := 0x100 * q1 + b2;
    Quotient(0x100 * q2 + b3, 0x100, q2, b3);
    Quotient(0x100 * q2 + b3, 0x1_0000, q1, 0x100 * b2 + b3);
    Quotient(0x100 * q2 + b3, 0x100_0000, b0, 0x1_0000 * b1 + 0x100 * b2 + b3);
  }

  lemma Quotient(n: nat, d: nat, q: nat, r: nat)
    requires r < d && n == q * d + r
    ensures n / d == q && n % d == r
  {
    var k := n / d - q;
    assert k * d == r - n % d;
    SmallMultiple(k, d);
  }

  lemma SmallMultiple(k: int, d: int)
    requires d > 0
    ensures k >= 1 ==> k * d >= d
    ensures k <= -1 ==> k * d <= -d
  {
  }

  lemma {:induction false} ValueOfBound(b: bytes)
    requires |b| <= 4
    ensures ValueOf(b) < UINT32
    ensures |b| == 3 ==> ValueOf(b) < 0x100_0000
    ensures |b| == 2 ==> ValueOf(b) < 0x1_0000
    ensures |b| == 1 ==> ValueOf(b) < 0x100
    ensures |b| == 0 ==> ValueOf(b) == 0
  {
    if b != [] { ValueOfBound(b[..|b| - 1]); }
  }

  // ----- messages -----

  // The length field is a 32-bit word computed from the payload.
  datatype Message = Message(id: byte, payload: bytes) {
    function MessageLength(): nat { (|payload| + 1) % UINT32 }
  }

  // The id that an enumerator of -1 becomes as a uint8_t.
  const KEEP_ALIVE: byte := 255

  function Serialized(m: Message): bytes {
    Bytes4(m.MessageLength()) + [m.id] + m.payload
  }

  // The bytes of a word in the memory of a little-endian machine.
  function LittleEndian(n: nat): (b: bytes)
    requires n < UINT32
    ensures |b| == 4
  {
    [n % 0x100, n / 0x100 % 0x100, n / 0x1_0000 % 0x100, n / 0x100_0000]
  }

  method ToString(m: Message) returns (buffer: bytes)
    ensures buffer == Serialized(m)
  {
    var messageLength := LittleEndian(m.MessageLength());
    buffer := [];
    for i := 0 to 4
      invariant buffer == Bytes4(m.MessageLength())[..i]
    {
      buffer := buffer + [messageLength[3 - i]];
    }
    buffer := buffer + [m.id];
    buffer := buffer + m.payload;
  }

  // ----- the byte source -----

  // A connection as the pieces in which its bytes become available: one recv
  // returns at most the rest of the first.
  type Chunks = seq<bytes>

  predicate NoneEmpty(chunks: Chunks) {
    forall i :: 0 <= i < |chunks| ==> chunks[i] != []
  }

  function Flat(chunks: Chunks): bytes {
    if chunks == [] then [] else chunks[0] + Flat(chunks[1..])
  }

  // What is left after n bytes.
  function Drop(chunks: Chunks, n: nat): Chunks {
    if n == 0 || chunks == [] then chunks
    else if |chunks[0]| <= n then Drop(chunks[1..], n - |chunks[0]|)
    else [chunks[0][n..]] + chunks[1..]
  }

  lemma {:induction false} DropIs(chunks: Chunks, n: nat)
    requires NoneEmpty(chunks) && n <= |Flat(chunks)|
    ensures NoneEmpty(Drop(chunks, n)) && Flat(Drop(chunks, n)) == Flat(chunks)[n..]
  {
    if n > 0 {
      if |chunks[0]| <= n {
        DropIs(chunks[1..], n - |chunks[0]|);
      } else {
        assert Drop(chunks, n)[1..] == chunks[1..];
      }
    }
  }

  lemma {:induction false} DropOfDrop(chunks: Chunks, m: nat, n: nat)
    requires NoneEmpty(chunks)
    ensures Drop(Drop(chunks, m), n) == Drop(chunks, m + n)
  {
    if m > 0 && n > 0 && chunks != [] {
      if |chunks[0]| <= m {
        DropOfDrop(chunks[1..], m - |chunks[0]|, n);
      } else {
        var first := chunks[0][m..];
        assert Drop(chunks, m)[1..] == chunks[1..];
        if |first| > n { assert first[n..] == chunks[0][m + n..]; }
      }
    }
  }

  lemma FlatNonEmpty(chunks: Chunks)
    requires NoneEmpty(chunks)
    ensures Flat(chunks) == [] <==> chunks == []
  {
  }

  // ----- receiving -----

  // What receiveData reads for a size that is given: Some exactly when that many bytes come.
  function ReadBody(chunks: Chunks, size: nat): Option<(bytes, Chunks)> {
    if size <= |Flat(chunks)| then Some((Flat(chunks)[..size], Drop(chunks, size))) else None
  }

  // What it reads for size 0: a length that one recv must return whole, then as
  // many bytes. A length over INT_MAX becomes negative, and the buffer cannot be allocated.
  function ReadFrame(chunks: Chunks): Option<(bytes, Chunks)> {
    if chunks == [] || |chunks[0]| < 4 then None
    else
      var length := ValueOf(chunks[0][..4]);
      if length > INT_MAX then None else ReadBody(Drop(chunks, 4), length)
  }

  function MessageOf(frame: bytes): Message {
    if frame == [] then Message(KEEP_ALIVE, []) else Message(frame[0], frame[1..])
  }

  function ReadMessage(chunks: Chunks): Option<(Message, Chunks)> {
    match ReadFrame(chunks)
    case None => None
    case Some((frame, rest)) => Some((MessageOf(frame), rest))
  }

  datatype RuntimeError = RuntimeError

  class Socket {
    const sock: int
    var chunks: Chunks

    ghost predicate Valid() reads this { NoneEmpty(chunks) }

    constructor (sock: int, chunks: Chunks)
      requires NoneEmpty(chunks)
      ensures Valid() && this.sock == sock && this.chunks == chunks
    {
      this.sock := sock;
      this.chunks := chunks;
    }

    // At least one byte and at most n; none when the peer has closed or the call fails.
    method Recv(n: nat) returns (data: bytes)
      requires Valid() && n > 0
      modifies this
      ensures Valid() && |data| <= n && chunks == Drop(old(chunks), |data|)
      ensures if old(chunks) == [] then data == [] else
        data == if n <= |old(chunks)[0]| then old(chunks)[0][..n] else old(chunks)[0]
    {
      if chunks == [] { return []; }
      data := if |chunks[0]| <= n then chunks[0] else chunks[0][..n];
      DropIs(chunks, |data|);
      chunks := Drop(chunks, |data|);
    }

    method ReceiveData(expectedSize: int) returns (r: Result<bytes, RuntimeError>)
      requires Valid()
      modifies this
      ensures Valid()
      ensures var spec := if sock <= 0 || expectedSize < 0 then None
          else if expectedSize == 0 then ReadFrame(old(chunks)) else ReadBody(old(chunks), expectedSize);
        r.Ok? == spec.Some? && (r.Ok? ==> (r.value, chunks) == spec.value)
    {
      if sock <= 0 { return Err(RuntimeError); }
      if expectedSize != 0 {
        r := ReceiveBody(expectedSize);
      } else {
        var prefix := Recv(4);
        if |prefix| < 4 { return Err(RuntimeError); }
        var length := ValueOf(prefix);
        ValueOfBound(prefix);
        if length == 0 { return Ok([]); }
        r := ReceiveBody(if length > INT_MAX then length - UINT32 else length);
      }
    }

    // The buffer, which cannot have a negative size, and the loop that fills it.
    method ReceiveBody(expectedSize: int) returns (r: Result<bytes, RuntimeError>)
      requires Valid()
      modifies this
      ensures Valid()
      ensures var spec := if expectedSize < 0 then None else ReadBody(old(chunks), expectedSize);
        r.Ok? == spec.Some? && (r.Ok? ==> (r.value, chunks) == spec.value)
    {
      if expectedSize < 0 { return Err(RuntimeError); }
      ghost var all := Flat(chunks);
      var buffer: bytes := [];
      while |buffer| < expectedSize
        invariant Valid() && |buffer| <= expectedSize && |buffer| <= |all|
        invariant buffer == all[..|buffer|] && chunks == Drop(old(chunks), |buffer|)
        invariant Flat(chunks) == all[|buffer|..]
        decreases expectedSize - |buffer|
      {
        ghost var before := chunks;
        var data := Recv(expectedSize - |buffer|);
        if data == [] { return Err(RuntimeError); }
        DropOfDrop(old(chunks), |buffer|, |data|);
        ReadIsNext(before, all, |buffer|, data);
        buffer := buffer + data;
      }
      r := Ok(buffer);
    }

    method ReceiveMessage() returns (r: Result<Message, RuntimeError>)
      requires Valid()
      modifies this
      ensures Valid()
      ensures var spec := if sock <= 0 then None else ReadMessage(old(chunks));
        r.Ok? == spec.Some? && (r.Ok? ==> (r.value, chunks) == spec.value)
    {
      var reply := ReceiveData(0);
      if reply.Err? { return Err(reply.error); }
      if reply.value == [] { return Ok(Message(KEEP_ALIVE, [])); }
      r := Ok(Message(reply.value[0], reply.value[1..]));
    }
  }

  // Bytes read from the first chunk are the next bytes of the whole input.
  lemma ReadIsNext(chunks: Chunks, all: bytes, done: nat, data: bytes)
    requires NoneEmpty(chunks) && chunks != [] && done <= |all| && Flat(chunks) == all[done..]
    requires |data| <= |chunks[0]| && data == chunks[0][..|data|]
    ensures done + |data| <= |all| && all[..done] + data == all[..done + |data|]
    ensures Flat(Drop(chunks, |data|)) == all[done + |data|..]
  {
    DropIs(chunks, |data|);
    assert data == Flat(chunks)[..|data|];
    assert all[done..][|data|..] == all[done + |data|..];
  }

  // ----- round trip -----

  function SerializedAll(messages: seq<Message>): bytes {
    if messages == [] then [] else Serialized(messages[0]) + SerializedAll(messages[1..])
  }

  // Successive receiveMessage calls.
  function ReadMessages(chunks: Chunks, n: nat): Option<(seq<Message>, Chunks)>
    decreases n
  {
    if n == 0 then Some(([], chunks))
    else
      match ReadMessage(chunks)
      case None => None
      case Some((m, rest)) =>
        match ReadMessages(rest, n - 1)
        case None => None
        case Some((ms, rest')) => Some(([m] + ms, rest'))
  }

  // At the start of every message one recv returns the whole length.
  predicate PrefixesWhole(chunks: Chunks, messages: seq<Message>)
    decreases messages
  {
    messages == []
    || (chunks != [] && |chunks[0]| >= 4 && PrefixesWhole(Drop(chunks, |Serialized(messages[0])|), messages[1..]))
  }

  predicate Sendable(messages: seq<Message>) {
    forall i :: 0 <= i < |messages| ==> |messages[i].payload| + 1 <= INT_MAX
  }

  lemma OneMessage(m: Message, chunks: Chunks, suffix: bytes)
    requires |m.payload| + 1 <= INT_MAX
    requires NoneEmpty(chunks) && Flat(chunks) == Serialized(m) + suffix
    requires chunks != [] && |chunks[0]| >= 4
    ensures ReadMessage(chunks) == Some((m, Drop(chunks, |Serialized(m)|)))
    ensures Flat(Drop(chunks, |Serialized(m)|)) == suffix && NoneEmpty(Drop(chunks, |Serialized(m)|))
  {
    hide Bytes4, ValueOf, Flat, Drop, NoneEmpty;
    var length := |m.payload| + 1;
    var frame := [m.id] + m.payload;
    var total := |Serialized(m)|;
    assert Serialized(m) == Bytes4(length) + frame;
    StartOfFlat(chunks, 4);
    assert chunks[0][..4] == Bytes4(length);
    ValueOfBytes4(length);
    DropIs(chunks, 4);
    assert Flat(Drop(chunks, 4)) == frame + suffix;
    assert (frame + suffix)[..length] == frame;
    DropOfDrop(chunks, 4, length);
    DropIs(chunks, total);
    assert Flat(chunks)[total..] == suffix;
    assert MessageOf(frame) == m;
  }

  lemma StartOfFlat(chunks: Chunks, n: nat)
    requires chunks != [] && n <= |chunks[0]|
    ensures |Flat(chunks)| >= n && Flat(chunks)[..n] == chunks[0][..n]
  {
  }

  // However the bytes of the messages are cut up, receiving gives the messages
  // back, in order and with nothing left, exactly when every length comes whole.
  lemma {:induction false} FramingRoundTripExactlyWhen(messages: seq<Message>, chunks: Chunks)
    requires Sendable(messages) && NoneEmpty(chunks) && Flat(chunks) == SerializedAll(messages)
    ensures ReadMessages(chunks, |messages|) == Some((messages, [])) <==> PrefixesWhole(chunks, messages)
  {
    hide ReadMessage;
    if messages == [] {
      FlatNonEmpty(chunks);
    } else {
      var m, rest := messages[0], messages[1..];
      FlatNonEmpty(chunks);
      if |chunks[0]| >= 4 {
        OneMessage(m, chunks, SerializedAll(rest));
        FramingRoundTripExactlyWhen(rest, Drop(chunks, |Serialized(m)|));
        assert messages == [m] + rest;
        WholePrefixStep(chunks, m, rest);
      } else {
        ShortPrefixFails(chunks);
      }
    }
  }

  lemma ShortPrefixFails(chunks: Chunks)
    requires chunks != [] && |chunks[0]| < 4
    ensures ReadMessage(chunks) == None
  {
  }

  lemma WholePrefixStep(chunks: Chunks, m: Message, rest: seq<Message>)
    requires ReadMessage(chunks).Some? && ReadMessage(chunks).value.0 == m
    ensures var left := ReadMessage(chunks).value.1;
      ReadMessages(chunks, |rest| + 1) == Some(([m] + rest, [])) <==> ReadMessages(left, |rest|) == Some((rest, []))
  {
    hide ReadMessage;
    var left := ReadMessage(chunks).value.1;
    if ReadMessages(left, |rest|).Some? {
      var ms := ReadMessages(left, |rest|).value.0;
      assert ([m] + ms)[1..] == ms && ([m] + rest)[1..] == rest;
    }
  }

  // A length that comes in two parts is not put together.
  lemma SplitPrefixFails()
    ensures var m := Message(2, []);
      var whole: Chunks := [[0, 0, 0, 1, 2]];
      var split: Chunks := [[0, 0], [0, 1, 2]];
      && Flat(whole) == Flat(split) == Serialized(m)
      && ReadMessage(whole) == Some((m, [])) && ReadMessage(split) == None
  {
    var m := Message(2, []);
    var whole: Chunks := [[0, 0, 0, 1, 2]];
    var split: Chunks := [[0, 0], [0, 1, 2]];
    assert whole[1..] == [] && split[1..] == [[0, 1, 2]] && split[1..][1..] == [];
    assert Flat(split[1..]) == [0, 1, 2];
    assert Flat(whole) == Serialized(m) + [];
    OneMessage(m, whole, []);
    assert Drop(whole, 5) == [];
    ShortPrefixFails(split);
  }

  // A message of INT_MAX bytes or more is not received, even when it comes whole.
  lemma OversizeFails(m: Message, chunks: Chunks, suffix: bytes)
    requires 0x8000_0000 <= |m.payload| + 1 < 0x1_0000_0000
    requires chunks != [] && Flat(chunks) == Serialized(m) + suffix
    ensures ReadMessage(chunks) == None
  {
    hide Bytes4, ValueOf, Flat, Drop;
    var length := |m.payload| + 1;
    ValueOfBytes4(length);
    if |chunks[0]| >= 4 {
      StartOfFlat(chunks, 4);
      assert chunks[0][..4] == Bytes4(length);
    }
  }
}
