// hasPiece and setPiece of utils.cpp: one bit for every piece, the high bit of a byte first.
module Bitfield {
  import opened Types

  // 1 << k.
  function Bit(k: nat): (b: nat)
    requires k < 8
    ensures b >= 1
  {
    if k == 0 then 1 else 2 * Bit(k - 1)
  }

  // `b >> k & 1` is one.
  predicate IsSet(b: byte, k: nat)
    requires k < 8
  {
    b / Bit(k) % 2 == 1
  }

  // `b | (1 << k)`.
  function Set(b: byte, k: nat): (r: int)
    requires k < 8
  {
    if IsSet(b, k) then b else b + Bit(k)
  }

  // A piece past the end of the bit field is not advertised.
  predicate HasPiece(bitField: bytes, index: nat) {
    index / 8 < |bitField| && IsSet(bitField[index / 8], 7 - index % 8)
  }

  // The bits of a byte determine it, and each of them can be read.
  lemma ReadBit(b: byte, bits: seq<int>, j: nat)
    requires |bits| == 8 && j < 8 && forall i :: 0 <= i < 8 ==> 0 <= bits[i] <= 1
    requires b == bits[0] + 2 * bits[1] + 4 * bits[2] + 8 * bits[3]
               + 16 * bits[4] + 32 * bits[5] + 64 * bits[6] + 128 * bits[7]
    ensures IsSet(b, j) <==> bits[j] == 1
  {
    BitValues();
    match j
    case 0 =>
      assert b == 2 * (bits[1] + 2 * bits[2] + 4 * bits[3] + 8 * bits[4]
                       + 16 * bits[5] + 32 * bits[6] + 64 * bits[7]) + bits[0];
    case 1 =>
      assert b / 2 == 2 * (bits[2] + 2 * bits[3] + 4 * bits[4] + 8 * bits[5]
                           + 16 * bits[6] + 32 * bits[7]) + bits[1];
    case 2 => assert b / 4 == 2 * (bits[3] + 2 * bits[4] + 4 * bits[5] + 8 * bits[6] + 16 * bits[7]) + bits[2];
    case 3 => assert b / 8 == 2 * (bits[4] + 2 * bits[5] + 4 * bits[6] + 8 * bits[7]) + bits[3];
    case 4 => assert b / 16 == 2 * (bits[5] + 2 * bits[6] + 4 * bits[7]) + bits[4];
    case 5 => assert b / 32 == 2 * (bits[6] + 2 * bits[7]) + bits[5];
    case 6 => assert b / 64 == 2 * bits[7] + bits[6];
    case _ => assert b / 128 == bits[7];
  }

  function BitsOf(b: byte): (bits: seq<int>)
    ensures |bits| == 8 && forall i :: 0 <= i < 8 ==> 0 <= bits[i] <= 1
    ensures b == bits[0] + 2 * bits[1] + 4 * bits[2] + 8 * bits[3]
               + 16 * bits[4] + 32 * bits[5] + 64 * bits[6] + 128 * bits[7]
  {
    var b1 := b / 2;
    var b2 := b1 / 2;
    var b3 := b2 / 2;
    var b4 := b3 / 2;
    var b5 := b4 / 2;
    var b6 := b5 / 2;
    var b7 := b6 / 2;
    [b % 2, b1 % 2, b2 % 2, b3 % 2, b4 % 2, b5 % 2, b6 % 2, b7]
  }

  // Piece i is bit i of the field, counted from the high bit of the first byte.
  lemma HasPieceReads(bitField: bytes, i: nat)
    ensures HasPiece(bitField, i) <==> i / 8 < |bitField| && BitsOf(bitField[i / 8])[7 - i % 8] == 1
  {
    hide BitsOf, IsSet;
    if i / 8 < |bitField| { ReadBit(bitField[i / 8], BitsOf(bitField[i / 8]), 7 - i % 8); }
  }

  // Setting a bit changes what that bit says and nothing else.
  lemma SetChangesOneBit(b: byte, k: nat, j: nat)
    requires k < 8 && j < 8
    ensures 0 <= Set(b, k) < 256
    ensures IsSet(Set(b, k), j) <==> j == k || IsSet(b, j)
  {
    hide BitsOf, IsSet;
    BitValues();
    var bits := BitsOf(b);
    ReadBit(b, bits, k);
    ReadBit(b, bits, j);
    if bits[k] == 0 {
      ReadBit(b + Bit(k), bits[k := 1], j);
    }
  }

  lemma BitValues()
    ensures Bit(0) == 1 && Bit(1) == 2 && Bit(2) == 4 && Bit(3) == 8
    ensures Bit(4) == 16 && Bit(5) == 32 && Bit(6) == 64 && Bit(7) == 128
  {}

  function WithPiece(bitField: bytes, index: nat): (r: bytes)
    ensures |r| == |bitField|
  {
    if index / 8 < |bitField| then
      SetChangesOneBit(bitField[index / 8], 7 - index % 8, 0);
      bitField[index / 8 := Set(bitField[index / 8], 7 - index % 8)]
    else bitField
  }

  // setPiece adds exactly one index to what hasPiece reports.
  lemma WithPieceAddsOne(bitField: bytes, index: nat, i: nat)
    ensures HasPiece(WithPiece(bitField, index), i)
       <==> HasPiece(bitField, i) || (i == index && index / 8 < |bitField|)
  {
    if index / 8 < |bitField| {
      if i / 8 == index / 8 {
        SetChangesOneBit(bitField[index / 8], 7 - index % 8, 7 - i % 8);
        hide IsSet, Set;
        assert i % 8 == index % 8 <==> i == index;
      }
    }
  }
}
