// The blocks of one piece (Block.h) and what Piece.cpp does with them, as functions.
module Blocks {
  import opened Types

  datatype BlockStatus = Missing | Pending | Retrieved

  datatype Block = Block(offset: int, length: int, status: BlockStatus, data: bytes)

  // The first block nobody has asked for.
  function FirstMissing(bs: seq<Block>): (r: Option<nat>)
    ensures r.Some? ==> r.value < |bs| && bs[r.value].status.Missing?
    ensures r.Some? ==> forall j :: 0 <= j < r.value ==> !bs[j].status.Missing?
    ensures r.None? ==> forall j :: 0 <= j < |bs| ==> !bs[j].status.Missing?
  {
    if bs == [] then None
    else if bs[0].status.Missing? then Some(0)
    else match FirstMissing(bs[1..])
      case Some(j) => Some(j + 1)
      case None => None
  }

  // The first block that starts at an offset.
  function FirstAt(bs: seq<Block>, offset: int): (r: Option<nat>)
    ensures r.Some? ==> r.value < |bs| && bs[r.value].offset == offset
    ensures r.Some? ==> forall j :: 0 <= j < r.value ==> bs[j].offset != offset
    ensures r.None? ==> forall j :: 0 <= j < |bs| ==> bs[j].offset != offset
  {
    if bs == [] then None
    else if bs[0].offset == offset then Some(0)
    else match FirstAt(bs[1..], offset)
      case Some(j) => Some(j + 1)
      case None => None
  }

  function Ask(bs: seq<Block>, i: nat): (r: seq<Block>)
    requires i < |bs|
    ensures |r| == |bs|
  {
    bs[i := bs[i].(status := Pending)]
  }

  function Store(bs: seq<Block>, i: nat, data: bytes): (r: seq<Block>)
    requires i < |bs|
    ensures |r| == |bs|
  {
    bs[i := bs[i].(status := Retrieved, data := data)]
  }

  function Reset(bs: seq<Block>): (r: seq<Block>)
    ensures |r| == |bs|
    ensures forall i :: 0 <= i < |bs| ==> r[i] == bs[i].(status := Missing)
  {
    seq(|bs|, i requires 0 <= i < |bs| => bs[i].(status := Missing))
  }

  predicate IsComplete(bs: seq<Block>) {
    forall i :: 0 <= i < |bs| ==> bs[i].status.Retrieved?
  }

  predicate IsFresh(bs: seq<Block>) {
    forall i :: 0 <= i < |bs| ==> bs[i].status.Missing?
  }

  // The data of all blocks, in the order of the blocks.
  function Data(bs: seq<Block>): bytes {
    if bs == [] then [] else bs[0].data + Data(bs[1..])
  }

  predicate DistinctOffsets(bs: seq<Block>) {
    forall i, j :: 0 <= i < j < |bs| ==> bs[i].offset != bs[j].offset
  }

  // The same table of blocks, whatever their status and data.
  predicate SameShape(bs: seq<Block>, cs: seq<Block>) {
    |bs| == |cs| && forall i :: 0 <= i < |bs| ==> bs[i].offset == cs[i].offset && bs[i].length == cs[i].length
  }

  // How many blocks are not retrieved.
  function Unretrieved(bs: seq<Block>): nat {
    if bs == [] then 0 else (if bs[0].status.Retrieved? then 0 else 1) + Unretrieved(bs[1..])
  }

  lemma {:induction false} UnretrievedUpdate(bs: seq<Block>, i: nat, b: Block)
    requires i < |bs|
    ensures Unretrieved(bs[i := b]) == Unretrieved(bs)
      - (if bs[i].status.Retrieved? then 0 else 1) + (if b.status.Retrieved? then 0 else 1)
  {
    if i > 0 {
      assert bs[i := b][1..] == bs[1..][i - 1 := b];
      UnretrievedUpdate(bs[1..], i - 1, b);
    } else {
      assert bs[i := b][1..] == bs[1..];
    }
  }

  lemma {:induction false} CompleteIffNoneUnretrieved(bs: seq<Block>)
    ensures IsComplete(bs) <==> Unretrieved(bs) == 0
  {
    if bs != [] {
      CompleteIffNoneUnretrieved(bs[1..]);
      assert bs == [bs[0]] + bs[1..];
    }
  }
}
