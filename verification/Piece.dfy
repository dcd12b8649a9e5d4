// The class Piece of Piece.cpp. A block is an element of the piece's sequence of blocks.
module Piece {
  import opened Types
  import opened Blocks
  import Fips180
  import Sha1

  class Piece {
    const index: nat
    const hashValue: bytes
    var blocks: seq<Block>

    constructor (index: nat, blocks: seq<Block>, hashValue: bytes)
      ensures this.index == index && this.blocks == blocks && this.hashValue == hashValue
    {
      this.index := index;
      this.hashValue := hashValue;
      this.blocks := blocks;
    }

    method Reset()
      modifies this
      ensures blocks == Blocks.Reset(old(blocks))
    {
      for i := 0 to |blocks|
        invariant |blocks| == |old(blocks)|
        invariant forall j :: 0 <= j < i ==> blocks[j] == old(blocks)[j].(status := Missing)
        invariant forall j :: i <= j < |blocks| ==> blocks[j] == old(blocks)[j]
      {
        blocks := blocks[i := blocks[i].(status := Missing)];
      }
    }

    // The first block that is missing, which is then pending.
    method NextRequest() returns (r: Option<nat>)
      modifies this
      ensures r == FirstMissing(old(blocks))
      ensures blocks == if r.Some? then Ask(old(blocks), r.value) else old(blocks)
    {
      for i := 0 to |blocks|
        invariant blocks == old(blocks)
        invariant forall j :: 0 <= j < i ==> !blocks[j].status.Missing?
      {
        if blocks[i].status.Missing? {
          blocks := blocks[i := blocks[i].(status := Pending)];
          return Some(i);
        }
      }
      r := None;
    }

    // Stores data in the first block at the offset, and fails when there is none.
    method BlockReceived(offset: int, data: bytes) returns (ok: bool)
      modifies this
      ensures ok <==> FirstAt(old(blocks), offset).Some?
      ensures blocks == if ok then Store(old(blocks), FirstAt(old(blocks), offset).value, data) else old(blocks)
    {
      for i := 0 to |blocks|
        invariant blocks == old(blocks)
        invariant forall j :: 0 <= j < i ==> blocks[j].offset != offset
      {
        if blocks[i].offset == offset {
          blocks := blocks[i := blocks[i].(status := Retrieved, data := data)];
          return true;
        }
      }
      ok := false;
    }

    method IsComplete() returns (r: bool)
      ensures r <==> Blocks.IsComplete(blocks)
    {
      for i := 0 to |blocks|
        invariant forall j :: 0 <= j < i ==> blocks[j].status.Retrieved?
      {
        if !blocks[i].status.Retrieved? {
          return false;
        }
      }
      r := true;
    }

    // The data of all blocks in the order of the blocks, whatever order they arrived in.
    method GetData() returns (data: bytes)
      requires Blocks.IsComplete(blocks)
      ensures data == Data(blocks)
    {
      data := [];
      for i := 0 to |blocks|
        invariant data + Data(blocks[i..]) == Data(blocks)
      {
        data := data + blocks[i].data;
        assert blocks[i..][1..] == blocks[i + 1..];
      }
    }

    // The stored hash is the SHA-1 digest of the data.
    method IsHashMatching() returns (r: bool)
      requires Blocks.IsComplete(blocks)
      ensures r <==> Fips180.Digest(Data(blocks)) == hashValue
    {
      hide Fips180.Digest, Data;
      var data := GetData();
      var pieceHash := Sha1.HashBytes(data);
      r := pieceHash == hashValue;
    }
  }

  // ----- the order of deliveries -----

  datatype Delivery = Delivery(offset: int, data: bytes)

  // block_received for one delivery after the other; one that throws changes nothing.
  function StoreAll(bs: seq<Block>, ds: seq<Delivery>): (r: seq<Block>)
    ensures |r| == |bs|
    decreases ds
  {
    if ds == [] then bs
    else
      match FirstAt(bs, ds[0].offset)
      case None => StoreAll(bs, ds[1..])
      case Some(b) => StoreAll(Store(bs, b, ds[0].data), ds[1..])
  }

  predicate DistinctDeliveries(ds: seq<Delivery>) {
    forall i, j :: 0 <= i < j < |ds| ==> ds[i].offset != ds[j].offset
  }

  function DataFor(ds: seq<Delivery>, offset: int): Option<bytes> {
    if ds == [] then None else if ds[0].offset == offset then Some(ds[0].data) else DataFor(ds[1..], offset)
  }

  lemma {:induction false} DataForIs(ds: seq<Delivery>, offset: int, data: bytes)
    requires DistinctDeliveries(ds)
    ensures DataFor(ds, offset) == Some(data) <==> Delivery(offset, data) in ds
  {
    if ds != [] {
      var rest := ds[1..];
      assert ds == [ds[0]] + rest && forall i :: 0 <= i < |rest| ==> rest[i] == ds[i + 1];
      DataForIs(rest, offset, data);
    }
  }

  lemma StoreKeepsFirst(bs: seq<Block>, b: nat, data: bytes, offset: int)
    requires b < |bs|
    ensures FirstAt(Store(bs, b, data), offset) == FirstAt(bs, offset)
  {
    var cs := Store(bs, b, data);
    assert forall i :: 0 <= i < |bs| ==> cs[i].offset == bs[i].offset;
    var x, y := FirstAt(bs, offset), FirstAt(cs, offset);
  }

  // What a sequence of deliveries does to each block.
  lemma {:induction false} StoreAllAt(bs: seq<Block>, ds: seq<Delivery>, i: nat)
    requires DistinctDeliveries(ds) && i < |bs|
    ensures var data := DataFor(ds, bs[i].offset);
      StoreAll(bs, ds)[i]
        == if FirstAt(bs, bs[i].offset) == Some(i) && data.Some?
           then bs[i].(status := Retrieved, data := data.value) else bs[i]
    decreases ds
  {
    hide FirstAt;
    if ds != [] {
      var rest, offset := ds[1..], ds[0].offset;
      assert forall j :: 0 <= j < |rest| ==> rest[j] == ds[j + 1];
      match FirstAt(bs, offset)
      case None => StoreAllAt(bs, rest, i);
      case Some(b) =>
        StoreAllAt(Store(bs, b, ds[0].data), rest, i);
        StoreKeepsFirst(bs, b, ds[0].data, bs[i].offset);
        if bs[i].offset == offset { OnlyOnce(rest, offset); }
    }
  }

  lemma {:induction false} OnlyOnce(ds: seq<Delivery>, offset: int)
    requires forall j :: 0 <= j < |ds| ==> ds[j].offset != offset
    ensures DataFor(ds, offset) == None
  {
    if ds != [] { OnlyOnce(ds[1..], offset); }
  }

  // The same deliveries in any order give the same piece.
  lemma DeliveriesCommute(bs: seq<Block>, ds: seq<Delivery>, es: seq<Delivery>)
    requires DistinctDeliveries(ds) && DistinctDeliveries(es) && multiset(ds) == multiset(es)
    ensures StoreAll(bs, ds) == StoreAll(bs, es)
  {
    hide StoreAll, FirstAt, DataFor;
    forall d: Delivery ensures d in ds <==> d in es {
      assert d in multiset(ds) <==> d in ds;
      assert d in multiset(es) <==> d in es;
    }
    forall i | 0 <= i < |bs| ensures StoreAll(bs, ds)[i] == StoreAll(bs, es)[i] {
      StoreAllAt(bs, ds, i);
      StoreAllAt(bs, es, i);
      var x, y := DataFor(ds, bs[i].offset), DataFor(es, bs[i].offset);
      if x.Some? {
        DataForIs(ds, bs[i].offset, x.value);
        DataForIs(es, bs[i].offset, x.value);
      } else if y.Some? {
        DataForIs(ds, bs[i].offset, y.value);
        DataForIs(es, bs[i].offset, y.value);
      }
    }
  }
}
