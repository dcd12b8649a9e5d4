// The class PieceManager of PieceManager.cpp. Every public method makes one step of the machine of
// module Download.
module PieceManager {
  import opened Types
  import opened Blocks
  import opened Bitfield
  import opened Download
  import opened DownloadInvariant
  import opened DownloadRuns
  import opened DownloadFile
  import opened BlockTable
  import Fips180
  import P = Piece

  // A pointer to a block: its piece and its place there.
  datatype BlockPointer = BlockPointer(piece: P.Piece, block: nat)

  datatype PendingRequest = PendingRequest(block: BlockPointer, timestamp: int)

  function IndicesOf(ps: seq<P.Piece>): (xs: seq<nat>)
    ensures |xs| == |ps| && forall k :: 0 <= k < |ps| ==> xs[k] == ps[k].index
  {
    seq(|ps|, k requires 0 <= k < |ps| => ps[k].index)
  }

  function RequestsOf(rs: seq<PendingRequest>): (xs: seq<Request>)
    ensures |xs| == |rs|
    ensures forall k :: 0 <= k < |rs| ==> xs[k] == Request(rs[k].block.piece.index, rs[k].block.block, rs[k].timestamp)
  {
    seq(|rs|, k requires 0 <= k < |rs| => Request(rs[k].block.piece.index, rs[k].block.block, rs[k].timestamp))
  }

  // std::remove followed by erase, on a list of pieces.
  function RemovePiece(ps: seq<P.Piece>, p: P.Piece): (r: seq<P.Piece>)
    ensures forall k :: 0 <= k < |r| ==> r[k] in ps
  {
    if ps == [] then []
    else if ps[0] == p then RemovePiece(ps[1..], p)
    else [ps[0]] + RemovePiece(ps[1..], p)
  }

  lemma {:induction false} RemovePieceIndices(ps: seq<P.Piece>, p: P.Piece)
    requires forall k :: 0 <= k < |ps| ==> (ps[k].index == p.index ==> ps[k] == p)
    ensures IndicesOf(RemovePiece(ps, p)) == Remove(IndicesOf(ps), p.index)
  {
    if ps != [] {
      RemovePieceIndices(ps[1..], p);
      assert IndicesOf(ps)[1..] == IndicesOf(ps[1..]);
      if ps[0] != p {
        assert IndicesOf([ps[0]] + RemovePiece(ps[1..], p)) == [ps[0].index] + IndicesOf(RemovePiece(ps[1..], p));
      }
    }
  }

  // An entry of the map that getRarestPiece counts in, which is ordered by the index of the piece.
  datatype Count = Count(piece: P.Piece, count: int)

  const INT16_MAX := 32767

  class PieceManager {
    const torrent: Torrent
    const totalPieces: nat
    ghost const all: seq<P.Piece>      // every piece, by index

    var peers: map<string, bytes>
    var missingPieces: seq<P.Piece>
    var ongoingPieces: seq<P.Piece>
    var havePieces: seq<P.Piece>
    var pendingRequests: seq<PendingRequest>
    var downloadedFile: File

    ghost predicate Owns(p: P.Piece) {
      p.index < |all| && all[p.index] == p
    }

    ghost predicate Owned(ps: seq<P.Piece>) {
      forall k :: 0 <= k < |ps| ==> Owns(ps[k])
    }

    ghost predicate Shape() reads this {
      && |all| == |torrent.hashes| == totalPieces
      && (forall i :: 0 <= i < |all| ==> all[i].index == i && all[i].hashValue == torrent.hashes[i])
      && Owned(missingPieces) && Owned(ongoingPieces) && Owned(havePieces)
      && (forall k :: 0 <= k < |pendingRequests| ==> Owns(pendingRequests[k].block.piece))
    }

    ghost function Tables(): (t: seq<seq<Block>>)
      reads all
      ensures |t| == |all| && forall i :: 0 <= i < |all| ==> t[i] == all[i].blocks
    {
      seq(|all|, i requires 0 <= i < |all| reads all => all[i].blocks)
    }

    // The state of the machine.
    ghost function Abs(): State
      reads this, all
    {
      State(Tables(), IndicesOf(missingPieces), IndicesOf(ongoingPieces), IndicesOf(havePieces),
            RequestsOf(pendingRequests), peers, downloadedFile)
    }

    ghost predicate Valid()
      reads this, all
    {
      Shape() && Sound(torrent, Abs())
    }

    // expiredRequest.
    method ExpiredRequest(peerId: string, now: int) returns (r: Option<BlockPointer>)
      requires Valid() && peerId in peers
      modifies this`pendingRequests
      ensures Shape()
      ensures var e := FirstExpired(old(Abs()).pending, peers[peerId], now);
        if e.None? then r.None? && Abs() == old(Abs())
        else
          && Abs() == Reissue(old(Abs()), e.value, now).0
          && r.Some? && Owns(r.value.piece)
          && Reissue(old(Abs()), e.value, now).1 == Issued(r.value.piece.index, r.value.block, Expired)
    {
      hide Sound, HasPiece;
      for k := 0 to |pendingRequests|
        invariant pendingRequests == old(pendingRequests)
        invariant forall j :: 0 <= j < k ==> !IsExpired(Abs().pending[j], peers[peerId], now)
      {
        var pending := pendingRequests[k];
        assert Owns(pendingRequests[k].block.piece);
        if HasPiece(peers[peerId], pending.block.piece.index) && now - pending.timestamp >= MAX_PENDING_TIME {
          pendingRequests := pendingRequests[k := pending.(timestamp := now)];
          assert FirstExpired(old(Abs()).pending, peers[peerId], now) == Some(k);
          assert Abs().pending == old(Abs()).pending[k := old(Abs()).pending[k].(timestamp := now)];
          return Some(pending.block);
        }
      }
      r := None;
    }

    // The tables after the blocks of one piece have changed.
    twostate lemma OneTableChanged(p: P.Piece)
      requires old(Shape()) && Owns(p)
      requires forall i :: 0 <= i < |all| && all[i] != p ==> unchanged(all[i])
      ensures Tables() == old(Tables())[p.index := p.blocks]
    {}

    // Asks for the next block of an ongoing piece, if it has one.
    method AskFor(piece: P.Piece, now: int) returns (r: Option<BlockPointer>)
      requires Shape() && Owns(piece)
      modifies this`pendingRequests, piece
      ensures Shape()
      ensures r.None? ==> FirstMissing(old(piece.blocks)).None? && Abs() == old(Abs())
      ensures r.Some? ==>
        && FirstMissing(old(piece.blocks)) == Some(r.value.block) && r.value.piece == piece
        && Abs() == Continue(old(Abs()), piece.index, now).0
    {
      hide FirstMissing;
      ghost var s := Abs();
      var b := piece.NextRequest();
      OneTableChanged(piece);
      if b.None? {
        assert Tables() == s.pieces;
        return None;
      }
      pendingRequests := pendingRequests + [PendingRequest(BlockPointer(piece, b.value), now)];
      assert RequestsOf(pendingRequests) == s.pending + [Request(piece.index, b.value, now)];
      r := Some(BlockPointer(piece, b.value));
    }

    // nextOngoing.
    method NextOngoing(peerId: string, now: int) returns (r: Option<BlockPointer>)
      requires Valid() && peerId in peers
      modifies this`pendingRequests, all
      ensures Shape()
      ensures var e := FirstOngoing(old(Abs()).pieces, old(Abs()).ongoing, peers[peerId]);
        if e.None? then r.None? && Abs() == old(Abs())
        else
          && Abs() == Continue(old(Abs()), old(Abs()).ongoing[e.value], now).0
          && r.Some? && Owns(r.value.piece)
          && Continue(old(Abs()), old(Abs()).ongoing[e.value], now).1
               == Issued(r.value.piece.index, r.value.block, Ongoing)
    {
      hide Sound, HasPiece, FirstMissing, FirstOngoing, CanContinue;
      SoundInRange(torrent, Abs());
      ghost var s := Abs();
      for k := 0 to |ongoingPieces|
        invariant Shape() && Abs() == s
        invariant forall j :: 0 <= j < k ==> !CanContinue(s.pieces, s.ongoing[j], peers[peerId])
      {
        var piece := ongoingPieces[k];
        CanContinueIs(s.pieces, piece.index, peers[peerId]);
        if HasPiece(peers[peerId], piece.index) {
          r := AskFor(piece, now);
          if r.Some? {
            FirstOngoingIs(s.pieces, s.ongoing, peers[peerId], k);
            return;
          }
        }
      }
      r := None;
    }

    // Counts, for every missing piece the peer advertises, the one peer that asks.
    method CountPieces(peerId: string) returns (pieceCount: map<nat, Count>)
      requires Valid() && peerId in peers
      ensures forall q: nat :: q in pieceCount <==> q in Abs().missing && HasPiece(peers[peerId], q)
      ensures forall q: nat :: q in pieceCount ==> pieceCount[q] == Count(all[q], 1)
    {
      hide HasPiece, Sound;
      pieceCount := map[];
      for k := 0 to |missingPieces|
        invariant forall q: nat :: q in pieceCount <==> q in IndicesOf(missingPieces)[..k] && HasPiece(peers[peerId], q)
        invariant forall q: nat :: q in pieceCount ==> q < |all| && pieceCount[q] == Count(all[q], 1)
      {
        var piece := missingPieces[k];
        assert IndicesOf(missingPieces)[..k + 1] == IndicesOf(missingPieces)[..k] + [piece.index];
        if HasPiece(peers[peerId], piece.index) {
          var count := if piece.index in pieceCount then pieceCount[piece.index].count else 0;
          SoundHasNoDuplicates(torrent, Abs());
          pieceCount := pieceCount[piece.index := Count(piece, count + 1)];
        }
      }
      assert IndicesOf(missingPieces)[..|missingPieces|] == IndicesOf(missingPieces);
    }

    // The first of the least counts, in the order of the pieces.
    method LeastCount(pieceCount: map<nat, Count>) returns (rarest: P.Piece?)
      requires Shape()
      requires forall q: nat :: q in pieceCount ==> q < |all| && pieceCount[q] == Count(all[q], 1)
      ensures rarest == null ==> forall q: nat :: q !in pieceCount
      ensures rarest != null ==> rarest.index in pieceCount && all[rarest.index] == rarest
      ensures rarest != null ==> forall q: nat :: q in pieceCount ==> rarest.index <= q
    {
      rarest := null;
      var leastCount := INT16_MAX;
      for i := 0 to totalPieces
        invariant rarest == null ==> leastCount == INT16_MAX && forall q: nat :: q < i ==> q !in pieceCount
        invariant rarest != null ==> leastCount == 1 && rarest.index in pieceCount && all[rarest.index] == rarest
        invariant rarest != null ==> forall q: nat :: q in pieceCount ==> rarest.index <= q
      {
        if i in pieceCount && pieceCount[i].count < leastCount {
          leastCount := pieceCount[i].count;
          rarest := pieceCount[i].piece;
        }
      }
    }

    lemma StillOwned(ps: seq<P.Piece>, p: P.Piece)
      requires Owned(ps)
      ensures Owned(RemovePiece(ps, p))
    {
      hide RemovePiece;
      forall k | 0 <= k < |RemovePiece(ps, p)|
        ensures Owns(RemovePiece(ps, p)[k])
      {
        assert RemovePiece(ps, p)[k] in ps;
      }
    }

    // getRarestPiece, which finds nothing for a peer that advertises no missing piece.
    method GetRarestPiece(peerId: string) returns (rarest: P.Piece?)
      requires Valid() && peerId in peers
      modifies this`missingPieces, this`ongoingPieces
      ensures Shape()
      ensures var lowest := Lowest(old(Abs()).missing, peers[peerId]);
        if lowest.None? then rarest == null && Abs() == old(Abs())
        else
          && rarest != null && Owns(rarest) && rarest.index == lowest.value
          && Abs() == old(Abs()).(missing := Remove(old(Abs()).missing, lowest.value),
                                  ongoing := old(Abs()).ongoing + [lowest.value])
    {
      hide Sound, HasPiece, Lowest;
      hide RemovePiece, Remove;
      ghost var s := Abs();
      var pieceCount := CountPieces(peerId);
      rarest := LeastCount(pieceCount);
      if rarest != null {
        LowestIs(s.missing, peers[peerId], rarest.index);
        RemovePieceIndices(missingPieces, rarest);
        missingPieces := RemovePiece(missingPieces, rarest);
        StillOwned(old(missingPieces), rarest);
        ongoingPieces := ongoingPieces + [rarest];
        assert IndicesOf(ongoingPieces) == s.ongoing + [rarest.index];
      }
    }

    // The peer's next block; the clock is read once.
    method NextRequest(peerId: string, now: int) returns (r: Option<BlockPointer>)
      requires Valid()
      modifies this`missingPieces, this`ongoingPieces, this`pendingRequests, all
      ensures Valid()
      ensures Abs() == Next(old(Abs()), peerId, now).0
      ensures var o := Next(old(Abs()), peerId, now).1;
        && (r.Some? <==> o.Issued?)
        && (r.Some? ==> Owns(r.value.piece) && o.piece == r.value.piece.index && o.block == r.value.block)
    {
      hide Sound, HasPiece, FirstExpired, FirstOngoing, Lowest, FirstMissing, Remove;
      ghost var s := Abs();
      SoundInRange(torrent, s);
      NextSound(torrent, s, peerId, now);
      if missingPieces == [] { return None; }
      if peerId !in peers { return None; }
      r := ExpiredRequest(peerId, now);
      if r.None? {
        r := NextOngoing(peerId, now);
        if r.None? {
          var rarest := GetRarestPiece(peerId);
          if rarest != null {
            label before:
            var b := rarest.NextRequest();
            OneTableChanged@before(rarest);
            if b.Some? {
              r := Some(BlockPointer(rarest, b.value));
            } else {
              assert Tables() == s.pieces;
            }
          }
        }
      }
    }

    // Takes the request for a block out of the list.
    method RemoveRequest(pieceIndex: int, blockOffset: int)
      requires Valid()
      modifies this`pendingRequests
      ensures Shape() && InRange(old(Abs()))
      ensures Abs()
           == old(Abs()).(pending := WithoutFirst(old(Abs()).pieces, old(Abs()).pending, pieceIndex, blockOffset))
    {
      hide Sound, WithoutFirst;
      ghost var s := Abs();
      SoundInRange(torrent, s);
      var requestToRemove := |pendingRequests|;
      for k := 0 to |pendingRequests|
        invariant requestToRemove == |pendingRequests|
        invariant forall j :: 0 <= j < k ==> !Matches(s.pieces, s.pending[j], pieceIndex, blockOffset)
      {
        var block := pendingRequests[k].block;
        assert Owns(block.piece);
        assert s.pieces[s.pending[k].piece] == block.piece.blocks;
        if block.piece.index == pieceIndex && block.piece.blocks[block.block].offset == blockOffset {
          requestToRemove := k;
          break;
        }
      }
      ghost var k := WithoutFirstIs(s.pieces, s.pending, pieceIndex, blockOffset);
      if requestToRemove < |pendingRequests| {
        pendingRequests := pendingRequests[..requestToRemove] + pendingRequests[requestToRemove + 1..];
        assert RequestsOf(pendingRequests) == s.pending[..k] + s.pending[k + 1..];
      }
    }

    method FindOngoing(pieceIndex: int) returns (target: P.Piece?)
      requires Shape()
      ensures target == null ==> pieceIndex < 0 || pieceIndex !in IndicesOf(ongoingPieces)
      ensures target != null ==> target in ongoingPieces && target.index == pieceIndex
      ensures target != null ==>
        pieceIndex in IndicesOf(ongoingPieces) && pieceIndex < |all| && all[pieceIndex] == target
    {
      for k := 0 to |ongoingPieces|
        invariant forall j :: 0 <= j < k ==> ongoingPieces[j].index != pieceIndex
      {
        if ongoingPieces[k].index == pieceIndex {
          assert IndicesOf(ongoingPieces)[k] == pieceIndex;
          return ongoingPieces[k];
        }
      }
      target := null;
    }

    // write.
    method Write(piece: P.Piece)
      requires Blocks.IsComplete(piece.blocks)
      modifies this`downloadedFile
      ensures downloadedFile == WriteAt(old(downloadedFile), Position(torrent, piece.index), Data(piece.blocks))
    {
      hide WriteAt, Data, Position;
      var data := piece.GetData();
      downloadedFile := WriteAt(downloadedFile, Position(torrent, piece.index), data);
    }

    // The end of blockReceived: the piece is complete and is kept or reset.
    method FinishPiece(targetPiece: P.Piece)
      requires Shape() && Owns(targetPiece) && Blocks.IsComplete(targetPiece.blocks)
      modifies this`ongoingPieces, this`havePieces, this`downloadedFile, targetPiece
      ensures Shape()
      ensures Abs() == Finish(torrent, old(Abs()), targetPiece.index).0
    {
      hide WithoutFirst, FirstAt, Remove, RemovePiece, WriteAt, Data, Fips180.Digest, Position;
      ghost var s := Abs();
      var matching := targetPiece.IsHashMatching();
      if matching {
        Write(targetPiece);
        RemovePieceIndices(ongoingPieces, targetPiece);
        StillOwned(ongoingPieces, targetPiece);
        ongoingPieces := RemovePiece(ongoingPieces, targetPiece);
        havePieces := havePieces + [targetPiece];
        assert IndicesOf(havePieces) == s.have + [targetPiece.index];
      } else {
        targetPiece.Reset();
        OneTableChanged(targetPiece);
      }
    }

    // A block has arrived; false when the source throws.
    method BlockReceived(peerId: string, pieceIndex: int, blockOffset: int, data: bytes) returns (ok: bool)
      requires Valid()
      modifies this`pendingRequests, this`ongoingPieces, this`havePieces, this`downloadedFile, all
      ensures Valid()
      ensures Abs() == Receive(torrent, old(Abs()), pieceIndex, blockOffset, data).0
      ensures !ok <==> Receive(torrent, old(Abs()), pieceIndex, blockOffset, data).1.Thrown?
    {
      hide Sound, WithoutFirst, FirstAt, Finish;
      ghost var s := Abs();
      ReceiveSound(torrent, s, pieceIndex, blockOffset, data);
      RemoveRequest(pieceIndex, blockOffset);
      var targetPiece := FindOngoing(pieceIndex);
      if targetPiece == null { return false; }

      label before:
      var found := targetPiece.BlockReceived(blockOffset, data);
      OneTableChanged@before(targetPiece);
      if !found {
        assert Tables() == s.pieces;
        return false;
      }
      ok := true;
      FinishNeverThrows(torrent, Abs(), targetPiece.index);
      var complete := targetPiece.IsComplete();
      if complete {
        FinishPiece(targetPiece);
      }
    }

    method IsComplete() returns (r: bool)
      requires Valid()
      ensures r <==> Download.IsComplete(Abs())
    {
      r := |havePieces| == totalPieces;
    }

    method AddPeer(peerId: string, bitField: bytes)
      requires Valid()
      modifies this`peers
      ensures Valid() && InRange(old(Abs()))
      ensures Abs() == Step(torrent, old(Abs()), Action.AddPeer(peerId, bitField)).0
    {
      hide Sound;
      ActionSound(torrent, Abs(), Action.AddPeer(peerId, bitField));
      peers := peers[peerId := bitField];
    }

    // False when the source throws.
    method UpdatePeer(peerId: string, index: nat) returns (ok: bool)
      requires Valid()
      modifies this`peers
      ensures Valid() && InRange(old(Abs()))
      ensures Abs() == Step(torrent, old(Abs()), Action.UpdatePeer(peerId, index)).0
      ensures !ok <==> Step(torrent, old(Abs()), Action.UpdatePeer(peerId, index)).1.Thrown?
    {
      hide Sound, WithPiece;
      ActionSound(torrent, Abs(), Action.UpdatePeer(peerId, index));
      if peerId in peers {
        peers := peers[peerId := WithPiece(peers[peerId], index)];
        ok := true;
      } else {
        ok := false;
      }
    }

    // False when the source throws, which it never does once the download is complete.
    method RemovePeer(peerId: string) returns (ok: bool)
      requires Valid()
      modifies this`peers
      ensures Valid() && InRange(old(Abs()))
      ensures Abs() == Step(torrent, old(Abs()), Action.RemovePeer(peerId)).0
      ensures !ok <==> Step(torrent, old(Abs()), Action.RemovePeer(peerId)).1.Thrown?
    {
      hide Sound;
      ActionSound(torrent, Abs(), Action.RemovePeer(peerId));
      var complete := IsComplete();
      if complete { return true; }
      if peerId in peers {
        peers := peers - {peerId};
        ok := true;
      } else {
        ok := false;
      }
    }

    constructor (pieceLength: nat, pieces: bytes, fileLengths: seq<nat>)
      requires pieceLength > 0
      ensures Valid()
      ensures torrent == Torrent(pieceLength, HashesOf(pieces))
      ensures Abs() == Initial(Table(pieceLength, Sum(fileLengths), |torrent.hashes|), EmptyFile(Sum(fileLengths)))
    {
      hide Sound, Table;
      var pieceHashes := SplitPieceHashes(pieces);
      var totalLength := TotalFileSize(fileLengths);
      var table := InitiatePieces(pieceLength, totalLength, |pieceHashes|);
      var torrentPieces: seq<P.Piece> := [];
      for i := 0 to |pieceHashes|
        invariant |torrentPieces| == i
        invariant forall j :: 0 <= j < i ==>
          && torrentPieces[j].index == j && torrentPieces[j].hashValue == pieceHashes[j]
          && torrentPieces[j].blocks == table[j]
      {
        var piece := new P.Piece(i, table[i], pieceHashes[i]);
        torrentPieces := torrentPieces + [piece];
      }
      this.torrent := Torrent(pieceLength, pieceHashes);
      this.totalPieces := |pieceHashes|;
      this.all := torrentPieces;
      this.peers := map[];
      this.missingPieces := torrentPieces;
      this.ongoingPieces := [];
      this.havePieces := [];
      this.pendingRequests := [];
      this.downloadedFile := EmptyFile(totalLength);
      new;
      TableIsFresh(pieceLength, totalLength, |pieceHashes|);
      InitialSound(torrent, table, downloadedFile);
      assert Tables() == table;
      assert IndicesOf(missingPieces) == Indices(|table|);
      assert Abs() == Initial(table, downloadedFile);
    }
  }

  // The file as the constructor leaves it: one byte is written at its end, which fails when it is to
  // have no bytes at all.
  function EmptyFile(totalLength: nat): File {
    if totalLength == 0 then File(false, []) else File(true, seq(totalLength, _ => 0))
  }

  function Sum(xs: seq<nat>): nat {
    if xs == [] then 0 else Sum(xs[..|xs| - 1]) + xs[|xs| - 1]
  }

  // getTotalFileSize.
  method TotalFileSize(lengths: seq<nat>) returns (total: nat)
    ensures total == Sum(lengths)
  {
    total := 0;
    for i := 0 to |lengths|
      invariant total == Sum(lengths[..i])
    {
      assert lengths[..i + 1][..i] == lengths[..i];
      total := total + lengths[i];
    }
    assert lengths[..|lengths|] == lengths;
  }

  lemma ActionSound(c: Torrent, s: State, a: Action)
    requires Sound(c, s)
    ensures InRange(s) && |s.pieces| == |c.hashes| && Sound(c, Step(c, s, a).0)
  {
    StepSound(c, s, a);
  }

  lemma FinishNeverThrows(c: Torrent, s: State, p: nat)
    requires p < |s.pieces| && |s.pieces| == |c.hashes|
    ensures !Finish(c, s, p).1.Thrown?
  {
    hide Fips180.Digest;
  }

  lemma ReceiveSound(c: Torrent, s: State, piece: int, offset: int, data: bytes)
    requires Sound(c, s)
    ensures InRange(s) && |s.pieces| == |c.hashes| && Sound(c, Receive(c, s, piece, offset, data).0)
  {
    StepSound(c, s, Action.BlockReceived(piece, offset, data));
  }

  lemma SoundHasNoDuplicates(c: Torrent, s: State)
    requires Sound(c, s)
    ensures NoDuplicates(s.missing)
  {}

  lemma CanContinueIs(pieces: seq<seq<Block>>, p: nat, bitField: bytes)
    requires p < |pieces|
    ensures CanContinue(pieces, p, bitField) <==> HasPiece(bitField, p) && FirstMissing(pieces[p]).Some?
  {}

  lemma FirstOngoingIs(pieces: seq<seq<Block>>, ongoing: seq<nat>, bitField: bytes, k: nat)
    requires AllBelow(ongoing, |pieces|) && k < |ongoing| && CanContinue(pieces, ongoing[k], bitField)
    requires forall j :: 0 <= j < k ==> !CanContinue(pieces, ongoing[j], bitField)
    ensures FirstOngoing(pieces, ongoing, bitField) == Some(k)
  {
    hide CanContinue;
    var first := FirstOngoing(pieces, ongoing, bitField);
  }

  lemma LowestIs(missing: seq<nat>, bitField: bytes, p: nat)
    requires p in missing && HasPiece(bitField, p)
    requires forall q :: q in missing && HasPiece(bitField, q) ==> p <= q
    ensures Lowest(missing, bitField) == Some(p)
  {
    hide HasPiece;
    var lowest := Lowest(missing, bitField);
  }

  lemma NextSound(c: Torrent, s: State, peer: string, now: int)
    requires Sound(c, s)
    ensures InRange(s) && Sound(c, Next(s, peer, now).0)
  {
    StepSound(c, s, Action.NextRequest(peer, now));
  }

  // From the constructor on, whatever peers do: when the download is complete the file is the content
  // that the torrent describes, or a SHA-1 collision with a piece of it has been written.
  lemma DownloadFromScratch(c: Torrent, acts: seq<Action>, content: bytes)
    requires Describes(c, content)
    ensures var s := Initial(Table(c.pieceLength, |content|, |c.hashes|), EmptyFile(|content|));
      && Sound(c, s)
      && (Download.IsComplete(StateAt(c, s, acts, |acts|)) ==>
            || StateAt(c, s, acts, |acts|).file.content == content
            || exists i :: 0 <= i < |acts| && CollidesAt(c, s, acts, i, content))
  {
    hide Sound, Table, StateAt, Slice, Download.IsComplete, CollidesAt, Fips180.Digest;
    var s := Initial(Table(c.pieceLength, |content|, |c.hashes|), EmptyFile(|content|));
    TableIsFresh(c.pieceLength, |content|, |c.hashes|);
    InitialSound(c, s.pieces, s.file);
    if Download.IsComplete(StateAt(c, s, acts, |acts|)) {
      CompleteDownloadIsContent(c, s, acts, content);
    }
  }

  // The file of a torrent without bytes is never written: its stream has failed in the constructor.
  lemma {:induction false} NothingIsEverWritten(c: Torrent, acts: seq<Action>, i: nat)
    requires c.pieceLength > 0 && i <= |acts|
    ensures var s := Initial(Table(c.pieceLength, 0, |c.hashes|), EmptyFile(0));
      Sound(c, s) && !StateAt(c, s, acts, i).file.good && StateAt(c, s, acts, i).file.content == []
  {
    hide Sound, Table, Step;
    var s := Initial(Table(c.pieceLength, 0, |c.hashes|), EmptyFile(0));
    TableIsFresh(c.pieceLength, 0, |c.hashes|);
    InitialSound(c, s.pieces, s.file);
    if i > 0 {
      NothingIsEverWritten(c, acts, i - 1);
      SoundInRange(c, StateAt(c, s, acts, i - 1));
      BadFileStays(c, StateAt(c, s, acts, i - 1), acts[i - 1]);
    }
  }

  lemma BadFileStays(c: Torrent, s: State, a: Action)
    requires InRange(s) && |s.pieces| == |c.hashes| && !s.file.good
    ensures Step(c, s, a).0.file == s.file
  {
    hide Fips180.Digest, Data, WithoutFirst, FirstAt, FirstMissing, FirstExpired, FirstOngoing, Lowest, Remove;
  }

  // The constructor, given the digests of a content as the pieces string of a torrent file, has the torrent
  // that describes the content.
  lemma TorrentFileDescribes(content: bytes, pieceLength: nat, n: nat)
    requires pieceLength > 0 && |content| <= n * pieceLength
    ensures var c := TorrentOf(content, pieceLength, n);
      Torrent(pieceLength, HashesOf(Join(c.hashes))) == c && Describes(c, content)
  {
    hide Fips180.Digest, Join, HashesOf;
    SplitJoined(TorrentOf(content, pieceLength, n).hashes);
    TorrentOfDescribes(content, pieceLength, n);
  }
}
