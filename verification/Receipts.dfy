// What the receipt of a block does, case by case.
module Receipts {
  import opened Types
  import opened Blocks
  import opened Download
  import opened DownloadInvariant
  import opened DownloadRuns
  import Fips180

  // The block was asked for: its piece is ongoing, and a block of the piece starts at the offset.
  predicate Expected(s: State, piece: int, offset: int)
    requires InRange(s)
  {
    piece >= 0 && piece in s.ongoing && exists b :: 0 <= b < |s.pieces[piece]| && s.pieces[piece][b].offset == offset
  }

  // It throws exactly when the block was not asked for, and then nothing changes.
  lemma RejectedExactlyWhen(c: Torrent, s: State, piece: int, offset: int, data: bytes)
    requires Sound(c, s)
    ensures InRange(s) && |s.pieces| == |c.hashes|
    ensures var (t, o) := Step(c, s, Action.BlockReceived(piece, offset, data));
      && (o.Thrown? <==> !Expected(s, piece, offset))
      && (o.Thrown? ==> t == s)
  {
    hide Fips180.Digest, WriteAt, Data, WithoutFirst, Inv;
    SoundInRange(c, s);
    if piece < 0 || piece !in s.ongoing || FirstAt(s.pieces[piece], offset).None? {
      WithoutFirstStranger(s, piece, offset);
    }
  }

  // The blocks with block b retrieved.
  function Filled(bs: seq<Block>, b: nat, data: bytes): seq<Block>
    requires b < |bs|
  {
    bs[b := Block(bs[b].offset, bs[b].length, Retrieved, data)]
  }

  lemma RequestGoes(c: Torrent, s: State, p: nat, b: nat)
    requires Sound(c, s) && InRange(s) && |s.pieces| == |c.hashes| && p in s.ongoing && b < |s.pieces[p]|
    ensures FirstAt(s.pieces[p], s.pieces[p][b].offset) == Some(b)
    ensures var rest := WithoutFirst(s.pieces, s.pending, p, s.pieces[p][b].offset);
      && !HasRequest(rest, p, b)
      && forall q, d :: (q != p || d != b) ==> (HasRequest(rest, q, d) <==> HasRequest(s.pending, q, d))
  {
    assert DistinctOffsets(s.pieces[p]);
    WithoutFirstOf(s, p, b, s.pieces[p][b].offset);
  }

  // A block that was asked for is stored, and its request goes; nothing else changes as long as another
  // block of the piece is outstanding.
  lemma StoredUntilWhole(c: Torrent, s: State, p: nat, b: nat, data: bytes)
    requires Sound(c, s) && InRange(s) && |s.pieces| == |c.hashes| && p in s.ongoing && b < |s.pieces[p]|
    requires exists d :: 0 <= d < |s.pieces[p]| && d != b && !s.pieces[p][d].status.Retrieved?
    ensures var (t, o) := Step(c, s, Action.BlockReceived(p, s.pieces[p][b].offset, data));
      && o == Stored(p, b) && t == s.(pieces := s.pieces[p := Filled(s.pieces[p], b, data)], pending := t.pending)
      && !HasRequest(t.pending, p, b)
      && forall q, d :: (q != p || d != b) ==> (HasRequest(t.pending, q, d) <==> HasRequest(s.pending, q, d))
  {
    hide Fips180.Digest, WriteAt, Data, WithoutFirst, Inv;
    RequestGoes(c, s, p, b);
    var d :| 0 <= d < |s.pieces[p]| && d != b && !s.pieces[p][d].status.Retrieved?;
    assert !Filled(s.pieces[p], b, data)[d].status.Retrieved?;
  }

  // Only piece p and the request for its block b are affected.
  ghost predicate OthersKeep(s: State, t: State, p: nat, b: nat) {
    && t.missing == s.missing && t.peers == s.peers && |t.pieces| == |s.pieces|
    && (forall q :: 0 <= q < |s.pieces| && q != p ==> t.pieces[q] == s.pieces[q])
    && !HasRequest(t.pending, p, b)
    && forall q, d :: (q != p || d != b) ==> (HasRequest(t.pending, q, d) <==> HasRequest(s.pending, q, d))
  }

  // The piece is had and written at its place.
  ghost predicate Gained(c: Torrent, s: State, t: State, p: nat, whole: seq<Block>) {
    && p < |t.pieces| && t.pieces[p] == whole && t.have == s.have + [p]
    && (forall q :: q in t.ongoing <==> q in s.ongoing && q != p)
    && t.file == WriteAt(s.file, p * c.pieceLength, Data(whole))
  }

  // The piece starts anew.
  ghost predicate Discarded(s: State, t: State, p: nat) {
    && p < |t.pieces| == |s.pieces| && SameShape(t.pieces[p], s.pieces[p]) && IsFresh(t.pieces[p])
    && t.have == s.have && t.ongoing == s.ongoing && t.file == s.file
  }

  // When it is the last block outstanding, the piece is had and written if its digest is that of the
  // torrent; otherwise every block of it is missing again and it stays ongoing.
  lemma LastBlockDecides(c: Torrent, s: State, p: nat, b: nat, data: bytes)
    requires Sound(c, s) && InRange(s) && |s.pieces| == |c.hashes| && p in s.ongoing && b < |s.pieces[p]|
    requires forall d :: 0 <= d < |s.pieces[p]| && d != b ==> s.pieces[p][d].status.Retrieved?
    ensures var (t, o) := Step(c, s, Action.BlockReceived(p, s.pieces[p][b].offset, data));
      var whole := Filled(s.pieces[p], b, data);
      && OthersKeep(s, t, p, b)
      && if Fips180.Digest(Data(whole)) == c.hashes[p] then o == Written(p) && Gained(c, s, t, p, whole)
         else o == Mismatched(p) && Discarded(s, t, p)
  {
    hide Fips180.Digest, WriteAt, Data, WithoutFirst, Inv;
    RequestGoes(c, s, p, b);
  }
}
