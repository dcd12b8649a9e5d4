// Downloads from peers that deliver the right bytes: no piece is thrown away, and the file comes out right.
module HonestDownload {
  import opened Types
  import opened Blocks
  import opened BlockTable
  import opened Download
  import opened DownloadRuns
  import opened DownloadFile
  import opened DownloadCoverage
  import Fips180
  import PM = PieceManager

  // ----- the data of a piece -----

  // The data of contiguous blocks has the data of each block where the block lies.
  lemma {:induction false} DataAt(bs: seq<Block>, from: int, to: int, i: nat)
    requires Contiguous(bs, from, to) && Blocks.IsComplete(bs) && SizedPiece(bs) && i < |bs|
    ensures |Data(bs)| == to - from
    ensures 0 <= bs[i].offset - from <= bs[i].offset - from + bs[i].length <= |Data(bs)|
    ensures Data(bs)[bs[i].offset - from..][..bs[i].length] == bs[i].data
    decreases |bs|
  {
    var first, rest := bs[0], bs[1..];
    assert first.status.Retrieved? && |first.data| == first.length;
    if rest == [] {
      assert Data(rest) == [];
    } else {
      DataAt(rest, from + first.length, to, if i > 0 then i - 1 else 0);
      if i > 0 {
        assert bs[i] == rest[i - 1];
        assert Data(bs)[bs[i].offset - from..] == Data(rest)[bs[i].offset - (from + first.length)..];
      }
    }
  }

  // The block's part of a piece.
  ghost predicate Carries(part: bytes, b: Block, data: bytes) {
    0 <= b.offset <= b.offset + b.length <= |part| && data == part[b.offset..b.offset + b.length]
  }

  ghost predicate CarriesAll(part: bytes, bs: seq<Block>) {
    forall b :: 0 <= b < |bs| && bs[b].status.Retrieved? ==> Carries(part, bs[b], bs[b].data)
  }

  // Complete contiguous blocks with the right data are the piece.
  lemma {:induction false} DataIsPart(part: bytes, bs: seq<Block>, from: int, to: int)
    requires Contiguous(bs, from, to) && Blocks.IsComplete(bs) && CarriesAll(part, bs)
    requires 0 <= from && to <= |part|
    ensures from <= to && Data(bs) == part[from..to]
  {
    if bs != [] {
      var first, rest := bs[0], bs[1..];
      assert first.status.Retrieved? && Carries(part, first, first.data);
      DataIsPart(part, rest, from + first.length, to);
      assert part[from..to] == part[from..from + first.length] + part[from + first.length..to];
    }
  }

  lemma {:induction false} SameShapeContiguous(bs: seq<Block>, cs: seq<Block>, from: int, to: int)
    requires SameShape(bs, cs) && Contiguous(cs, from, to)
    ensures Contiguous(bs, from, to)
  {
    if bs != [] { SameShapeContiguous(bs[1..], cs[1..], from + bs[0].length, to); }
  }

  // ----- honest deliveries -----

  // Data that is stored is the part of the content that was asked for.
  ghost predicate Honest(c: Torrent, s: State, a: Action, content: bytes)
    requires InRange(s)
  {
    a.BlockReceived? && a.piece >= 0 && a.piece in s.ongoing ==>
      var b := FirstAt(s.pieces[a.piece], a.offset);
      b.Some? ==> Carries(Slice(c, content, a.piece), s.pieces[a.piece][b.value], a.data)
  }

  ghost predicate HonestAt(c: Torrent, s: State, acts: seq<Action>, i: nat, content: bytes)
    requires Sound(c, s) && i < |acts|
  {
    SoundInRange(c, StateAt(c, s, acts, i));
    Honest(c, StateAt(c, s, acts, i), acts[i], content)
  }

  ghost predicate AllHonest(c: Torrent, s: State, acts: seq<Action>, content: bytes)
    requires Sound(c, s)
  {
    forall i :: 0 <= i < |acts| ==> HonestAt(c, s, acts, i, content)
  }

  // Whatever has been retrieved is right.
  ghost predicate Right(c: Torrent, s: State, content: bytes) {
    forall p :: 0 <= p < |s.pieces| ==> CarriesAll(Slice(c, content, p), s.pieces[p])
  }

  lemma StepKeepsRight(c: Torrent, s: State, a: Action, content: bytes)
    requires Sound(c, s) && InRange(s) && Right(c, s, content) && Honest(c, s, a, content)
    ensures Right(c, Step(c, s, a).0, content)
  {
    hide Fips180.Digest, WriteAt, Data, WithoutFirst, FirstAt, FirstMissing, FirstExpired, FirstOngoing, Lowest, Remove;
    hide Slice;
  }

  lemma {:induction false} RunKeepsRight(c: Torrent, s: State, acts: seq<Action>, i: nat, content: bytes)
    requires Sound(c, s) && Right(c, s, content) && i <= |acts| && AllHonest(c, s, acts, content)
    ensures Right(c, StateAt(c, s, acts, i), content)
  {
    hide Sound, Step, Right, Honest;
    if i > 0 {
      RunKeepsRight(c, s, acts, i - 1, content);
      assert HonestAt(c, s, acts, i - 1, content);
      SoundInRange(c, StateAt(c, s, acts, i - 1));
      StepKeepsRight(c, StateAt(c, s, acts, i - 1), acts[i - 1], content);
    }
  }

  // The pieces are cut as the table says, and the table covers the content.
  ghost predicate Cut(c: Torrent, s: State, content: bytes) {
    && |s.pieces| == |c.hashes|
    && forall p :: 0 <= p < |s.pieces| ==> Contiguous(s.pieces[p], 0, |Slice(c, content, p)|)
  }

  lemma InitialIsCut(c: Torrent, content: bytes, file: File)
    requires c.pieceLength > 0 && OneHashPerPiece(c.pieceLength, |content|, |c.hashes|)
    requires Covers(c.pieceLength, |content|, |c.hashes|)
    ensures var s := InitialOf(c, content, file); Cut(c, s, content) && Right(c, s, content)
  {
    hide BlockCount, OneHashPerPiece, Slice, Sound, PieceSize;
    var s := InitialOf(c, content, file);
    TableIsFresh(c.pieceLength, |content|, |c.hashes|);
    forall p | 0 <= p < |s.pieces| ensures Contiguous(s.pieces[p], 0, |Slice(c, content, p)|) {
      SliceLength(c, content, p);
      assert CoversPiece(c.pieceLength, |content|, |c.hashes|, p);
    }
  }

  lemma RunKeepsCut(c: Torrent, s: State, acts: seq<Action>, i: nat, content: bytes)
    requires Sound(c, s) && Cut(c, s, content) && i <= |acts|
    ensures Cut(c, StateAt(c, s, acts, i), content)
  {
    hide Sound, StateAt, Slice, SameShape;
    RunKeepsShape(c, s, acts, i);
    var t := StateAt(c, s, acts, i);
    forall p | 0 <= p < |t.pieces| ensures Contiguous(t.pieces[p], 0, |Slice(c, content, p)|) {
      SameShapeContiguous(t.pieces[p], s.pieces[p], 0, |Slice(c, content, p)|);
    }
  }

  // ----- no piece is thrown away -----

  // A complete piece of right blocks has the digest of the torrent.
  lemma RightPieceMatches(c: Torrent, s: State, content: bytes, p: nat)
    requires Describes(c, content) && Cut(c, s, content) && Right(c, s, content)
    requires p < |s.pieces| && Blocks.IsComplete(s.pieces[p])
    ensures Data(s.pieces[p]) == Slice(c, content, p) && Fips180.Digest(Data(s.pieces[p])) == c.hashes[p]
  {
    hide Fips180.Digest, Slice;
    var part := Slice(c, content, p);
    DataIsPart(part, s.pieces[p], 0, |part|);
    assert part[0..|part|] == part;
  }

  lemma StoredIsCut(c: Torrent, s: State, content: bytes, p: nat, b: nat, data: bytes)
    requires Cut(c, s, content) && p < |s.pieces| && b < |s.pieces[p]|
    ensures Cut(c, s.(pieces := s.pieces[p := Store(s.pieces[p], b, data)]), content)
  {
    hide Slice;
    SameShapeContiguous(Store(s.pieces[p], b, data), s.pieces[p], 0, |Slice(c, content, p)|);
  }

  // An honest step throws no piece away, and writes no collision.
  lemma HonestStepMatches(c: Torrent, s: State, a: Action, content: bytes)
    requires Sound(c, s) && InRange(s) && Describes(c, content) && Cut(c, s, content)
    requires Right(c, s, content) && Honest(c, s, a, content)
    ensures !Step(c, s, a).1.Mismatched? && !WritesCollision(c, s, a, content)
  {
    hide Fips180.Digest, WriteAt, Data, WithoutFirst, FirstAt, FirstMissing, FirstExpired, FirstOngoing, Lowest, Remove;
    hide Slice, Describes, Cut, Sound;
    if a.BlockReceived? && a.piece >= 0 && a.piece in s.ongoing && FirstAt(s.pieces[a.piece], a.offset).Some? {
      var p: nat, b := a.piece, FirstAt(s.pieces[a.piece], a.offset).value;
      var u := s.(pieces := s.pieces[p := Store(s.pieces[p], b, a.data)]);
      StoredIsCut(c, s, content, p, b, a.data);
      if Blocks.IsComplete(u.pieces[p]) { RightPieceMatches(c, u, content, p); }
    }
  }

  // The state in which the constructor leaves the piece manager for this content.
  ghost function Begin(c: Torrent, content: bytes): (s: State)
    requires c.pieceLength > 0
    ensures Sound(c, s)
  {
    InitialOf(c, content, PM.EmptyFile(|content|))
  }

  ghost predicate Fits(c: Torrent, content: bytes) {
    && Describes(c, content) && OneHashPerPiece(c.pieceLength, |content|, |c.hashes|)
    && Covers(c.pieceLength, |content|, |c.hashes|)
  }

  // In every run in which peers deliver the bytes of the content, no piece is thrown away and no collision
  // is written.
  lemma HonestNeverMismatches(c: Torrent, content: bytes, acts: seq<Action>, i: nat)
    requires Fits(c, content) && i < |acts| && AllHonest(c, Begin(c, content), acts, content)
    ensures !OutcomeAt(c, Begin(c, content), acts, i).Mismatched?
    ensures !CollidesAt(c, Begin(c, content), acts, i, content)
  {
    CoveredByHashes(c, content);
    hide Describes, Sound, Step, Right, Cut, Honest, StateAt, Covers, WritesCollision, OneHashPerPiece;
    var s := Begin(c, content);
    InitialIsCut(c, content, PM.EmptyFile(|content|));
    RunKeepsRight(c, s, acts, i, content);
    RunKeepsCut(c, s, acts, i, content);
    assert HonestAt(c, s, acts, i, content);
    SoundInRange(c, StateAt(c, s, acts, i));
    HonestStepMatches(c, StateAt(c, s, acts, i), acts[i], content);
  }

  // Such a run is complete exactly when every block has been delivered, and then the file is the content.
  lemma HonestCompletesExactlyWhen(c: Torrent, content: bytes, acts: seq<Action>)
    requires Fits(c, content) && AllHonest(c, Begin(c, content), acts, content)
    ensures var s := Begin(c, content);
      var t := StateAt(c, s, acts, |acts|);
      && (Download.IsComplete(t) <==> FirstDeliveries(c, s, acts, |acts|) == Total(s.pieces))
      && (Download.IsComplete(t) ==> t.file.content == content)
  {
    CoveredByHashes(c, content);
    hide Describes, Sound, StateAt, Covers, AllHonest, CollidesAt, Total, FirstDeliveries, Step;
    var s := Begin(c, content);
    var t := StateAt(c, s, acts, |acts|);
    forall i | 0 <= i < |acts| ensures !OutcomeAt(c, s, acts, i).Mismatched? && !CollidesAt(c, s, acts, i, content) {
      HonestNeverMismatches(c, content, acts, i);
    }
    CompleteAfterAllDeliveries(c, s, acts);
    InitialIsCut(c, content, PM.EmptyFile(|content|));
    RunKeepsCut(c, s, acts, |acts|, content);
    forall p | 0 <= p < |t.pieces| ensures t.pieces[p] != [] { CutIsNotEmpty(c, t, content, p); }
    if Download.IsComplete(t) {
      BeginFile(c, content);
      CompleteDownloadIsContent(c, s, acts, content);
    }
  }

  lemma BeginFile(c: Torrent, content: bytes)
    requires c.pieceLength > 0
    ensures FileInv(c, Begin(c, content), content)
  {
    hide Table;
  }

  lemma CutIsNotEmpty(c: Torrent, s: State, content: bytes, p: nat)
    requires c.pieceLength > 0 && OneHashPerPiece(c.pieceLength, |content|, |c.hashes|)
    requires Cut(c, s, content) && p < |s.pieces|
    ensures s.pieces[p] != []
  {
    var gap := |c.hashes| - 1 - p;
    assert (|c.hashes| - 1) * c.pieceLength == p * c.pieceLength + gap * c.pieceLength;
    assert gap * c.pieceLength >= 0;
    hide Slice;
    SliceLength(c, content, p);
  }
}
