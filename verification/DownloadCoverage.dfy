// What a table of blocks that does not cover the content does to the download.
module DownloadCoverage {
  import opened Types
  import opened Blocks
  import opened BlockTable
  import opened Download
  import opened DownloadRuns
  import opened DownloadFile
  import Fips180

  // Data that is stored has exactly the length of its block.
  ghost predicate Exact(s: State, a: Action)
    requires InRange(s)
  {
    a.BlockReceived? && a.piece >= 0 && a.piece in s.ongoing ==>
      var b := FirstAt(s.pieces[a.piece], a.offset);
      b.Some? ==> |a.data| == s.pieces[a.piece][b.value].length
  }

  ghost predicate ExactAt(c: Torrent, s: State, acts: seq<Action>, i: nat)
    requires Sound(c, s) && i < |acts|
  {
    SoundInRange(c, StateAt(c, s, acts, i));
    Exact(StateAt(c, s, acts, i), acts[i])
  }

  ghost predicate AllExact(c: Torrent, s: State, acts: seq<Action>)
    requires Sound(c, s)
  {
    forall i :: 0 <= i < |acts| ==> ExactAt(c, s, acts, i)
  }

  // Every block that is retrieved holds data of its length.
  predicate SizedPiece(bs: seq<Block>) {
    forall b :: 0 <= b < |bs| && bs[b].status.Retrieved? ==> |bs[b].data| == bs[b].length
  }

  predicate Sized(s: State) {
    forall p :: 0 <= p < |s.pieces| ==> SizedPiece(s.pieces[p])
  }

  lemma StepKeepsSized(c: Torrent, s: State, a: Action)
    requires Sound(c, s) && InRange(s) && Sized(s) && Exact(s, a)
    ensures Sized(Step(c, s, a).0)
  {
    hide Fips180.Digest, WriteAt, Data, WithoutFirst, FirstAt, FirstMissing, FirstExpired, FirstOngoing, Lowest, Remove;
  }

  lemma {:induction false} RunKeepsSized(c: Torrent, s: State, acts: seq<Action>, i: nat)
    requires Sound(c, s) && Sized(s) && i <= |acts| && AllExact(c, s, acts)
    ensures Sized(StateAt(c, s, acts, i))
  {
    hide Sound, Step, Sized, Exact;
    if i > 0 {
      RunKeepsSized(c, s, acts, i - 1);
      assert ExactAt(c, s, acts, i - 1);
      SoundInRange(c, StateAt(c, s, acts, i - 1));
      StepKeepsSized(c, StateAt(c, s, acts, i - 1), acts[i - 1]);
    }
  }

  lemma {:induction false} RunKeepsShape(c: Torrent, s: State, acts: seq<Action>, i: nat)
    requires Sound(c, s) && i <= |acts|
    ensures |StateAt(c, s, acts, i).pieces| == |s.pieces|
    ensures forall p :: 0 <= p < |s.pieces| ==> SameShape(StateAt(c, s, acts, i).pieces[p], s.pieces[p])
  {
    hide Sound, Step;
    if i > 0 {
      RunKeepsShape(c, s, acts, i - 1);
      StepKeepsShape(c, StateAt(c, s, acts, i - 1), acts[i - 1]);
    }
  }

  // A piece that is in the have list and was not there at the start has been written by some step.
  lemma {:induction false} WrittenAt(c: Torrent, s: State, acts: seq<Action>, i: nat, p: nat) returns (k: nat)
    requires Sound(c, s) && i <= |acts| && p !in s.have && p in StateAt(c, s, acts, i).have
    ensures k < i && OutcomeAt(c, s, acts, k) == Written(p)
  {
    hide Sound, Step;
    if p in StateAt(c, s, acts, i - 1).have {
      k := WrittenAt(c, s, acts, i - 1, p);
    } else {
      k := i - 1;
      OnlyWritingHas(c, StateAt(c, s, acts, k), acts[k], p);
    }
  }

  lemma OnlyWritingHas(c: Torrent, s: State, a: Action, p: nat)
    requires Sound(c, s) && p !in s.have && p in Step(c, s, a).0.have
    ensures Step(c, s, a).1 == Written(p)
  {
    hide Fips180.Digest, WriteAt, Data, WithoutFirst, FirstAt, FirstMissing, FirstExpired, FirstOngoing, Lowest, Remove;
  }

  // ----- lengths -----

  function Lengths(bs: seq<Block>): int {
    if bs == [] then 0 else bs[0].length + Lengths(bs[1..])
  }

  lemma {:induction false} DataLength(bs: seq<Block>)
    requires Blocks.IsComplete(bs) && SizedPiece(bs)
    ensures |Data(bs)| == Lengths(bs)
  {
    if bs != [] {
      assert bs[0].status.Retrieved?;
      DataLength(bs[1..]);
    }
  }

  lemma {:induction false} SameLengths(bs: seq<Block>, cs: seq<Block>)
    requires SameShape(bs, cs)
    ensures Lengths(bs) == Lengths(cs)
  {
    if bs != [] { SameLengths(bs[1..], cs[1..]); }
  }

  // Blocks that follow each other in steps of the block size, all but the last of this size.
  lemma {:induction false} ContiguousLengths(bs: seq<Block>, from: int, to: int)
    requires forall j :: 0 <= j < |bs| ==> bs[j].offset == from + j * BLOCK_SIZE
    requires forall j :: 0 <= j < |bs| - 1 ==> bs[j].length == BLOCK_SIZE
    ensures Contiguous(bs, from, to) <==> to == from + Lengths(bs)
  {
    if bs != [] {
      var rest := bs[1..];
      if |bs| > 1 {
        ContiguousLengths(rest, from + BLOCK_SIZE, to);
      } else {
        assert rest == [];
      }
    }
  }

  // A piece is covered exactly when its blocks are as long as its part of the content.
  lemma CoveredByLength(pieceLength: nat, totalLength: nat, n: nat, i: nat)
    requires pieceLength > 0 && i < n
    ensures CoversPiece(pieceLength, totalLength, n, i)
       <==> Lengths(Table(pieceLength, totalLength, n)[i]) == PieceSize(pieceLength, totalLength, i)
  {
    hide BlockCount;
    ContiguousLengths(Table(pieceLength, totalLength, n)[i], 0, PieceSize(pieceLength, totalLength, i));
  }

  lemma SliceLength(c: Torrent, content: bytes, p: nat)
    requires OneHashPerPiece(c.pieceLength, |content|, |c.hashes|) && p < |c.hashes|
    ensures |Slice(c, content, p)| == PieceSize(c.pieceLength, |content|, p)
  {
    var gap := |c.hashes| - 1 - p;
    assert (|c.hashes| - 1) * c.pieceLength == p * c.pieceLength + gap * c.pieceLength;
    assert gap * c.pieceLength >= 0;
    assert (p + 1) * c.pieceLength == p * c.pieceLength + c.pieceLength;
  }

  // ----- the download -----

  // The blocks that initiatePieces makes for this content.
  function TableOf(c: Torrent, content: bytes): seq<seq<Block>>
    requires c.pieceLength > 0
  {
    Table(c.pieceLength, |content|, |c.hashes|)
  }

  lemma TableIsSound(c: Torrent, content: bytes, file: File)
    requires c.pieceLength > 0
    ensures Sound(c, Initial(TableOf(c, content), file)) && Sized(Initial(TableOf(c, content), file))
  {
    hide BlockCount, Sound;
    TableIsFresh(c.pieceLength, |content|, |c.hashes|);
    InitialSound(c, TableOf(c, content), file);
  }

  // The state that the constructor leaves.
  ghost function InitialOf(c: Torrent, content: bytes, file: File): (s: State)
    requires c.pieceLength > 0
    ensures Sound(c, s)
  {
    TableIsSound(c, content, file);
    Initial(TableOf(c, content), file)
  }

  // Writing a piece that is not covered writes a collision: the data has the digest and the wrong length.
  lemma WrongLengthCollides(c: Torrent, s: State, acts: seq<Action>, i: nat, content: bytes, p: nat)
    requires Describes(c, content) && OneHashPerPiece(c.pieceLength, |content|, |c.hashes|) && p < |c.hashes|
    requires Sound(c, s) && i < |acts| && AllExact(c, s, acts) && s == Initial(TableOf(c, content), s.file)
    requires OutcomeAt(c, s, acts, i) == Written(p)
    requires !CoversPiece(c.pieceLength, |content|, |c.hashes|, p)
    ensures CollidesAt(c, s, acts, i, content)
  {
    hide Fips180.Digest, CoversPiece, Table, OneHashPerPiece, Slice, PieceSize, Sized, Exact, AllExact, Step, StateAt;
    TableIsSound(c, content, s.file);
    RunKeepsSized(c, s, acts, i + 1);
    RunKeepsShape(c, s, acts, i + 1);
    var t := StateAt(c, s, acts, i + 1);
    NextState(c, s, acts, i);
    WrittenData(c, StateAt(c, s, acts, i), acts[i], t, p);
    assert t.have[|t.have| - 1] == p;
    HadIsComplete(c, t, p);
    DataLength(t.pieces[p]);
    SameLengths(t.pieces[p], s.pieces[p]);
    CoveredByLength(c.pieceLength, |content|, |c.hashes|, p);
    SliceLength(c, content, p);
  }

  lemma NextState(c: Torrent, s: State, acts: seq<Action>, i: nat)
    requires Sound(c, s) && i < |acts|
    ensures StateAt(c, s, acts, i + 1) == Step(c, StateAt(c, s, acts, i), acts[i]).0
  {
    hide Step;
  }

  lemma HadIsComplete(c: Torrent, s: State, p: nat)
    requires Sound(c, s) && Sized(s) && p in s.have
    ensures p < |s.pieces| && Blocks.IsComplete(s.pieces[p]) && SizedPiece(s.pieces[p])
  {
  }

  // When the table does not cover the content and peers deliver blocks of exactly the length asked for,
  // a download that completes has written a SHA-1 collision.
  lemma UncoveredNeverCompletes(c: Torrent, content: bytes, file: File, acts: seq<Action>)
    requires Describes(c, content) && OneHashPerPiece(c.pieceLength, |content|, |c.hashes|)
    requires !Covers(c.pieceLength, |content|, |c.hashes|)
    requires AllExact(c, InitialOf(c, content, file), acts)
    requires Download.IsComplete(StateAt(c, InitialOf(c, content, file), acts, |acts|))
    ensures exists i :: 0 <= i < |acts| && CollidesAt(c, InitialOf(c, content, file), acts, i, content)
  {
    CoveredByHashes(c, content);
    hide Describes, Sound, CoversPiece, StateAt, AllExact, CollidesAt, OneHashPerPiece;
    var s := InitialOf(c, content, file);
    var p: nat :| p < |c.hashes| && !CoversPiece(c.pieceLength, |content|, |c.hashes|, p);
    var t := StateAt(c, s, acts, |acts|);
    SoundInRange(c, t);
    RunKeepsShape(c, s, acts, |acts|);
    CompleteMeansAllHad(c, t);
    var i := WrittenAt(c, s, acts, |acts|, p);
    WrongLengthCollides(c, s, acts, i, content, p);
  }
}
