// What the download leaves in the file, and how far it has come.
module DownloadFile {
  import opened Types
  import opened Blocks
  import opened Download
  import opened DownloadRuns
  import Fips180

  // ----- the file -----

  function Min(x: nat, y: nat): nat { if x < y then x else y }

  // The part of the content that is piece p.
  function Slice(c: Torrent, content: bytes, p: nat): (part: bytes)
  {
    SliceBounds(c, |content|, p);
    content[Min(Position(c, p), |content|)..Min(Position(c, p + 1), |content|)]
  }

  lemma SliceBounds(c: Torrent, n: nat, p: nat)
    ensures 0 <= Min(Position(c, p), n) <= Min(Position(c, p + 1), n) <= n
  {
    assert (p + 1) * c.pieceLength == p * c.pieceLength + c.pieceLength;
  }

  // The torrent is made from this content: its pieces cover it, and each hash is the digest of its piece.
  ghost predicate Describes(c: Torrent, content: bytes) {
    && c.pieceLength > 0
    && |content| <= Position(c, |c.hashes|)
    && forall p :: 0 <= p < |c.hashes| ==> c.hashes[p] == Fips180.Digest(Slice(c, content, p))
  }

  // The torrent of a content cut into n pieces.
  ghost function TorrentOf(content: bytes, pieceLength: nat, n: nat): Torrent {
    var blank := Torrent(pieceLength, []);
    Torrent(pieceLength, seq(n, p requires 0 <= p => Fips180.Digest(Slice(blank, content, p))))
  }

  // Every content has a torrent that describes it.
  lemma TorrentOfDescribes(content: bytes, pieceLength: nat, n: nat)
    requires pieceLength > 0 && |content| <= n * pieceLength
    ensures Describes(TorrentOf(content, pieceLength, n), content)
  {
    hide Fips180.Digest;
    var c, blank := TorrentOf(content, pieceLength, n), Torrent(pieceLength, []);
    forall p | 0 <= p < n ensures Slice(c, content, p) == Slice(blank, content, p) {
      assert Position(c, p) == Position(blank, p) && Position(c, p + 1) == Position(blank, p + 1);
    }
  }

  // Two different strings with one SHA-1 digest.
  ghost predicate Collision(d: bytes, e: bytes) {
    d != e && Fips180.Digest(d) == Fips180.Digest(e)
  }

  // The step writes data that collides with the piece it is taken for.
  ghost predicate WritesCollision(c: Torrent, s: State, a: Action, content: bytes)
    requires Sound(c, s)
  {
    var (t, o) := Step(c, s, a);
    o.Written? && o.piece < |t.pieces| && Collision(Data(t.pieces[o.piece]), Slice(c, content, o.piece))
  }

  // Action i of the run does.
  ghost predicate CollidesAt(c: Torrent, s: State, acts: seq<Action>, i: nat, content: bytes)
    requires Sound(c, s) && i < |acts|
  {
    WritesCollision(c, StateAt(c, s, acts, i), acts[i], content)
  }

  // The file holds piece p where it belongs.
  ghost predicate Holds(c: Torrent, f: bytes, content: bytes, p: nat) {
    |f| == |content| && Slice(c, f, p) == Slice(c, content, p)
  }

  ghost predicate FileInv(c: Torrent, s: State, content: bytes) {
    && |s.file.content| == |content|
    && (content != [] ==> s.file.good)
    && forall p :: p in s.have ==> Holds(c, s.file.content, content, p)
  }

  // The regions of two pieces do not overlap.
  lemma RegionsDisjoint(c: Torrent, p: nat, q: nat)
    requires p < q
    ensures Position(c, p + 1) <= Position(c, q)
  {
    var gap := q - (p + 1);
    assert q * c.pieceLength == (p + 1) * c.pieceLength + gap * c.pieceLength;
    assert gap * c.pieceLength >= 0;
  }

  lemma SliceAt(c: Torrent, content: bytes, p: nat, x: nat)
    requires x < |content| && Position(c, p) <= x < Position(c, p + 1)
    ensures x - Position(c, p) < |Slice(c, content, p)|
    ensures Slice(c, content, p)[x - Position(c, p)] == content[x]
  {}

  // Writing piece p where it belongs gives the file that piece and leaves the other pieces alone.
  lemma WriteSlice(c: Torrent, f: File, content: bytes, p: nat)
    requires |f.content| == |content| && (content != [] ==> f.good)
    ensures var g := WriteAt(f, Position(c, p), Slice(c, content, p));
      && |g.content| == |content| && g.good == f.good
      && Holds(c, g.content, content, p)
      && forall q :: 0 <= q && q != p && Holds(c, f.content, content, q) ==> Holds(c, g.content, content, q)
  {
    var data := Slice(c, content, p);
    var at := Position(c, p);
    var g := WriteAt(f, at, data);
    SliceBounds(c, |content|, p);
    if data != [] {
      assert at + |data| <= |content|;
      assert g.content == f.content[..at] + data + f.content[at + |data|..];
      assert Slice(c, g.content, p) == g.content[at..at + |data|] == data;
      forall q | 0 <= q && q != p && Holds(c, f.content, content, q)
        ensures Holds(c, g.content, content, q)
      {
        OtherSlice(c, f.content, g.content, p, q);
      }
    }
  }

  lemma OtherSlice(c: Torrent, f: bytes, g: bytes, p: nat, q: nat)
    requires |f| == |g| && p != q
    requires forall x :: 0 <= x < |f| && (x < Position(c, p) || Position(c, p + 1) <= x) ==> g[x] == f[x]
    ensures Slice(c, f, q) == Slice(c, g, q)
  {
    SliceBounds(c, |f|, q);
    if q < p { RegionsDisjoint(c, q, p); } else { RegionsDisjoint(c, p, q); }
  }

  lemma StepKeepsFile(c: Torrent, s: State, a: Action, content: bytes)
    requires Sound(c, s) && Describes(c, content) && FileInv(c, s, content)
    requires !WritesCollision(c, s, a, content)
    ensures FileInv(c, Step(c, s, a).0, content)
  {
    hide Fips180.Digest, Holds, WriteAt, Slice, WithoutFirst, Data, Position;
    var t := Step(c, s, a).0;
    if Step(c, s, a).1.Written? {
      var p := Step(c, s, a).1.piece;
      WrittenData(c, s, a, t, p);
      assert Data(t.pieces[p]) == Slice(c, content, p);
      WriteSlice(c, s.file, content, p);
      StepWrites(c, s, a);
      OngoingIsNotHad(c, s, p);
    }
  }

  // What is written is the data of the piece, and it has the digest of the torrent.
  lemma WrittenData(c: Torrent, s: State, a: Action, t: State, p: nat)
    requires Sound(c, s) && Step(c, s, a) == (t, Written(p))
    ensures p < |t.pieces| == |c.hashes| && Fips180.Digest(Data(t.pieces[p])) == c.hashes[p]
    ensures t.file == WriteAt(s.file, Position(c, p), Data(t.pieces[p]))
    ensures t.have == s.have + [p]
  {
    hide Fips180.Digest, WriteAt, WithoutFirst, Data, Position;
  }

  // As long as no collision is written, every piece in the have list keeps its region of the file,
  // from the moment it is written on.
  lemma {:induction false} RunKeepsFile(c: Torrent, s: State, acts: seq<Action>, i: nat, content: bytes)
    requires Sound(c, s) && Describes(c, content) && FileInv(c, s, content) && i <= |acts|
    requires forall k :: 0 <= k < i ==> !CollidesAt(c, s, acts, k, content)
    ensures FileInv(c, StateAt(c, s, acts, i), content)
  {
    hide FileInv, Describes, Sound, Step, WritesCollision;
    if i > 0 {
      RunKeepsFile(c, s, acts, i - 1, content);
      assert !CollidesAt(c, s, acts, i - 1, content);
      StepKeepsFile(c, StateAt(c, s, acts, i - 1), acts[i - 1], content);
    }
  }

  // A file that holds every piece is the content.
  lemma AllHeld(c: Torrent, f: bytes, content: bytes)
    requires c.pieceLength > 0 && |content| <= Position(c, |c.hashes|) && |f| == |content|
    requires forall p: nat :: p < |c.hashes| ==> Holds(c, f, content, p)
    ensures f == content
  {
    hide Fips180.Digest, Slice;
    forall x | 0 <= x < |content| ensures f[x] == content[x] {
      var p := PieceOf(c, |content|, x);
      assert Holds(c, f, content, p);
      SliceAt(c, f, p, x);
      SliceAt(c, content, p, x);
    }
  }

  lemma PieceOf(c: Torrent, n: nat, x: nat) returns (p: nat)
    requires c.pieceLength > 0 && n <= Position(c, |c.hashes|) && x < n
    ensures p < |c.hashes| && Position(c, p) <= x < Position(c, p + 1)
  {
    p := x / c.pieceLength;
    assert x == p * c.pieceLength + x % c.pieceLength;
    if p >= |c.hashes| {
      if p > |c.hashes| { RegionsDisjoint(c, |c.hashes|, p); }
      assert false;
    }
  }

  // Whatever peers do, a complete download is the content, or the run has written a SHA-1 collision.
  lemma CompleteDownloadIsContent(c: Torrent, s: State, acts: seq<Action>, content: bytes)
    requires Sound(c, s) && Describes(c, content) && FileInv(c, s, content)
    requires Download.IsComplete(StateAt(c, s, acts, |acts|))
    ensures StateAt(c, s, acts, |acts|).file.content == content
         || exists i :: 0 <= i < |acts| && CollidesAt(c, s, acts, i, content)
  {
    hide Describes, Sound, Holds, StateAt, CollidesAt;
    if forall i :: 0 <= i < |acts| ==> !CollidesAt(c, s, acts, i, content) {
      RunKeepsFile(c, s, acts, |acts|, content);
      var t := StateAt(c, s, acts, |acts|);
      SoundInRange(c, t);
      CompleteMeansAllHad(c, t);
      CoveredByHashes(c, content);
      AllHeld(c, t.file.content, content);
    }
  }

  lemma CoveredByHashes(c: Torrent, content: bytes)
    requires Describes(c, content)
    ensures c.pieceLength > 0 && |content| <= Position(c, |c.hashes|)
  {
    hide Fips180.Digest;
  }

  // ----- progress -----

  function Total(pieces: seq<seq<Block>>): nat {
    if pieces == [] then 0 else Unretrieved(pieces[0]) + Total(pieces[1..])
  }

  lemma {:induction false} TotalUpdate(pieces: seq<seq<Block>>, p: nat, bs: seq<Block>)
    requires p < |pieces|
    ensures Total(pieces[p := bs]) == Total(pieces) - Unretrieved(pieces[p]) + Unretrieved(bs)
  {
    hide Unretrieved;
    if p > 0 {
      assert pieces[p := bs][1..] == pieces[1..][p - 1 := bs];
      TotalUpdate(pieces[1..], p - 1, bs);
    } else {
      assert pieces[p := bs][1..] == pieces[1..];
    }
  }

  // The action is the first delivery of a block of an ongoing piece.
  ghost predicate FirstDelivery(s: State, a: Action)
    requires InRange(s)
  {
    && a.BlockReceived? && a.piece >= 0 && a.piece in s.ongoing
    && var b := FirstAt(s.pieces[a.piece], a.offset);
       b.Some? && !s.pieces[a.piece][b.value].status.Retrieved?
  }

  lemma AskCounts(pieces: seq<seq<Block>>, p: nat, b: nat)
    requires p < |pieces| && b < |pieces[p]| && pieces[p][b].status.Missing?
    ensures Total(pieces[p := Ask(pieces[p], b)]) == Total(pieces)
  {
    hide Unretrieved, Total;
    UnretrievedUpdate(pieces[p], b, pieces[p][b].(status := Pending));
    TotalUpdate(pieces, p, Ask(pieces[p], b));
  }

  lemma StoreCounts(pieces: seq<seq<Block>>, p: nat, b: nat, data: bytes)
    requires p < |pieces| && b < |pieces[p]|
    ensures Total(pieces[p := Store(pieces[p], b, data)])
         == Total(pieces) - if pieces[p][b].status.Retrieved? then 0 else 1
  {
    hide Unretrieved, Total;
    UnretrievedUpdate(pieces[p], b, pieces[p][b].(status := Retrieved, data := data));
    TotalUpdate(pieces, p, Store(pieces[p], b, data));
  }

  // Unless a step throws a piece away, the number of blocks not retrieved drops by one on a first
  // delivery and stays as it is otherwise.
  lemma StepCounts(c: Torrent, s: State, a: Action)
    requires Sound(c, s) && !Step(c, s, a).1.Mismatched?
    ensures Total(Step(c, s, a).0.pieces) == Total(s.pieces) - if FirstDelivery(s, a) then 1 else 0
  {
    hide Fips180.Digest, WriteAt, WithoutFirst, Data, Total, Sound, Receive, Next;
    SoundInRange(c, s);
    match a
    case NextRequest(peer, now) => NextCounts(c, s, peer, now);
    case BlockReceived(piece, offset, data) => ReceiveCounts(c, s, piece, offset, data);
    case AddPeer(_, _) =>
    case UpdatePeer(_, _) =>
    case RemovePeer(_) =>
  }

  lemma NextCounts(c: Torrent, s: State, peer: string, now: int)
    requires Sound(c, s)
    ensures Total(Next(s, peer, now).0.pieces) == Total(s.pieces)
  {
    hide Total, FirstMissing, FirstExpired, FirstOngoing, Lowest, Remove;
    var (t, o) := Next(s, peer, now);
    if o.Issued? && !o.source.Expired? {
      AskCounts(s.pieces, o.piece, o.block);
    }
  }

  lemma ReceiveCounts(c: Torrent, s: State, piece: int, offset: int, data: bytes)
    requires Sound(c, s) && !Receive(c, s, piece, offset, data).1.Mismatched?
    ensures Total(Receive(c, s, piece, offset, data).0.pieces)
         == Total(s.pieces) - if FirstDelivery(s, BlockReceived(piece, offset, data)) then 1 else 0
  {
    hide Fips180.Digest, WriteAt, WithoutFirst, Data, Total, FirstAt, Remove;
    SoundInRange(c, s);
    if piece >= 0 && piece in s.ongoing {
      match FirstAt(s.pieces[piece], offset)
      case None =>
      case Some(b) => StoreCounts(s.pieces, piece, b, data);
    }
  }

  // When no block is left, the download is complete.
  lemma {:induction false} NoneLeft(pieces: seq<seq<Block>>)
    ensures Total(pieces) == 0 <==> forall p :: 0 <= p < |pieces| ==> Blocks.IsComplete(pieces[p])
  {
    if pieces != [] {
      hide Unretrieved, Blocks.IsComplete;
      CompleteIffNoneUnretrieved(pieces[0]);
      NoneLeft(pieces[1..]);
      assert pieces == [pieces[0]] + pieces[1..];
    }
  }

  // In a run that throws nothing away, the number of first deliveries plus the number of blocks left
  // is the number of blocks left at the start.
  ghost function FirstDeliveries(c: Torrent, s: State, acts: seq<Action>, i: nat): nat
    requires Sound(c, s) && i <= |acts|
  {
    if i == 0 then 0
    else
      SoundInRange(c, StateAt(c, s, acts, i - 1));
      FirstDeliveries(c, s, acts, i - 1) + if FirstDelivery(StateAt(c, s, acts, i - 1), acts[i - 1]) then 1 else 0
  }

  lemma {:induction false} RunCounts(c: Torrent, s: State, acts: seq<Action>, i: nat)
    requires Sound(c, s) && i <= |acts|
    requires forall k :: 0 <= k < i ==> !OutcomeAt(c, s, acts, k).Mismatched?
    ensures Total(StateAt(c, s, acts, i).pieces) + FirstDeliveries(c, s, acts, i) == Total(s.pieces)
  {
    hide Total, Sound, Step, FirstDelivery;
    if i > 0 {
      RunCounts(c, s, acts, i - 1);
      assert !OutcomeAt(c, s, acts, i - 1).Mismatched?;
      StepCounts(c, StateAt(c, s, acts, i - 1), acts[i - 1]);
    }
  }

  // Such a run is complete exactly when every block has been delivered a first time and no piece without
  // blocks is outside the have list.
  lemma CompleteAfterAllDeliveries(c: Torrent, s: State, acts: seq<Action>)
    requires Sound(c, s)
    requires forall k :: 0 <= k < |acts| ==> !OutcomeAt(c, s, acts, k).Mismatched?
    ensures var t := StateAt(c, s, acts, |acts|);
      Download.IsComplete(t) <==>
        && FirstDeliveries(c, s, acts, |acts|) == Total(s.pieces)
        && forall p :: 0 <= p < |t.pieces| && t.pieces[p] == [] ==> p in t.have
  {
    hide Total, Step;
    RunCounts(c, s, acts, |acts|);
    var t := StateAt(c, s, acts, |acts|);
    NoneLeft(t.pieces);
    CompleteMeansAllRetrieved(c, t);
  }
}
