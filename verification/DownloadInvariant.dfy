// What every step of the download keeps: the three lists partition the pieces, the statuses of a
// piece's blocks agree with the list it is in, and every pending request names a pending block.
module DownloadInvariant {
  import opened Types
  import opened Blocks
  import opened Download
  import Fips180

  predicate NoDuplicates(xs: seq<nat>) {
    forall i, j :: 0 <= i < j < |xs| ==> xs[i] != xs[j]
  }

  // Each piece is in exactly one of the three lists, once.
  ghost predicate Partitioned(s: State) {
    && InRange(s)
    && NoDuplicates(s.missing) && NoDuplicates(s.ongoing) && NoDuplicates(s.have)
    && (forall p: nat :: p < |s.pieces| ==> p in s.missing || p in s.ongoing || p in s.have)
    && (forall p :: p in s.missing ==> p !in s.ongoing && p !in s.have)
    && (forall p :: p in s.ongoing ==> p !in s.have)
  }

  // No block of a missing piece has been asked for, every block of a piece in the have list is
  // retrieved, and an ongoing piece is not complete.
  ghost predicate Staged(s: State)
    requires InRange(s)
  {
    && (forall p :: p in s.missing ==> p < |s.pieces| && IsFresh(s.pieces[p]))
    && (forall p :: p in s.have ==> p < |s.pieces| && Blocks.IsComplete(s.pieces[p]))
    && (forall p :: p in s.ongoing ==> p < |s.pieces| && (s.pieces[p] == [] || !Blocks.IsComplete(s.pieces[p])))
    && (forall p :: 0 <= p < |s.pieces| ==> DistinctOffsets(s.pieces[p]))
  }

  ghost predicate HasRequest(pending: seq<Request>, p: nat, b: nat) {
    exists k :: 0 <= k < |pending| && pending[k].piece == p && pending[k].block == b
  }

  ghost predicate Unique(pending: seq<Request>) {
    forall i, j :: 0 <= i < j < |pending| ==>
      pending[i].piece != pending[j].piece || pending[i].block != pending[j].block
  }

  // Requests are unique and name pending blocks of ongoing pieces; a pending block that no request
  // names is the first of its piece.
  ghost predicate Tracked(s: State)
    requires InRange(s)
  {
    && Unique(s.pending)
    && (forall k :: 0 <= k < |s.pending| ==>
          s.pending[k].piece in s.ongoing && s.pieces[s.pending[k].piece][s.pending[k].block].status.Pending?)
    && (forall p, b :: 0 <= p < |s.pieces| && 0 < b < |s.pieces[p]| && s.pieces[p][b].status.Pending? ==>
          HasRequest(s.pending, p, b))
  }

  ghost predicate Inv(s: State) {
    Partitioned(s) && Staged(s) && Tracked(s)
  }

  lemma {:induction false} RemoveFacts(xs: seq<nat>, x: nat)
    requires NoDuplicates(xs)
    ensures NoDuplicates(Remove(xs, x))
    ensures |Remove(xs, x)| == if x in xs then |xs| - 1 else |xs|
  {
    if xs != [] {
      var rest := xs[1..];
      RemoveFacts(rest, x);
      assert xs == [xs[0]] + rest;
      assert forall i :: 0 <= i < |rest| ==> rest[i] == xs[i + 1];
      assert xs[0] !in rest;
    }
  }

  lemma {:induction false} RemoveBelow(xs: seq<nat>, x: nat, n: nat)
    requires AllBelow(xs, n)
    ensures AllBelow(Remove(xs, x), n)
  {
    forall k | 0 <= k < |Remove(xs, x)| ensures Remove(xs, x)[k] < n {
      assert Remove(xs, x)[k] in xs;
    }
  }

  // ----- the pieces of a run -----

  lemma HasRequestReissued(pending: seq<Request>, k: nat, now: int, q: nat, d: nat)
    requires k < |pending| && HasRequest(pending, q, d)
    ensures HasRequest(pending[k := pending[k].(timestamp := now)], q, d)
  {
    var j :| 0 <= j < |pending| && pending[j].piece == q && pending[j].block == d;
    assert pending[k := pending[k].(timestamp := now)][j].piece == q;
  }

  lemma ReissueKeeps(s: State, k: nat, now: int)
    requires Inv(s) && k < |s.pending|
    ensures Inv(Reissue(s, k, now).0)
  {
    hide HasRequest, Staged;
    var t := Reissue(s, k, now).0;
    assert Staged(t) by { SameStages(s, t); }
    forall p, b | 0 <= p < |t.pieces| && 0 < b < |t.pieces[p]| && t.pieces[p][b].status.Pending?
      ensures HasRequest(t.pending, p, b)
    {
      HasRequestReissued(s.pending, k, now, p, b);
    }
  }

  lemma SameStages(s: State, t: State)
    requires InRange(s) && InRange(t) && Staged(s)
    requires t.pieces == s.pieces && t.missing == s.missing && t.ongoing == s.ongoing && t.have == s.have
    ensures Staged(t)
  {}

  lemma ContinueKeeps(s: State, p: nat, now: int)
    requires Inv(s) && p in s.ongoing && p < |s.pieces| && FirstMissing(s.pieces[p]).Some?
    ensures Inv(Continue(s, p, now).0)
  {
    hide FirstMissing, HasRequest;
    var t := Continue(s, p, now).0;
    var b := FirstMissing(s.pieces[p]).value;
    assert t.pieces[p][b].status.Pending? && t.pending[|s.pending|] == Request(p, b, now);
    forall q, d | 0 <= q < |t.pieces| && 0 < d < |t.pieces[q]| && t.pieces[q][d].status.Pending?
      ensures HasRequest(t.pending, q, d)
    {
      if q == p && d == b {
        RequestAt(t.pending, |s.pending|);
      } else {
        HasRequestAppend(s.pending, Request(p, b, now), q, d);
      }
    }
  }

  lemma HasRequestAppend(pending: seq<Request>, r: Request, q: nat, d: nat)
    requires HasRequest(pending, q, d)
    ensures HasRequest(pending + [r], q, d)
  {
    var j :| 0 <= j < |pending| && pending[j].piece == q && pending[j].block == d;
    assert (pending + [r])[j] == pending[j];
  }

  // The lists after a piece has been started.
  lemma MovePartitions(s: State, p: nat)
    requires Partitioned(s) && p in s.missing && p < |s.pieces|
    ensures Partitioned(s.(missing := Remove(s.missing, p), ongoing := s.ongoing + [p]))
  {
    var t := s.(missing := Remove(s.missing, p), ongoing := s.ongoing + [p]);
    RemoveFacts(s.missing, p);
    RemoveBelow(s.missing, p, |s.pieces|);
    assert p in t.ongoing by { assert t.ongoing[|s.ongoing|] == p; }
    assert forall q :: q in t.ongoing <==> q in s.ongoing || q == p;
  }

  lemma StartKeeps(s: State, p: nat)
    requires Inv(s) && p in s.missing && p < |s.pieces|
    ensures Inv(Start(s, p).0)
  {
    hide FirstMissing, HasRequest, Remove;
    var t := Start(s, p).0;
    MovePartitions(s, p);
    assert Partitioned(t);
    if s.pieces[p] != [] {
      assert s.pieces[p][0].status.Missing?;
      assert FirstMissing(s.pieces[p]) == Some(0);
      assert t.pieces[p][0].status.Pending?;
    }
    assert forall q :: q in t.ongoing <==> q in s.ongoing || q == p;
    assert Staged(t);
    forall q, d | 0 <= q < |t.pieces| && 0 < d < |t.pieces[q]| && t.pieces[q][d].status.Pending?
      ensures HasRequest(t.pending, q, d)
    {
      assert s.pieces[q][d].status.Pending?;
    }
  }

  // What WithoutFirst removes: nothing, or the request at one index.
  lemma {:induction false} WithoutFirstIs(pieces: seq<seq<Block>>, pending: seq<Request>, piece: int, offset: int)
    returns (k: nat)
    requires NameBlocks(pending, pieces)
    ensures k <= |pending|
    ensures forall j :: 0 <= j < k ==> !Matches(pieces, pending[j], piece, offset)
    ensures k == |pending| ==> WithoutFirst(pieces, pending, piece, offset) == pending
    ensures k < |pending| ==> Matches(pieces, pending[k], piece, offset)
    ensures k < |pending| ==> WithoutFirst(pieces, pending, piece, offset) == pending[..k] + pending[k + 1..]
  {
    if pending == [] {
      k := 0;
    } else if Matches(pieces, pending[0], piece, offset) {
      k := 0;
    } else {
      var j := WithoutFirstIs(pieces, pending[1..], piece, offset);
      k := j + 1;
      assert pending == [pending[0]] + pending[1..];
    }
  }

  // A request that matches nothing pending leaves the list alone.
  lemma WithoutFirstStranger(s: State, piece: int, offset: int)
    requires Inv(s)
    requires piece < 0 || piece !in s.ongoing || FirstAt(s.pieces[piece], offset).None?
    ensures WithoutFirst(s.pieces, s.pending, piece, offset) == s.pending
  {
    var k := WithoutFirstIs(s.pieces, s.pending, piece, offset);
  }

  // Taking the request at one index out of a list of unique requests.
  lemma WithoutIndex(pending: seq<Request>, k: nat)
    requires Unique(pending) && k < |pending|
    ensures var rest := pending[..k] + pending[k + 1..];
      && (forall i :: 0 <= i < |rest| ==> rest[i] in pending)
      && Unique(rest)
      && !HasRequest(rest, pending[k].piece, pending[k].block)
  {
    var rest := pending[..k] + pending[k + 1..];
    assert forall i :: 0 <= i < |rest| ==> rest[i] == pending[if i < k then i else i + 1];
  }

  lemma WithoutIndexKeeps(pending: seq<Request>, k: nat, q: nat, d: nat)
    requires k < |pending| && HasRequest(pending, q, d)
    requires q != pending[k].piece || d != pending[k].block
    ensures HasRequest(pending[..k] + pending[k + 1..], q, d)
  {
    var rest := pending[..k] + pending[k + 1..];
    var j :| 0 <= j < |pending| && pending[j].piece == q && pending[j].block == d;
    assert rest[if j < k then j else j - 1] == pending[j];
  }

  lemma MatchNamesBlock(s: State, p: nat, b: nat, offset: int, k: nat)
    requires Inv(s) && p < |s.pieces| && FirstAt(s.pieces[p], offset) == Some(b) && k < |s.pending|
    ensures Matches(s.pieces, s.pending[k], p, offset) <==> s.pending[k].piece == p && s.pending[k].block == b
  {
    assert DistinctOffsets(s.pieces[p]);
  }

  // Storing a block takes its request out of the list and leaves the others there.
  lemma WithoutFirstOf(s: State, p: nat, b: nat, offset: int)
    requires Inv(s) && p < |s.pieces| && FirstAt(s.pieces[p], offset) == Some(b)
    ensures var rest := WithoutFirst(s.pieces, s.pending, p, offset);
      && (forall k :: 0 <= k < |rest| ==> rest[k] in s.pending)
      && Unique(rest)
      && !HasRequest(rest, p, b)
      && (forall q, d :: HasRequest(s.pending, q, d) && (q != p || d != b) ==> HasRequest(rest, q, d))
  {
    hide HasRequest, WithoutFirst, Matches, FirstAt, Staged;
    var k := WithoutFirstIs(s.pieces, s.pending, p, offset);
    if k < |s.pending| {
      MatchNamesBlock(s, p, b, offset, k);
      WithoutIndex(s.pending, k);
      forall q, d | HasRequest(s.pending, q, d) && (q != p || d != b)
        ensures HasRequest(s.pending[..k] + s.pending[k + 1..], q, d)
      {
        WithoutIndexKeeps(s.pending, k, q, d);
      }
    } else {
      NoneMatches(s, p, b, offset);
    }
  }

  lemma NoneMatches(s: State, p: nat, b: nat, offset: int)
    requires Inv(s) && p < |s.pieces| && FirstAt(s.pieces[p], offset) == Some(b)
    requires forall k :: 0 <= k < |s.pending| ==> !Matches(s.pieces, s.pending[k], p, offset)
    ensures !HasRequest(s.pending, p, b)
  {
    forall k | 0 <= k < |s.pending| ensures s.pending[k].piece != p || s.pending[k].block != b {
      MatchNamesBlock(s, p, b, offset, k);
    }
  }

  lemma RequestAt(pending: seq<Request>, k: nat)
    requires k < |pending|
    ensures HasRequest(pending, pending[k].piece, pending[k].block)
  {}

  // The state after a block has been stored, before the piece is found complete or not.
  function StoreBlock(s: State, p: nat, b: nat, offset: int, data: bytes): State
    requires InRange(s) && p < |s.pieces| && b < |s.pieces[p]|
  {
    s.(pending := WithoutFirst(s.pieces, s.pending, p, offset),
       pieces := s.pieces[p := Store(s.pieces[p], b, data)])
  }

  // Everything but the piece itself being possibly complete.
  lemma StoreBlockTracked(s: State, p: nat, b: nat, offset: int, data: bytes)
    requires Inv(s) && p in s.ongoing && p < |s.pieces| && FirstAt(s.pieces[p], offset) == Some(b)
    ensures var u := StoreBlock(s, p, b, offset, data); InRange(u) && Partitioned(u) && Tracked(u)
  {
    hide WithoutFirst, HasRequest, FirstAt, Staged;
    var u := StoreBlock(s, p, b, offset, data);
    WithoutFirstOf(s, p, b, offset);
    forall k | 0 <= k < |u.pending|
      ensures u.pending[k].piece < |u.pieces| && u.pending[k].block < |u.pieces[u.pending[k].piece]|
      ensures u.pending[k].piece in s.ongoing
      ensures u.pieces[u.pending[k].piece][u.pending[k].block].status.Pending?
    {
      assert u.pending[k] in s.pending;
      RequestAt(u.pending, k);
    }
    forall q, d | 0 <= q < |u.pieces| && 0 < d < |u.pieces[q]| && u.pieces[q][d].status.Pending?
      ensures HasRequest(u.pending, q, d)
    {
      assert s.pieces[q][d].status.Pending?;
      assert HasRequest(s.pending, q, d);
    }
  }

  lemma StoreBlockStaged(s: State, p: nat, b: nat, offset: int, data: bytes)
    requires Inv(s) && p in s.ongoing && p < |s.pieces| && b < |s.pieces[p]|
    ensures var u := StoreBlock(s, p, b, offset, data);
      InRange(u) ==> Staged(u) || Blocks.IsComplete(u.pieces[p])
  {
    hide WithoutFirst;
    var u := StoreBlock(s, p, b, offset, data);
    assert DistinctOffsets(u.pieces[p]);
  }

  // A complete piece has no request left.
  lemma NoRequestOfComplete(u: State, p: nat)
    requires InRange(u) && Tracked(u) && p < |u.pieces| && Blocks.IsComplete(u.pieces[p])
    ensures forall k :: 0 <= k < |u.pending| ==> u.pending[k].piece != p
  {}

  // Of the stages of u, those of every piece but p.
  ghost predicate StagedExcept(u: State, p: nat)
    requires InRange(u)
  {
    && (forall q :: q in u.missing ==> q < |u.pieces| && IsFresh(u.pieces[q]))
    && (forall q :: q in u.have ==> q < |u.pieces| && Blocks.IsComplete(u.pieces[q]))
    && (forall q :: q in u.ongoing && q != p ==>
          q < |u.pieces| && (u.pieces[q] == [] || !Blocks.IsComplete(u.pieces[q])))
    && (forall q :: 0 <= q < |u.pieces| ==> DistinctOffsets(u.pieces[q]))
  }

  lemma KeepPieceKeeps(c: Torrent, u: State, p: nat, file: File)
    requires InRange(u) && Partitioned(u) && Tracked(u) && StagedExcept(u, p)
    requires p in u.ongoing && p < |u.pieces| && Blocks.IsComplete(u.pieces[p])
    ensures Inv(u.(file := file, ongoing := Remove(u.ongoing, p), have := u.have + [p]))
  {
    var t := u.(file := file, ongoing := Remove(u.ongoing, p), have := u.have + [p]);
    RemoveFacts(u.ongoing, p);
    RemoveBelow(u.ongoing, p, |u.pieces|);
    NoRequestOfComplete(u, p);
    assert p in t.have by { assert t.have[|u.have|] == p; }
    assert forall q :: q in t.have <==> q in u.have || q == p;
  }

  lemma ResetPieceKeeps(u: State, p: nat)
    requires InRange(u) && Partitioned(u) && Tracked(u) && StagedExcept(u, p)
    requires p in u.ongoing && p < |u.pieces| && u.pieces[p] != [] && Blocks.IsComplete(u.pieces[p])
    ensures Inv(u.(pieces := u.pieces[p := Reset(u.pieces[p])]))
  {
    var t := u.(pieces := u.pieces[p := Reset(u.pieces[p])]);
    NoRequestOfComplete(u, p);
    assert t.pieces[p][0].status.Missing?;
    forall q, d | 0 <= q < |t.pieces| && 0 < d < |t.pieces[q]| && t.pieces[q][d].status.Pending?
      ensures HasRequest(t.pending, q, d)
    {
      assert q != p;
      assert u.pieces[q][d].status.Pending?;
    }
  }

  lemma ReceiveKeeps(c: Torrent, s: State, piece: int, offset: int, data: bytes)
    requires Inv(s) && |s.pieces| == |c.hashes|
    ensures Inv(Receive(c, s, piece, offset, data).0)
  {
    hide Fips180.Digest, WriteAt, Data, Inv, Partitioned, Staged, Tracked;
    OpenInv(s);
    if piece < 0 || piece !in s.ongoing || FirstAt(s.pieces[piece], offset).None? {
      WithoutFirstStranger(s, piece, offset);
    } else {
      var p: nat := piece;
      var b := FirstAt(s.pieces[p], offset).value;
      var u := StoreBlock(s, p, b, offset, data);
      StoreBlockTracked(s, p, b, offset, data);
      StoreBlockStaged(s, p, b, offset, data);
      if Blocks.IsComplete(u.pieces[p]) {
        StoreBlockStagedExcept(s, p, b, offset, data);
        if Receive(c, s, piece, offset, data).1.Written? {
          KeepPieceKeeps(c, u, p, WriteAt(u.file, Position(c, p), Data(u.pieces[p])));
        } else {
          ResetPieceKeeps(u, p);
        }
      } else {
        CloseInv(u);
      }
    }
  }

  lemma OpenInv(s: State)
    requires Inv(s)
    ensures Partitioned(s) && InRange(s) && Staged(s) && Tracked(s)
  {}

  lemma CloseInv(s: State)
    requires InRange(s) && Partitioned(s) && Staged(s) && Tracked(s)
    ensures Inv(s)
  {}

  lemma StoreBlockStagedExcept(s: State, p: nat, b: nat, offset: int, data: bytes)
    requires Inv(s) && p in s.ongoing && p < |s.pieces| && b < |s.pieces[p]|
    ensures var u := StoreBlock(s, p, b, offset, data); InRange(u) ==> StagedExcept(u, p)
  {
    hide WithoutFirst;
    var u := StoreBlock(s, p, b, offset, data);
    assert DistinctOffsets(u.pieces[p]);
  }

  // Every action keeps the invariant.
  lemma StepKeeps(c: Torrent, s: State, a: Action)
    requires Inv(s) && |s.pieces| == |c.hashes|
    ensures Inv(Step(c, s, a).0)
  {
    match a
    case AddPeer(_, _) =>
    case UpdatePeer(_, _) =>
    case RemovePeer(_) =>
    case BlockReceived(piece, offset, data) => ReceiveKeeps(c, s, piece, offset, data);
    case NextRequest(peer, now) => NextKeeps(s, peer, now);
  }

  lemma NextKeeps(s: State, peer: string, now: int)
    requires Inv(s)
    ensures Inv(Next(s, peer, now).0)
  {
    hide Inv, Partitioned, Staged, Tracked, Reissue, Continue, Start;
    OpenInv(s);
    if s.missing != [] && peer in s.peers {
      var bitField := s.peers[peer];
      match FirstExpired(s.pending, bitField, now)
      case Some(k) => ReissueKeeps(s, k, now);
      case None =>
        match FirstOngoing(s.pieces, s.ongoing, bitField)
        case Some(k) => ContinueKeeps(s, s.ongoing[k], now);
        case None =>
          match Lowest(s.missing, bitField)
          case Some(p) => StartKeeps(s, p);
          case None =>
    }
  }
}
