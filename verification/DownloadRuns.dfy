// Properties of whole runs of the download: any sequence of actions, by any peers.
module DownloadRuns {
  import opened Types
  import opened Blocks
  import opened Download
  import opened DownloadInvariant
  import opened Bitfield
  import Fips180

  // A state a run may start from.
  ghost predicate Sound(c: Torrent, s: State) {
    Inv(s) && |s.pieces| == |c.hashes|
  }

  lemma StepSound(c: Torrent, s: State, a: Action)
    requires Sound(c, s)
    ensures Sound(c, Step(c, s, a).0)
  {
    StepKeeps(c, s, a);
  }

  lemma SoundInRange(c: Torrent, s: State)
    requires Sound(c, s)
    ensures InRange(s) && |s.pieces| == |c.hashes|
  {}

  // The state after the first i actions.
  ghost function StateAt(c: Torrent, s: State, acts: seq<Action>, i: nat): (t: State)
    requires Sound(c, s) && i <= |acts|
    ensures Sound(c, t)
  {
    if i == 0 then s
    else
      StepSound(c, StateAt(c, s, acts, i - 1), acts[i - 1]);
      Step(c, StateAt(c, s, acts, i - 1), acts[i - 1]).0
  }

  lemma {:induction false} StateAtPrefix(c: Torrent, s: State, acts: seq<Action>, more: seq<Action>, i: nat)
    requires Sound(c, s) && i <= |acts|
    ensures StateAt(c, s, acts + more, i) == StateAt(c, s, acts, i)
  {
    hide Sound, Step;
    if i > 0 { StateAtPrefix(c, s, acts, more, i - 1); }
  }

  ghost function OutcomeAt(c: Torrent, s: State, acts: seq<Action>, i: nat): Outcome
    requires Sound(c, s) && i < |acts|
  {
    Step(c, StateAt(c, s, acts, i), acts[i]).1
  }

  // ----- the constructor's state -----

  function Initial(table: seq<seq<Block>>, file: File): State {
    State(table, Indices(|table|), [], [], [], map[], file)
  }

  lemma InitialSound(c: Torrent, table: seq<seq<Block>>, file: File)
    requires |table| == |c.hashes|
    requires forall p :: 0 <= p < |table| ==> IsFresh(table[p]) && DistinctOffsets(table[p])
    ensures Sound(c, Initial(table, file))
  {
    var s := Initial(table, file);
    forall p: nat | p < |s.pieces| ensures p in s.missing { assert s.missing[p] == p; }
  }

  // ----- pieces only move forward -----

  // What one step may do to the three lists.
  lemma StepForward(c: Torrent, s: State, a: Action)
    requires Sound(c, s)
    ensures var t := Step(c, s, a).0;
      && |t.pieces| == |s.pieces|
      && s.have <= t.have
      && (forall p :: p in t.missing ==> p in s.missing)
      && (forall p :: p in s.ongoing ==> p in t.ongoing || p in t.have)
  {
    hide Fips180.Digest, WriteAt, Data, WithoutFirst;
  }

  lemma {:induction false} Forward(c: Torrent, s: State, acts: seq<Action>, i: nat, j: nat)
    requires Sound(c, s) && i <= j <= |acts|
    ensures var t, u := StateAt(c, s, acts, i), StateAt(c, s, acts, j);
      && |u.pieces| == |t.pieces|
      && t.have <= u.have
      && (forall p :: p in u.missing ==> p in t.missing)
      && (forall p :: p in t.ongoing ==> p in u.ongoing || p in u.have)
    decreases j - i
  {
    hide Sound, Step;
    if i < j {
      Forward(c, s, acts, i, j - 1);
      StepForward(c, StateAt(c, s, acts, j - 1), acts[j - 1]);
      hide StateAt;
    }
  }

  // A piece that is written was ongoing and is in the have list from then on.
  lemma StepWrites(c: Torrent, s: State, a: Action)
    requires Sound(c, s) && Step(c, s, a).1.Written?
    ensures var p := Step(c, s, a).1.piece; p in s.ongoing && p in Step(c, s, a).0.have
  {
    hide Fips180.Digest, WriteAt, Data, WithoutFirst;
    var t := Step(c, s, a).0;
    assert t.have[|s.have|] == Step(c, s, a).1.piece;
  }

  // No piece is written to the file twice.
  lemma NeverWrittenTwice(c: Torrent, s: State, acts: seq<Action>, i: nat, j: nat)
    requires Sound(c, s) && i < j < |acts|
    requires OutcomeAt(c, s, acts, i).Written? && OutcomeAt(c, s, acts, j).Written?
    ensures OutcomeAt(c, s, acts, i).piece != OutcomeAt(c, s, acts, j).piece
  {
    hide Step, Sound;
    StepWrites(c, StateAt(c, s, acts, i), acts[i]);
    Forward(c, s, acts, i + 1, j);
    StepWrites(c, StateAt(c, s, acts, j), acts[j]);
    StaysIn(StateAt(c, s, acts, i + 1).have, StateAt(c, s, acts, j).have, OutcomeAt(c, s, acts, i).piece);
    OngoingIsNotHad(c, StateAt(c, s, acts, j), OutcomeAt(c, s, acts, j).piece);
  }

  lemma StaysIn(xs: seq<nat>, ys: seq<nat>, p: nat)
    requires xs <= ys && p in xs
    ensures p in ys
  {
    var k :| 0 <= k < |xs| && xs[k] == p;
    assert ys[k] == p;
  }

  lemma OngoingIsNotHad(c: Torrent, s: State, p: nat)
    requires Sound(c, s) && p in s.ongoing
    ensures p !in s.have
  {}

  // ----- completion -----

  function SetOf(xs: seq<nat>): set<nat> {
    set x | x in xs
  }

  lemma {:induction false} NoDuplicatesSize(xs: seq<nat>)
    requires NoDuplicates(xs)
    ensures |SetOf(xs)| == |xs|
  {
    if xs != [] {
      var rest := xs[1..];
      assert xs == [xs[0]] + rest;
      assert forall i :: 0 <= i < |rest| ==> rest[i] == xs[i + 1];
      NoDuplicatesSize(rest);
      assert SetOf(xs) == {xs[0]} + SetOf(rest);
    }
  }

  lemma SubsetSameSize(a: set<nat>, b: set<nat>)
    requires a <= b && |a| == |b|
    ensures a == b
  {
    if x :| x in b - a {
      assert a <= b - {x};
      SubsetSize(a, b - {x});
      assert false;
    }
    assert b - a == {};
  }

  lemma {:induction false} SubsetSize(a: set<nat>, b: set<nat>)
    requires a <= b
    ensures |a| <= |b|
  {
    if x :| x in a {
      SubsetSize(a - {x}, b - {x});
    }
  }

  // isComplete compares two sizes; it says that every piece is in the have list.
  lemma CompleteMeansAllHad(c: Torrent, s: State)
    requires Sound(c, s)
    ensures Download.IsComplete(s) <==> forall p: nat :: p < |s.pieces| ==> p in s.have
  {
    AllHad(s);
  }

  lemma AllHad(s: State)
    requires Partitioned(s)
    ensures Download.IsComplete(s) <==> forall p: nat :: p < |s.pieces| ==> p in s.have
  {
    var all := Indices(|s.pieces|);
    NoDuplicatesSize(s.have);
    NoDuplicatesSize(all);
    forall p: nat ensures p in SetOf(all) <==> p < |s.pieces| {
      if p < |s.pieces| { assert all[p] == p; }
    }
    assert SetOf(s.have) <= SetOf(all);
    if |s.have| == |s.pieces| {
      SubsetSameSize(SetOf(s.have), SetOf(all));
      forall p: nat | p < |s.pieces| ensures p in s.have { assert p in SetOf(s.have); }
    }
    if forall p: nat :: p < |s.pieces| ==> p in s.have {
      assert SetOf(s.have) == SetOf(all);
    }
  }

  // Completion is every block being retrieved and every piece without blocks being in the have list.
  lemma CompleteMeansAllRetrieved(c: Torrent, s: State)
    requires Sound(c, s)
    ensures Download.IsComplete(s) <==>
      forall p :: 0 <= p < |s.pieces| ==> Blocks.IsComplete(s.pieces[p]) && (s.pieces[p] == [] ==> p in s.have)
  {
    CompleteMeansAllHad(c, s);
    if forall p :: 0 <= p < |s.pieces| ==> Blocks.IsComplete(s.pieces[p]) && (s.pieces[p] == [] ==> p in s.have) {
      forall p: nat | p < |s.pieces| ensures p in s.have {
        assert Blocks.IsComplete(s.pieces[p]);
        if s.pieces[p] != [] { assert s.pieces[p][0].status.Retrieved?; }
      }
    }
  }

  // A piece without blocks is never written.
  lemma EmptyPieceIsNotWritten(c: Torrent, s: State, a: Action, p: nat)
    requires Sound(c, s) && p < |s.pieces| && s.pieces[p] == [] && p !in s.have
    ensures var t := Step(c, s, a).0; p < |t.pieces| && t.pieces[p] == [] && p !in t.have
  {
    hide Fips180.Digest, WriteAt, Data, WithoutFirst, FirstMissing, FirstExpired, FirstOngoing, Lowest, Remove;
  }

  // So a download with such a piece is never complete.
  lemma {:induction false} NeverCompleteWithEmptyPiece(c: Torrent, s: State, acts: seq<Action>, i: nat, p: nat)
    requires Sound(c, s) && i <= |acts| && p < |s.pieces| && s.pieces[p] == [] && p !in s.have
    ensures var t := StateAt(c, s, acts, i);
      p < |t.pieces| && t.pieces[p] == [] && p !in t.have && !Download.IsComplete(t)
  {
    hide Sound, Step, Download.IsComplete;
    if i > 0 {
      NeverCompleteWithEmptyPiece(c, s, acts, i - 1, p);
      EmptyPieceIsNotWritten(c, StateAt(c, s, acts, i - 1), acts[i - 1], p);
    }
    CompleteMeansAllHad(c, StateAt(c, s, acts, i));
  }

  // Once complete, always complete.
  lemma CompletionIsStable(c: Torrent, s: State, acts: seq<Action>, i: nat, j: nat)
    requires Sound(c, s) && i <= j <= |acts|
    requires Download.IsComplete(StateAt(c, s, acts, i))
    ensures Download.IsComplete(StateAt(c, s, acts, j))
  {
    hide StateAt, Inv;
    CompleteMeansAllHad(c, StateAt(c, s, acts, i));
    Forward(c, s, acts, i, j);
    CompleteMeansAllHad(c, StateAt(c, s, acts, j));
    var t, u := StateAt(c, s, acts, i), StateAt(c, s, acts, j);
    forall p: nat | p < |u.pieces| ensures p in u.have {
      assert p in t.have;
      assert forall k :: 0 <= k < |t.have| ==> t.have[k] == u.have[k];
    }
  }

  // ----- what nextRequest hands out -----

  // On each of its three paths: a pending block of an ongoing piece the peer advertises; a piece
  // that is started is the lowest of the missing ones the peer advertises, and its first block is asked.
  lemma IssuedBlockIsSound(c: Torrent, s: State, peer: string, now: int)
    requires Sound(c, s) && Next(s, peer, now).1.Issued?
    ensures var (t, o) := Next(s, peer, now);
      && peer in s.peers && HasPiece(s.peers[peer], o.piece)
      && o.piece < |t.pieces| && o.block < |t.pieces[o.piece]|
      && t.pieces[o.piece][o.block].status.Pending?
      && o.piece in t.ongoing && o.piece !in t.have
      && (o.source.Expired? ==> s.pieces[o.piece][o.block].status.Pending?)
      && (!o.source.Expired? ==> s.pieces[o.piece][o.block].status.Missing?)
      && (o.source.Started? ==> o.block == 0 && o.piece in s.missing)
      && (o.source.Started? ==> forall q :: q in s.missing && HasPiece(s.peers[peer], q) ==> o.piece <= q)
  {
    hide FirstMissing, FirstExpired, FirstOngoing, Lowest, HasPiece, Remove;
    var (t, o) := Next(s, peer, now);
    if o.source.Started? {
      assert t.ongoing[|s.ongoing|] == o.piece;
      assert s.pieces[o.piece][0].status.Missing?;
    }
  }

  // A request of a piece the peer advertises that was sent ten or more time units ago.
  predicate Overdue(r: Request, bitField: bytes, now: int) {
    HasPiece(bitField, r.piece) && now - r.timestamp >= 10
  }

  // A piece the peer advertises with block b the first that is missing.
  predicate Continues(s: State, p: nat, b: nat, bitField: bytes) {
    && HasPiece(bitField, p) && p < |s.pieces| && b < |s.pieces[p]| && s.pieces[p][b].status.Missing?
    && forall d :: 0 <= d < b ==> !s.pieces[p][d].status.Missing?
  }

  ghost predicate SomeOverdue(s: State, bitField: bytes, now: int) {
    exists k :: 0 <= k < |s.pending| && Overdue(s.pending[k], bitField, now)
  }

  ghost predicate SomeContinues(s: State, bitField: bytes) {
    exists k, b :: 0 <= k < |s.ongoing| && Continues(s, s.ongoing[k], b, bitField)
  }

  // The order of the three steps, for a known peer while pieces are missing. First: the first request that
  // is overdue is issued again, and its clock restarted.
  lemma OverdueComesFirst(c: Torrent, s: State, peer: string, now: int, k: nat)
    requires InRange(s) && |s.pieces| == |c.hashes| && s.missing != [] && peer in s.peers
    requires k < |s.pending| && Overdue(s.pending[k], s.peers[peer], now)
    requires forall j :: 0 <= j < k ==> !Overdue(s.pending[j], s.peers[peer], now)
    ensures var r := s.pending[k];
      Step(c, s, Action.NextRequest(peer, now))
        == (s.(pending := s.pending[k := r.(timestamp := now)]), Issued(r.piece, r.block, Expired))
  {
    hide HasPiece;
    var first := FirstExpired(s.pending, s.peers[peer], now);
    assert IsExpired(s.pending[k], s.peers[peer], now);
    assert first == Some(k);
  }

  // Second, when none is overdue: the first missing block of the first ongoing piece that has one.
  lemma OngoingComesSecond(c: Torrent, s: State, peer: string, now: int, k: nat, b: nat)
    requires InRange(s) && |s.pieces| == |c.hashes| && s.missing != [] && peer in s.peers
    requires !SomeOverdue(s, s.peers[peer], now)
    requires k < |s.ongoing| && Continues(s, s.ongoing[k], b, s.peers[peer])
    requires forall j, d :: 0 <= j < k ==> !Continues(s, s.ongoing[j], d, s.peers[peer])
    ensures var p := s.ongoing[k];
      Step(c, s, Action.NextRequest(peer, now))
        == (s.(pieces := s.pieces[p := Ask(s.pieces[p], b)], pending := s.pending + [Request(p, b, now)]),
            Issued(p, b, Ongoing))
  {
    hide HasPiece;
    NoneExpired(s, s.peers[peer], now);
    FirstMissingIs(s.pieces[s.ongoing[k]], b);
    var first := FirstOngoing(s.pieces, s.ongoing, s.peers[peer]);
    assert CanContinue(s.pieces, s.ongoing[k], s.peers[peer]);
    assert first.Some? && first.value == k by {
      if first.Some? && first.value < k {
        var p := s.ongoing[first.value];
        assert Continues(s, p, FirstMissing(s.pieces[p]).value, s.peers[peer]);
      }
    }
  }

  lemma NoneExpired(s: State, bitField: bytes, now: int)
    requires !SomeOverdue(s, bitField, now)
    ensures FirstExpired(s.pending, bitField, now).None?
  {
    hide HasPiece;
    var first := FirstExpired(s.pending, bitField, now);
  }

  lemma FirstMissingIs(bs: seq<Block>, b: nat)
    requires b < |bs| && bs[b].status.Missing? && forall d :: 0 <= d < b ==> !bs[d].status.Missing?
    ensures FirstMissing(bs) == Some(b)
  {
    var first := FirstMissing(bs);
  }

  lemma NoneContinues(s: State, bitField: bytes)
    requires AllBelow(s.ongoing, |s.pieces|) && !SomeContinues(s, bitField)
    ensures FirstOngoing(s.pieces, s.ongoing, bitField).None?
  {
    hide HasPiece;
    var first := FirstOngoing(s.pieces, s.ongoing, bitField);
    assert first.Some? ==>
      Continues(s, s.ongoing[first.value], FirstMissing(s.pieces[s.ongoing[first.value]]).value, bitField);
  }

  // Third, when neither is there: the lowest missing piece that the peer advertises is started with its
  // first block, or it has no blocks and nothing is issued.
  lemma StartedComesThird(c: Torrent, s: State, peer: string, now: int, p: nat)
    requires Sound(c, s) && peer in s.peers
    requires !SomeOverdue(s, s.peers[peer], now) && !SomeContinues(s, s.peers[peer])
    requires p in s.missing && HasPiece(s.peers[peer], p)
    requires forall q :: q in s.missing && HasPiece(s.peers[peer], q) ==> p <= q
    ensures InRange(s) && |s.pieces| == |c.hashes| && p < |s.pieces|
    ensures var t := s.(missing := Remove(s.missing, p), ongoing := s.ongoing + [p]);
      Step(c, s, Action.NextRequest(peer, now))
        == if s.pieces[p] == [] then (t, NoBlock)
           else (t.(pieces := s.pieces[p := Ask(s.pieces[p], 0)]), Issued(p, 0, Started))
  {
    hide HasPiece;
    SoundInRange(c, s);
    NoneExpired(s, s.peers[peer], now);
    NoneContinues(s, s.peers[peer]);
    var lowest := Lowest(s.missing, s.peers[peer]);
    if s.pieces[p] != [] {
      assert s.pieces[p][0].status.Missing?;
      FirstMissingIs(s.pieces[p], 0);
    }
  }

  // Nothing changes when there is no such piece either.
  lemma NothingAdvertised(c: Torrent, s: State, peer: string, now: int)
    requires Sound(c, s) && peer in s.peers
    requires !SomeOverdue(s, s.peers[peer], now) && !SomeContinues(s, s.peers[peer])
    requires forall p :: p in s.missing ==> !HasPiece(s.peers[peer], p)
    ensures InRange(s) && |s.pieces| == |c.hashes| && Step(c, s, Action.NextRequest(peer, now)) == (s, NoBlock)
  {
    hide HasPiece;
    SoundInRange(c, s);
    NoneExpired(s, s.peers[peer], now);
    NoneContinues(s, s.peers[peer]);
  }

  // Nothing is issued to a stranger, or when no piece is missing.
  lemma NothingForStrangers(c: Torrent, s: State, peer: string, now: int)
    requires InRange(s) && |s.pieces| == |c.hashes|
    requires s.missing == [] || peer !in s.peers
    ensures Step(c, s, Action.NextRequest(peer, now)) == (s, NoBlock)
  {
  }

  // Pieces are missing and a known peer gets nothing: it advertises none of them, or the lowest of those it
  // advertises has no blocks; and it advertises nothing to continue and no expired request.
  lemma NothingToIssue(c: Torrent, s: State, peer: string, now: int)
    requires Sound(c, s) && Next(s, peer, now).1.NoBlock? && s.missing != [] && peer in s.peers
    ensures (forall q :: q in s.missing ==> !HasPiece(s.peers[peer], q))
      || exists p :: p in s.missing && HasPiece(s.peers[peer], p) && p < |s.pieces| && s.pieces[p] == []
           && forall q :: q in s.missing && HasPiece(s.peers[peer], q) ==> p <= q
    ensures forall k :: 0 <= k < |s.ongoing| ==> !CanContinue(s.pieces, s.ongoing[k], s.peers[peer])
    ensures forall k :: 0 <= k < |s.pending| ==> !IsExpired(s.pending[k], s.peers[peer], now)
  {
    hide FirstExpired, FirstOngoing, Lowest, HasPiece, Remove;
    var lowest := Lowest(s.missing, s.peers[peer]);
    if lowest.Some? && s.pieces[lowest.value] != [] {
      assert s.pieces[lowest.value][0].status.Missing?;
    }
  }

  // ----- how often a block is asked for -----

  // The block is asked for or retrieved, and no request for it was sent before t0.
  ghost predicate Held(s: State, p: nat, b: nat, t0: int) {
    && p < |s.pieces| && b < |s.pieces[p]|
    && !s.pieces[p][b].status.Missing?
    && forall k :: 0 <= k < |s.pending| && s.pending[k].piece == p && s.pending[k].block == b ==>
         s.pending[k].timestamp >= t0
  }

  lemma IssueHolds(c: Torrent, s: State, peer: string, now: int)
    requires Sound(c, s) && Next(s, peer, now).1.Issued?
    ensures var (t, o) := Next(s, peer, now); Held(t, o.piece, o.block, now)
  {
    hide FirstMissing, FirstExpired, FirstOngoing, Lowest, HasPiece, Remove;
  }

  // Until the piece is reset a held block stays held, and is asked for again only after ten units.
  lemma NextKeepsHeld(c: Torrent, s: State, peer: string, now: int, p: nat, b: nat, t0: int)
    requires Sound(c, s) && Held(s, p, b, t0)
    ensures var (t, o) := Next(s, peer, now);
      && Held(t, p, b, t0)
      && (o.Issued? && o.piece == p && o.block == b ==> now >= t0 + MAX_PENDING_TIME)
      && (o.Issued? && o.piece == p && o.block == b ==> s.pieces[p][b].status.Pending?)
  {
    hide FirstMissing, FirstExpired, FirstOngoing, Lowest, HasPiece, Remove;
  }

  lemma ReceiveKeepsHeld(c: Torrent, s: State, piece: int, offset: int, data: bytes, p: nat, b: nat, t0: int)
    requires Sound(c, s) && Held(s, p, b, t0)
    requires Receive(c, s, piece, offset, data).1 != Mismatched(p)
    ensures Held(Receive(c, s, piece, offset, data).0, p, b, t0)
  {
    hide Fips180.Digest, WriteAt, Data, WithoutFirst, FirstAt, Remove;
    var rest := WithoutFirst(s.pieces, s.pending, piece, offset);
    WithoutFirstSubset(s.pieces, s.pending, piece, offset);
    forall k | 0 <= k < |rest| && rest[k].piece == p && rest[k].block == b
      ensures rest[k].timestamp >= t0
    {
      assert rest[k] in s.pending;
    }
  }

  lemma WithoutFirstSubset(pieces: seq<seq<Block>>, pending: seq<Request>, piece: int, offset: int)
    requires NameBlocks(pending, pieces)
    ensures forall k :: 0 <= k < |WithoutFirst(pieces, pending, piece, offset)| ==>
      WithoutFirst(pieces, pending, piece, offset)[k] in pending
  {
    var k := WithoutFirstIs(pieces, pending, piece, offset);
  }

  lemma StepKeepsHeld(c: Torrent, s: State, a: Action, p: nat, b: nat, t0: int)
    requires Sound(c, s) && Held(s, p, b, t0) && Step(c, s, a).1 != Mismatched(p)
    ensures Held(Step(c, s, a).0, p, b, t0)
  {
    hide Sound, Held, Next, Receive;
    SoundInRange(c, s);
    match a
    case AddPeer(_, _) => SameHeld(s, Step(c, s, a).0, p, b, t0);
    case UpdatePeer(_, _) => SameHeld(s, Step(c, s, a).0, p, b, t0);
    case RemovePeer(_) => SameHeld(s, Step(c, s, a).0, p, b, t0);
    case NextRequest(peer, now) => NextKeepsHeld(c, s, peer, now, p, b, t0);
    case BlockReceived(piece, offset, data) => ReceiveKeepsHeld(c, s, piece, offset, data, p, b, t0);
  }

  lemma SameHeld(s: State, t: State, p: nat, b: nat, t0: int)
    requires Held(s, p, b, t0) && t.pieces == s.pieces && t.pending == s.pending
    ensures Held(t, p, b, t0)
  {}

  // No step from i up to j throws away the blocks of piece p.
  ghost predicate NoReset(c: Torrent, s: State, acts: seq<Action>, i: nat, j: nat, p: nat)
    requires Sound(c, s) && j <= |acts|
  {
    forall k :: i <= k < j ==> OutcomeAt(c, s, acts, k) != Mismatched(p)
  }

  lemma {:induction false} StaysHeld(c: Torrent, s: State, acts: seq<Action>, i: nat, j: nat, p: nat, b: nat, t0: int)
    requires Sound(c, s) && i <= j <= |acts| && NoReset(c, s, acts, i, j, p)
    requires Held(StateAt(c, s, acts, i), p, b, t0)
    ensures Held(StateAt(c, s, acts, j), p, b, t0)
    decreases j - i
  {
    hide Sound, Held, Step;
    if i < j {
      StaysHeld(c, s, acts, i, j - 1, p, b, t0);
      assert OutcomeAt(c, s, acts, j - 1) != Mismatched(p);
      StepKeepsHeld(c, StateAt(c, s, acts, j - 1), acts[j - 1], p, b, t0);
    }
  }

  ghost predicate IssuesAt(c: Torrent, s: State, acts: seq<Action>, i: nat, p: nat, b: nat)
    requires Sound(c, s) && i < |acts|
  {
    acts[i].NextRequest? && OutcomeAt(c, s, acts, i).Issued?
    && OutcomeAt(c, s, acts, i).piece == p && OutcomeAt(c, s, acts, i).block == b
  }

  // Two issues of a block with no reset of its piece between them are ten time units apart. The clock
  // may do anything else.
  lemma IssuesAreSpaced(c: Torrent, s: State, acts: seq<Action>, i: nat, j: nat, p: nat, b: nat)
    requires Sound(c, s) && i < j < |acts| && NoReset(c, s, acts, i + 1, j, p)
    requires IssuesAt(c, s, acts, i, p, b) && IssuesAt(c, s, acts, j, p, b)
    ensures acts[j].now >= acts[i].now + 10
  {
    hide Sound, Held, Next;
    IssueHolds(c, StateAt(c, s, acts, i), acts[i].peer, acts[i].now);
    StaysHeld(c, s, acts, i + 1, j, p, b, acts[i].now);
    NextKeepsHeld(c, StateAt(c, s, acts, j), acts[j].peer, acts[j].now, p, b, acts[i].now);
  }

  ghost predicate IsRetrieved(s: State, p: nat, b: nat) {
    p < |s.pieces| && b < |s.pieces[p]| && s.pieces[p][b].status.Retrieved?
  }

  lemma NextKeepsRetrieved(c: Torrent, s: State, peer: string, now: int, p: nat, b: nat)
    requires Sound(c, s) && IsRetrieved(s, p, b)
    ensures var (t, o) := Next(s, peer, now);
      IsRetrieved(t, p, b) && (o.Issued? ==> o.piece != p || o.block != b)
  {
    hide FirstMissing, FirstExpired, FirstOngoing, Lowest, HasPiece, Remove;
  }

  lemma ReceiveKeepsRetrieved(c: Torrent, s: State, piece: int, offset: int, data: bytes, p: nat, b: nat)
    requires Sound(c, s) && IsRetrieved(s, p, b)
    requires Receive(c, s, piece, offset, data).1 != Mismatched(p)
    ensures IsRetrieved(Receive(c, s, piece, offset, data).0, p, b)
  {
    hide Fips180.Digest, WriteAt, Data, WithoutFirst, FirstAt, Remove;
  }

  lemma StepKeepsRetrieved(c: Torrent, s: State, a: Action, p: nat, b: nat)
    requires Sound(c, s) && IsRetrieved(s, p, b) && Step(c, s, a).1 != Mismatched(p)
    ensures IsRetrieved(Step(c, s, a).0, p, b)
    ensures Step(c, s, a).1.Issued? ==> Step(c, s, a).1.piece != p || Step(c, s, a).1.block != b
  {
    hide Sound, Next, Receive;
    SoundInRange(c, s);
    match a
    case AddPeer(_, _) =>
    case UpdatePeer(_, _) =>
    case RemovePeer(_) =>
    case NextRequest(peer, now) => NextKeepsRetrieved(c, s, peer, now, p, b);
    case BlockReceived(piece, offset, data) =>
      ReceiveKeepsRetrieved(c, s, piece, offset, data, p, b);
      ReceiveIssuesNothing(c, s, piece, offset, data);
  }

  lemma ReceiveIssuesNothing(c: Torrent, s: State, piece: int, offset: int, data: bytes)
    requires InRange(s) && |s.pieces| == |c.hashes|
    ensures !Receive(c, s, piece, offset, data).1.Issued?
  {
    hide Fips180.Digest, WriteAt, Data, WithoutFirst, FirstAt, Remove;
  }

  // A retrieved block stays retrieved, and is not asked for, until its piece is reset.
  lemma {:induction false} RetrievedIsNotIssued(c: Torrent, s: State, acts: seq<Action>, i: nat, j: nat, p: nat, b: nat)
    requires Sound(c, s) && i <= j < |acts| && NoReset(c, s, acts, i, j, p)
    requires IsRetrieved(StateAt(c, s, acts, i), p, b)
    ensures IsRetrieved(StateAt(c, s, acts, j), p, b)
    ensures !IssuesAt(c, s, acts, j, p, b)
    decreases j - i
  {
    hide Sound, IsRetrieved, Step;
    if i < j {
      RetrievedIsNotIssued(c, s, acts, i, j - 1, p, b);
      assert OutcomeAt(c, s, acts, j - 1) != Mismatched(p);
      StepKeepsRetrieved(c, StateAt(c, s, acts, j - 1), acts[j - 1], p, b);
    }
    if OutcomeAt(c, s, acts, j) != Mismatched(p) {
      StepKeepsRetrieved(c, StateAt(c, s, acts, j), acts[j], p, b);
    }
  }

  // ----- blocks nobody will ask for again -----

  // The block has been asked for and no pending request remembers it.
  ghost predicate Forgotten(s: State, p: nat, b: nat) {
    p < |s.pieces| && b < |s.pieces[p]| && s.pieces[p][b].status.Pending? && !HasRequest(s.pending, p, b)
  }

  // Forgotten blocks are first blocks, and starting a piece makes one.
  lemma ForgottenIsFirst(c: Torrent, s: State, p: nat, b: nat)
    requires Sound(c, s) && Forgotten(s, p, b)
    ensures b == 0
  {}

  lemma StartForgets(c: Torrent, s: State, peer: string, now: int)
    requires Sound(c, s) && Next(s, peer, now).1.Issued? && Next(s, peer, now).1.source.Started?
    ensures Forgotten(Next(s, peer, now).0, Next(s, peer, now).1.piece, 0)
  {
    hide FirstExpired, FirstOngoing, Lowest, HasPiece, Remove;
    IssuedBlockIsSound(c, s, peer, now);
  }

  lemma NextKeepsForgotten(c: Torrent, s: State, peer: string, now: int, p: nat, b: nat)
    requires Sound(c, s) && Forgotten(s, p, b)
    ensures var (t, o) := Next(s, peer, now);
      Forgotten(t, p, b) && (o.Issued? ==> o.piece != p || o.block != b)
  {
    hide FirstMissing, FirstExpired, FirstOngoing, Lowest, HasPiece, Remove;
  }

  // A block other than the forgotten one arrives. The piece cannot become complete by it.
  lemma ReceiveKeepsForgotten(c: Torrent, s: State, piece: int, offset: int, data: bytes, p: nat, b: nat)
    requires Sound(c, s) && Forgotten(s, p, b)
    requires piece != p || offset != s.pieces[p][b].offset
    ensures Forgotten(Receive(c, s, piece, offset, data).0, p, b)
  {
    hide Fips180.Digest, WriteAt, Data, WithoutFirst, FirstAt, Remove, HasRequest;
    StillNoRequest(s, piece, offset, p, b);
  }

  lemma StillNoRequest(s: State, piece: int, offset: int, p: nat, b: nat)
    requires InRange(s) && !HasRequest(s.pending, p, b)
    ensures !HasRequest(WithoutFirst(s.pieces, s.pending, piece, offset), p, b)
  {
    WithoutFirstSubset(s.pieces, s.pending, piece, offset);
    hide WithoutFirst;
  }

  lemma StepKeepsForgotten(c: Torrent, s: State, a: Action, p: nat, b: nat)
    requires Sound(c, s) && Forgotten(s, p, b) && !Delivers(s, a, p, b)
    ensures Forgotten(Step(c, s, a).0, p, b)
    ensures Step(c, s, a).1.Issued? ==> Step(c, s, a).1.piece != p || Step(c, s, a).1.block != b
    ensures Step(c, s, a).0.pieces[p][b].offset == s.pieces[p][b].offset
  {
    hide Sound, Next, Receive;
    SoundInRange(c, s);
    match a
    case AddPeer(_, _) =>
    case UpdatePeer(_, _) =>
    case RemovePeer(_) =>
    case NextRequest(peer, now) => NextKeepsForgotten(c, s, peer, now, p, b); StepKeepsShape(c, s, a);
    case BlockReceived(piece, offset, data) =>
      ReceiveKeepsForgotten(c, s, piece, offset, data, p, b);
      ReceiveIssuesNothing(c, s, piece, offset, data);
      StepKeepsShape(c, s, a);
  }

  // The table of blocks never changes.
  lemma StepKeepsShape(c: Torrent, s: State, a: Action)
    requires Sound(c, s)
    ensures |Step(c, s, a).0.pieces| == |s.pieces|
    ensures forall p :: 0 <= p < |s.pieces| ==> SameShape(Step(c, s, a).0.pieces[p], s.pieces[p])
  {
    hide Fips180.Digest, WriteAt, Data, WithoutFirst, FirstAt, FirstMissing, FirstExpired, FirstOngoing, Lowest, Remove;
  }

  predicate Delivers(s: State, a: Action, p: nat, b: nat)
    requires p < |s.pieces| && b < |s.pieces[p]|
  {
    a.BlockReceived? && a.piece == p && a.offset == s.pieces[p][b].offset
  }

  // A forgotten block is not asked for again until some peer delivers it unasked.
  lemma {:induction false} ForgottenIsNotIssued(c: Torrent, s: State, acts: seq<Action>, i: nat, j: nat, p: nat, b: nat)
    requires Sound(c, s) && i <= j < |acts| && Forgotten(StateAt(c, s, acts, i), p, b)
    requires forall k :: i <= k < j ==> !Delivers(StateAt(c, s, acts, i), acts[k], p, b)
    ensures Forgotten(StateAt(c, s, acts, j), p, b) && !IssuesAt(c, s, acts, j, p, b)
    ensures StateAt(c, s, acts, j).pieces[p][b].offset == StateAt(c, s, acts, i).pieces[p][b].offset
    decreases j - i
  {
    hide Sound, Step, HasRequest;
    if i < j {
      ForgottenIsNotIssued(c, s, acts, i, j - 1, p, b);
      StepKeepsForgotten(c, StateAt(c, s, acts, j - 1), acts[j - 1], p, b);
    }
    var a := acts[j];
    if a.NextRequest? {
      NextKeepsForgotten(c, StateAt(c, s, acts, j), a.peer, a.now, p, b);
      StepOfNext(c, StateAt(c, s, acts, j), a);
    }
  }

  lemma StepOfNext(c: Torrent, s: State, a: Action)
    requires Sound(c, s) && a.NextRequest?
    ensures InRange(s) && Step(c, s, a) == Next(s, a.peer, a.now)
  {
    hide Next;
  }
}
