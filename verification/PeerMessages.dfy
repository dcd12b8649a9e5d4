// What each message of a peer does, by the number of its kind in BitTorrentMessage.h, and when a worker
// sends a request.
module PeerMessages {
  import opened Types
  import opened Bitfield
  import Blocks
  import opened Download
  import opened DownloadRuns
  import opened PeerSession
  import F = Framing
  import PeerPayloads

  // choke is 0 and unchoke 1: they set the flag and nothing else.
  lemma ChokeSetsFlag(c: Torrent, s: State, k: Connection, m: F.Message)
    requires InRange(s) && |s.pieces| == |c.hashes| && m.id <= 1
    ensures var h := Dispatch(c, s, k, m);
      && !h.thrown && h.state == s && (h.connection.choked <==> m.id == 0)
      && h.connection.(choked := k.choked) == k
  {
    hide Step;
  }

  // have is 4: a known peer advertises one more piece, and nobody else does; it throws for a peer that is
  // not known and for a payload that is not an int.
  lemma HaveAdvertises(c: Torrent, s: State, k: Connection, m: F.Message, q: nat)
    requires InRange(s) && |s.pieces| == |c.hashes| && m.id == 4
    ensures var h := Dispatch(c, s, k, m);
      var accepted := m.payload != [] && F.ValueOf(m.payload) < 0x8000_0000 && k.peerId in s.peers;
      && h.connection == k && (h.thrown <==> !accepted)
      && h.state == s.(peers := h.state.peers)
      && (!accepted ==> h.state == s)
      && (accepted ==>
            && h.state.peers.Keys == s.peers.Keys
            && (forall id :: id in s.peers && id != k.peerId ==> h.state.peers[id] == s.peers[id])
            && (HasPiece(h.state.peers[k.peerId], q) <==>
                  || HasPiece(s.peers[k.peerId], q)
                  || (q == F.ValueOf(m.payload) && q / 8 < |s.peers[k.peerId]|)))
  {
    hide HasPiece, WithPiece, F.ValueOf;
    if k.peerId in s.peers { WithPieceAddsOne(s.peers[k.peerId], F.ValueOf(m.payload), q); }
  }

  // bitField is 5: it replaces what the peer advertises.
  lemma BitFieldReplaces(c: Torrent, s: State, k: Connection, m: F.Message)
    requires InRange(s) && |s.pieces| == |c.hashes| && m.id == 5
    ensures Dispatch(c, s, k, m) == Handled(s.(peers := s.peers[k.peerId := m.payload]), k, false)
  {
  }

  // piece is 7: no request is pending any more; the block goes to the piece manager when the payload has
  // both numbers, and it throws when it has not or when the block was not asked for.
  lemma PieceDelivers(c: Torrent, s: State, k: Connection, m: F.Message)
    requires InRange(s) && |s.pieces| == |c.hashes| && m.id == 7
    ensures var h, p := Dispatch(c, s, k, m), m.payload;
      && h.connection == k.(requestPending := false)
      && if |p| >= 8 && F.ValueOf(p[..4]) < 0x8000_0000 && F.ValueOf(p[4..8]) < 0x8000_0000 then
           var (t, o) := Receive(c, s, F.ValueOf(p[..4]), F.ValueOf(p[4..8]), p[8..]);
           h.state == t && (h.thrown <==> o.Thrown?)
         else h.state == s && h.thrown
  {
    hide Receive, F.ValueOf, F.Bytes4;
    var p := m.payload;
    PeerPayloads.PieceParsedExactlyWhen(p);
    if |p| >= 8 {
      assert p[0..4] == p[..4] && p[8..|p|] == p[8..];
    }
  }

  // The other kinds, up to 10, do nothing; beyond that it throws.
  lemma OthersAreIgnored(c: Torrent, s: State, k: Connection, m: F.Message)
    requires InRange(s) && |s.pieces| == |c.hashes|
    requires m.id in {2, 3, 6, 8, 9, 10} || m.id > 10
    ensures Dispatch(c, s, k, m) == Handled(s, k, m.id > 10)
  {
    hide Step;
  }

  // ----- requests -----

  // A worker sends a request exactly when its peer does not choke it, no request is pending, and there is a
  // block to ask for.
  lemma AsksExactlyWhen(c: Torrent, s: State, k: Connection, now: int)
    requires InRange(s) && |s.pieces| == |c.hashes|
    ensures var a := PeerSession.Ask(c, s, k, now);
      && (a.sent.Some? <==> !k.choked && !k.requestPending && Next(s, k.peerId, now).1.Issued?)
      && a.state == if k.choked || k.requestPending then s else Next(s, k.peerId, now).0
  {
    hide Next, RequestMessage;
  }

  // What is written for a request: a length of 13, the number 6, and the piece, offset and length of the block,
  // each in four bytes with the highest first.
  lemma RequestOnTheWire(p: nat, b: Blocks.Block)
    requires p < 0x1_0000_0000 && 0 <= b.offset < 0x1_0000_0000 && 0 <= b.length < 0x1_0000_0000
    ensures F.Serialized(RequestMessage(p, b))
         == [0, 0, 0, 13] + [6] + F.Bytes4(p) + F.Bytes4(b.offset) + F.Bytes4(b.length)
  {
    BytesOf13();
    hide F.Bytes4;
    assert RequestMessage(p, b).payload == F.Bytes4(p) + F.Bytes4(b.offset) + F.Bytes4(b.length);
  }

  lemma BytesOf13()
    ensures F.Bytes4(13) == [0, 0, 0, 13]
  {
  }

  // Closing an open connection forgets the request, the socket and the bit field, and takes the peer off the
  // piece manager exactly when it had sent its bit field and the download is not complete.
  lemma CloseForgets(c: Torrent, s: State, k: Connection)
    requires InRange(s) && |s.pieces| == |c.hashes| && k.open
    ensures var r := PeerSession.Close(c, s, k);
      var removed := k.peerBitField != [] && |s.have| != |s.pieces|;
      && r.connection == Connection(false, k.peerId, [], k.choked, false)
      && r.state == s.(peers := if removed then s.peers - {k.peerId} else s.peers)
      && (r.escapes <==> removed && k.peerId !in s.peers)
  {
    if k.peerId !in s.peers { assert s.peers - {k.peerId} == s.peers; }
  }

  // A worker without a peer has no request pending, and one with a peer has its socket open.
  predicate Settled(w: World) {
    forall x :: 0 <= x < |w.workers| ==>
      if w.workers[x].phase.Disconnected? then !w.workers[x].connection.requestPending
      else w.workers[x].connection.open
  }

  // A client starts so: with every worker choked, without a peer and without a pending request.
  lemma FreshIsSettled(s: State, n: nat)
    ensures var w := World(s, seq(n, _ => Worker(FRESH, Disconnected)), false);
      && Settled(w)
      && forall x :: 0 <= x < n ==>
        var k := w.workers[x].connection;
        k.choked && !k.requestPending && !k.open && k.peerBitField == [] && w.workers[x].phase.Disconnected?
  {
  }

  lemma EventKeepsSettled(c: Torrent, w: World, e: Event)
    requires Sound(c, w.state) && Settled(w)
    ensures Settled(StepWorld(c, w, e))
  {
    hide Sound, Step, PeerSession.Ask, PeerPayloads.ParsePiece, PeerPayloads.BytesToInt;
    SoundInRange(c, w.state);
  }

  lemma {:induction false} RunKeepsSettled(c: Torrent, w: World, events: seq<Event>, i: nat)
    requires Sound(c, w.state) && Settled(w) && i <= |events|
    ensures Settled(WorldAt(c, w, events, i))
  {
    hide Sound, Settled, StepWorld;
    if i > 0 {
      RunKeepsSettled(c, w, events, i - 1);
      EventKeepsSettled(c, WorldAt(c, w, events, i - 1), events[i - 1]);
    }
  }

  // A worker of a client that starts without connections has no request pending when it turns to a peer, so
  // the first un-choke of this peer lets it ask; whatever became of the request to the last one.
  lemma TurnsWithoutRequest(c: Torrent, s: State, n: nat, events: seq<Event>, i: nat, x: nat)
    requires Sound(c, s) && i < |events| && x < n
    requires var w := World(s, seq(n, _ => Worker(FRESH, Disconnected)), false);
      Turns(c, w, events, i, x)
    ensures var w := World(s, seq(n, _ => Worker(FRESH, Disconnected)), false);
      !WorldAt(c, w, events, i + 1).workers[x].connection.requestPending
  {
    hide Sound, WorldAt;
    var w := World(s, seq(n, _ => Worker(FRESH, Disconnected)), false);
    RunKeepsSettled(c, w, events, i);
    var v := WorldAt(c, w, events, i);
    WorldNext(c, w, events, i);
    hide Step;
    SoundInRange(c, v.state);
  }

  // ----- what the state of a worker says about its past -----

  // Worker x gets its piece, or closes its connection, before the program has ended.
  ghost predicate FreedAt(c: Torrent, w: World, events: seq<Event>, k: nat, x: nat)
    requires Sound(c, w.state) && k < |events| && x < |w.workers|
  {
    FreesAt(c, w, events, k, x) && !WorldAt(c, w, events, k).ended
  }

  // Event k sends a request of worker x, and no event after it and before i frees the worker.
  ghost predicate LastSend(c: Torrent, w: World, events: seq<Event>, i: nat, x: nat, k: nat)
    requires Sound(c, w.state) && k < i <= |events| && x < |w.workers|
  {
    SendsAt(c, w, events, k, x) && forall j :: k < j < i ==> !FreedAt(c, w, events, j, x)
  }

  lemma EventPends(c: Torrent, w: World, e: Event, x: nat)
    requires Sound(c, w.state) && Settled(w) && x < |w.workers|
    ensures |StepWorld(c, w, e).workers| == |w.workers|
    ensures var k, phase := w.workers[x].connection, w.workers[x].phase;
      StepWorld(c, w, e).workers[x].connection.requestPending
        == if w.ended then k.requestPending
           else if e == Sends(x, true) && phase.Sending? then true
           else if e.Receives? && e.i == x && e.message.id == 7 && phase.Waiting? then false
           else if e == Closes(x) && phase.Closing? then false
           else k.requestPending
  {
    hide Sound, Step, PeerSession.Ask, PeerPayloads.ParsePiece, PeerPayloads.BytesToInt;
    SoundInRange(c, w.state);
  }

  // At every point of every run a request of a worker is pending exactly when it has sent one and has neither
  // got a piece message nor closed its connection since.
  lemma {:induction false} PendingExactlyWhen(c: Torrent, w: World, events: seq<Event>, i: nat, x: nat)
    requires Sound(c, w.state) && Settled(w) && x < |w.workers| && i <= |events|
    requires !w.workers[x].connection.requestPending
    ensures WorldAt(c, w, events, i).workers[x].connection.requestPending
       <==> exists k :: 0 <= k < i && LastSend(c, w, events, i, x, k)
  {
    hide Sound, Settled, StepWorld, SendsAt, FreedAt;
    if i > 0 {
      var v, e := WorldAt(c, w, events, i - 1), events[i - 1];
      PendingExactlyWhen(c, w, events, i - 1, x);
      RunKeepsSettled(c, w, events, i - 1);
      EventPends(c, v, e, x);
      SendsOrFrees(c, w, events, i - 1, x);
      forall k | 0 <= k < i - 1 && LastSend(c, w, events, i, x, k) ensures LastSend(c, w, events, i - 1, x, k) {
      }
      if SendsAt(c, w, events, i - 1, x) {
        assert LastSend(c, w, events, i, x, i - 1);
      } else if v.workers[x].connection.requestPending && !FreedAt(c, w, events, i - 1, x) {
        var k :| 0 <= k < i - 1 && LastSend(c, w, events, i - 1, x, k);
        assert LastSend(c, w, events, i, x, k);
      }
    }
  }

  lemma SendsOrFrees(c: Torrent, w: World, events: seq<Event>, k: nat, x: nat)
    requires Sound(c, w.state) && k < |events| && x < |w.workers|
    ensures var v, e := WorldAt(c, w, events, k), events[k];
      && (SendsAt(c, w, events, k, x) <==> !v.ended && e == Sends(x, true) && v.workers[x].phase.Sending?)
      && (FreedAt(c, w, events, k, x) <==>
            && !v.ended
            && ((e.Receives? && e.i == x && e.message.id == 7 && v.workers[x].phase.Waiting?)
                || (e == Closes(x) && v.workers[x].phase.Closing?)))
  {
    hide WorldAt, Sound;
  }

  // The event is a message that worker x throws on, or a request that it cannot send.
  ghost predicate Fails(c: Torrent, w: World, e: Event, x: nat)
    requires InRange(w.state) && |w.state.pieces| == |c.hashes| && x < |w.workers|
  {
    && !w.ended && e.i == x
    && ((e.Receives? && w.workers[x].phase.Waiting?
         && Dispatch(c, w.state, w.workers[x].connection, e.message).thrown)
        || (e == Sends(x, false) && w.workers[x].phase.Sending?))
  }

  predicate ClosesNow(w: World, e: Event, x: nat)
    requires x < |w.workers|
  {
    !w.ended && e == Closes(x) && w.workers[x].phase.Closing?
  }

  lemma EventCloses(c: Torrent, w: World, e: Event, x: nat)
    requires Sound(c, w.state) && x < |w.workers|
    ensures InRange(w.state) && |w.state.pieces| == |c.hashes|
    ensures |StepWorld(c, w, e).workers| == |w.workers|
    ensures StepWorld(c, w, e).workers[x].phase.Closing?
       <==> Fails(c, w, e, x) || (w.workers[x].phase.Closing? && !ClosesNow(w, e, x))
  {
    hide Sound, Step, Dispatch, PeerSession.Ask, Close, Establish;
    SoundInRange(c, w.state);
  }

  ghost predicate FailsAt(c: Torrent, w: World, events: seq<Event>, k: nat, x: nat)
    requires Sound(c, w.state) && k < |events| && x < |w.workers|
  {
    SoundInRange(c, WorldAt(c, w, events, k).state);
    Fails(c, WorldAt(c, w, events, k), events[k], x)
  }

  ghost predicate ClosesAt(c: Torrent, w: World, events: seq<Event>, k: nat, x: nat)
    requires Sound(c, w.state) && k < |events| && x < |w.workers|
  {
    ClosesNow(WorldAt(c, w, events, k), events[k], x)
  }

  ghost predicate LastFailure(c: Torrent, w: World, events: seq<Event>, i: nat, x: nat, k: nat)
    requires Sound(c, w.state) && k < i <= |events| && x < |w.workers|
  {
    FailsAt(c, w, events, k, x) && forall j :: k < j < i ==> !ClosesAt(c, w, events, j, x)
  }

  // A worker is in the exception handler exactly when it has failed, receiving or sending, and has not
  // closed its connection since.
  lemma {:induction false} ClosingExactlyWhen(c: Torrent, w: World, events: seq<Event>, i: nat, x: nat)
    requires Sound(c, w.state) && x < |w.workers| && i <= |events| && !w.workers[x].phase.Closing?
    ensures WorldAt(c, w, events, i).workers[x].phase.Closing?
       <==> exists k :: 0 <= k < i && LastFailure(c, w, events, i, x, k)
  {
    hide Sound, StepWorld, Fails, ClosesNow;
    if i > 0 {
      var v := WorldAt(c, w, events, i - 1);
      ClosingExactlyWhen(c, w, events, i - 1, x);
      EventCloses(c, v, events[i - 1], x);
      forall k | 0 <= k < i - 1 && LastFailure(c, w, events, i, x, k) ensures LastFailure(c, w, events, i - 1, x, k) {
      }
      if FailsAt(c, w, events, i - 1, x) {
        assert LastFailure(c, w, events, i, x, i - 1);
      } else if v.workers[x].phase.Closing? && !ClosesAt(c, w, events, i - 1, x) {
        var k :| 0 <= k < i - 1 && LastFailure(c, w, events, i - 1, x, k);
        assert LastFailure(c, w, events, i, x, k);
      }
    }
  }
}
