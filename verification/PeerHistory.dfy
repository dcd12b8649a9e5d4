// What the connection of a worker says about its past: the fields that establishing and closing it set.
module PeerHistory {
  import opened Types
  import opened Download
  import opened DownloadRuns
  import opened PeerSession
  import opened PeerMessages
  import F = Framing
  import PeerPayloads

  predicate TurnsNow(w: World, e: Event, x: nat)
    requires x < |w.workers|
  {
    !w.ended && e.Establishes? && e.i == x && w.workers[x].phase.Disconnected?
  }

  predicate OpensNow(w: World, e: Event, x: nat)
    requires x < |w.workers|
  {
    TurnsNow(w, e, x) && !e.how.Refused?
  }

  predicate NamesNow(w: World, e: Event, x: nat)
    requires x < |w.workers|
  {
    TurnsNow(w, e, x) && (e.how.Named? || e.how.Listed?)
  }

  predicate ListsNow(w: World, e: Event, x: nat)
    requires x < |w.workers|
  {
    TurnsNow(w, e, x) && e.how.Listed?
  }

  predicate JoinsNow(w: World, e: Event, x: nat)
    requires x < |w.workers|
  {
    ListsNow(w, e, x) && e.how.interested
  }

  lemma EventKeepsHistory(c: Torrent, w: World, e: Event, x: nat)
    requires Sound(c, w.state) && Settled(w) && x < |w.workers|
    ensures |StepWorld(c, w, e).workers| == |w.workers|
    ensures var k, phase, r := w.workers[x].connection, w.workers[x].phase, StepWorld(c, w, e).workers[x];
      && (r.connection.open <==> OpensNow(w, e, x) || (k.open && !ClosesNow(w, e, x)))
      && (!r.phase.Disconnected? <==> JoinsNow(w, e, x) || (!phase.Disconnected? && !ClosesNow(w, e, x)))
      && r.connection.peerId == (if NamesNow(w, e, x) then e.how.peerId else k.peerId)
      && r.connection.peerBitField == (if ListsNow(w, e, x) then e.how.bitField
                                       else if ClosesNow(w, e, x) then [] else k.peerBitField)
  {
    hide Sound, Step, PeerSession.Ask, PeerPayloads.ParsePiece, PeerPayloads.BytesToInt;
    SoundInRange(c, w.state);
  }

  // ----- over whole runs -----

  ghost predicate OpensAt(c: Torrent, w: World, events: seq<Event>, k: nat, x: nat)
    requires Sound(c, w.state) && k < |events| && x < |w.workers|
  {
    OpensNow(WorldAt(c, w, events, k), events[k], x)
  }

  ghost predicate JoinsAt(c: Torrent, w: World, events: seq<Event>, k: nat, x: nat)
    requires Sound(c, w.state) && k < |events| && x < |w.workers|
  {
    JoinsNow(WorldAt(c, w, events, k), events[k], x)
  }

  ghost predicate NamesAt(c: Torrent, w: World, events: seq<Event>, k: nat, x: nat)
    requires Sound(c, w.state) && k < |events| && x < |w.workers|
  {
    NamesNow(WorldAt(c, w, events, k), events[k], x)
  }

  ghost predicate ListsAt(c: Torrent, w: World, events: seq<Event>, k: nat, x: nat)
    requires Sound(c, w.state) && k < |events| && x < |w.workers|
  {
    ListsNow(WorldAt(c, w, events, k), events[k], x)
  }

  // Worker x has not closed its connection after event k and before event i.
  ghost predicate StaysOpen(c: Torrent, w: World, events: seq<Event>, k: nat, i: nat, x: nat)
    requires Sound(c, w.state) && i <= |events| && x < |w.workers|
  {
    forall j :: k < j < i ==> !ClosesAt(c, w, events, j, x)
  }

  // At every point of every run the socket of a worker is open exactly when it has been opened and not been
  // closed since.
  lemma {:induction false} OpenExactlyWhen(c: Torrent, w: World, events: seq<Event>, i: nat, x: nat)
    requires Sound(c, w.state) && Settled(w) && x < |w.workers| && i <= |events|
    requires !w.workers[x].connection.open
    ensures WorldAt(c, w, events, i).workers[x].connection.open
       <==> exists k :: 0 <= k < i && OpensAt(c, w, events, k, x) && StaysOpen(c, w, events, k, i, x)
  {
    hide Sound, Settled, StepWorld, OpensNow, ClosesNow;
    if i > 0 {
      var v := WorldAt(c, w, events, i - 1);
      OpenExactlyWhen(c, w, events, i - 1, x);
      RunKeepsSettled(c, w, events, i - 1);
      EventKeepsHistory(c, v, events[i - 1], x);
      if OpensAt(c, w, events, i - 1, x) {
        assert StaysOpen(c, w, events, i - 1, i, x);
      } else if v.workers[x].connection.open && !ClosesAt(c, w, events, i - 1, x) {
        var k :| 0 <= k < i - 1 && OpensAt(c, w, events, k, x) && StaysOpen(c, w, events, k, i - 1, x);
        assert StaysOpen(c, w, events, k, i, x);
      } else if k :| 0 <= k < i && OpensAt(c, w, events, k, x) && StaysOpen(c, w, events, k, i, x) {
        assert StaysOpen(c, w, events, k, i - 1, x);
      }
    }
  }

  // A worker is in the inner loop or its handler exactly when a peer has named itself, sent its bit field and
  // been told of the interest, and the connection has not been closed since.
  lemma {:induction false} ConnectedExactlyWhen(c: Torrent, w: World, events: seq<Event>, i: nat, x: nat)
    requires Sound(c, w.state) && Settled(w) && x < |w.workers| && i <= |events|
    requires w.workers[x].phase.Disconnected?
    ensures !WorldAt(c, w, events, i).workers[x].phase.Disconnected?
       <==> exists k :: 0 <= k < i && JoinsAt(c, w, events, k, x) && StaysOpen(c, w, events, k, i, x)
  {
    hide Sound, Settled, StepWorld, JoinsNow, ClosesNow;
    if i > 0 {
      var v := WorldAt(c, w, events, i - 1);
      ConnectedExactlyWhen(c, w, events, i - 1, x);
      RunKeepsSettled(c, w, events, i - 1);
      EventKeepsHistory(c, v, events[i - 1], x);
      if JoinsAt(c, w, events, i - 1, x) {
        assert StaysOpen(c, w, events, i - 1, i, x);
      } else if !v.workers[x].phase.Disconnected? && !ClosesAt(c, w, events, i - 1, x) {
        var k :| 0 <= k < i - 1 && JoinsAt(c, w, events, k, x) && StaysOpen(c, w, events, k, i - 1, x);
        assert StaysOpen(c, w, events, k, i, x);
      } else if k :| 0 <= k < i && JoinsAt(c, w, events, k, x) && StaysOpen(c, w, events, k, i, x) {
        assert StaysOpen(c, w, events, k, i - 1, x);
      }
    }
  }

  // Event k named the peer of worker x, and none after it and before event i did.
  ghost predicate LastNamed(c: Torrent, w: World, events: seq<Event>, i: nat, x: nat, k: nat)
    requires Sound(c, w.state) && k < i <= |events| && x < |w.workers|
  {
    NamesAt(c, w, events, k, x) && forall j :: k < j < i ==> !NamesAt(c, w, events, j, x)
  }

  // The peer id of a worker is the last one it was told, whether or not that connection came about.
  lemma {:induction false} PeerIdIsLastNamed(c: Torrent, w: World, events: seq<Event>, i: nat, x: nat)
    requires Sound(c, w.state) && Settled(w) && x < |w.workers| && i <= |events|
    ensures var id := WorldAt(c, w, events, i).workers[x].connection.peerId;
      && (forall k :: 0 <= k < i && LastNamed(c, w, events, i, x, k) ==> id == events[k].how.peerId)
      && ((forall k :: 0 <= k < i ==> !NamesAt(c, w, events, k, x)) ==> id == w.workers[x].connection.peerId)
  {
    hide Sound, Settled, StepWorld, ClosesNow;
    if i > 0 {
      PeerIdIsLastNamed(c, w, events, i - 1, x);
      RunKeepsSettled(c, w, events, i - 1);
      EventKeepsHistory(c, WorldAt(c, w, events, i - 1), events[i - 1], x);
      if NamesAt(c, w, events, i - 1, x) {
        assert forall k :: 0 <= k < i - 1 ==> !LastNamed(c, w, events, i, x, k);
      } else {
        hide NamesNow;
        forall k | 0 <= k < i ensures LastNamed(c, w, events, i, x, k)
             <==> k < i - 1 && LastNamed(c, w, events, i - 1, x, k) {
        }
      }
    }
  }

  // Event k stored the bit field of the peer of worker x, and none after it and before event i stored
  // another or closed the connection.
  ghost predicate LastListed(c: Torrent, w: World, events: seq<Event>, i: nat, x: nat, k: nat)
    requires Sound(c, w.state) && k < i <= |events| && x < |w.workers|
  {
    && ListsAt(c, w, events, k, x) && StaysOpen(c, w, events, k, i, x)
    && forall j :: k < j < i ==> !ListsAt(c, w, events, j, x)
  }

  // The bit field is the last one stored, and none when it was never stored or the connection has been
  // closed since.
  lemma {:induction false} BitFieldIsLastListed(c: Torrent, w: World, events: seq<Event>, i: nat, x: nat)
    requires Sound(c, w.state) && Settled(w) && x < |w.workers| && i <= |events|
    requires w.workers[x].connection.peerBitField == []
    ensures var bitField := WorldAt(c, w, events, i).workers[x].connection.peerBitField;
      && (forall k :: 0 <= k < i && LastListed(c, w, events, i, x, k) ==> bitField == events[k].how.bitField)
      && ((forall k :: 0 <= k < i ==> !LastListed(c, w, events, i, x, k)) ==> bitField == [])
  {
    hide Sound, Settled, StepWorld;
    if i > 0 {
      var j: nat := i - 1;
      BitFieldIsLastListed(c, w, events, j, x);
      RunKeepsSettled(c, w, events, j);
      EventKeepsHistory(c, WorldAt(c, w, events, j), events[j], x);
      if ListsAt(c, w, events, j, x) {
        assert LastListed(c, w, events, i, x, j);
      } else {
        hide ListsNow, ClosesNow;
        forall k | 0 <= k < i ensures LastListed(c, w, events, i, x, k)
             <==> k < j && LastListed(c, w, events, j, x, k) && !ClosesAt(c, w, events, j, x) {
        }
      }
    }
  }

  // ----- where a worker is in its loop -----

  // Worker x receives a message that it does not throw on.
  ghost predicate AcceptsNow(c: Torrent, w: World, e: Event, x: nat)
    requires InRange(w.state) && |w.state.pieces| == |c.hashes| && x < |w.workers|
  {
    && !w.ended && e.Receives? && e.i == x && w.workers[x].phase.Waiting?
    && !Dispatch(c, w.state, w.workers[x].connection, e.message).thrown
  }

  predicate AsksNow(w: World, e: Event, x: nat)
    requires x < |w.workers|
  {
    !w.ended && e.Asks? && e.i == x && w.workers[x].phase.Asking?
  }

  // Worker x is given a block to ask for.
  ghost predicate WantsNow(c: Torrent, w: World, e: Event, x: nat, m: F.Message)
    requires InRange(w.state) && |w.state.pieces| == |c.hashes| && x < |w.workers|
  {
    AsksNow(w, e, x) && PeerSession.Ask(c, w.state, w.workers[x].connection, e.now).sent == Some(m)
  }

  predicate TriesNow(w: World, e: Event, x: nat)
    requires x < |w.workers|
  {
    !w.ended && e.Sends? && e.i == x && w.workers[x].phase.Sending?
  }

  lemma EventMoves(c: Torrent, w: World, e: Event, x: nat)
    requires Sound(c, w.state) && x < |w.workers|
    ensures InRange(w.state) && |w.state.pieces| == |c.hashes| && |StepWorld(c, w, e).workers| == |w.workers|
    ensures var before, after := w.workers[x].phase, StepWorld(c, w, e).workers[x].phase;
      && (after.Asking? <==> AcceptsNow(c, w, e, x) || (before.Asking? && !AsksNow(w, e, x)))
      && forall m :: after == Sending(m) <==> WantsNow(c, w, e, x, m) || (before == Sending(m) && !TriesNow(w, e, x))
  {
    hide Sound, Step, Dispatch, PeerSession.Ask, Close, Establish;
    SoundInRange(c, w.state);
  }

  ghost predicate AcceptsAt(c: Torrent, w: World, events: seq<Event>, k: nat, x: nat)
    requires Sound(c, w.state) && k < |events| && x < |w.workers|
  {
    SoundInRange(c, WorldAt(c, w, events, k).state);
    AcceptsNow(c, WorldAt(c, w, events, k), events[k], x)
  }

  ghost predicate WantsAt(c: Torrent, w: World, events: seq<Event>, k: nat, x: nat, m: F.Message)
    requires Sound(c, w.state) && k < |events| && x < |w.workers|
  {
    SoundInRange(c, WorldAt(c, w, events, k).state);
    WantsNow(c, WorldAt(c, w, events, k), events[k], x, m)
  }

  ghost predicate NotAsked(c: Torrent, w: World, events: seq<Event>, k: nat, i: nat, x: nat)
    requires Sound(c, w.state) && i <= |events| && x < |w.workers|
  {
    forall j :: k < j < i ==> !AsksNow(WorldAt(c, w, events, j), events[j], x)
  }

  ghost predicate NotTried(c: Torrent, w: World, events: seq<Event>, k: nat, i: nat, x: nat)
    requires Sound(c, w.state) && i <= |events| && x < |w.workers|
  {
    forall j :: k < j < i ==> !TriesNow(WorldAt(c, w, events, j), events[j], x)
  }

  // A worker is about to ask for a block exactly when it has received a message without throwing and not
  // asked since: it asks once for every message.
  lemma {:induction false} AskingExactlyWhen(c: Torrent, w: World, events: seq<Event>, i: nat, x: nat)
    requires Sound(c, w.state) && x < |w.workers| && i <= |events| && !w.workers[x].phase.Asking?
    ensures WorldAt(c, w, events, i).workers[x].phase.Asking?
       <==> exists k :: 0 <= k < i && AcceptsAt(c, w, events, k, x) && NotAsked(c, w, events, k, i, x)
  {
    hide Sound, StepWorld, AcceptsNow, AsksNow, WantsNow, TriesNow;
    if i > 0 {
      var j: nat := i - 1;
      var v := WorldAt(c, w, events, j);
      AskingExactlyWhen(c, w, events, j, x);
      EventMoves(c, v, events[j], x);
      if AcceptsAt(c, w, events, j, x) {
        assert NotAsked(c, w, events, j, i, x);
      } else if v.workers[x].phase.Asking? && !AsksNow(v, events[j], x) {
        var k :| 0 <= k < j && AcceptsAt(c, w, events, k, x) && NotAsked(c, w, events, k, j, x);
        assert NotAsked(c, w, events, k, i, x);
      } else if k :| 0 <= k < i && AcceptsAt(c, w, events, k, x) && NotAsked(c, w, events, k, i, x) {
        assert NotAsked(c, w, events, k, j, x);
      }
    }
  }

  // A worker is about to send a request exactly when it has been given this block to ask for, and has not
  // tried to send it since.
  lemma {:induction false} SendingExactlyWhen(
      c: Torrent, w: World, events: seq<Event>, i: nat, x: nat, m: F.Message)
    requires Sound(c, w.state) && x < |w.workers| && i <= |events| && !w.workers[x].phase.Sending?
    ensures WorldAt(c, w, events, i).workers[x].phase == Sending(m)
       <==> exists k :: 0 <= k < i && WantsAt(c, w, events, k, x, m) && NotTried(c, w, events, k, i, x)
  {
    hide Sound, StepWorld, AcceptsNow, AsksNow, WantsNow, TriesNow;
    if i > 0 {
      var j: nat := i - 1;
      var v := WorldAt(c, w, events, j);
      SendingExactlyWhen(c, w, events, j, x, m);
      EventMoves(c, v, events[j], x);
      if WantsAt(c, w, events, j, x, m) {
        assert NotTried(c, w, events, j, i, x);
      } else if v.workers[x].phase == Sending(m) && !TriesNow(v, events[j], x) {
        var k :| 0 <= k < j && WantsAt(c, w, events, k, x, m) && NotTried(c, w, events, k, j, x);
        assert NotTried(c, w, events, k, i, x);
      } else if k :| 0 <= k < i && WantsAt(c, w, events, k, x, m) && NotTried(c, w, events, k, i, x) {
        assert NotTried(c, w, events, k, j, x);
      }
    }
  }
}
