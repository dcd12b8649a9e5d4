// What a worker does with a peer (start() in PeerConnection.cpp), and the download as any number of workers
// drive it, interleaved wherever one of them uses the piece manager.
module PeerSession {
  import opened Types
  import opened Blocks
  import opened Download
  import opened DownloadRuns
  import opened DownloadFile
  import opened BlockTable
  import opened Bitfield
  import PM = PieceManager
  import F = Framing
  import PeerPayloads

  const CHOKE: byte := 0
  const UNCHOKE: byte := 1
  const HAVE: byte := 4
  const BIT_FIELD: byte := 5
  const REQUEST: byte := 6
  const PIECE: byte := 7

  // The fields of a connection that its messages change; open is whether the socket is.
  datatype Connection = Connection(open: bool, peerId: string, peerBitField: bytes, choked: bool, requestPending: bool)

  const FRESH := Connection(false, "", [], true, false)

  datatype Handled = Handled(state: State, connection: Connection, thrown: bool)

  // The switch on the id of a message.
  function Dispatch(c: Torrent, s: State, k: Connection, m: F.Message): Handled
    requires InRange(s) && |s.pieces| == |c.hashes|
  {
    if m.id > 10 then Handled(s, k, true)
    else if m.id == CHOKE then Handled(s, k.(choked := true), false)
    else if m.id == UNCHOKE then Handled(s, k.(choked := false), false)
    else if m.id == PIECE then
      var idle := k.(requestPending := false);
      match PeerPayloads.ParsePiece(m.payload)
      case None => Handled(s, idle, true)
      case Some((index, begin, data)) =>
        var (t, o) := Step(c, s, Action.BlockReceived(index, begin, data));
        Handled(t, idle, o.Thrown?)
    else if m.id == HAVE then
      match PeerPayloads.BytesToInt(m.payload)
      case None => Handled(s, k, true)
      case Some(index) =>
        var (t, o) := Step(c, s, Action.UpdatePeer(k.peerId, index));
        Handled(t, k, o.Thrown?)
    else if m.id == BIT_FIELD then Handled(Step(c, s, Action.AddPeer(k.peerId, m.payload)).0, k, false)
    else Handled(s, k, false)
  }

  // An int passed to htonl.
  function Unsigned(n: int): (u: nat)
    ensures u < F.UINT32
  {
    n % F.UINT32
  }

  function RequestMessage(p: nat, b: Block): F.Message {
    F.Message(REQUEST, PeerPayloads.Request(Unsigned(p), Unsigned(b.offset), Unsigned(b.length)))
  }

  datatype Asked = Asked(state: State, sent: Option<F.Message>)

  // requestPiece, when the peer does not choke and no request is pending.
  function Ask(c: Torrent, s: State, k: Connection, now: int): Asked
    requires InRange(s) && |s.pieces| == |c.hashes|
  {
    if k.choked || k.requestPending then Asked(s, None)
    else
      var (t, o) := Step(c, s, Action.NextRequest(k.peerId, now));
      if !o.Issued? then Asked(t, None)
      else
        IssuedInRange(c, s, k.peerId, now);
        Asked(t, Some(RequestMessage(o.piece, t.pieces[o.piece][o.block])))
  }

  lemma IssuedInRange(c: Torrent, s: State, peer: string, now: int)
    requires InRange(s) && |s.pieces| == |c.hashes|
    requires Step(c, s, Action.NextRequest(peer, now)).1.Issued?
    ensures var (t, o) := Step(c, s, Action.NextRequest(peer, now));
      o.piece < |t.pieces| && o.block < |t.pieces[o.piece]|
  {
    hide FirstMissing, FirstExpired, FirstOngoing, Lowest, Remove;
  }

  // How far establishNewConnection comes: no connection; no id of the peer; an id, but no bit field; the bit
  // field, after which it succeeds unless it cannot say that it is interested.
  datatype Established =
    | Refused
    | Opened
    | Named(peerId: string)
    | Listed(peerId: string, bitField: bytes, interested: bool)

  function Establish(c: Torrent, s: State, k: Connection, how: Established): (State, Connection)
    requires InRange(s) && |s.pieces| == |c.hashes|
  {
    match how
    case Refused => (s, k)
    case Opened => (s, k.(open := true))
    case Named(id) => (s, k.(open := true, peerId := id))
    case Listed(id, bitField, _) =>
      (Step(c, s, Action.AddPeer(id, bitField)).0, k.(open := true, peerId := id, peerBitField := bitField))
  }

  datatype Closed = Closed(state: State, connection: Connection, escapes: bool)

  // closeSock, in the handler of what the loop throws. What removePeer throws escapes from the handler.
  function Close(c: Torrent, s: State, k: Connection): Closed
    requires InRange(s) && |s.pieces| == |c.hashes|
  {
    if !k.open then Closed(s, k, false)
    else
      var idle := k.(open := false, requestPending := false);
      if k.peerBitField == [] then Closed(s, idle, false)
      else
        var (t, o) := Step(c, s, Action.RemovePeer(k.peerId));
        Closed(t, idle.(peerBitField := []), o.Thrown?)
  }

  // The handler throws exactly when the download is incomplete and the peer has already been removed.
  lemma CloseEscapesExactlyWhen(c: Torrent, s: State, k: Connection)
    requires InRange(s) && |s.pieces| == |c.hashes|
    ensures Close(c, s, k).escapes <==>
      k.open && k.peerBitField != [] && !Download.IsComplete(s) && k.peerId !in s.peers
  {
    hide Download.IsComplete;
  }

  // ----- the workers together -----

  // Where a worker is: outside the inner loop, before it receives a message, before it asks for a block,
  // before it sends a request, in the exception handler.
  datatype Phase = Disconnected | Waiting | Asking | Sending(request: F.Message) | Closing

  datatype Worker = Worker(connection: Connection, phase: Phase)

  // ended: an exception has left a worker, which ends the program.
  datatype World = World(state: State, workers: seq<Worker>, ended: bool)

  datatype Event =
    | Establishes(i: nat, how: Established)
    | Receives(i: nat, message: F.Message)
    | Asks(i: nat, now: int)
    | Sends(i: nat, succeeds: bool)
    | Closes(i: nat)

  function Put(w: World, i: nat, s: State, k: Connection, phase: Phase): World
    requires i < |w.workers|
  {
    w.(state := s, workers := w.workers[i := Worker(k, phase)])
  }

  // An event for which the worker is not in place leaves the world as it is.
  function Move(c: Torrent, w: World, e: Event): World
    requires InRange(w.state) && |w.state.pieces| == |c.hashes|
  {
    if w.ended || e.i >= |w.workers| then w
    else
      var k, phase := w.workers[e.i].connection, w.workers[e.i].phase;
      match e
      case Establishes(i, how) =>
        if !phase.Disconnected? then w
        else
          var (t, k') := Establish(c, w.state, k, how);
          Put(w, i, t, k', if how.Listed? && how.interested then Waiting else Disconnected)
      case Receives(i, m) =>
        if !phase.Waiting? then w
        else
          var h := Dispatch(c, w.state, k, m);
          Put(w, i, h.state, h.connection, if h.thrown then Closing else Asking)
      case Asks(i, now) =>
        if !phase.Asking? then w
        else
          var a := Ask(c, w.state, k, now);
          Put(w, i, a.state, k, if a.sent.Some? then Sending(a.sent.value) else Waiting)
      case Sends(i, succeeds) =>
        if !phase.Sending? then w
        else if succeeds then Put(w, i, w.state, k.(requestPending := true), Waiting)
        else Put(w, i, w.state, k, Closing)
      case Closes(i) =>
        if !phase.Closing? then w
        else
          var r := Close(c, w.state, k);
          Put(w, i, r.state, r.connection, Disconnected).(ended := r.escapes)
  }

  function StepWorld(c: Torrent, w: World, e: Event): World
    requires Sound(c, w.state)
  {
    SoundInRange(c, w.state);
    Move(c, w, e)
  }

  // ----- every event is at most one action -----

  // The call on the piece manager that a message leads to.
  function MessageAction(k: Connection, m: F.Message): Option<Action> {
    var piece, have := PeerPayloads.ParsePiece(m.payload), PeerPayloads.BytesToInt(m.payload);
    if m.id == PIECE && piece.Some? then Some(Action.BlockReceived(piece.value.0, piece.value.1, piece.value.2))
    else if m.id == HAVE && have.Some? then Some(Action.UpdatePeer(k.peerId, have.value))
    else if m.id == BIT_FIELD then Some(Action.AddPeer(k.peerId, m.payload))
    else None
  }

  function Acted(c: Torrent, s: State, a: Option<Action>): State
    requires InRange(s) && |s.pieces| == |c.hashes|
  {
    if a.Some? then Step(c, s, a.value).0 else s
  }

  lemma DispatchActs(c: Torrent, s: State, k: Connection, m: F.Message)
    requires InRange(s) && |s.pieces| == |c.hashes|
    ensures Dispatch(c, s, k, m).state == Acted(c, s, MessageAction(k, m))
  {
    hide Step, PeerPayloads.ParsePiece, PeerPayloads.BytesToInt;
  }

  function ActionOf(w: World, e: Event): Option<Action> {
    if w.ended || e.i >= |w.workers| then None
    else
      var k, phase := w.workers[e.i].connection, w.workers[e.i].phase;
      match e
      case Establishes(_, how) =>
        if phase.Disconnected? && how.Listed? then Some(Action.AddPeer(how.peerId, how.bitField)) else None
      case Receives(_, m) => if phase.Waiting? then MessageAction(k, m) else None
      case Asks(_, now) =>
        if phase.Asking? && !k.choked && !k.requestPending then Some(Action.NextRequest(k.peerId, now)) else None
      case Sends(_, _) => None
      case Closes(_) =>
        if phase.Closing? && k.open && k.peerBitField != [] then Some(Action.RemovePeer(k.peerId)) else None
  }

  lemma MoveActs(c: Torrent, w: World, e: Event)
    requires InRange(w.state) && |w.state.pieces| == |c.hashes|
    ensures Move(c, w, e).state == Acted(c, w.state, ActionOf(w, e)) && |Move(c, w, e).workers| == |w.workers|
  {
    hide Step, Dispatch, MessageAction, RequestMessage;
    if !w.ended && e.i < |w.workers| && e.Receives? {
      DispatchActs(c, w.state, w.workers[e.i].connection, e.message);
    }
  }

  lemma EventActs(c: Torrent, w: World, e: Event)
    requires Sound(c, w.state)
    ensures InRange(w.state) && |w.state.pieces| == |c.hashes|
    ensures StepWorld(c, w, e).state == Acted(c, w.state, ActionOf(w, e))
    ensures Sound(c, StepWorld(c, w, e).state) && |StepWorld(c, w, e).workers| == |w.workers|
  {
    hide Sound, Step, Move, ActionOf;
    SoundInRange(c, w.state);
    MoveActs(c, w, e);
    var a := ActionOf(w, e);
    if a.Some? { StepSound(c, w.state, a.value); }
  }

  // The world after the first i events.
  ghost function WorldAt(c: Torrent, w: World, events: seq<Event>, i: nat): (v: World)
    requires Sound(c, w.state) && i <= |events|
    ensures Sound(c, v.state) && |v.workers| == |w.workers|
  {
    if i == 0 then w
    else
      EventActs(c, WorldAt(c, w, events, i - 1), events[i - 1]);
      StepWorld(c, WorldAt(c, w, events, i - 1), events[i - 1])
  }

  // The actions that the first i events make.
  ghost function ActionsAt(c: Torrent, w: World, events: seq<Event>, i: nat): seq<Action>
    requires Sound(c, w.state) && i <= |events|
  {
    if i == 0 then []
    else
      var a := ActionOf(WorldAt(c, w, events, i - 1), events[i - 1]);
      ActionsAt(c, w, events, i - 1) + if a.Some? then [a.value] else []
  }

  // A run of the workers is a run of the download, so whatever holds over every run of the download holds
  // over every run of the workers.
  lemma {:induction false} WorldIsRun(c: Torrent, w: World, events: seq<Event>, i: nat)
    requires Sound(c, w.state) && i <= |events|
    ensures var acts := ActionsAt(c, w, events, i); WorldAt(c, w, events, i).state == StateAt(c, w.state, acts, |acts|)
  {
    hide Sound, Step, StepWorld, ActionOf;
    if i > 0 {
      var before := ActionsAt(c, w, events, i - 1);
      var v, e := WorldAt(c, w, events, i - 1), events[i - 1];
      WorldIsRun(c, w, events, i - 1);
      EventActs(c, v, e);
      var a := ActionOf(v, e);
      if a.Some? {
        StateAtPrefix(c, w.state, before, [a.value], |before|);
      } else {
        assert before + [] == before;
      }
    }
  }

  // Whatever any number of peers send, in whatever order their workers use the piece manager: when the
  // download is complete the file is the content, or a SHA-1 collision with a piece of it has been written.
  lemma AnyPeersEndToEnd(c: Torrent, workers: seq<Worker>, events: seq<Event>, content: bytes)
    requires Describes(c, content)
    ensures var s := Initial(Table(c.pieceLength, |content|, |c.hashes|), PM.EmptyFile(|content|));
      && Sound(c, s)
      && var w := World(s, workers, false);
         var acts := ActionsAt(c, w, events, |events|);
         var t := WorldAt(c, w, events, |events|).state;
         Download.IsComplete(t) ==>
           t.file.content == content || exists i :: 0 <= i < |acts| && CollidesAt(c, s, acts, i, content)
  {
    hide Sound, Table, WorldAt, Describes, Download.IsComplete, CollidesAt, StateAt, ActionsAt;
    assert c.pieceLength > 0 by { CoveredByHashes(c, content); }
    var s := Initial(Table(c.pieceLength, |content|, |c.hashes|), PM.EmptyFile(|content|));
    PM.DownloadFromScratch(c, [], content);
    var w := World(s, workers, false);
    PM.DownloadFromScratch(c, ActionsAt(c, w, events, |events|), content);
    WorldIsRun(c, w, events, |events|);
  }

  // At every point of every run, every piece in the have list is in its place in the file, unless a
  // collision has been written before.
  lemma WorldKeepsFile(c: Torrent, w: World, events: seq<Event>, i: nat, content: bytes)
    requires Sound(c, w.state) && Describes(c, content) && FileInv(c, w.state, content) && i <= |events|
    ensures var acts := ActionsAt(c, w, events, i);
      FileInv(c, WorldAt(c, w, events, i).state, content)
      || exists k :: 0 <= k < |acts| && CollidesAt(c, w.state, acts, k, content)
  {
    hide Sound, WorldAt, Describes, FileInv, CollidesAt, StateAt, ActionsAt;
    var acts := ActionsAt(c, w, events, i);
    WorldIsRun(c, w, events, i);
    if forall k :: 0 <= k < |acts| ==> !CollidesAt(c, w.state, acts, k, content) {
      RunKeepsFile(c, w.state, acts, |acts|, content);
    }
  }

  // ----- requests -----

  // A request is made only when the peer does not choke and no other request is pending; its block is
  // pending, in an ongoing piece that is not had, and advertised by the peer.
  lemma AskedIsSound(c: Torrent, s: State, k: Connection, now: int) returns (p: nat, b: nat)
    requires Sound(c, s) && Ask(c, s, k, now).sent.Some?
    ensures !k.choked && !k.requestPending
    ensures var t := Ask(c, s, k, now).state;
      && p < |t.pieces| && b < |t.pieces[p]|
      && Ask(c, s, k, now).sent == Some(RequestMessage(p, t.pieces[p][b]))
      && t.pieces[p][b].status.Pending? && p in t.ongoing && p !in t.have
      && k.peerId in t.peers && HasPiece(t.peers[k.peerId], p)
  {
    hide Sound, RequestMessage, Next, HasPiece;
    SoundInRange(c, s);
    IssuedBlockIsSound(c, s, k.peerId, now);
    NextKeepsPeers(c, s, k.peerId, now);
    var (t, o) := Step(c, s, Action.NextRequest(k.peerId, now));
    p, b := o.piece, o.block;
  }

  lemma NextKeepsPeers(c: Torrent, s: State, peer: string, now: int)
    requires InRange(s)
    ensures Next(s, peer, now).0.peers == s.peers
  {
    hide FirstMissing, FirstExpired, FirstOngoing, Lowest, HasPiece, Remove;
  }

  // The peer reads the piece, offset and length of the block back.
  lemma RequestIsReadBack(p: nat, b: Block)
    requires p <= INT_MAX && 0 <= b.offset <= INT_MAX && 0 <= b.length <= INT_MAX
    ensures var m := RequestMessage(p, b);
      && m.id == REQUEST && |m.payload| == 12
      && PeerPayloads.BytesToInt(m.payload[..4]) == Some(p)
      && PeerPayloads.BytesToInt(m.payload[4..8]) == Some(b.offset)
      && PeerPayloads.BytesToInt(m.payload[8..]) == Some(b.length)
  {
    hide PeerPayloads.BytesToInt, PeerPayloads.Request;
    PeerPayloads.RequestRecoveredExactlyWhen(p, b.offset, b.length);
    assert Unsigned(p) == p && Unsigned(b.offset) == b.offset && Unsigned(b.length) == b.length;
  }

  ghost predicate SendsAt(c: Torrent, w: World, events: seq<Event>, i: nat, x: nat)
    requires Sound(c, w.state) && i < |events| && x < |w.workers|
  {
    var v := WorldAt(c, w, events, i);
    events[i] == Sends(x, true) && v.workers[x].phase.Sending? && !v.ended
  }

  // A piece message arrives at worker x, or it closes its connection.
  ghost predicate FreesAt(c: Torrent, w: World, events: seq<Event>, i: nat, x: nat)
    requires Sound(c, w.state) && i < |events| && x < |w.workers|
  {
    var phase := WorldAt(c, w, events, i).workers[x].phase;
    || (events[i].Receives? && events[i].i == x && events[i].message.id == PIECE && phase.Waiting?)
    || (events[i] == Closes(x) && phase.Closing?)
  }

  // A worker about to send has no request pending.
  ghost predicate Idle(w: World) {
    forall x :: 0 <= x < |w.workers| && w.workers[x].phase.Sending? ==> !w.workers[x].connection.requestPending
  }

  lemma EventKeepsIdle(c: Torrent, w: World, e: Event)
    requires Sound(c, w.state) && Idle(w)
    ensures Idle(StepWorld(c, w, e))
  {
    hide Sound, Dispatch, Establish, Close;
    SoundInRange(c, w.state);
    if !w.ended && e.i < |w.workers| && e.Asks? {
      var k := w.workers[e.i].connection;
      if Ask(c, w.state, k, e.now).sent.Some? { var p, b := AskedIsSound(c, w.state, k, e.now); }
    }
    hide Ask;
  }

  lemma {:induction false} RunKeepsIdle(c: Torrent, w: World, events: seq<Event>, i: nat)
    requires Sound(c, w.state) && Idle(w) && i <= |events|
    ensures Idle(WorldAt(c, w, events, i))
  {
    hide Sound, Idle, StepWorld;
    if i > 0 {
      RunKeepsIdle(c, w, events, i - 1);
      EventKeepsIdle(c, WorldAt(c, w, events, i - 1), events[i - 1]);
    }
  }

  lemma EventKeepsPending(c: Torrent, w: World, e: Event, x: nat)
    requires Sound(c, w.state) && x < |w.workers| && w.workers[x].connection.requestPending
    requires !(e.Receives? && e.i == x && e.message.id == PIECE && w.workers[x].phase.Waiting?)
    requires !(e == Closes(x) && w.workers[x].phase.Closing?)
    ensures |StepWorld(c, w, e).workers| == |w.workers| && StepWorld(c, w, e).workers[x].connection.requestPending
  {
    hide Sound, Step, Ask, Close, PeerPayloads.ParsePiece, PeerPayloads.BytesToInt;
    SoundInRange(c, w.state);
  }

  lemma {:induction false} StaysPending(c: Torrent, w: World, events: seq<Event>, i: nat, j: nat, x: nat)
    requires Sound(c, w.state) && x < |w.workers| && i < j <= |events| && SendsAt(c, w, events, i, x)
    requires forall k :: i < k < j ==> !FreesAt(c, w, events, k, x)
    ensures WorldAt(c, w, events, j).workers[x].connection.requestPending
    decreases j
  {
    hide Sound, Dispatch, Establish, Ask, Close;
    if j - 1 > i {
      hide StepWorld;
      StaysPending(c, w, events, i, j - 1, x);
      assert !FreesAt(c, w, events, j - 1, x);
      EventKeepsPending(c, WorldAt(c, w, events, j - 1), events[j - 1], x);
    }
  }

  // Between two requests of one worker a piece message arrives at it or it closes its connection.
  lemma OneRequestAtATime(c: Torrent, w: World, events: seq<Event>, i: nat, j: nat, x: nat)
    requires Sound(c, w.state) && Idle(w) && x < |w.workers| && i < j < |events|
    requires SendsAt(c, w, events, i, x) && SendsAt(c, w, events, j, x)
    ensures exists k :: i < k < j && FreesAt(c, w, events, k, x)
  {
    hide Sound, WorldAt;
    RunKeepsIdle(c, w, events, j);
    if forall k :: i < k < j ==> !FreesAt(c, w, events, k, x) {
      StaysPending(c, w, events, i, j, x);
    }
  }

  // ----- the exception handler -----

  // The worker has an open connection whose bit field it has passed on.
  predicate Holding(x: Worker) {
    !x.phase.Disconnected? && x.connection.peerBitField != []
  }

  // No two such connections have one peer id.
  predicate Distinct(w: World) {
    forall i, j :: 0 <= i < j < |w.workers| && Holding(w.workers[i]) && Holding(w.workers[j]) ==>
      w.workers[i].connection.peerId != w.workers[j].connection.peerId
  }

  predicate Registered(w: World) {
    forall i :: 0 <= i < |w.workers| && Holding(w.workers[i]) ==> w.workers[i].connection.peerId in w.state.peers
  }

  // Only removePeer takes a peer away, and only the one it is called for.
  lemma StepKeepsOthers(c: Torrent, s: State, a: Action, peer: string)
    requires InRange(s) && |s.pieces| == |c.hashes| && peer in s.peers
    ensures peer in Step(c, s, a).0.peers || a == Action.RemovePeer(peer)
  {
    hide Fips180.Digest, WithoutFirst, FirstAt, FirstMissing, FirstExpired, FirstOngoing, Lowest, HasPiece;
    hide Remove, Data, WriteAt;
  }

  lemma EventKeepsRegistered(c: Torrent, w: World, e: Event)
    requires Sound(c, w.state) && Registered(w) && Distinct(w) && !w.ended
    ensures var v := StepWorld(c, w, e); Registered(v) && !v.ended
  {
    hide Sound, Download.IsComplete, Ask, Dispatch, ActionOf;
    SoundInRange(c, w.state);
    EventActs(c, w, e);
    var v := StepWorld(c, w, e);
    if e.i < |w.workers| {
      var k := w.workers[e.i].connection;
      CloseEscapesExactlyWhen(c, w.state, k);
      if e.Receives? { DispatchKeepsPeer(c, w.state, k, e.message); }
    }
    forall i | 0 <= i < |v.workers| && Holding(v.workers[i]) ensures v.workers[i].connection.peerId in v.state.peers {
      HolderStays(c, w, e, i);
    }
  }

  lemma DispatchKeepsPeer(c: Torrent, s: State, k: Connection, m: F.Message)
    requires InRange(s) && |s.pieces| == |c.hashes|
    ensures var r := Dispatch(c, s, k, m).connection; r.peerId == k.peerId && r.peerBitField == k.peerBitField
  {
    hide Step;
  }

  lemma HolderStays(c: Torrent, w: World, e: Event, i: nat)
    requires Sound(c, w.state) && Registered(w) && Distinct(w) && !w.ended
    requires i < |StepWorld(c, w, e).workers| && Holding(StepWorld(c, w, e).workers[i])
    ensures var v := StepWorld(c, w, e); v.workers[i].connection.peerId in v.state.peers
  {
    hide Sound, Step, Ask, Dispatch;
    SoundInRange(c, w.state);
    EventActs(c, w, e);
    if e.i < |w.workers| && e.Receives? { DispatchKeepsPeer(c, w.state, w.workers[e.i].connection, e.message); }
    var a := ActionOf(w, e);
    var id := StepWorld(c, w, e).workers[i].connection.peerId;
    if e.Establishes? && e.i == i && w.workers[i].phase.Disconnected? {
      AddsPeer(c, w.state, e.how.peerId, e.how.bitField);
    } else {
      assert Holding(w.workers[i]) && id == w.workers[i].connection.peerId;
      if a.Some? {
        StepKeepsOthers(c, w.state, a.value, id);
        MessageRemovesNobody(w.workers[e.i].connection, e);
      }
    }
  }

  lemma AddsPeer(c: Torrent, s: State, peer: string, bitField: bytes)
    requires InRange(s) && |s.pieces| == |c.hashes|
    ensures peer in Step(c, s, Action.AddPeer(peer, bitField)).0.peers
  {
  }

  lemma MessageRemovesNobody(k: Connection, e: Event)
    ensures e.Receives? && MessageAction(k, e.message).Some? ==> !MessageAction(k, e.message).value.RemovePeer?
  {
    hide PeerPayloads.ParsePiece, PeerPayloads.BytesToInt;
  }

  // The program is not ended by a handler in any run in which no two open connections that have passed on a
  // bit field share a peer id.
  lemma {:induction false} NeverEndedWhenDistinct(c: Torrent, w: World, events: seq<Event>, i: nat)
    requires Sound(c, w.state) && Registered(w) && !w.ended && i <= |events|
    requires forall k :: 0 <= k < i ==> Distinct(WorldAt(c, w, events, k))
    ensures Registered(WorldAt(c, w, events, i)) && !WorldAt(c, w, events, i).ended
  {
    hide Sound, StepWorld, Registered, Distinct;
    if i > 0 {
      NeverEndedWhenDistinct(c, w, events, i - 1);
      EventKeepsRegistered(c, WorldAt(c, w, events, i - 1), events[i - 1]);
    }
  }

  function Bad(): F.Message { F.Message(11, []) }

  // Two connections to one peer, both of which fail.
  function SharedId(id: string, bitField: bytes): seq<Event> {
    [Establishes(0, Listed(id, bitField, true)), Establishes(1, Listed(id, bitField, true)),
     Receives(0, Bad()), Receives(1, Bad()), Closes(0), Closes(1)]
  }

  lemma WorldStarts(c: Torrent, w: World, events: seq<Event>)
    requires Sound(c, w.state)
    ensures WorldAt(c, w, events, 0) == w
  {
    hide Sound;
  }

  lemma WorldNext(c: Torrent, w: World, events: seq<Event>, i: nat)
    requires Sound(c, w.state) && i < |events|
    ensures WorldAt(c, w, events, 0) == w
    ensures WorldAt(c, w, events, i + 1) == StepWorld(c, WorldAt(c, w, events, i), events[i])
  {
    hide StepWorld, Sound;
  }

  // They end the program, from any state of an incomplete download.
  lemma SharedIdEnds(c: Torrent, s: State, id: string, bitField: bytes)
    requires Sound(c, s) && !Download.IsComplete(s) && bitField != []
    ensures var idle := Worker(FRESH, Disconnected);
      WorldAt(c, World(s, [idle, idle], false), SharedId(id, bitField), 6).ended
  {
    hide Sound, WorldAt;
    SoundInRange(c, s);
    var idle := Worker(FRESH, Disconnected);
    var w, events := World(s, [idle, idle], false), SharedId(id, bitField);
    var k := Connection(true, id, bitField, true, false);
    var t := s.(peers := s.peers[id := bitField]);
    WorldNext(c, w, events, 0);
    assert WorldAt(c, w, events, 1) == World(t, [Worker(k, Waiting), idle], false);
    WorldNext(c, w, events, 1);
    assert t.peers[id := bitField] == t.peers;
    assert WorldAt(c, w, events, 2) == World(t, [Worker(k, Waiting), Worker(k, Waiting)], false);
    WorldNext(c, w, events, 2);
    assert WorldAt(c, w, events, 3) == World(t, [Worker(k, Closing), Worker(k, Waiting)], false);
    WorldNext(c, w, events, 3);
    assert WorldAt(c, w, events, 4) == World(t, [Worker(k, Closing), Worker(k, Closing)], false);
    WorldNext(c, w, events, 4);
    var closed := Connection(false, id, [], true, false);
    var u := t.(peers := t.peers - {id});
    assert WorldAt(c, w, events, 5) == World(u, [Worker(closed, Disconnected), Worker(k, Closing)], false);
    WorldNext(c, w, events, 5);
  }

  // ----- what a closed connection leaves -----

  // A peer unchokes the worker and is lost; the next one only says that it is interested.
  function KeptFlag(first: string, second: string, bitField: bytes, now: int): seq<Event> {
    [Establishes(0, Listed(first, bitField, true)), Receives(0, F.Message(UNCHOKE, [])), Asks(0, now),
     Sends(0, false), Receives(0, Bad()), Closes(0),
     Establishes(0, Listed(second, bitField, true)), Receives(0, F.Message(2, []))]
  }

  // The worker is about to ask for a block, although the second peer has never unchoked it.
  lemma ChokeFlagIsKept(c: Torrent, s: State, first: string, second: string, bitField: bytes, now: int)
    requires Sound(c, s) && bitField != []
    ensures var w := World(s, [Worker(FRESH, Disconnected)], false);
      var v := WorldAt(c, w, KeptFlag(first, second, bitField, now), 8);
      && !v.ended && |v.workers| == 1 && v.workers[0].phase.Asking?
      && v.workers[0].connection == Connection(true, second, bitField, false, false)
  {
    hide Sound, WorldAt, RequestMessage, Next, Download.IsComplete;
    SoundInRange(c, s);
    var w, events := World(s, [Worker(FRESH, Disconnected)], false), KeptFlag(first, second, bitField, now);
    var k := Connection(true, first, bitField, false, false);
    WorldNext(c, w, events, 0);
    var t := s.(peers := s.peers[first := bitField]);
    WorldNext(c, w, events, 1);
    assert WorldAt(c, w, events, 2) == World(t, [Worker(k, Asking)], false);
    WorldNext(c, w, events, 2);
    var v3 := WorldAt(c, w, events, 3);
    NextKeepsPeers(c, t, first, now);
    assert v3.workers[0].connection == k && !v3.ended && v3.state.peers == t.peers;
    WorldNext(c, w, events, 3);
    WorldNext(c, w, events, 4);
    var v5 := WorldAt(c, w, events, 5);
    assert v5 == World(v3.state, [Worker(k, Closing)], false);
    WorldNext(c, w, events, 5);
    var v6 := WorldAt(c, w, events, 6);
    assert !v6.ended && v6.workers == [Worker(Connection(false, first, [], false, false), Disconnected)];
    WorldNext(c, w, events, 6);
    WorldNext(c, w, events, 7);
  }

  // Event k is a message with this id that worker x receives.
  ghost predicate Gets(c: Torrent, w: World, events: seq<Event>, k: nat, x: nat, id: byte)
    requires Sound(c, w.state) && k < |events| && x < |w.workers|
  {
    var v := WorldAt(c, w, events, k);
    && events[k].Receives? && events[k].i == x && events[k].message.id == id
    && v.workers[x].phase.Waiting? && !v.ended
  }

  // Event k turns worker x to a peer.
  ghost predicate Turns(c: Torrent, w: World, events: seq<Event>, k: nat, x: nat)
    requires Sound(c, w.state) && k < |events| && x < |w.workers|
  {
    var v := WorldAt(c, w, events, k);
    events[k].Establishes? && events[k].i == x && v.workers[x].phase.Disconnected? && !v.ended
  }

  lemma EventChokes(c: Torrent, w: World, e: Event, x: nat)
    requires Sound(c, w.state) && x < |w.workers|
    ensures |StepWorld(c, w, e).workers| == |w.workers|
    ensures var gets := e.Receives? && e.i == x && w.workers[x].phase.Waiting? && !w.ended;
      StepWorld(c, w, e).workers[x].connection.choked
        == if gets && e.message.id == CHOKE then true
           else if gets && e.message.id == UNCHOKE then false
           else w.workers[x].connection.choked
  {
    hide Sound, Step, Ask, PeerPayloads.ParsePiece, PeerPayloads.BytesToInt;
    SoundInRange(c, w.state);
  }

  // A worker that starts choked is unchoked exactly when some peer has unchoked it and none has choked it
  // since, whichever peers they were.
  lemma {:induction false} UnchokedExactlyWhen(c: Torrent, w: World, events: seq<Event>, i: nat, x: nat)
    requires Sound(c, w.state) && x < |w.workers| && w.workers[x].connection.choked && i <= |events|
    ensures !WorldAt(c, w, events, i).workers[x].connection.choked
       <==> exists k :: 0 <= k < i && LastUnchoke(c, w, events, i, x, k)
  {
    hide Sound, StepWorld, Gets;
    if i > 0 {
      var v, e := WorldAt(c, w, events, i - 1), events[i - 1];
      UnchokedExactlyWhen(c, w, events, i - 1, x);
      EventChokes(c, v, e, x);
      GetsIs(c, w, events, i - 1, x);
      if Gets(c, w, events, i - 1, x, UNCHOKE) {
        assert LastUnchoke(c, w, events, i, x, i - 1);
      } else if !v.workers[x].connection.choked && !Gets(c, w, events, i - 1, x, CHOKE) {
        var k :| 0 <= k < i - 1 && LastUnchoke(c, w, events, i - 1, x, k);
        assert LastUnchoke(c, w, events, i, x, k);
      } else if k :| 0 <= k < i && LastUnchoke(c, w, events, i, x, k) {
        assert k < i - 1 ==> LastUnchoke(c, w, events, i - 1, x, k);
      }
    }
  }

  // Event k unchokes worker x, and no event after it and before i chokes it.
  ghost predicate LastUnchoke(c: Torrent, w: World, events: seq<Event>, i: nat, x: nat, k: nat)
    requires Sound(c, w.state) && k < i <= |events| && x < |w.workers|
  {
    Gets(c, w, events, k, x, UNCHOKE) && forall j :: k < j < i ==> !Gets(c, w, events, j, x, CHOKE)
  }

  lemma GetsIs(c: Torrent, w: World, events: seq<Event>, k: nat, x: nat)
    requires Sound(c, w.state) && k < |events| && x < |w.workers|
    ensures var v, e := WorldAt(c, w, events, k), events[k];
      forall id :: Gets(c, w, events, k, x, id) <==>
        e.Receives? && e.i == x && v.workers[x].phase.Waiting? && !v.ended && e.message.id == id
  {
    hide WorldAt, Sound;
  }

  // No peer has unchoked worker x after event e.
  ghost predicate NeverUnchoked(c: Torrent, w: World, events: seq<Event>, e: nat, i: nat, x: nat)
    requires Sound(c, w.state) && i <= |events| && x < |w.workers|
  {
    forall k :: e < k < i ==> !Gets(c, w, events, k, x, UNCHOKE)
  }

  // A worker that last turned to a peer at event e is unchoked although that peer has never unchoked it
  // exactly when an earlier peer unchoked it and neither chokes it after that.
  lemma UnchokedByAnotherExactlyWhen(c: Torrent, w: World, events: seq<Event>, e: nat, i: nat, x: nat)
    requires Sound(c, w.state) && x < |w.workers| && w.workers[x].connection.choked && e < i <= |events|
    requires Turns(c, w, events, e, x) && forall k :: e < k < i ==> !Turns(c, w, events, k, x)
    ensures !WorldAt(c, w, events, i).workers[x].connection.choked && NeverUnchoked(c, w, events, e, i, x)
       <==> exists k :: 0 <= k < e && LastUnchoke(c, w, events, i, x, k) && NeverUnchoked(c, w, events, k, i, x)
  {
    hide Sound, WorldAt, Gets;
    UnchokedExactlyWhen(c, w, events, i, x);
    TurnGetsNothing(c, w, events, e, x);
    if !WorldAt(c, w, events, i).workers[x].connection.choked && NeverUnchoked(c, w, events, e, i, x) {
      var k :| 0 <= k < i && LastUnchoke(c, w, events, i, x, k);
      var last := LatestUnchoke(c, w, events, i, x, k);
    }
  }

  lemma TurnGetsNothing(c: Torrent, w: World, events: seq<Event>, e: nat, x: nat)
    requires Sound(c, w.state) && e < |events| && x < |w.workers| && Turns(c, w, events, e, x)
    ensures !Gets(c, w, events, e, x, UNCHOKE)
  {
    hide Sound, WorldAt;
  }

  // Of the events that unchoke it, the last.
  lemma {:induction false} LatestUnchoke(c: Torrent, w: World, events: seq<Event>, i: nat, x: nat, k: nat)
    returns (last: nat)
    requires Sound(c, w.state) && x < |w.workers| && k < i <= |events| && LastUnchoke(c, w, events, i, x, k)
    ensures k <= last < i && LastUnchoke(c, w, events, i, x, last) && NeverUnchoked(c, w, events, last, i, x)
    decreases i - k
  {
    hide Sound, WorldAt, Gets;
    if j :| k < j < i && Gets(c, w, events, j, x, UNCHOKE) {
      last := LatestUnchoke(c, w, events, i, x, j);
    } else {
      last := k;
    }
  }

  // The keep-alive of the protocol, a length of zero, is received as a message that the worker refuses.
  lemma KeepAliveIsRefused(c: Torrent, s: State, k: Connection)
    requires InRange(s) && |s.pieces| == |c.hashes|
    ensures F.ReadMessage([[0, 0, 0, 0]]) == Some((F.Message(255, []), []))
    ensures Dispatch(c, s, k, F.Message(255, [])) == Handled(s, k, true)
  {
    var zeros: bytes := [0, 0, 0, 0];
    F.ValueOfFour(zeros);
    assert zeros[..4] == zeros;
    assert F.Drop([zeros], 4) == [];
  }

  // ----- a turn that nobody interrupts -----

  datatype Turn = Turn(state: State, connection: Connection, sent: Option<F.Message>, closed: bool, escapes: bool)

  // One turn of the loop: a message, then perhaps a request.
  function TakeTurn(c: Torrent, s: State, k: Connection, m: F.Message, now: int, sendFails: bool): Turn
    requires Sound(c, s)
  {
    SoundInRange(c, s);
    var h := Dispatch(c, s, k, m);
    DispatchSound(c, s, k, m);
    SoundInRange(c, h.state);
    if h.thrown then
      var r := Close(c, h.state, h.connection);
      Turn(r.state, r.connection, None, true, r.escapes)
    else
      var a := Ask(c, h.state, h.connection, now);
      AskSound(c, h.state, h.connection, now);
      SoundInRange(c, a.state);
      if a.sent.None? then Turn(a.state, h.connection, None, false, false)
      else if sendFails then
        var r := Close(c, a.state, h.connection);
        Turn(r.state, r.connection, None, true, r.escapes)
      else Turn(a.state, h.connection.(requestPending := true), a.sent, false, false)
  }

  lemma DispatchSound(c: Torrent, s: State, k: Connection, m: F.Message)
    requires Sound(c, s) && InRange(s) && |s.pieces| == |c.hashes|
    ensures Sound(c, Dispatch(c, s, k, m).state)
  {
    hide Sound, Step, Dispatch, MessageAction;
    DispatchActs(c, s, k, m);
    var a := MessageAction(k, m);
    if a.Some? { StepSound(c, s, a.value); }
  }

  lemma AskSound(c: Torrent, s: State, k: Connection, now: int)
    requires Sound(c, s)
    ensures Sound(c, Ask(c, s, k, now).state)
  {
    hide Step, RequestMessage;
    StepSound(c, s, Action.NextRequest(k.peerId, now));
  }

  lemma PutTwice(w: World, i: nat, s: State, k: Connection, p: Phase, s': State, k': Connection, p': Phase)
    requires i < |w.workers|
    ensures var v := Put(w, i, s, k, p);
      && v.workers[i] == Worker(k, p) && v.ended == w.ended && v.state == s
      && Put(v, i, s', k', p') == Put(w, i, s', k', p')
  {
    assert w.workers[i := Worker(k, p)][i := Worker(k', p')] == w.workers[i := Worker(k', p')];
  }

  // The end of a turn: a worker in the handler closes, any other has nothing to close.
  lemma LastEvent(c: Torrent, w: World, i: nat)
    requires Sound(c, w.state) && !w.ended && i < |w.workers|
    ensures InRange(w.state) && |w.state.pieces| == |c.hashes|
    ensures var k := w.workers[i].connection;
      var r := Close(c, w.state, k);
      StepWorld(c, w, Closes(i))
        == if w.workers[i].phase.Closing? then Put(w, i, r.state, r.connection, Disconnected).(ended := r.escapes)
           else w
  {
    hide Sound, Close;
    SoundInRange(c, w.state);
  }

  lemma ReceiveEvent(c: Torrent, w: World, i: nat, m: F.Message)
    requires Sound(c, w.state) && !w.ended && i < |w.workers| && w.workers[i].phase.Waiting?
    ensures InRange(w.state) && |w.state.pieces| == |c.hashes|
    ensures var h := Dispatch(c, w.state, w.workers[i].connection, m);
      && Sound(c, h.state)
      && StepWorld(c, w, Receives(i, m)) == Put(w, i, h.state, h.connection, if h.thrown then Closing else Asking)
  {
    hide Sound, Dispatch;
    SoundInRange(c, w.state);
    DispatchSound(c, w.state, w.workers[i].connection, m);
  }

  lemma AskEvents(c: Torrent, w: World, i: nat, now: int, sendFails: bool)
    requires Sound(c, w.state) && !w.ended && i < |w.workers|
    ensures var k := w.workers[i].connection;
      var v := StepWorld(c, w, Asks(i, now));
      Sound(c, v.state)
      && if !w.workers[i].phase.Asking? then v == w
         else
           var a := Ask(c, w.state, k, now);
           && v == Put(w, i, a.state, k, if a.sent.Some? then Sending(a.sent.value) else Waiting)
           && StepWorld(c, v, Sends(i, !sendFails))
                == if a.sent.None? then v
                   else if sendFails then Put(v, i, v.state, k, Closing)
                   else Put(v, i, v.state, k.(requestPending := true), Waiting)
  {
    hide Sound, Ask;
    AskSound(c, w.state, w.workers[i].connection, now);
  }

  // It is what the events of the worker make, one after the other.
  lemma TurnIsEvents(c: Torrent, w: World, i: nat, m: F.Message, now: int, sendFails: bool)
    requires Sound(c, w.state) && !w.ended && i < |w.workers| && w.workers[i].phase.Waiting?
    ensures var k := w.workers[i].connection;
      var t := TakeTurn(c, w.state, k, m, now, sendFails);
      WorldAt(c, w, [Receives(i, m), Asks(i, now), Sends(i, !sendFails), Closes(i)], 4)
        == Put(w, i, t.state, t.connection, if t.closed then Disconnected else Waiting).(ended := t.escapes)
  {
    hide Sound, WorldAt, Dispatch, Ask, Close, StepWorld, Put;
    var k, events := w.workers[i].connection, [Receives(i, m), Asks(i, now), Sends(i, !sendFails), Closes(i)];
    var t := TakeTurn(c, w.state, k, m, now, sendFails);
    WorldNext(c, w, events, 0);
    WorldNext(c, w, events, 1);
    WorldNext(c, w, events, 2);
    WorldNext(c, w, events, 3);
    ReceiveEvent(c, w, i, m);
    var h := Dispatch(c, w.state, k, m);
    var v1 := StepWorld(c, w, events[0]);
    if h.thrown {
      PutTwice(w, i, h.state, h.connection, Closing, t.state, t.connection, Disconnected);
      AskEvents(c, v1, i, now, sendFails);
      OutOfPlace(c, v1, i, sendFails);
      LastEvent(c, v1, i);
    } else {
      PutTwice(w, i, h.state, h.connection, Asking, t.state, t.connection, Waiting);
      AskEvents(c, v1, i, now, sendFails);
      AskedTurn(c, w, v1, i, h, now, sendFails);
      PutTwice(w, i, t.state, t.connection, Waiting, t.state, t.connection, Waiting);
    }
  }

  lemma OutOfPlace(c: Torrent, w: World, i: nat, sendFails: bool)
    requires Sound(c, w.state) && i < |w.workers| && !w.workers[i].phase.Sending?
    ensures StepWorld(c, w, Sends(i, !sendFails)) == w
  {
    hide Sound;
  }

  lemma AskedTurn(c: Torrent, w: World, v1: World, i: nat, h: Handled, now: int, sendFails: bool)
    requires i < |w.workers| && !w.ended && Sound(c, h.state)
    requires v1 == Put(w, i, h.state, h.connection, Asking)
    ensures var k := h.connection;
      var a := Ask(c, h.state, k, now);
      && Sound(c, a.state) && InRange(a.state) && |a.state.pieces| == |c.hashes|
      && var v2 := StepWorld(c, v1, Asks(i, now));
      && Sound(c, v2.state)
      && var v3 := StepWorld(c, v2, Sends(i, !sendFails));
      && Sound(c, v3.state)
      && var r := Close(c, a.state, k);
      StepWorld(c, v3, Closes(i))
        == if a.sent.None? then Put(w, i, a.state, k, Waiting)
           else if sendFails then Put(w, i, r.state, r.connection, Disconnected).(ended := r.escapes)
           else Put(w, i, a.state, k.(requestPending := true), Waiting)
  {
    hide Sound, Ask, Close, StepWorld;
    var k := h.connection;
    SoundInRange(c, h.state);
    AskSound(c, h.state, k, now);
    var a := Ask(c, h.state, k, now);
    SoundInRange(c, a.state);
    AskEvents(c, v1, i, now, sendFails);
    var v2 := StepWorld(c, v1, Asks(i, now));
    var v3 := StepWorld(c, v2, Sends(i, !sendFails));
    LastEvent(c, v3, i);
    var r := Close(c, a.state, k);
    var p := if a.sent.Some? then Sending(a.sent.value) else Waiting;
    PutTwice(w, i, h.state, k, Asking, a.state, k, p);
    if a.sent.Some? {
      PutTwice(w, i, a.state, k, p, a.state, k, Closing);
      PutTwice(w, i, a.state, k, p, a.state, k.(requestPending := true), Waiting);
      PutTwice(w, i, a.state, k, Closing, r.state, r.connection, Disconnected);
    }
  }
}
