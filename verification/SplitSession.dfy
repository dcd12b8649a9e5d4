// The workers of PeerConnection.cpp with blockReceived as PieceManager.cpp locks it: a piece message takes a
// worker into blockReceived, and other workers receive, ask and deliver while it is there.
module SplitSession {
  import opened Types
  import opened Blocks
  import opened Download
  import opened DownloadRuns
  import opened DownloadFile
  import D = Deliveries
  import S = PeerSession
  import F = Framing
  import PeerPayloads
  import Fips180

  // Worker i of the session is worker i of the deliveries.
  datatype World = World(down: D.World, peers: seq<S.Worker>, ended: bool)

  // A worker outside blockReceived does something with its peer; a worker takes its next step inside.
  datatype Event = Peer(event: S.Event) | Continues(i: nat)

  ghost predicate Ready(c: Torrent, w: World) {
    D.Ready(c, w.down) && |w.peers| == |w.down.workers|
  }

  function SessionOf(w: World): S.World {
    S.World(w.down.state, w.peers, w.ended)
  }

  function WithSession(w: World, v: S.World): World {
    World(w.down.(state := v.state), v.workers, v.ended)
  }

  // The piece has no block at the offset.
  predicate Throws(w: D.World, i: nat)
    requires i < |w.workers| && (w.workers[i].Found? ==> w.workers[i].piece < |w.state.pieces|)
  {
    w.workers[i].Found? && FirstAt(w.state.pieces[w.workers[i].piece], w.workers[i].offset).None?
  }

  // The worker leaves blockReceived for the handler or for its next request.
  function Leave(peers: seq<S.Worker>, i: nat, thrown: bool): seq<S.Worker>
    requires i < |peers|
  {
    peers[i := peers[i].(phase := if thrown then S.Closing else S.Asking)]
  }

  ghost function Continue(c: Torrent, w: World, i: nat): World
    requires Ready(c, w)
  {
    if w.ended || i >= |w.peers| || w.down.workers[i].Outside? then w
    else
      var v := D.StepWorld(c, w.down, D.Advances(i));
      D.StepReady(c, w.down, D.Advances(i));
      w.(down := v, peers := if v.workers[i].Outside? then Leave(w.peers, i, Throws(w.down, i)) else w.peers)
  }

  ghost function StepWorld(c: Torrent, w: World, e: Event): World
    requires Ready(c, w)
  {
    match e
    case Continues(i) => Continue(c, w, i)
    case Peer(p) =>
      if p.i < |w.peers| && !w.down.workers[p.i].Outside? then w
      else
        var a := S.ActionOf(SessionOf(w), p);
        if a.Some? && a.value.BlockReceived? then
          var arrives := D.Arrives(p.i, a.value.piece, a.value.offset, a.value.data);
          var v := D.StepWorld(c, w.down, arrives);
          D.StepReady(c, w.down, arrives);
          var k := w.peers[p.i].connection.(requestPending := false);
          World(v, w.peers[p.i := S.Worker(k, if v.workers[p.i].Outside? then S.Closing else S.Waiting)], w.ended)
        else WithSession(w, S.Move(c, SessionOf(w), p))
  }

  // ----- every event is at most one event of the deliveries -----

  function DeliveryOf(w: World, e: Event): Option<D.Event>
    requires |w.peers| == |w.down.workers|
  {
    match e
    case Continues(i) => if w.ended then None else Some(D.Advances(i))
    case Peer(p) =>
      if p.i < |w.peers| && !w.down.workers[p.i].Outside? then None
      else
        match S.ActionOf(SessionOf(w), p)
        case None => None
        case Some(a) => Some(if a.BlockReceived? then D.Arrives(p.i, a.piece, a.offset, a.data) else D.Acts(a))
  }

  ghost function Delivered(c: Torrent, w: D.World, e: Option<D.Event>): D.World
    requires D.Ready(c, w)
  {
    if e.Some? then D.StepWorld(c, w, e.value) else w
  }

  lemma EventDelivers(c: Torrent, w: World, e: Event)
    requires Ready(c, w)
    ensures StepWorld(c, w, e).down == Delivered(c, w.down, DeliveryOf(w, e))
    ensures Ready(c, StepWorld(c, w, e))
  {
    hide Step, S.Move, D.Advance;
    if e.Peer? { S.MoveActs(c, SessionOf(w), e.event); }
    hide D.Ready;
    var d := DeliveryOf(w, e);
    if d.Some? { D.StepReady(c, w.down, d.value); }
    match e
    case Continues(i) =>
      if i < |w.peers| && w.down.workers[i].Outside? { D.AdvanceOutside(c, w.down, i); }
    case Peer(p) =>
  }

  // The world after the first i events.
  ghost function WorldAt(c: Torrent, w: World, events: seq<Event>, i: nat): (v: World)
    requires Ready(c, w) && i <= |events|
    ensures Ready(c, v)
  {
    if i == 0 then w
    else
      EventDelivers(c, WorldAt(c, w, events, i - 1), events[i - 1]);
      StepWorld(c, WorldAt(c, w, events, i - 1), events[i - 1])
  }

  ghost function DeliveriesAt(c: Torrent, w: World, events: seq<Event>, i: nat): seq<D.Event>
    requires Ready(c, w) && i <= |events|
  {
    if i == 0 then []
    else
      var d := DeliveryOf(WorldAt(c, w, events, i - 1), events[i - 1]);
      DeliveriesAt(c, w, events, i - 1) + if d.Some? then [d.value] else []
  }

  lemma {:induction false} DeliveriesPrefix(c: Torrent, w: D.World, ds: seq<D.Event>, more: seq<D.Event>, i: nat)
    requires D.Ready(c, w) && i <= |ds|
    ensures D.WorldAt(c, w, ds + more, i) == D.WorldAt(c, w, ds, i)
  {
    hide D.StepWorld, D.Ready;
    if i > 0 { DeliveriesPrefix(c, w, ds, more, i - 1); }
  }

  // A run of the workers is a run of the lock sections.
  lemma {:induction false} WorldIsDeliveries(c: Torrent, w: World, events: seq<Event>, i: nat)
    requires Ready(c, w) && i <= |events|
    ensures var ds := DeliveriesAt(c, w, events, i); WorldAt(c, w, events, i).down == D.WorldAt(c, w.down, ds, |ds|)
  {
    hide StepWorld, DeliveryOf, D.StepWorld, D.Ready;
    if i > 0 {
      var before := DeliveriesAt(c, w, events, i - 1);
      var v, e := WorldAt(c, w, events, i - 1), events[i - 1];
      WorldIsDeliveries(c, w, events, i - 1);
      EventDelivers(c, v, e);
      var d := DeliveryOf(v, e);
      if d.Some? {
        DeliveriesPrefix(c, w.down, before, [d.value], |before|);
      } else {
        assert before + [] == before;
      }
    }
  }

  // ----- the file -----

  // Event i of the run writes data that collides with the piece it is taken for.
  ghost predicate CollidesAt(c: Torrent, w: World, events: seq<Event>, i: nat, content: bytes)
    requires Ready(c, w) && i < |events|
  {
    var v := WorldAt(c, w, events, i);
    var d := DeliveryOf(v, events[i]);
    d.Some? && D.WritesCollision(c, v.down, d.value, content)
  }

  ghost predicate ApartAt(c: Torrent, w: World, events: seq<Event>, i: nat)
    requires Ready(c, w) && i <= |events|
  {
    D.Apart(WorldAt(c, w, events, i).down)
  }

  lemma {:induction false} RunGood(c: Torrent, w: World, events: seq<Event>, i: nat, content: bytes)
    requires Ready(c, w) && D.Good(c, w.down, content) && Describes(c, content) && i <= |events|
    requires forall k :: 0 <= k < i ==> ApartAt(c, w, events, k)
    requires forall k :: 0 <= k < i ==> !CollidesAt(c, w, events, k, content)
    ensures D.Good(c, WorldAt(c, w, events, i).down, content)
  {
    hide D.Ready, D.Good, Describes, StepWorld, DeliveryOf, D.StepWorld, D.WritesCollision, D.Apart;
    if i > 0 {
      RunGood(c, w, events, i - 1, content);
      var v, e := WorldAt(c, w, events, i - 1), events[i - 1];
      assert ApartAt(c, w, events, i - 1) && !CollidesAt(c, w, events, i - 1, content);
      EventDelivers(c, v, e);
      var d := DeliveryOf(v, e);
      if d.Some? { D.StepGood(c, v.down, d.value, content); }
    }
  }

  // After the constructor.
  ghost function Start(c: Torrent, totalLength: nat, peers: seq<S.Worker>): (w: World)
    requires c.pieceLength > 0
    ensures Ready(c, w)
  {
    World(D.Start(c, totalLength, |peers|), peers, false)
  }

  // Whatever any number of peers send, wherever their workers step in between each other, blockReceived
  // included: as long as nobody is in blockReceived for a piece that another worker has found complete and
  // is finishing, a complete download is the content, or a SHA-1 collision has been written.
  lemma PeersApartEndToEnd(c: Torrent, peers: seq<S.Worker>, events: seq<Event>, content: bytes)
    requires Describes(c, content)
    requires forall k :: 0 <= k < |events| ==> ApartAt(c, Start(c, |content|, peers), events, k)
    requires Download.IsComplete(WorldAt(c, Start(c, |content|, peers), events, |events|).down.state)
    ensures var w := Start(c, |content|, peers);
      || WorldAt(c, w, events, |events|).down.state.file.content == content
      || exists k :: 0 <= k < |events| && CollidesAt(c, w, events, k, content)
  {
    CoveredByHashes(c, content);
    hide Describes, StepWorld, WorldAt, D.Start, D.Ready, D.Good, ApartAt, CollidesAt;
    var w := Start(c, |content|, peers);
    if forall k :: 0 <= k < |events| ==> !CollidesAt(c, w, events, k, content) {
      D.StartGood(c, content, |peers|);
      RunGood(c, w, events, |events|, content);
      D.PartitionedAllHad(c, WorldAt(c, w, events, |events|).down, content);
    }
  }

  // ----- a receipt that nobody interrupts -----

  ghost function Continued(c: Torrent, w: World, i: nat, n: nat): (v: World)
    requires Ready(c, w)
    ensures Ready(c, v)
  {
    if n == 0 then w
    else
      var v := Continued(c, w, i, n - 1);
      EventDelivers(c, v, Continues(i));
      Continue(c, v, i)
  }

  lemma AdvanceLeavesFound(c: Torrent, w: D.World, i: nat)
    requires D.Ready(c, w) && i < |w.workers|
    ensures var v := D.Advance(c, w, i); i < |v.workers| && !v.workers[i].Found?
    ensures Throws(w, i) ==> D.Advance(c, w, i).workers[i].Outside?
  {
    hide Fips180.Digest, Data, WriteAt, FirstAt;
  }

  // What the steps of a worker that has just found its piece come to.
  lemma {:induction false} ContinuedIs(c: Torrent, w: World, i: nat, n: nat)
    requires Ready(c, w) && !w.ended && i < |w.peers| && w.down.workers[i].Found?
    ensures var r := D.Repeat(c, w.down, i, n);
      && Continued(c, w, i, n)
           == w.(down := r, peers := if r.workers[i].Outside? then Leave(w.peers, i, Throws(w.down, i)) else w.peers)
      && (n > 0 ==> !r.workers[i].Found?)
      && (n > 0 && Throws(w.down, i) ==> r.workers[i].Outside?)
  {
    hide D.Ready, D.Advance, Throws, Leave;
    if n > 0 {
      ContinuedIs(c, w, i, n - 1);
      var r := D.Repeat(c, w.down, i, n - 1);
      AdvanceLeavesFound(c, r, i);
      if r.workers[i].Outside? { D.AdvanceOutside(c, r, i); }
      if n > 1 { OnlyFoundThrows(r, i); }
    }
  }

  lemma OnlyFoundThrows(w: D.World, i: nat)
    requires i < |w.workers| && !w.workers[i].Found?
    ensures !Throws(w, i)
  {
  }

  lemma {:induction false} ContinuedOutside(c: Torrent, w: World, i: nat, n: nat)
    requires Ready(c, w) && i < |w.peers| && w.down.workers[i].Outside?
    ensures Continued(c, w, i, n) == w && D.Repeat(c, w.down, i, n) == w.down
  {
    hide D.Ready, D.Advance;
    if n > 0 {
      ContinuedOutside(c, w, i, n - 1);
      D.AdvanceOutside(c, w.down, i);
    }
  }

  // blockReceived throws when the piece is not ongoing or has no block at the offset, and not otherwise.
  lemma ReceiveThrows(c: Torrent, w: D.World, i: nat, piece: int, offset: int, data: bytes)
    requires D.Ready(c, w) && i < |w.workers| && w.workers[i].Outside?
    ensures var v := D.StepWorld(c, w, D.Arrives(i, piece, offset, data));
      && D.Ready(c, v) && i < |v.workers| && (v.workers[i].Outside? || v.workers[i].Found?)
      && (Receive(c, w.state, piece, offset, data).1.Thrown? <==> v.workers[i].Outside? || Throws(v, i))
  {
    hide Fips180.Digest, Data, WriteAt, FirstAt, WithoutFirst, Remove;
    D.StepReady(c, w, D.Arrives(i, piece, offset, data));
  }

  lemma ReceiptOfBlock(c: Torrent, w: World, i: nat, m: F.Message)
    requires Ready(c, w) && !w.ended && i < |w.peers|
    requires w.peers[i].phase.Waiting? && w.down.workers[i].Outside?
    requires var a := S.MessageAction(w.peers[i].connection, m); a.Some? && a.value.BlockReceived?
    ensures var e := Peer(S.Receives(i, m));
      && Ready(c, StepWorld(c, w, e))
      && Continued(c, StepWorld(c, w, e), i, 5) == WithSession(w, S.Move(c, SessionOf(w), S.Receives(i, m)))
  {
    hide D.Ready, D.Advance, D.Repeat, Continued, D.StepWorld, Receive, Throws, PeerPayloads.ParsePiece;
    var a := S.MessageAction(w.peers[i].connection, m).value;
    EventDelivers(c, w, Peer(S.Receives(i, m)));
    D.AloneIsReceive(c, w.down, i, a.piece, a.offset, a.data);
    ReceiveThrows(c, w.down, i, a.piece, a.offset, a.data);
    var v := StepWorld(c, w, Peer(S.Receives(i, m)));
    assert v.down == D.StepWorld(c, w.down, D.Arrives(i, a.piece, a.offset, a.data));
    if v.down.workers[i].Outside? { ContinuedOutside(c, v, i, 5); } else { ContinuedIs(c, v, i, 5); }
  }

  // A receipt followed by five steps of its worker is the receipt in one step of module PeerSession.
  lemma ReceiptAlone(c: Torrent, w: World, i: nat, m: F.Message)
    requires Ready(c, w) && !w.ended && i < |w.peers|
    requires w.peers[i].phase.Waiting? && w.down.workers[i].Outside?
    ensures var e := Peer(S.Receives(i, m));
      && Ready(c, StepWorld(c, w, e))
      && Continued(c, StepWorld(c, w, e), i, 5) == WithSession(w, S.Move(c, SessionOf(w), S.Receives(i, m)))
  {
    hide D.Ready, D.Advance, D.Repeat, Continued;
    var e := Peer(S.Receives(i, m));
    EventDelivers(c, w, e);
    var v := StepWorld(c, w, e);
    var k := w.peers[i].connection;
    var a := S.MessageAction(k, m);
    if a.Some? && a.value.BlockReceived? {
      ReceiptOfBlock(c, w, i, m);
    } else {
      ContinuedOutside(c, v, i, 5);
    }
  }

  // ----- runs of module PeerSession -----

  // Nobody is in blockReceived.
  function Quiet(w: S.World): World {
    World(D.World(w.state, seq(|w.workers|, _ => D.Outside)), w.workers, w.ended)
  }

  lemma QuietReady(c: Torrent, w: S.World)
    requires Sound(c, w.state)
    ensures Ready(c, Quiet(w))
  {
    SoundInRange(c, w.state);
  }

  // Nobody but worker i is in blockReceived.
  predicate Only(w: World, i: nat) {
    forall j :: 0 <= j < |w.down.workers| && j != i ==> w.down.workers[j].Outside?
  }

  lemma OnlyIsApart(w: World, i: nat)
    requires Only(w, i)
    ensures D.Apart(w.down)
  {
  }

  lemma StepKeepsOnly(c: Torrent, w: World, e: Event, i: nat)
    requires Ready(c, w) && Only(w, i) && (e == Continues(i) || (e.Peer? && e.event.i == i))
    ensures Only(StepWorld(c, w, e), i)
  {
    hide Step, S.Move, Data, WriteAt, FirstAt, WithoutFirst, Remove;
    if e.Peer? { S.MoveActs(c, SessionOf(w), e.event); }
  }

  lemma {:induction false} Prefix(c: Torrent, w: World, a: seq<Event>, b: seq<Event>, k: nat)
    requires Ready(c, w) && k <= |a|
    ensures WorldAt(c, w, a + b, k) == WorldAt(c, w, a, k)
  {
    hide StepWorld, Ready;
    if k > 0 { Prefix(c, w, a, b, k - 1); }
  }

  lemma {:induction false} Joined(c: Torrent, w: World, a: seq<Event>, b: seq<Event>, k: nat)
    requires Ready(c, w) && k <= |b|
    ensures WorldAt(c, w, a + b, |a| + k) == WorldAt(c, WorldAt(c, w, a, |a|), b, k)
  {
    hide StepWorld, Ready;
    if k == 0 {
      Prefix(c, w, a, b, |a|);
    } else {
      Joined(c, w, a, b, k - 1);
    }
  }

  lemma {:induction false} ContinuedRun(c: Torrent, w: World, i: nat, n: nat, k: nat)
    requires Ready(c, w) && k <= n && Only(w, i)
    ensures WorldAt(c, w, seq(n, _ => Continues(i)), k) == Continued(c, w, i, k)
    ensures Only(Continued(c, w, i, k), i)
  {
    hide Ready, Continue, Only;
    if k > 0 {
      ContinuedRun(c, w, i, n, k - 1);
      StepKeepsOnly(c, Continued(c, w, i, k - 1), Continues(i), i);
    }
  }

  lemma FirstOf(c: Torrent, w: World, e: Event)
    requires Ready(c, w)
    ensures WorldAt(c, w, [e], 0) == w && WorldAt(c, w, [e], 1) == StepWorld(c, w, e)
  {
    hide Ready, StepWorld;
  }

  // The run goes from one world to the other, and the deliveries are apart all the way.
  ghost predicate Leads(c: Torrent, w: World, es: seq<Event>, v: World)
    requires Ready(c, w)
  {
    WorldAt(c, w, es, |es|) == v && forall k :: 0 <= k <= |es| ==> ApartAt(c, w, es, k)
  }

  lemma LeadsOn(c: Torrent, w: World, a: seq<Event>, v: World, b: seq<Event>, u: World)
    requires Ready(c, w) && Ready(c, v) && Leads(c, w, a, v) && Leads(c, v, b, u)
    ensures Leads(c, w, a + b, u)
  {
    hide Ready, WorldAt, D.Apart;
    Joined(c, w, a, b, |b|);
    forall k | 0 <= k <= |a + b| ensures ApartAt(c, w, a + b, k) {
      if k <= |a| {
        Prefix(c, w, a, b, k);
        assert ApartAt(c, w, a, k);
      } else {
        Joined(c, w, a, b, k - |a|);
        assert ApartAt(c, v, b, k - |a|);
      }
    }
  }

  lemma LeadsByOne(c: Torrent, w: World, e: Event, i: nat)
    requires Ready(c, w) && Only(w, i) && (e == Continues(i) || (e.Peer? && e.event.i == i))
    ensures Leads(c, w, [e], StepWorld(c, w, e)) && Only(StepWorld(c, w, e), i)
  {
    StepKeepsOnly(c, w, e, i);
    FirstOf(c, w, e);
    OnlyIsApart(w, i);
    OnlyIsApart(StepWorld(c, w, e), i);
    hide Ready, StepWorld, Only, D.Apart, WorldAt;
  }

  lemma LeadsByContinuing(c: Torrent, w: World, i: nat, n: nat)
    requires Ready(c, w) && Only(w, i)
    ensures Leads(c, w, seq(n, _ => Continues(i)), Continued(c, w, i, n))
  {
    hide Ready, StepWorld, Only, D.Apart, WorldAt, Continued;
    var es := seq(n, _ => Continues(i));
    forall k | 0 <= k <= n
      ensures WorldAt(c, w, es, k) == Continued(c, w, i, k) && ApartAt(c, w, es, k)
    {
      ContinuedRun(c, w, i, n, k);
      OnlyIsApart(Continued(c, w, i, k), i);
    }
  }

  // One event of module PeerSession is one event here, and five more after a block is received.
  lemma StepIsSplit(c: Torrent, w: S.World, e: S.Event) returns (es: seq<Event>)
    requires Sound(c, w.state)
    ensures Ready(c, Quiet(w)) && Leads(c, Quiet(w), es, Quiet(S.StepWorld(c, w, e)))
  {
    QuietReady(c, w);
    LeadsByOne(c, Quiet(w), Peer(e), e.i);
    EventDelivers(c, Quiet(w), Peer(e));
    hide Ready, Sound, Leads, Continued, StepWorld, S.StepWorld, Only, Quiet, S.ActionOf;
    var a, v := S.ActionOf(w, e), StepWorld(c, Quiet(w), Peer(e));
    if a.Some? && a.value.BlockReceived? {
      BlockIsSplit(c, w, e);
      LeadsByContinuing(c, v, e.i, 5);
      es := [Peer(e)] + seq(5, _ => Continues(e.i));
      LeadsOn(c, Quiet(w), [Peer(e)], v, seq(5, _ => Continues(e.i)), Continued(c, v, e.i, 5));
    } else {
      es := [Peer(e)];
      OtherIsSplit(c, w, e);
    }
  }

  lemma BlockIsSplit(c: Torrent, w: S.World, e: S.Event)
    requires Sound(c, w.state) && S.ActionOf(w, e).Some? && S.ActionOf(w, e).value.BlockReceived?
    ensures Ready(c, Quiet(w)) && Ready(c, StepWorld(c, Quiet(w), Peer(e)))
    ensures Continued(c, StepWorld(c, Quiet(w), Peer(e)), e.i, 5) == Quiet(S.StepWorld(c, w, e))
  {
    QuietReady(c, w);
    S.EventActs(c, w, e);
    assert SessionOf(Quiet(w)) == w;
    assert e.Receives?;
    hide Sound, Ready, Continued, StepWorld, S.Move;
    ReceiptAlone(c, Quiet(w), e.i, e.message);
  }

  lemma OtherIsSplit(c: Torrent, w: S.World, e: S.Event)
    requires Sound(c, w.state) && !(S.ActionOf(w, e).Some? && S.ActionOf(w, e).value.BlockReceived?)
    ensures Ready(c, Quiet(w)) && StepWorld(c, Quiet(w), Peer(e)) == Quiet(S.StepWorld(c, w, e))
  {
    QuietReady(c, w);
    S.EventActs(c, w, e);
    assert SessionOf(Quiet(w)) == w;
    hide Sound, Ready, S.Move, S.ActionOf;
  }

  // Every run of module PeerSession is a run of this one in which the deliveries are apart.
  lemma {:induction false} RunIsSplit(c: Torrent, w: S.World, events: seq<S.Event>, i: nat) returns (es: seq<Event>)
    requires Sound(c, w.state) && i <= |events|
    ensures Ready(c, Quiet(w)) && Leads(c, Quiet(w), es, Quiet(S.WorldAt(c, w, events, i)))
  {
    hide *;
    if i == 0 {
      es := [];
      S.WorldStarts(c, w, events);
      QuietLeads(c, w);
    } else {
      var before := RunIsSplit(c, w, events, i - 1);
      S.WorldNext(c, w, events, i - 1);
      var more := StepIsSplit(c, S.WorldAt(c, w, events, i - 1), events[i - 1]);
      es := before + more;
      LeadsOn(c, Quiet(w), before, Quiet(S.WorldAt(c, w, events, i - 1)), more, Quiet(S.WorldAt(c, w, events, i)));
    }
  }

  lemma QuietLeads(c: Torrent, w: S.World)
    requires Sound(c, w.state)
    ensures Ready(c, Quiet(w)) && Leads(c, Quiet(w), [], Quiet(w))
  {
    QuietReady(c, w);
    OnlyIsApart(Quiet(w), 0);
    hide Ready, D.Apart, Quiet;
  }
}
