// blockReceived of PieceManager.cpp as it locks: the lock is held while the piece is looked up and again
// while it is moved to the have list, but not in between, so the deliveries of several workers can overlap.
module Deliveries {
  import opened Types
  import opened Blocks
  import opened Download
  import opened DownloadInvariant
  import opened DownloadRuns
  import opened DownloadFile
  import opened BlockTable
  import opened Bitfield
  import Fips180
  import PM = PieceManager

  // Where a worker is in blockReceived: not in it; past the first lock section with a piece to store in;
  // before is_complete, is_hash_matching and write; before the second lock section; before reset.
  datatype Worker =
    | Outside
    | Found(piece: nat, offset: int, data: bytes)
    | Filled(piece: nat)
    | Full(piece: nat)
    | Matching(piece: nat)
    | Kept(piece: nat)
    | Failing(piece: nat)

  datatype World = World(state: State, workers: seq<Worker>)

  // Another method of the piece manager; a worker calls blockReceived; a worker takes its next step in it.
  datatype Event =
    | Acts(action: Action)
    | Arrives(w: nat, piece: int, offset: int, data: bytes)
    | Advances(w: nat)

  ghost predicate Ready(c: Torrent, w: World) {
    && InRange(w.state) && |w.state.pieces| == |c.hashes|
    && forall i :: 0 <= i < |w.workers| && !w.workers[i].Outside? ==> w.workers[i].piece < |w.state.pieces|
  }

  function At(w: World, i: nat, worker: Worker): World
    requires i < |w.workers|
  {
    w.(workers := w.workers[i := worker])
  }

  // A thrown exception ends the call.
  function Advance(c: Torrent, w: World, i: nat): World
    requires i < |w.workers| && |w.state.pieces| == |c.hashes|
    requires !w.workers[i].Outside? ==> w.workers[i].piece < |w.state.pieces|
  {
    hide Fips180.Digest;
    var s := w.state;
    match w.workers[i]
    case Outside => w
    case Found(p, offset, data) =>
      (match FirstAt(s.pieces[p], offset)
       case None => At(w, i, Outside)
       case Some(b) => At(w, i, Filled(p)).(state := s.(pieces := s.pieces[p := Store(s.pieces[p], b, data)])))
    case Filled(p) => At(w, i, if Blocks.IsComplete(s.pieces[p]) then Full(p) else Outside)
    case Full(p) => At(w, i, if Fips180.Digest(Data(s.pieces[p])) == c.hashes[p] then Matching(p) else Failing(p))
    case Matching(p) =>
      At(w, i, Kept(p)).(state := s.(file := WriteAt(s.file, Position(c, p), Data(s.pieces[p]))))
    case Kept(p) => At(w, i, Outside).(state := s.(ongoing := Remove(s.ongoing, p), have := s.have + [p]))
    case Failing(p) => At(w, i, Outside).(state := s.(pieces := s.pieces[p := Reset(s.pieces[p])]))
  }

  // Events that cannot happen leave the world as it is.
  ghost function StepWorld(c: Torrent, w: World, e: Event): World
    requires Ready(c, w)
  {
    match e
    case Acts(a) => if a.BlockReceived? then w else w.(state := Step(c, w.state, a).0)
    case Arrives(i, piece, offset, data) =>
      if i >= |w.workers| || !w.workers[i].Outside? then w
      else
        var t := w.state.(pending := WithoutFirst(w.state.pieces, w.state.pending, piece, offset));
        if piece < 0 || piece !in w.state.ongoing then w.(state := t)
        else At(w, i, Found(piece, offset, data)).(state := t)
    case Advances(i) => if i >= |w.workers| then w else Advance(c, w, i)
  }

  // A worker in blockReceived leaves its place only by its own next step, whatever the others do.
  lemma MovesOnlyItself(c: Torrent, w: World, e: Event, i: nat)
    requires Ready(c, w) && i < |w.workers| && !w.workers[i].Outside? && e != Advances(i)
    ensures |StepWorld(c, w, e).workers| == |w.workers| && StepWorld(c, w, e).workers[i] == w.workers[i]
  {
    hide Step, WithoutFirst, FirstAt, Data, WriteAt, Remove;
  }

  // What the other methods do to the lists, without the invariant of atomic deliveries.
  lemma ActionLists(c: Torrent, s: State, a: Action)
    requires InRange(s) && |s.pieces| == |c.hashes| && !a.BlockReceived?
    ensures var t := Step(c, s, a).0;
      && InRange(t) && |t.pieces| == |s.pieces| && t.have == s.have && t.file == s.file
      && (forall p :: 0 <= p < |s.pieces| ==> Data(t.pieces[p]) == Data(s.pieces[p]))
      && ((t.missing == s.missing && t.ongoing == s.ongoing)
          || exists p :: p in s.missing && t.missing == Remove(s.missing, p) && t.ongoing == s.ongoing + [p])
  {
    hide Next, Data;
    if a.NextRequest? { NextLists(s, a.peer, a.now); }
  }

  lemma NextLists(s: State, peer: string, now: int)
    requires InRange(s)
    ensures var t := Next(s, peer, now).0;
      && InRange(t) && |t.pieces| == |s.pieces| && t.have == s.have && t.file == s.file
      && (forall p :: 0 <= p < |s.pieces| ==> Data(t.pieces[p]) == Data(s.pieces[p]))
      && ((t.missing == s.missing && t.ongoing == s.ongoing)
          || exists p :: p in s.missing && t.missing == Remove(s.missing, p) && t.ongoing == s.ongoing + [p])
  {
    hide FirstMissing, FirstExpired, FirstOngoing, Lowest, Remove, Data;
    var (t, o) := Next(s, peer, now);
    if o.Issued? && !o.source.Expired? {
      AskKeepsData(s.pieces[o.piece], o.block);
    }
    forall p | p in s.missing ensures AllBelow(Remove(s.missing, p), |s.pieces|) {
      RemoveBelow(s.missing, p, |s.pieces|);
    }
  }

  lemma {:induction false} AskKeepsData(bs: seq<Block>, b: nat)
    requires b < |bs|
    ensures Data(Blocks.Ask(bs, b)) == Data(bs)
  {
    if b > 0 {
      AskKeepsData(bs[1..], b - 1);
      assert Blocks.Ask(bs, b)[1..] == Blocks.Ask(bs[1..], b - 1);
    } else {
      assert Blocks.Ask(bs, b)[1..] == bs[1..];
    }
  }

  lemma AdvanceReady(c: Torrent, w: World, i: nat)
    requires Ready(c, w) && i < |w.workers|
    ensures Ready(c, Advance(c, w, i)) && |Advance(c, w, i).workers| == |w.workers|
  {
    hide Fips180.Digest, Data, WriteAt, FirstAt, Remove;
    if w.workers[i].Kept? { RemoveBelow(w.state.ongoing, w.workers[i].piece, |w.state.pieces|); }
  }

  lemma ArriveReady(c: Torrent, w: World, i: nat, piece: int, offset: int, data: bytes)
    requires Ready(c, w)
    ensures Ready(c, StepWorld(c, w, Arrives(i, piece, offset, data)))
  {
    hide WithoutFirst;
    var rest := WithoutFirst(w.state.pieces, w.state.pending, piece, offset);
    WithoutFirstSubset(w.state.pieces, w.state.pending, piece, offset);
    forall k | 0 <= k < |rest|
      ensures rest[k].piece < |w.state.pieces| && rest[k].block < |w.state.pieces[rest[k].piece]|
    {
      assert rest[k] in w.state.pending;
    }
  }

  lemma StepReady(c: Torrent, w: World, e: Event)
    requires Ready(c, w)
    ensures Ready(c, StepWorld(c, w, e)) && |StepWorld(c, w, e).workers| == |w.workers|
  {
    match e
    case Acts(a) =>
      hide Step;
      if !a.BlockReceived? { ActionLists(c, w.state, a); }
    case Arrives(i, piece, offset, data) => ArriveReady(c, w, i, piece, offset, data);
    case Advances(i) => if i < |w.workers| { AdvanceReady(c, w, i); }
  }

  // The world after the first i events.
  ghost function WorldAt(c: Torrent, w: World, events: seq<Event>, i: nat): (v: World)
    requires Ready(c, w) && i <= |events|
    ensures Ready(c, v) && |v.workers| == |w.workers|
  {
    if i == 0 then w
    else
      StepReady(c, WorldAt(c, w, events, i - 1), events[i - 1]);
      StepWorld(c, WorldAt(c, w, events, i - 1), events[i - 1])
  }

  // ----- a delivery alone -----

  ghost function Repeat(c: Torrent, w: World, i: nat, n: nat): (v: World)
    requires Ready(c, w) && i < |w.workers|
    ensures Ready(c, v) && |v.workers| == |w.workers|
  {
    if n == 0 then w
    else
      AdvanceReady(c, Repeat(c, w, i, n - 1), i);
      Advance(c, Repeat(c, w, i, n - 1), i)
  }

  // When nobody else steps in between, a delivery is the atomic step of the machine.
  lemma AloneIsReceive(c: Torrent, w: World, i: nat, piece: int, offset: int, data: bytes)
    requires Ready(c, w) && i < |w.workers| && w.workers[i].Outside?
    ensures var arrived := StepWorld(c, w, Arrives(i, piece, offset, data));
      Ready(c, arrived) && i < |arrived.workers|
      && Repeat(c, arrived, i, 5) == World(Receive(c, w.state, piece, offset, data).0, w.workers)
  {
    hide Fips180.Digest, Data, WriteAt, FirstAt, WithoutFirst, Blocks.IsComplete, Remove, Repeat;
    StepReady(c, w, Arrives(i, piece, offset, data));
    var w0 := StepWorld(c, w, Arrives(i, piece, offset, data));
    RepeatSteps(c, w0, i);
    var w1 := Repeat(c, w0, i, 1);
    var w2 := Repeat(c, w0, i, 2);
    var w3 := Repeat(c, w0, i, 3);
    var w4 := Repeat(c, w0, i, 4);
    var w5 := Repeat(c, w0, i, 5);
    assert forall k | 0 <= k < |w.workers| && k != i :: w5.workers[k] == w.workers[k];
    assert w5.workers == w.workers;
  }

  lemma RepeatSteps(c: Torrent, w: World, i: nat)
    requires Ready(c, w) && i < |w.workers|
    ensures Repeat(c, w, i, 1) == Advance(c, w, i)
    ensures Repeat(c, w, i, 2) == Advance(c, Repeat(c, w, i, 1), i)
    ensures Repeat(c, w, i, 3) == Advance(c, Repeat(c, w, i, 2), i)
    ensures Repeat(c, w, i, 4) == Advance(c, Repeat(c, w, i, 3), i)
    ensures Repeat(c, w, i, 5) == Advance(c, Repeat(c, w, i, 4), i)
  {
    hide Advance;
    assert Repeat(c, w, i, 0) == w;
  }

  // ----- deliveries that do not overlap -----

  // The worker has found its piece complete.
  predicate Finishing(worker: Worker) {
    worker.Full? || worker.Matching? || worker.Kept? || worker.Failing?
  }

  // While a worker finishes a piece, no other worker is in blockReceived for it.
  ghost predicate Apart(w: World) {
    forall i, j | 0 <= i < |w.workers| && 0 <= j < |w.workers| && i != j ::
      Finishing(w.workers[i]) && !w.workers[j].Outside? ==> w.workers[i].piece != w.workers[j].piece
  }

  // The piece of a busy worker is ongoing; one about to be written has the right digest, and one that has
  // been written is in the file.
  ghost predicate Tended(c: Torrent, s: State, worker: Worker, content: bytes) {
    !worker.Outside? ==>
      && worker.piece in s.ongoing && worker.piece < |s.pieces| && |s.pieces| == |c.hashes|
      && (worker.Matching? ==> Fips180.Digest(Data(s.pieces[worker.piece])) == c.hashes[worker.piece])
      && (worker.Kept? ==> Holds(c, s.file.content, content, worker.piece))
  }

  ghost predicate Good(c: Torrent, w: World, content: bytes) {
    && Ready(c, w) && Partitioned(w.state) && FileInv(c, w.state, content)
    && forall i :: 0 <= i < |w.workers| ==> Tended(c, w.state, w.workers[i], content)
  }

  // The event writes data that collides with the piece it is taken for.
  ghost predicate WritesCollision(c: Torrent, w: World, e: Event, content: bytes)
    requires Ready(c, w)
  {
    && e.Advances? && e.w < |w.workers| && w.workers[e.w].Matching?
    && Collision(Data(w.state.pieces[w.workers[e.w].piece]), Slice(c, content, w.workers[e.w].piece))
  }

  lemma ActsGood(c: Torrent, w: World, a: Action, content: bytes)
    requires Good(c, w, content) && !a.BlockReceived?
    ensures Good(c, StepWorld(c, w, Acts(a)), content)
  {
    hide Step, Fips180.Digest, Data, Holds, Remove;
    StepReady(c, w, Acts(a));
    ActionLists(c, w.state, a);
    var s, t := w.state, Step(c, w.state, a).0;
    if t.missing != s.missing || t.ongoing != s.ongoing {
      var p :| p in s.missing && t.missing == Remove(s.missing, p) && t.ongoing == s.ongoing + [p];
      MovePartitions(s, p);
    }
  }

  lemma ArrivesGood(c: Torrent, w: World, e: Event, content: bytes)
    requires Good(c, w, content) && e.Arrives?
    ensures Good(c, StepWorld(c, w, e), content)
  {
    hide Fips180.Digest, Data, Holds, WithoutFirst;
    StepReady(c, w, e);
  }

  lemma StoresGood(c: Torrent, w: World, i: nat, content: bytes)
    requires Good(c, w, content) && Apart(w) && i < |w.workers|
    requires w.workers[i].Found? || w.workers[i].Filled? || w.workers[i].Full? || w.workers[i].Failing?
    ensures Good(c, Advance(c, w, i), content)
  {
    hide Fips180.Digest, Data, Holds, FirstAt;
    AdvanceReady(c, w, i);
    var v := Advance(c, w, i);
    forall j | 0 <= j < |v.workers| ensures Tended(c, v.state, v.workers[j], content) {
      assert Tended(c, w.state, w.workers[j], content);
    }
  }

  lemma WritesGood(c: Torrent, w: World, i: nat, content: bytes)
    requires Good(c, w, content) && Describes(c, content) && i < |w.workers| && w.workers[i].Matching?
    requires !WritesCollision(c, w, Advances(i), content)
    ensures Good(c, Advance(c, w, i), content)
  {
    hide Fips180.Digest, Data, Holds, WriteAt, Slice, Position;
    AdvanceReady(c, w, i);
    var v, p := Advance(c, w, i), w.workers[i].piece;
    assert Tended(c, w.state, w.workers[i], content);
    assert Data(w.state.pieces[p]) == Slice(c, content, p);
    WriteSlice(c, w.state.file, content, p);
    forall j | 0 <= j < |v.workers| ensures Tended(c, v.state, v.workers[j], content) {
      assert Tended(c, w.state, w.workers[j], content);
    }
  }

  lemma KeepsGood(c: Torrent, w: World, i: nat, content: bytes)
    requires Good(c, w, content) && Apart(w) && i < |w.workers| && w.workers[i].Kept?
    ensures Good(c, Advance(c, w, i), content)
  {
    hide Fips180.Digest, Data, Holds;
    AdvanceReady(c, w, i);
    var v, p, s := Advance(c, w, i), w.workers[i].piece, w.state;
    assert Tended(c, s, w.workers[i], content);
    RemoveFacts(s.ongoing, p);
    assert forall q :: q in v.state.have <==> q in s.have || q == p by {
      assert v.state.have[|s.have|] == p;
    }
    forall j | 0 <= j < |v.workers| ensures Tended(c, v.state, v.workers[j], content) {
      assert Tended(c, s, w.workers[j], content);
    }
  }

  lemma StepGood(c: Torrent, w: World, e: Event, content: bytes)
    requires Good(c, w, content) && Describes(c, content) && Apart(w) && !WritesCollision(c, w, e, content)
    ensures Good(c, StepWorld(c, w, e), content)
  {
    hide Good, Describes, Advance, WritesCollision, Apart;
    assert Ready(c, w) by { GoodIsReady(c, w, content); }
    match e
    case Acts(a) => if !a.BlockReceived? { ActsGood(c, w, a, content); }
    case Arrives(_, _, _, _) => ArrivesGood(c, w, e, content);
    case Advances(i) =>
      if i < |w.workers| {
        match w.workers[i]
        case Outside => AdvanceOutside(c, w, i);
        case Matching(_) => WritesGood(c, w, i, content);
        case Kept(_) => KeepsGood(c, w, i, content);
        case _ => StoresGood(c, w, i, content);
      }
  }

  lemma GoodIsReady(c: Torrent, w: World, content: bytes)
    requires Good(c, w, content)
    ensures Ready(c, w)
  {
  }

  lemma AdvanceOutside(c: Torrent, w: World, i: nat)
    requires Ready(c, w) && i < |w.workers| && w.workers[i].Outside?
    ensures Advance(c, w, i) == w
  {
  }

  lemma {:induction false} RunGood(c: Torrent, w: World, events: seq<Event>, i: nat, content: bytes)
    requires Ready(c, w) && Good(c, w, content) && Describes(c, content) && i <= |events|
    requires forall k :: 0 <= k < i ==> Apart(WorldAt(c, w, events, k))
    requires forall k :: 0 <= k < i ==> !WritesCollision(c, WorldAt(c, w, events, k), events[k], content)
    ensures Good(c, WorldAt(c, w, events, i), content)
  {
    hide Ready, Good, Describes, StepWorld, WritesCollision, Apart;
    if i > 0 {
      RunGood(c, w, events, i - 1, content);
      StepGood(c, WorldAt(c, w, events, i - 1), events[i - 1], content);
    }
  }

  // After the constructor, with n workers.
  ghost function Start(c: Torrent, totalLength: nat, n: nat): (w: World)
    requires c.pieceLength > 0
    ensures Ready(c, w)
  {
    hide Table;
    World(Initial(Table(c.pieceLength, totalLength, |c.hashes|), PM.EmptyFile(totalLength)), seq(n, _ => Outside))
  }

  lemma StartGood(c: Torrent, content: bytes, n: nat)
    requires c.pieceLength > 0
    ensures Good(c, Start(c, |content|, n), content)
  {
    hide Table;
    var s := Start(c, |content|, n).state;
    TableIsFresh(c.pieceLength, |content|, |c.hashes|);
    InitialSound(c, s.pieces, s.file);
  }

  // In every run of n workers in which no delivery for a piece overlaps the end of one that has found the
  // piece complete: when the download is complete the file is the content, or a SHA-1 collision has been
  // written.
  lemma CompleteWhenApart(c: Torrent, events: seq<Event>, n: nat, content: bytes)
    requires Describes(c, content)
    requires forall k :: 0 <= k < |events| ==> Apart(WorldAt(c, Start(c, |content|, n), events, k))
    requires Download.IsComplete(WorldAt(c, Start(c, |content|, n), events, |events|).state)
    ensures var w := Start(c, |content|, n);
      || WorldAt(c, w, events, |events|).state.file.content == content
      || exists k :: 0 <= k < |events| && WritesCollision(c, WorldAt(c, w, events, k), events[k], content)
  {
    CoveredByHashes(c, content);
    hide Describes, StepWorld, WorldAt, Start, Apart, WritesCollision, Holds, Ready;
    var w := Start(c, |content|, n);
    if forall k :: 0 <= k < |events| ==> !WritesCollision(c, WorldAt(c, w, events, k), events[k], content) {
      StartGood(c, content, n);
      RunGood(c, w, events, |events|, content);
      PartitionedAllHad(c, WorldAt(c, w, events, |events|), content);
    }
  }

  lemma PartitionedAllHad(c: Torrent, w: World, content: bytes)
    requires Good(c, w, content) && Describes(c, content) && Download.IsComplete(w.state)
    ensures w.state.file.content == content
  {
    hide Holds, Describes, Tended;
    CoveredByHashes(c, content);
    AllHad(w.state);
    AllHeld(c, w.state.file.content, content);
  }

  // ----- deliveries that overlap -----

  // Two pieces of one block each; the first is delivered twice.
  function Overlap(data: bytes): seq<Event> {
    [Acts(Action.AddPeer("peer", [192])), Acts(Action.NextRequest("peer", 0)),
     Arrives(0, 0, 0, data), Arrives(1, 0, 0, data),
     Advances(0), Advances(0), Advances(0), Advances(0),
     Advances(1), Advances(1), Advances(1), Advances(1),
     Advances(0), Advances(1)]
  }

  // The table, with a status and data for the first piece.
  function TwoPieces(status: BlockStatus, data: bytes): seq<seq<Block>> {
    [[Block(0, BLOCK_SIZE, status, data)], [Block(0, 1, Missing, [])]]
  }

  lemma TableOfTwo()
    ensures Table(BLOCK_SIZE, BLOCK_SIZE + 1, 2) == TwoPieces(Missing, [])
  {
    var table := Table(BLOCK_SIZE, BLOCK_SIZE + 1, 2);
    assert |table[0]| == 1 && table[0][0] == Block(0, BLOCK_SIZE, Missing, []);
    assert |table[1]| == 1 && table[1][0] == Block(0, 1, Missing, []);
    assert table[0] == [table[0][0]] && table[1] == [table[1][0]];
    assert table == [table[0], table[1]];
  }

  // The state of that run: the status and data of the first block, the lists, the file.
  function Midway(status: BlockStatus, data: bytes, ongoing: seq<nat>, have: seq<nat>, content: bytes): State {
    State(TwoPieces(status, data), if status == Missing then [0, 1] else [1], ongoing, have, [],
          map["peer" := [192]], File(true, content))
  }

  lemma AdvertisesBoth()
    ensures HasPiece([192], 0) && HasPiece([192], 1)
  {
    BitValues();
  }

  lemma RemoveFirstOfTwo()
    ensures Remove([0, 1], 0) == [1]
  {
    assert [0, 1][1..] == [1] && [1][1..] == [];
  }

  lemma OverlapStarts(content: bytes)
    ensures Next(Midway(Missing, [], [], [], content), "peer", 0).0 == Midway(Pending, [], [0], [], content)
  {
    hide HasPiece, FirstExpired, FirstOngoing, Lowest, FirstMissing, Remove;
    AdvertisesBoth();
    RemoveFirstOfTwo();
    var s := Midway(Missing, [], [], [], content);
    assert 0 in s.missing;
    assert Lowest(s.missing, [192]) == Some(0);
    assert s.pieces[0][0].status.Missing?;
    assert FirstMissing(s.pieces[0]) == Some(0);
    assert Blocks.Ask(s.pieces[0], 0) == TwoPieces(Pending, [])[0];
    assert s.pieces[0 := Blocks.Ask(s.pieces[0], 0)] == TwoPieces(Pending, []);
  }

  lemma OverlapStores(data: bytes, before: bytes, status: BlockStatus)
    ensures FirstAt(TwoPieces(status, before)[0], 0) == Some(0)
    ensures TwoPieces(status, before)[0 := Store(TwoPieces(status, before)[0], 0, data)] == TwoPieces(Retrieved, data)
    ensures Blocks.IsComplete(TwoPieces(Retrieved, data)[0])
    ensures Data(TwoPieces(Retrieved, data)[0]) == data
  {
    var bs := TwoPieces(Retrieved, data)[0];
    assert bs[1..] == [];
    assert Data(bs) == data + [];
    assert Store(TwoPieces(status, before)[0], 0, data) == bs;
  }

  // The steps of a delivery of the first piece between the two lock sections.
  lemma OverlapDelivers(c: Torrent, workers: seq<Worker>, i: nat,
                        status: BlockStatus, before: bytes, f: bytes, data: bytes)
    requires |c.hashes| == 2 && Fips180.Digest(data) == c.hashes[0] && status != Missing
    requires i < |workers| && workers[i] == Found(0, 0, data) && 0 < |data| <= |f|
    ensures var s := Midway(Retrieved, data, [0], [], f);
      && Advance(c, World(Midway(status, before, [0], [], f), workers), i) == World(s, workers[i := Filled(0)])
      && Advance(c, World(s, workers[i := Filled(0)]), i) == World(s, workers[i := Full(0)])
      && Advance(c, World(s, workers[i := Full(0)]), i) == World(s, workers[i := Matching(0)])
      && Advance(c, World(s, workers[i := Matching(0)]), i)
         == World(Midway(Retrieved, data, [0], [], data + f[|data|..]), workers[i := Kept(0)])
  {
    hide Fips180.Digest, FirstAt, Data, Blocks.IsComplete;
    OverlapStores(data, before, status);
    assert Position(c, 0) == 0;
    assert WriteAt(File(true, f), 0, data) == File(true, data + f[|data|..]);
  }

  // A worker of either delivery moves the piece.
  lemma OverlapKeeps(c: Torrent, workers: seq<Worker>, i: nat, have: seq<nat>, ongoing: seq<nat>, f: bytes, data: bytes)
    requires |c.hashes| == 2 && i < |workers| && workers[i] == Kept(0) && (ongoing == [0] || ongoing == [])
    ensures Advance(c, World(Midway(Retrieved, data, ongoing, have, f), workers), i)
         == World(Midway(Retrieved, data, [], have + [0], f), workers[i := Outside])
  {
    assert [0][1..] == [];
    assert Remove(ongoing, 0) == [];
  }

  lemma OverlapArrives(c: Torrent, workers: seq<Worker>, i: nat, f: bytes, data: bytes)
    requires |c.hashes| == 2 && i < |workers| && workers[i].Outside?
    requires Ready(c, World(Midway(Pending, [], [0], [], f), workers))
    ensures var w := World(Midway(Pending, [], [0], [], f), workers);
      StepWorld(c, w, Arrives(i, 0, 0, data)) == World(w.state, workers[i := Found(0, 0, data)])
  {
    assert 0 in [0];
  }

  lemma AdvanceAt(c: Torrent, w: World, events: seq<Event>, i: nat, j: nat, v: World)
    requires Ready(c, w) && i < |events| && events[i] == Advances(j) && WorldAt(c, w, events, i) == v && j < |v.workers|
    ensures Ready(c, v) && WorldAt(c, w, events, i + 1) == Advance(c, v, j)
  {
    hide Advance;
  }

  // The first two workers, and n more that do nothing.
  function Two(first: Worker, second: Worker, n: nat): (workers: seq<Worker>)
    ensures |workers| == n + 2 && workers[0] == first && workers[1] == second
    ensures forall i :: 2 <= i < n + 2 ==> workers[i] == Outside
  {
    [first, second] + seq(n, _ => Outside)
  }

  lemma TwoUpdates(first: Worker, second: Worker, n: nat, worker: Worker)
    ensures Two(first, second, n)[0 := worker] == Two(worker, second, n)
    ensures Two(first, second, n)[1 := worker] == Two(first, worker, n)
  {
  }

  // The constructor's state, and the two events that start the first piece.
  lemma OverlapOpens(c: Torrent, f: bytes, n: nat)
    requires |c.hashes| == 2 && c.pieceLength == BLOCK_SIZE && f == seq(BLOCK_SIZE + 1, _ => 0 as byte)
    ensures var w := Start(c, BLOCK_SIZE + 1, n + 2);
      && w.workers == Two(Outside, Outside, n)
      && StepWorld(c, w, Acts(Action.AddPeer("peer", [192]))) == World(Midway(Missing, [], [], [], f), w.workers)
  {
    hide Table, TwoPieces;
    TableOfTwo();
    assert Indices(2) == [0, 1];
    assert PM.EmptyFile(BLOCK_SIZE + 1) == File(true, f);
  }

  lemma OverlapAsks(c: Torrent, workers: seq<Worker>, f: bytes)
    requires Ready(c, World(Midway(Missing, [], [], [], f), workers))
    ensures StepWorld(c, World(Midway(Missing, [], [], [], f), workers), Acts(Action.NextRequest("peer", 0)))
         == World(Midway(Pending, [], [0], [], f), workers)
  {
    hide Next, Midway;
    OverlapStarts(f);
  }

  // The first four events: the peer is known, the first piece is started, two workers have found it.
  lemma OverlapBegins(c: Torrent, f: bytes, data: bytes, n: nat)
    requires |c.hashes| == 2 && c.pieceLength == BLOCK_SIZE && f == seq(BLOCK_SIZE + 1, _ => 0 as byte)
    ensures WorldAt(c, Start(c, BLOCK_SIZE + 1, n + 2), Overlap(data), 4)
         == World(Midway(Pending, [], [0], [], f), Two(Found(0, 0, data), Found(0, 0, data), n))
  {
    hide WorldAt, StepWorld, Start, Midway, Ready, Two;
    var w, events, found := Start(c, BLOCK_SIZE + 1, n + 2), Overlap(data), Found(0, 0, data);
    FirstWorld(c, w, events);
    OverlapOpens(c, f, n);
    NextWorld(c, w, events, 0);
    NextWorld(c, w, events, 1);
    OverlapAsks(c, Two(Outside, Outside, n), f);
    NextWorld(c, w, events, 2);
    OverlapArrives(c, Two(Outside, Outside, n), 0, f, data);
    TwoUpdates(Outside, Outside, n, found);
    NextWorld(c, w, events, 3);
    OverlapArrives(c, Two(found, Outside, n), 1, f, data);
    TwoUpdates(found, Outside, n, found);
  }

  lemma FirstWorld(c: Torrent, w: World, events: seq<Event>)
    requires Ready(c, w)
    ensures WorldAt(c, w, events, 0) == w
  {
  }

  lemma NextWorld(c: Torrent, w: World, events: seq<Event>, i: nat)
    requires Ready(c, w) && i < |events|
    ensures Ready(c, WorldAt(c, w, events, i))
    ensures WorldAt(c, w, events, i + 1) == StepWorld(c, WorldAt(c, w, events, i), events[i])
  {
    hide StepWorld;
  }

  // Whatever the event writes is this data, to the first piece.
  ghost predicate WritesOnly(w: World, e: Event, data: bytes) {
    e.Advances? && e.w < |w.workers| && w.workers[e.w].Matching? ==>
      w.workers[e.w].piece == 0 && w.state.pieces != [] && Data(w.state.pieces[0]) == data
  }

  lemma OverlapDeliversAt(c: Torrent, w: World, events: seq<Event>, k: nat, workers: seq<Worker>, i: nat,
                          status: BlockStatus, before: bytes, f: bytes, data: bytes)
    requires |c.hashes| == 2 && Fips180.Digest(data) == c.hashes[0] && status != Missing
    requires i < |workers| && workers[i] == Found(0, 0, data) && 0 < |data| <= |f|
    requires Ready(c, w) && k + 4 <= |events| && forall j :: k <= j < k + 4 ==> events[j] == Advances(i)
    requires WorldAt(c, w, events, k) == World(Midway(status, before, [0], [], f), workers)
    ensures WorldAt(c, w, events, k + 4)
         == World(Midway(Retrieved, data, [0], [], data + f[|data|..]), workers[i := Kept(0)])
    ensures forall j :: k <= j < k + 4 ==> WritesOnly(WorldAt(c, w, events, j), events[j], data)
  {
    hide Fips180.Digest, Advance, WorldAt, Ready, Midway;
    OverlapDelivers(c, workers, i, status, before, f, data);
    var s := Midway(Retrieved, data, [0], [], f);
    AdvanceAt(c, w, events, k, i, World(Midway(status, before, [0], [], f), workers));
    AdvanceAt(c, w, events, k + 1, i, World(s, workers[i := Filled(0)]));
    AdvanceAt(c, w, events, k + 2, i, World(s, workers[i := Full(0)]));
    AdvanceAt(c, w, events, k + 3, i, World(s, workers[i := Matching(0)]));
    MidwayData(data, [0], [], f);
  }

  lemma MidwayData(data: bytes, ongoing: seq<nat>, have: seq<nat>, f: bytes)
    ensures var s := Midway(Retrieved, data, ongoing, have, f); s.pieces != [] && Data(s.pieces[0]) == data
  {
    OverlapStores(data, data, Retrieved);
  }

  lemma OverlapRuns(c: Torrent, f: bytes, data: bytes, n: nat)
    requires |c.hashes| == 2 && c.pieceLength == BLOCK_SIZE && f == seq(BLOCK_SIZE + 1, _ => 0 as byte)
    requires |data| == BLOCK_SIZE && Fips180.Digest(data) == c.hashes[0]
    ensures var w, events := Start(c, BLOCK_SIZE + 1, n + 2), Overlap(data);
      && WorldAt(c, w, events, 14)
           == World(Midway(Retrieved, data, [], [0, 0], data + [0]), Two(Outside, Outside, n))
      && forall k :: 0 <= k < 14 ==> WritesOnly(WorldAt(c, w, events, k), events[k], data)
  {
    hide Fips180.Digest, Advance, WorldAt, Start, Ready, Midway, Two;
    var w, events := Start(c, BLOCK_SIZE + 1, n + 2), Overlap(data);
    var g, found, kept := data + [0], Found(0, 0, data), Kept(0);
    OverlapBegins(c, f, data, n);
    assert f[|data|..] == [0] && g[|data|..] == [0];
    OverlapDeliversAt(c, w, events, 4, Two(found, found, n), 0, Pending, [], f, data);
    TwoUpdates(found, found, n, kept);
    OverlapDeliversAt(c, w, events, 8, Two(kept, found, n), 1, Retrieved, data, g, data);
    TwoUpdates(kept, found, n, kept);
    OverlapKeeps(c, Two(kept, kept, n), 0, [], [0], g, data);
    AdvanceAt(c, w, events, 12, 0, World(Midway(Retrieved, data, [0], [], g), Two(kept, kept, n)));
    assert [] + [0] == [0] && [0] + [0] == [0, 0];
    TwoUpdates(kept, kept, n, Outside);
    OverlapKeeps(c, Two(Outside, kept, n), 1, [0], [], g, data);
    AdvanceAt(c, w, events, 13, 1, World(Midway(Retrieved, data, [], [0], g), Two(Outside, kept, n)));
    TwoUpdates(Outside, kept, n, Outside);
    assert forall k :: 0 <= k < 4 ==> !events[k].Advances?;
  }

  lemma FirstSlice(content: bytes)
    requires |content| == BLOCK_SIZE + 1
    ensures var c := TorrentOf(content, BLOCK_SIZE, 2);
      && |c.hashes| == 2 && c.pieceLength == BLOCK_SIZE
      && |Slice(c, content, 0)| == BLOCK_SIZE && Fips180.Digest(Slice(c, content, 0)) == c.hashes[0]
  {
    hide Fips180.Digest;
    var c, blank := TorrentOf(content, BLOCK_SIZE, 2), Torrent(BLOCK_SIZE, []);
    assert Slice(c, content, 0) == Slice(blank, content, 0);
  }

  // Overlapping deliveries of one piece put it on the have list twice: the download is complete while the
  // other piece is missing, without any collision. It happens with any two or more workers, to every
  // content of this length whose last byte is not zero.
  lemma OverlapCompletesEarly(content: bytes, n: nat)
    requires |content| == BLOCK_SIZE + 1 && content[BLOCK_SIZE] != 0
    ensures var c := TorrentOf(content, BLOCK_SIZE, 2);
      var w, events := Start(c, |content|, n + 2), Overlap(Slice(c, content, 0));
      && Describes(c, content)
      && var t := WorldAt(c, w, events, 14).state;
      && Download.IsComplete(t) && t.have == [0, 0] && 1 in t.missing && t.file.content != content
      && forall k :: 0 <= k < 14 ==> !WritesCollision(c, WorldAt(c, w, events, k), events[k], content)
  {
    TorrentOfDescribes(content, BLOCK_SIZE, 2);
    var c := TorrentOf(content, BLOCK_SIZE, 2);
    var data := Slice(c, content, 0);
    FirstSlice(content);
    hide WorldAt, Fips180.Digest, Slice, TorrentOf, Describes, Start;
    OverlapRuns(c, seq(BLOCK_SIZE + 1, _ => 0 as byte), data, n);
    var w, events := Start(c, |content|, n + 2), Overlap(data);
    forall k | 0 <= k < 14 ensures !WritesCollision(c, WorldAt(c, w, events, k), events[k], content) {
      assert WritesOnly(WorldAt(c, w, events, k), events[k], data);
    }
  }

  // Every run that completes leaves the content, or has written a collision.
  ghost predicate Safe(c: Torrent, content: bytes, n: nat)
    requires c.pieceLength > 0
  {
    var w := Start(c, |content|, n);
    forall events: seq<Event> :: Download.IsComplete(WorldAt(c, w, events, |events|).state) ==>
      || WorldAt(c, w, events, |events|).state.file.content == content
      || exists k :: 0 <= k < |events| && WritesCollision(c, WorldAt(c, w, events, k), events[k], content)
  }

  lemma OneWorkerIsSafe(c: Torrent, content: bytes, n: nat)
    requires Describes(c, content) && n <= 1
    ensures c.pieceLength > 0 && Safe(c, content, n)
  {
    CoveredByHashes(c, content);
    var w := Start(c, |content|, n);
    hide Describes, Ready, StepWorld;
    forall events: seq<Event> | Download.IsComplete(WorldAt(c, w, events, |events|).state)
      ensures WorldAt(c, w, events, |events|).state.file.content == content
        || exists k :: 0 <= k < |events| && WritesCollision(c, WorldAt(c, w, events, k), events[k], content)
    {
      assert forall k :: 0 <= k < |events| ==> |WorldAt(c, w, events, k).workers| <= 1;
      hide WorldAt;
      CompleteWhenApart(c, events, n, content);
    }
  }

  // For these contents a complete download can be trusted exactly when there is at most one worker.
  lemma SafeExactlyWhen(content: bytes, n: nat)
    requires |content| == BLOCK_SIZE + 1 && content[BLOCK_SIZE] != 0
    ensures Safe(TorrentOf(content, BLOCK_SIZE, 2), content, n) <==> n <= 1
  {
    hide WorldAt, Fips180.Digest, WritesCollision, Slice, Overlap;
    var c := TorrentOf(content, BLOCK_SIZE, 2);
    TorrentOfDescribes(content, BLOCK_SIZE, 2);
    if n <= 1 {
      OneWorkerIsSafe(c, content, n);
    } else {
      OverlapCompletesEarly(content, n - 2);
      OverlapLength(Slice(c, content, 0));
    }
  }

  lemma OverlapLength(data: bytes)
    ensures |Overlap(data)| == 14
  {
  }
}
