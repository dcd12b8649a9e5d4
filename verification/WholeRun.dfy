// A whole run of the client, from the start of its threads to the return of the last.
module WholeRun {
  import opened Types
  import opened Shutdown
  import Q = SharedQueue

  const SOME_PEER := Peer("10.0.0.1", 6881)
  const DUMMY := Peer("0.0.0.0", 0)

  // A client with one worker: where the worker and the main thread are, outside the queue and inside it,
  // who has the mutex, what is in the queue, the peers pushed so far and how many of them have been popped.
  function One(worker: Worker, pc: Q.Pc<Peer>, main: Main, mainPc: Q.Pc<Peer>, owner: Option<nat>,
               queue: seq<Peer>, pushed: seq<Peer>, gone: nat, complete: bool): State
  {
    State.State(Q.State.State(queue, owner, [pc, mainPc], pushed, gone, Indices(gone)), [worker], main, complete)
  }

  lemma Then(before: seq<Event>, e: Event, r: State) returns (events: seq<Event>)
    requires Run(Initial(1), before).Some?
    requires var s := Run(Initial(1), before).value; Possible(s, e) && Step(s, e) == r
    ensures Run(Initial(1), events) == Some(r)
  {
    hide Possible, Step;
    events := before + [e];
    assert events[..|before|] == before;
  }

  lemma NobodySleeps(pc: Q.Pc<Peer>, mainPc: Q.Pc<Peer>)
    requires !pc.Sleeping? && !mainPc.Sleeping?
    ensures !Q.SomeSleeper([pc, mainPc])
  {
  }

  lemma Moves()
    ensures forall x, y, z: Q.Pc<Peer> :: [x, y][0 := z] == [z, y]
    ensures forall x, y, z: Q.Pc<Peer> :: [x, y][1 := z] == [x, z]
    ensures forall x, y: Worker :: [x][0 := y] == [y]
  {
  }

  datatype Context = Context(worker: Worker, main: Main, complete: bool)

  // The client when the main thread is in the queue.
  function Busy(c: Context, pc: Q.Pc<Peer>, owner: Option<nat>, queue: seq<Peer>, pushed: seq<Peer>, gone: nat): State {
    One(c.worker, Q.Idle, c.main, pc, owner, queue, pushed, gone, c.complete)
  }

  lemma Locks(c: Context, pc: Q.Pc<Peer>, queue: seq<Peer>, pushed: seq<Peer>, gone: nat)
    requires pc.PushLock? || pc.ClearLock?
    ensures var s := Busy(c, pc, None, queue, pushed, gone);
      && Possible(s, Inside(1))
      && Step(s, Inside(1))
           == Busy(c, if pc.PushLock? then Q.PushHold(pc.item) else Q.ClearHold, Some(1), queue, pushed, gone)
  {
    Moves();
  }

  lemma Changes(c: Context, pc: Q.Pc<Peer>, queue: seq<Peer>, pushed: seq<Peer>, gone: nat)
    requires pc.PushHold? || (pc.ClearHold? && queue == [] && gone == |pushed|)
    ensures var s, p := Busy(c, pc, Some(1), queue, pushed, gone), if pc.PushHold? then [pc.item] else [];
      Possible(s, Inside(1)) && Step(s, Inside(1)) == Busy(c, Q.Unlock, Some(1), queue + p, pushed + p, gone)
  {
    Moves();
    assert queue + [] == queue && pushed + [] == pushed;
  }

  lemma Unlocks(c: Context, queue: seq<Peer>, pushed: seq<Peer>, gone: nat)
    ensures var s := Busy(c, Q.Unlock, Some(1), queue, pushed, gone);
      Possible(s, Inside(1)) && Step(s, Inside(1)) == Busy(c, Q.Notify, None, queue, pushed, gone)
  {
    Moves();
  }

  lemma Notifies(c: Context, queue: seq<Peer>, pushed: seq<Peer>, gone: nat)
    ensures var s := Busy(c, Q.Notify, None, queue, pushed, gone);
      Possible(s, Inside(1)) && Step(s, Inside(1)) == Busy(c, Q.Idle, None, queue, pushed, gone)
  {
    Moves();
    NobodySleeps(Q.Idle, Q.Notify);
    hide Q.SomeSleeper;
  }

  // The main thread pushes a peer that it has in hand, or clears an empty queue.
  lemma Finishes(before: seq<Event>, c: Context, pc: Q.Pc<Peer>, queue: seq<Peer>, pushed: seq<Peer>, gone: nat)
    returns (events: seq<Event>)
    requires pc.PushLock? || (pc.ClearLock? && queue == [] && gone == |pushed|)
    requires Run(Initial(1), before) == Some(Busy(c, pc, None, queue, pushed, gone))
    ensures var p := if pc.PushLock? then [pc.item] else [];
      Run(Initial(1), events) == Some(Busy(c, Q.Idle, None, queue + p, pushed + p, gone))
  {
    hide Run, Initial, Possible, Step, Busy;
    var hold := if pc.PushLock? then Q.PushHold(pc.item) else Q.ClearHold;
    var p := if pc.PushLock? then [pc.item] else [];
    Locks(c, pc, queue, pushed, gone);
    events := Then(before, Inside(1), Busy(c, hold, Some(1), queue, pushed, gone));
    Changes(c, hold, queue, pushed, gone);
    events := Then(events, Inside(1), Busy(c, Q.Unlock, Some(1), queue + p, pushed + p, gone));
    Unlocks(c, queue + p, pushed + p, gone);
    events := Then(events, Inside(1), Busy(c, Q.Notify, None, queue + p, pushed + p, gone));
    Notifies(c, queue + p, pushed + p, gone);
    events := Then(events, Inside(1), Busy(c, Q.Idle, None, queue + p, pushed + p, gone));
  }

  function Inside(t: nat): Event { InQueue(t, 0) }

  lemma Fresh()
    ensures Initial(1) == One(OuterTest, Q.Idle, Polling, Q.Idle, None, [], [], 0, false)
    ensures Run(Initial(1), []) == Some(Initial(1))
  {
    assert [OuterTest] == seq(1, _ => OuterTest);
    assert seq<Q.Pc<Peer>>(2, _ => Q.Idle) == [Q.Idle, Q.Idle];
  }

  // The main thread retrieves a peer and clears the queue.
  lemma Clears() returns (events: seq<Event>)
    ensures Run(Initial(1), events)
         == Some(One(OuterTest, Q.Idle, Clearing([SOME_PEER]), Q.Idle, None, [], [], 0, false))
  {
    events := [];
    Fresh();
    Moves();
    hide Run, Initial, Q.SomeSleeper;
    events := Then(events, Manages([], false), One(OuterTest, Q.Idle, Querying, Q.Idle, None, [], [], 0, false));
    events := Then(events, Manages([SOME_PEER], false),
                   One(OuterTest, Q.Idle, Clearing([SOME_PEER]), Q.ClearLock, None, [], [], 0, false));
    var none: seq<Peer> := [];
    events := Finishes(events, Context(OuterTest, Clearing([SOME_PEER]), false), Q.ClearLock, none, none, 0);
    assert none + [] == none;
  }

  // It pushes the peer.
  lemma PushesPeer() returns (events: seq<Event>)
    ensures Run(Initial(1), events)
         == Some(One(OuterTest, Q.Idle, Refilling([]), Q.Idle, None, [SOME_PEER], [SOME_PEER], 0, false))
  {
    events := Clears();
    Moves();
    hide Run, Initial, Q.SomeSleeper;
    events := Then(events, Manages([], false),
                   One(OuterTest, Q.Idle, Refilling([SOME_PEER]), Q.Idle, None, [], [], 0, false));
    assert [SOME_PEER][1..] == [];
    events := Then(events, Manages([], false),
                   One(OuterTest, Q.Idle, Refilling([]), Q.PushLock(SOME_PEER), None, [], [], 0, false));
    events := Finishes(events, Context(OuterTest, Refilling([]), false), Q.PushLock(SOME_PEER), [], [], 0);
    assert [] + [SOME_PEER] == [SOME_PEER];
  }

  // The worker pops it.
  lemma Takes() returns (events: seq<Event>)
    ensures Run(Initial(1), events)
         == Some(One(Connecting, Q.Idle, Refilling([]), Q.Idle, None, [], [SOME_PEER], 1, false))
  {
    events := PushesPeer();
    Moves();
    hide Run, Initial, Q.SomeSleeper;
    events := Then(events, Works(0, false, false),
                   One(InPop, Q.PopLock, Refilling([]), Q.Idle, None, [SOME_PEER], [SOME_PEER], 0, false));
    events := Then(events, Inside(0),
                   One(InPop, Q.PopTest, Refilling([]), Q.Idle, Some(0), [SOME_PEER], [SOME_PEER], 0, false));
    events := Then(events, Inside(0),
                   One(InPop, Q.PopTake, Refilling([]), Q.Idle, Some(0), [SOME_PEER], [SOME_PEER], 0, false));
    events := Then(events, Inside(0), One(Connecting, Q.Idle, Refilling([]), Q.Idle, None, [], [SOME_PEER], 1, false));
  }

  // The worker connects, receives the block that completes the download, and returns.
  lemma Downloads() returns (events: seq<Event>)
    ensures Run(Initial(1), events)
         == Some(One(Done, Q.Idle, Refilling([]), Q.Idle, None, [], [SOME_PEER], 1, true))
  {
    events := Takes();
    Moves();
    hide Run, Initial, Q.SomeSleeper;
    events := Then(events, Works(0, true, false),
                   One(InnerTest, Q.Idle, Refilling([]), Q.Idle, None, [], [SOME_PEER], 1, false));
    events := Then(events, Works(0, true, false),
                   One(Receiving, Q.Idle, Refilling([]), Q.Idle, None, [], [SOME_PEER], 1, false));
    events := Then(events, Works(0, true, true),
                   One(InnerTest, Q.Idle, Refilling([]), Q.Idle, None, [], [SOME_PEER], 1, true));
    events := Then(events, Works(0, true, false),
                   One(OuterTest, Q.Idle, Refilling([]), Q.Idle, None, [], [SOME_PEER], 1, true));
    events := Then(events, Works(0, true, false),
                   One(Done, Q.Idle, Refilling([]), Q.Idle, None, [], [SOME_PEER], 1, true));
  }

  // The main thread leaves its loop and terminates.
  lemma Stops() returns (events: seq<Event>)
    ensures Run(Initial(1), events)
         == Some(One(Done, Q.Idle, Terminating(1), Q.PushLock(DUMMY), None, [], [SOME_PEER], 1, true))
  {
    events := Downloads();
    Moves();
    hide Run, Initial, Q.SomeSleeper;
    events := Then(events, Manages([], false), One(Done, Q.Idle, Polling, Q.Idle, None, [], [SOME_PEER], 1, true));
    events := Then(events, Manages([], false),
                   One(Done, Q.Idle, Terminating(0), Q.Idle, None, [], [SOME_PEER], 1, true));
    events := Then(events, Manages([], false),
                   One(Done, Q.Idle, Terminating(1), Q.PushLock(DUMMY), None, [], [SOME_PEER], 1, true));
  }

  // It pushes the dummy and joins the worker.
  lemma Ends() returns (events: seq<Event>)
    ensures Run(Initial(1), events)
         == Some(One(Done, Q.Idle, Finished, Q.Idle, None, [DUMMY], [SOME_PEER, DUMMY], 1, true))
  {
    events := Stops();
    Moves();
    hide Run, Initial, Q.SomeSleeper;
    events := Finishes(events, Context(Done, Terminating(1), true), Q.PushLock(DUMMY), [], [SOME_PEER], 1);
    assert [] + [DUMMY] == [DUMMY];
    assert [SOME_PEER] + [DUMMY] == [SOME_PEER, DUMMY];
    events := Then(events, Manages([], false),
                   One(Done, Q.Idle, Joining, Q.Idle, None, [DUMMY], [SOME_PEER, DUMMY], 1, true));
    events := Then(events, Manages([], false),
                   One(Done, Q.Idle, Finished, Q.Idle, None, [DUMMY], [SOME_PEER, DUMMY], 1, true));
  }

  // There is a run from start to end in which a peer is retrieved, popped and listened to, the download is
  // completed, and everybody returns.
  lemma EverybodyReturns()
    ensures exists events :: var r := Run(Initial(1), events);
      r.Some? && r.value.main.Finished? && r.value.complete && r.value.workers == [Done]
  {
    var events := Ends();
  }
}
