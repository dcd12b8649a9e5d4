// The workers of PeerConnection.cpp and the main loop and shutdown of
// TorrentClient.cpp, as steps over the shared queue.
module Shutdown {
  import opened Types
  import opened SharedQueue

  datatype Peer = Peer(ip: string, port: int)

  const DUMMY_PEER_IP := "0.0.0.0"

  // Where a worker is in start(): before the test of the outer loop, in
  // pop_front, in establishNewConnection, before the test of the inner loop, in
  // its body, returned.
  datatype Worker = OuterTest | InPop | Connecting | InnerTest | Receiving | Done

  // Where the main thread is: before and after the test of its loop, in
  // queue.empty(), in queue.clear() with the peers to push, pushing them, in
  // terminate() with the number of pushes begun, joining the workers, returned.
  datatype Main =
    | Polling
    | Querying
    | Checking
    | Clearing(peers: seq<Peer>)
    | Refilling(peers: seq<Peer>)
    | Terminating(begun: nat)
    | Joining
    | Finished

  // Threads 0, 1, ... of the queue are the workers; the last is the main thread.
  // complete is isComplete(), which stays true once it is.
  datatype State = State(queue: SharedQueue.State<Peer>, workers: seq<Worker>, main: Main, complete: bool)

  // A thread steps or spuriously wakes inside the queue; a worker steps outside
  // it, with the outcome of the call it makes (returning true, throwing) and
  // whether the block it handles completes the download; the main thread steps,
  // with whether it asks for the queue to be empty and the peers it retrieves.
  datatype Event =
    | InQueue(t: nat, wakee: nat)
    | Wakes(t: nat)
    | Works(w: nat, succeeds: bool, completes: bool)
    | Manages(peers: seq<Peer>, asks: bool)

  predicate Possible(s: State, e: Event)
    requires |s.queue.threads| == |s.workers| + 1
  {
    var n := |s.workers|;
    match e
    case InQueue(t, wakee) => Enabled(s.queue, Advance(t, wakee))
    case Wakes(t) => Enabled(s.queue, Spurious(t))
    case Works(w, succeeds, completes) => w < n && !s.workers[w].InPop? && !s.workers[w].Done?
    case Manages(_, _) =>
      && s.queue.threads[n].Idle? && !s.main.Finished?
      && (s.main.Joining? ==> forall w :: 0 <= w < n ==> s.workers[w].Done?)
  }

  function Step(s: State, e: Event): (r: State)
    requires |s.queue.threads| == |s.workers| + 1 && Possible(s, e)
    ensures |r.queue.threads| == |r.workers| + 1 && |r.workers| == |s.workers|
  {
    match e
    case InQueue(t, wakee) =>
      var r := s.(queue := Next(s.queue, Advance(t, wakee)));
      if t < |s.workers| && s.queue.threads[t].PopTake? && s.queue.queue != [] then
        r.(workers := s.workers[t := if s.queue.queue[0].ip == DUMMY_PEER_IP then Done else Connecting])
      else r
    case Wakes(t) => s.(queue := Next(s.queue, Spurious(t)))
    case Works(w, succeeds, completes) => WorkerStep(s, w, succeeds, completes)
    case Manages(peers, asks) => MainStep(s, peers, asks)
  }

  // The loops of start(). stop() acts on other copies of the connections, so
  // terminated is never true here.
  function WorkerStep(s: State, w: nat, succeeds: bool, completes: bool): (r: State)
    requires |s.queue.threads| == |s.workers| + 1 && w < |s.workers|
    ensures |r.queue.threads| == |r.workers| + 1 && |r.workers| == |s.workers|
  {
    match s.workers[w]
    case OuterTest =>
      if s.complete then s.(workers := s.workers[w := Done])
      else s.(workers := s.workers[w := InPop], queue := At(s.queue, w, PopLock))
    case Connecting => s.(workers := s.workers[w := if succeeds then InnerTest else OuterTest])
    case InnerTest => s.(workers := s.workers[w := if s.complete then OuterTest else Receiving])
    case Receiving =>
      s.(workers := s.workers[w := if succeeds then InnerTest else OuterTest], complete := s.complete || completes)
    case _ => s
  }

  // Peers have been asked for, or not.
  function Retrieved(s: State, peers: seq<Peer>): (r: State)
    requires |s.queue.threads| == |s.workers| + 1
    ensures |r.queue.threads| == |r.workers| + 1 && |r.workers| == |s.workers|
  {
    if peers == [] then s.(main := Polling)
    else s.(main := Clearing(peers), queue := At(s.queue, |s.workers|, ClearLock))
  }

  // The loop of downloadFile(), then terminate().
  function MainStep(s: State, peers: seq<Peer>, asks: bool): (r: State)
    requires |s.queue.threads| == |s.workers| + 1
    ensures |r.queue.threads| == |r.workers| + 1 && |r.workers| == |s.workers|
  {
    var n := |s.workers|;
    match s.main
    case Polling => s.(main := if s.complete then Terminating(0) else Querying)
    case Querying =>
      if asks then s.(main := Checking, queue := At(s.queue, n, SizeLock)) else Retrieved(s, peers)
    case Checking => Retrieved(s, peers)
    case Clearing(rest) => s.(main := Refilling(rest))
    case Refilling(rest) =>
      if rest == [] then s.(main := Polling)
      else s.(main := Refilling(rest[1..]), queue := At(s.queue, n, PushLock(rest[0])))
    case Terminating(i) =>
      if i >= n then s.(main := Joining)
      else s.(main := Terminating(i + 1), queue := At(s.queue, n, PushLock(Peer(DUMMY_PEER_IP, 0))))
    case Joining => s.(main := Finished)
    case Finished => s
  }

  function Initial(n: nat): State {
    State.State(Fresh(n + 1), seq(n, _ => OuterTest), Polling, false)
  }

  function Run(s: State, events: seq<Event>): (r: Option<State>)
    requires |s.queue.threads| == |s.workers| + 1
    ensures r.Some? ==> |r.value.queue.threads| == |r.value.workers| + 1 && |r.value.workers| == |s.workers|
  {
    if events == [] then Some(s)
    else
      match Run(s, events[..|events| - 1])
      case None => None
      case Some(r) => if Possible(r, events[|events| - 1]) then Some(Step(r, events[|events| - 1])) else None
  }

  // ----- the invariant -----

  predicate Pops<T>(pc: Pc<T>) {
    pc.PopLock? || pc.PopTest? || pc.Sleeping? || pc.Woken? || pc.PopTake?
  }

  predicate Unpushed<T>(pc: Pc<T>) { pc.PushLock? || pc.PushHold? }

  predicate Clears<T>(pc: Pc<T>) { pc.ClearLock? || pc.ClearHold? }

  predicate Sizes<T>(pc: Pc<T>) { pc.SizeLock? || pc.SizeHold? }

  function Poppers<T>(threads: seq<Pc<T>>): nat {
    if threads == [] then 0 else Poppers(threads[1..]) + if Pops(threads[0]) then 1 else 0
  }

  // A worker is in the queue exactly while it pops; the main thread only pushes
  // and clears, and no longer clears once it terminates.
  ghost predicate Placed(s: State) {
    var n := |s.workers|;
    && |s.queue.threads| == n + 1
    && (forall w :: 0 <= w < n ==>
          if s.workers[w].InPop? then Pops(s.queue.threads[w]) else s.queue.threads[w].Idle?)
    && !Pops(s.queue.threads[n])
    && (s.main.Polling? || s.main.Querying? || s.main.Joining? || s.main.Finished? ==> s.queue.threads[n].Idle?)
    && (s.main.Terminating? || s.main.Refilling? ==> !Clears(s.queue.threads[n]))
    && (s.main.Clearing? ==> !Unpushed(s.queue.threads[n]))
    && (s.main.Checking? ==> !Unpushed(s.queue.threads[n]) && !Clears(s.queue.threads[n]))
    && (s.main.Terminating? || s.main.Refilling? || s.main.Clearing? ==> !Sizes(s.queue.threads[n]))
  }

  predicate Ending(main: Main) { main.Terminating? || main.Joining? || main.Finished? }

  // The pushes that terminate() has begun cover the workers that may still pop.
  ghost predicate Supplied(s: State) {
    var n := |s.workers|;
    && |s.queue.threads| == n + 1
    && (Ending(s.main) ==>
        && s.complete
        && var begun := if s.main.Terminating? then s.main.begun else n;
           begun <= n
           && begun + Poppers(s.queue.threads)
              <= |s.queue.queue| + n + if Unpushed(s.queue.threads[n]) then 1 else 0)
    && (s.main.Finished? ==> forall w :: 0 <= w < n ==> s.workers[w].Done?)
  }

  ghost predicate Inv(s: State) {
    Placed(s) && SharedQueue.Inv(s.queue) && Supplied(s)
  }

  lemma {:induction false} PoppersAfterUpdate<T>(threads: seq<Pc<T>>, t: nat, pc: Pc<T>)
    requires t < |threads|
    ensures Poppers(threads[t := pc])
         == Poppers(threads) - (if Pops(threads[t]) then 1 else 0) + (if Pops(pc) then 1 else 0)
  {
    hide Pops;
    if t > 0 {
      PoppersAfterUpdate(threads[1..], t - 1, pc);
      assert threads[t := pc][1..] == threads[1..][t - 1 := pc];
    }
  }

  lemma {:induction false} PoppersAtMost<T>(threads: seq<Pc<T>>)
    ensures Poppers(threads) <= |threads|
    ensures threads != [] && !Pops(threads[|threads| - 1]) ==> Poppers(threads) < |threads|
  {
    hide Pops;
    if threads != [] { PoppersAtMost(threads[1..]); }
  }

  // ----- steps inside the queue -----

  lemma QueueStepPops<T>(q: SharedQueue.State<T>, e: SharedQueue.Event<T>)
    requires SharedQueue.Inv(q) && Enabled(q, e) && !e.Call?
    ensures var r := Next(q, e);
      var takes := e.Advance? && q.threads[e.t].PopTake?;
      && (takes ==> q.queue != [] && r.queue == q.queue[1..])
      && Poppers(r.threads) == Poppers(q.threads) - if takes then 1 else 0
  {
    hide Exclusive, NoLostWakeup, Fifo, Poppers;
    var r := Next(q, e);
    if e.Advance? && q.threads[e.t].Notify? && SomeSleeper(q.threads) {
      var idle := q.threads[e.t := Idle];
      PoppersAfterUpdate(q.threads, e.t, Idle);
      PoppersAfterUpdate(idle, e.wakee, Woken);
    } else {
      PoppersAfterUpdate(q.threads, e.t, r.threads[e.t]);
      assert r.threads == q.threads[e.t := r.threads[e.t]];
    }
  }

  lemma QueueStepPlaces<T>(q: SharedQueue.State<T>, e: SharedQueue.Event<T>, u: nat)
    requires SharedQueue.Inv(q) && Enabled(q, e) && !e.Call? && u < |q.threads|
    ensures var r := Next(q, e);
      && (u != e.t && !Pops(q.threads[u]) ==> r.threads[u] == q.threads[u])
      && (Pops(q.threads[u]) ==>
            if u == e.t && e.Advance? && q.threads[u].PopTake? then r.threads[u].Idle? else Pops(r.threads[u]))
      && (!Pops(q.threads[u]) ==> !Pops(r.threads[u]))
      && (q.threads[u].Idle? ==> r.threads[u].Idle?)
      && (Clears(r.threads[u]) ==> Clears(q.threads[u]))
      && (Sizes(r.threads[u]) ==> Sizes(q.threads[u]))
      && (Unpushed(r.threads[u]) ==> Unpushed(q.threads[u]))
  {
    hide Exclusive, NoLostWakeup, Fifo;
  }

  lemma QueueStepLength<T>(q: SharedQueue.State<T>, e: SharedQueue.Event<T>)
    requires SharedQueue.Inv(q) && Enabled(q, e) && !e.Call?
    ensures var r, pc := Next(q, e), q.threads[e.t];
      && (e.Advance? && pc.PushHold? ==> |r.queue| == |q.queue| + 1 && !Unpushed(r.threads[e.t]))
      && (e.Advance? && pc.PopTake? ==> |r.queue| == |q.queue| - 1)
      && (e.Spurious? || !(pc.PushHold? || pc.PopTake? || pc.ClearHold?) ==> r.queue == q.queue)
      && (e.Advance? && pc.PushLock? ==> Unpushed(r.threads[e.t]))
  {
    hide Exclusive, NoLostWakeup, Fifo;
  }

  function QueueEvent(e: Event): SharedQueue.Event<Peer>
    requires e.InQueue? || e.Wakes?
  {
    if e.InQueue? then Advance(e.t, e.wakee) else Spurious(e.t)
  }

  lemma InQueueKeepsPlaced(s: State, e: Event)
    requires Inv(s) && (e.InQueue? || e.Wakes?) && Possible(s, e)
    ensures Placed(Step(s, e))
  {
    hide SharedQueue.Inv, Supplied, Next, Pops, Clears, Sizes, Unpushed;
    var q, n := QueueEvent(e), |s.workers|;
    var r := Step(s, e);
    QueueStepPops(s.queue, q);
    assert Pops(s.queue.threads[q.t]) || !s.queue.threads[q.t].PopTake? by { PopTakePops(s.queue.threads[q.t]); }
    forall w | 0 <= w <= n
      ensures w < n ==> if r.workers[w].InPop? then Pops(r.queue.threads[w]) else r.queue.threads[w].Idle?
      ensures w == n ==> !Pops(r.queue.threads[n])
      ensures w == n && s.queue.threads[n].Idle? ==> r.queue.threads[n].Idle?
      ensures w == n && Clears(r.queue.threads[n]) ==> Clears(s.queue.threads[n])
      ensures w == n && Sizes(r.queue.threads[n]) ==> Sizes(s.queue.threads[n])
      ensures w == n && Unpushed(r.queue.threads[n]) ==> Unpushed(s.queue.threads[n])
    {
      QueueStepPlaces(s.queue, q, w);
    }
  }

  lemma PopTakePops<T>(pc: Pc<T>)
    ensures pc.PopTake? ==> Pops(pc)
  {
  }

  lemma InQueueKeepsSupplied(s: State, e: Event)
    requires Inv(s) && (e.InQueue? || e.Wakes?) && Possible(s, e)
    ensures Supplied(Step(s, e))
  {
    hide SharedQueue.Inv, Next, Poppers;
    var q, n := QueueEvent(e), |s.workers|;
    QueueStepPops(s.queue, q);
    QueueStepLength(s.queue, q);
    QueueStepPlaces(s.queue, q, n);
  }

  // ----- steps outside the queue -----

  lemma CallKeepsQueue(s: State, t: nat, start: Pc<Peer>)
    requires SharedQueue.Inv(s.queue) && Enabled(s.queue, Call(t, start))
    ensures SharedQueue.Inv(At(s.queue, t, start))
    ensures Poppers(At(s.queue, t, start).threads) == Poppers(s.queue.threads) + if Pops(start) then 1 else 0
  {
    hide SharedQueue.Inv, Poppers;
    NextKeepsInv(s.queue, Call(t, start));
    PoppersAfterUpdate(s.queue.threads, t, start);
  }

  lemma WorkerStepKeepsInv(s: State, w: nat, succeeds: bool, completes: bool)
    requires Inv(s) && Possible(s, Works(w, succeeds, completes))
    ensures Inv(WorkerStep(s, w, succeeds, completes))
  {
    hide SharedQueue.Inv, Poppers;
    if s.workers[w].OuterTest? && !s.complete { CallKeepsQueue(s, w, PopLock); }
  }

  lemma MainStepKeepsInv(s: State, peers: seq<Peer>, asks: bool)
    requires Inv(s) && Possible(s, Manages(peers, asks))
    ensures Inv(MainStep(s, peers, asks))
  {
    hide SharedQueue.Inv, Poppers;
    var n := |s.workers|;
    PoppersAtMost(s.queue.threads);
    match s.main
    case Querying => CallKeepsQueue(s, n, if asks then SizeLock else ClearLock);
    case Checking => CallKeepsQueue(s, n, ClearLock);
    case Refilling(rest) => if rest != [] { CallKeepsQueue(s, n, PushLock(rest[0])); }
    case Terminating(i) => if i < n { CallKeepsQueue(s, n, PushLock(Peer(DUMMY_PEER_IP, 0))); }
    case _ =>
  }

  lemma StepKeepsInv(s: State, e: Event)
    requires Inv(s) && Possible(s, e)
    ensures Inv(Step(s, e))
  {
    hide SharedQueue.Inv, Placed, Supplied, Next, WorkerStep, MainStep;
    assert Placed(s) && Supplied(s);
    match e
    case Works(w, succeeds, completes) => WorkerStepKeepsInv(s, w, succeeds, completes);
    case Manages(peers, asks) => MainStepKeepsInv(s, peers, asks);
    case _ =>
      InQueueKeepsPlaced(s, e);
      InQueueKeepsSupplied(s, e);
      NextKeepsInv(s.queue, QueueEvent(e));
  }

  lemma InitialHolds(n: nat)
    ensures Inv(Initial(n))
  {
    FreshHolds<Peer>(n + 1);
  }

  lemma {:induction false} RunHolds(n: nat, events: seq<Event>)
    requires Run(Initial(n), events).Some?
    ensures Inv(Run(Initial(n), events).value)
  {
    hide Inv;
    if events == [] {
      InitialHolds(n);
    } else {
      RunHolds(n, events[..|events| - 1]);
      StepKeepsInv(Run(Initial(n), events[..|events| - 1]).value, events[|events| - 1]);
    }
  }

  // ----- nobody waits forever -----

  lemma {:induction false} SleeperOutnumbers<T>(threads: seq<Pc<T>>)
    requires forall t :: 0 <= t < |threads| ==> Helps(threads[t]) ==> Pops(threads[t])
    ensures Helpers(threads) <= Poppers(threads)
    ensures SomeSleeper(threads) ==> Helpers(threads) < Poppers(threads)
  {
    if threads != [] {
      var rest := threads[1..];
      assert forall t :: 0 <= t < |rest| ==> rest[t] == threads[t + 1];
      SleeperOutnumbers(rest);
      if SomeSleeper(threads) && !threads[0].Sleeping? {
        var w :| 0 <= w < |threads| && threads[w].Sleeping?;
        assert rest[w - 1].Sleeping?;
      }
    }
  }

  // Once terminate() has pushed its dummies, the queue has an element for every
  // worker that may still pop, and no worker sleeps.
  lemma NobodySleepsAfterTerminate(s: State)
    requires Inv(s) && (s.main.Joining? || s.main.Finished?)
    ensures Poppers(s.queue.threads) <= |s.queue.queue|
    ensures !SomeSleeper(s.queue.threads)
  {
    hide Poppers, Helpers, Exclusive, Fifo, TestStands;
    var n, threads := |s.workers|, s.queue.threads;
    forall t | 0 <= t < |threads| && Helps(threads[t]) ensures Pops(threads[t]) {
      if t < n { assert s.workers[t].InPop?; }
    }
    SleeperOutnumbers(threads);
  }

  // From terminate() on, some thread can always step until the main thread has returned.
  lemma NeverStuck(s: State)
    requires Inv(s) && Ending(s.main) && !s.main.Finished?
    ensures exists e :: Possible(s, e) && !e.Wakes?
  {
    hide Poppers, Helpers, NoLostWakeup, Fifo, TestStands, Supplied;
    var n, threads := |s.workers|, s.queue.threads;
    if s.queue.owner.Some? {
      assert Possible(s, InQueue(s.queue.owner.value, 0));
    } else if !threads[n].Idle? {
      MainCanStep(s);
    } else if s.main.Terminating? {
      assert Possible(s, Manages([], false));
    } else if w :| 0 <= w < n && !s.workers[w].Done? {
      if s.workers[w].InPop? {
        NobodySleepsAfterTerminate(s);
        assert Pops(threads[w]) && !threads[w].Sleeping?;
        assert Possible(s, InQueue(w, 0));
      } else {
        assert Possible(s, Works(w, true, false));
      }
    } else {
      assert Possible(s, Manages([], false));
    }
  }

  lemma MainCanStep(s: State)
    requires Inv(s) && s.queue.owner.None? && !s.queue.threads[|s.workers|].Idle?
    ensures exists e :: Possible(s, e) && !e.Wakes?
  {
    hide Poppers, Helpers, NoLostWakeup, Fifo, TestStands, Supplied;
    var n, threads := |s.workers|, s.queue.threads;
    assert !Holds(threads[n]);
    if SomeSleeper(threads) {
      var w :| 0 <= w < |threads| && threads[w].Sleeping?;
      assert Possible(s, InQueue(n, w));
    } else {
      assert Possible(s, InQueue(n, 0));
    }
  }

  // ----- bounded shutdown -----

  // How many steps a worker has left, and a bound on the main thread's.
  function WorkerRank(worker: Worker, pc: Pc<Peer>): nat {
    match worker
    case Done => 0
    case OuterTest => 1
    case InnerTest => 2
    case Receiving => 3
    case Connecting => 4
    case InPop => if pc.PopTake? || pc.Sleeping? then 5 else if pc.PopTest? then 6 else 7
  }

  function PushRank(pc: Pc<Peer>): nat {
    if pc.PushLock? then 7 else if pc.PushHold? then 6 else if pc.Unlock? then 5 else if pc.Notify? then 4 else 0
  }

  function MainRank(main: Main, n: nat, pc: Pc<Peer>): nat {
    match main
    case Terminating(i) => 2 + (if i <= n then 8 * (n - i) else 0) + PushRank(pc)
    case Joining => 1
    case _ => 0
  }

  function Ranks(workers: seq<Worker>, threads: seq<Pc<Peer>>): nat
    requires |workers| < |threads|
  {
    if workers == [] then 0 else WorkerRank(workers[0], threads[0]) + Ranks(workers[1..], threads[1..])
  }

  // A bound on the steps left, not counting spurious wakeups.
  ghost function Measure(s: State): nat
    requires |s.queue.threads| == |s.workers| + 1
  {
    Ranks(s.workers, s.queue.threads) + MainRank(s.main, |s.workers|, s.queue.threads[|s.workers|])
  }

  lemma {:induction false} RanksAfterUpdate(workers: seq<Worker>, threads: seq<Pc<Peer>>,
                                            w: nat, worker: Worker, pc: Pc<Peer>)
    requires w < |workers| < |threads|
    ensures Ranks(workers[w := worker], threads[w := pc])
         == Ranks(workers, threads) - WorkerRank(workers[w], threads[w]) + WorkerRank(worker, pc)
  {
    hide WorkerRank;
    if w > 0 {
      RanksAfterUpdate(workers[1..], threads[1..], w - 1, worker, pc);
      assert workers[w := worker][1..] == workers[1..][w - 1 := worker];
      assert threads[w := pc][1..] == threads[1..][w - 1 := pc];
    }
  }

  // The main thread's place in the queue is not a worker's.
  lemma {:induction false} RanksIgnoreMain(workers: seq<Worker>, threads: seq<Pc<Peer>>, pc: Pc<Peer>)
    requires |threads| == |workers| + 1
    ensures Ranks(workers, threads[|workers| := pc]) == Ranks(workers, threads)
  {
    hide WorkerRank;
    var n := |workers|;
    if n > 0 {
      RanksIgnoreMain(workers[1..], threads[1..], pc);
      assert threads[n := pc][1..] == threads[1..][n - 1 := pc];
    }
  }

  lemma WorkerOutsideDescends(s: State, w: nat, succeeds: bool, completes: bool)
    requires Inv(s) && Ending(s.main) && Possible(s, Works(w, succeeds, completes))
    ensures Measure(WorkerStep(s, w, succeeds, completes)) < Measure(s)
  {
    hide SharedQueue.Inv, Poppers, Ranks;
    var r := WorkerStep(s, w, succeeds, completes);
    var threads := s.queue.threads;
    assert threads[w := threads[w]] == threads;
    RanksAfterUpdate(s.workers, threads, w, r.workers[w], threads[w]);
  }

  lemma MainOutsideDescends(s: State, peers: seq<Peer>, asks: bool)
    requires Inv(s) && Ending(s.main) && Possible(s, Manages(peers, asks))
    ensures Measure(MainStep(s, peers, asks)) < Measure(s)
  {
    hide SharedQueue.Inv, Poppers, Ranks, WorkerRank;
    var r, n := MainStep(s, peers, asks), |s.workers|;
    RanksIgnoreMain(s.workers, s.queue.threads, r.queue.threads[n]);
  }

  // A worker's step inside the queue, or its spurious wakeup.
  lemma WorkerInQueueDescends(s: State, e: Event)
    requires Inv(s) && Ending(s.main) && Possible(s, e)
    requires (e.InQueue? || e.Wakes?) && e.t < |s.workers|
    ensures Measure(Step(s, e)) <= Measure(s) + if e.Wakes? then 2 else -1
  {
    hide Exclusive, NoLostWakeup, Fifo, Poppers, Ranks, Supplied;
    var r, t := Step(s, e), e.t;
    assert Pops(s.queue.threads[t]);
    assert r.queue.threads == s.queue.threads[t := r.queue.threads[t]];
    assert r.workers == s.workers[t := r.workers[t]];
    RanksAfterUpdate(s.workers, s.queue.threads, t, r.workers[t], r.queue.threads[t]);
  }

  // The main thread's step inside the queue; its notification may wake a worker.
  lemma MainInQueueDescends(s: State, e: Event)
    requires Inv(s) && Ending(s.main) && Possible(s, e)
    requires (e.InQueue? || e.Wakes?) && e.t == |s.workers|
    ensures Measure(Step(s, e)) < Measure(s)
  {
    hide Exclusive, NoLostWakeup, Fifo, Poppers, Ranks, Supplied;
    var r, n := Step(s, e), |s.workers|;
    var threads := s.queue.threads;
    if threads[n].Notify? && SomeSleeper(threads) {
      var idle := threads[n := Idle];
      assert s.workers[e.wakee := s.workers[e.wakee]] == s.workers;
      assert s.workers[e.wakee].InPop?;
      RanksIgnoreMain(s.workers, threads, Idle);
      RanksAfterUpdate(s.workers, idle, e.wakee, s.workers[e.wakee], Woken);
    } else {
      assert r.queue.threads == threads[n := r.queue.threads[n]];
      RanksIgnoreMain(s.workers, threads, r.queue.threads[n]);
    }
  }

  lemma InvSizes(s: State)
    requires Inv(s)
    ensures |s.queue.threads| == |s.workers| + 1
  {
  }

  lemma StepDescends(s: State, e: Event)
    requires Inv(s) && Ending(s.main) && Possible(s, e)
    ensures Ending(Step(s, e).main)
    ensures Measure(Step(s, e)) <= Measure(s) + if e.Wakes? then 2 else -1
  {
    hide Inv, Measure, Next, WorkerStep;
    InvSizes(s);
    match e
    case Works(w, succeeds, completes) =>
      WorkerOutsideDescends(s, w, succeeds, completes);
      WorkerKeepsMain(s, w, succeeds, completes);
    case Manages(peers, asks) => MainOutsideDescends(s, peers, asks);
    case _ => if e.t < |s.workers| { WorkerInQueueDescends(s, e); } else { MainInQueueDescends(s, e); }
  }

  lemma WorkerKeepsMain(s: State, w: nat, succeeds: bool, completes: bool)
    requires |s.queue.threads| == |s.workers| + 1 && w < |s.workers|
    ensures WorkerStep(s, w, succeeds, completes).main == s.main
  {
  }

  lemma {:induction false} RanksAtMost(workers: seq<Worker>, threads: seq<Pc<Peer>>)
    requires |workers| < |threads|
    ensures Ranks(workers, threads) <= 7 * |workers|
  {
    if workers != [] { RanksAtMost(workers[1..], threads[1..]); }
  }

  function Wakeups(events: seq<Event>): nat {
    if events == [] then 0
    else Wakeups(events[..|events| - 1]) + if events[|events| - 1].Wakes? then 1 else 0
  }

  // From terminate() on, every run is finite but for spurious wakeups: whatever
  // the connections do, as long as their calls return or throw.
  lemma {:induction false} ShutdownIsBounded(s: State, events: seq<Event>)
    requires Inv(s) && Ending(s.main) && Run(s, events).Some?
    ensures var r := Run(s, events).value;
      Inv(r) && Ending(r.main) && |events| + Measure(r) <= Measure(s) + 3 * Wakeups(events)
    ensures |events| <= 15 * |s.workers| + 9 + 3 * Wakeups(events)
  {
    hide Inv, Possible, Step, Ranks, WorkerRank;
    InvSizes(s);
    RanksAtMost(s.workers, s.queue.threads);
    assert Measure(s) <= 15 * |s.workers| + 9;
    hide Measure;
    if events != [] {
      var before, last := events[..|events| - 1], events[|events| - 1];
      ShutdownIsBounded(s, before);
      var r := Run(s, before).value;
      StepKeepsInv(r, last);
      StepDescends(r, last);
    }
  }

  // A run of a fresh client that cannot go on after terminate() has begun has
  // ended: the main thread has returned and so has every worker.
  lemma ShutdownEndsEverybody(n: nat, events: seq<Event>)
    requires Run(Initial(n), events).Some? && Ending(Run(Initial(n), events).value.main)
    requires forall e :: Possible(Run(Initial(n), events).value, e) ==> e.Wakes?
    ensures var s := Run(Initial(n), events).value;
      s.main.Finished? && s.complete && forall w :: 0 <= w < n ==> s.workers[w].Done?
  {
    hide Placed, SharedQueue.Inv, Run, Possible;
    RunHolds(n, events);
    if !Run(Initial(n), events).value.main.Finished? { NeverStuck(Run(Initial(n), events).value); }
  }
}
