// What the workers and the main loop do over whole runs: who leaves when, which peers reach the queue, and
// which peers a worker listens to.
module ClientRuns {
  import opened Types
  import opened Shutdown
  import Q = SharedQueue

  // ----- nobody leaves early -----

  predicate IsReal(p: Peer) { p.ip != "0.0.0.0" }

  predicate AllReal(ps: seq<Peer>) {
    forall i :: 0 <= i < |ps| ==> IsReal(ps[i])
  }

  // The peer in the hands of a thread that pushes, the peers the main thread has yet to push.
  function InHand(pc: Q.Pc<Peer>): seq<Peer> {
    if pc.PushLock? || pc.PushHold? then [pc.item] else []
  }

  function Waiting(main: Main): seq<Peer> {
    match main
    case Clearing(rest) => rest
    case Refilling(rest) => rest
    case _ => []
  }

  // No peer that the tracker names has the dummy's address.
  predicate RetrievesReal(events: seq<Event>) {
    forall i :: 0 <= i < |events| && events[i].Manages? ==> AllReal(events[i].peers)
  }

  ghost predicate NoDummies(s: State) {
    && AllReal(s.queue.queue)
    && (forall t :: 0 <= t < |s.queue.threads| ==> AllReal(InHand(s.queue.threads[t])))
    && AllReal(Waiting(s.main)) && !Ending(s.main)
    && forall w :: 0 <= w < |s.workers| ==> !s.workers[w].Done?
  }

  ghost predicate QueueReal(q: Q.State<Peer>) {
    AllReal(q.queue) && forall t :: 0 <= t < |q.threads| ==> AllReal(InHand(q.threads[t]))
  }

  // A step inside the queue gives no thread a peer to push.
  lemma InHandAfter(q: Q.State<Peer>, e: Q.Event<Peer>, t: nat)
    requires Q.Enabled(q, e) && !e.Call? && t < |q.threads|
    ensures var r := Q.Next(q, e); InHand(r.threads[t]) == InHand(q.threads[t]) || InHand(r.threads[t]) == []
  {
    hide Q.SomeSleeper;
  }

  lemma QueueAfter(q: Q.State<Peer>, e: Q.Event<Peer>)
    requires Q.Enabled(q, e) && !e.Call?
    ensures var r := Q.Next(q, e);
      || r.queue == q.queue || r.queue == [] || (q.queue != [] && r.queue == q.queue[1..])
      || (InHand(q.threads[e.t]) != [] && r.queue == q.queue + InHand(q.threads[e.t]))
  {
    hide Q.SomeSleeper;
  }

  lemma QueueKeepsReal(q: Q.State<Peer>, e: Q.Event<Peer>)
    requires QueueReal(q) && Q.Enabled(q, e) && !e.Call?
    ensures QueueReal(Q.Next(q, e))
  {
    NothingIsReal();
    RealParts(q.queue, InHand(q.threads[e.t]));
    QueueAfter(q, e);
    hide Q.Next, Q.Enabled, AllReal, InHand;
    forall t | 0 <= t < |q.threads| ensures AllReal(InHand(Q.Next(q, e).threads[t])) { InHandAfter(q, e, t); }
  }

  lemma RealParts(ps: seq<Peer>, qs: seq<Peer>)
    requires AllReal(ps) && AllReal(qs)
    ensures AllReal(ps + qs) && (ps != [] ==> AllReal(ps[1..]))
  {
  }

  lemma WorkKeepsReal(s: State, e: Event)
    requires |s.queue.threads| == |s.workers| + 1 && Possible(s, e) && e.Works?
    requires s.complete || NoDummies(s)
    ensures var r := Step(s, e); r.complete || NoDummies(r)
  {
    hide Q.Enabled, AllReal;
    NothingIsReal();
  }

  lemma NothingIsReal()
    ensures AllReal([])
  {
  }

  lemma ManagesKeepsReal(s: State, e: Event)
    requires |s.queue.threads| == |s.workers| + 1 && Possible(s, e) && e.Manages? && AllReal(e.peers)
    requires s.complete || NoDummies(s)
    ensures var r := Step(s, e); r.complete || NoDummies(r)
  {
    hide Q.Enabled;
  }

  lemma StepKeepsReal(s: State, e: Event)
    requires |s.queue.threads| == |s.workers| + 1 && Possible(s, e)
    requires e.Manages? ==> AllReal(e.peers)
    requires s.complete || NoDummies(s)
    ensures var r := Step(s, e); r.complete || NoDummies(r)
  {
    match e
    case Works(_, _, _) => WorkKeepsReal(s, e);
    case Manages(_, _) => ManagesKeepsReal(s, e);
    case _ =>
      hide Q.Next, Q.Enabled;
      if !s.complete {
        assert QueueReal(s.queue);
        QueueKeepsReal(s.queue, QueueEvent(e));
      }
  }

  lemma {:induction false} RunKeepsReal(n: nat, events: seq<Event>)
    requires Run(Initial(n), events).Some? && RetrievesReal(events)
    ensures var s := Run(Initial(n), events).value; s.complete || NoDummies(s)
  {
    hide NoDummies, Step, Possible, AllReal;
    if events == [] {
      InitialHasNoDummies(n);
    } else {
      RunKeepsReal(n, events[..|events| - 1]);
      StepKeepsReal(Run(Initial(n), events[..|events| - 1]).value, events[|events| - 1]);
    }
  }

  lemma InitialHasNoDummies(n: nat)
    ensures NoDummies(Initial(n))
  {
  }

  // In every run in which no retrieved peer has the dummy's address, no worker returns, and the main thread
  // does not leave its loop, before the download is complete.
  lemma NobodyLeavesEarly(n: nat, events: seq<Event>)
    requires Run(Initial(n), events).Some? && RetrievesReal(events)
    ensures var s := Run(Initial(n), events).value;
      && (forall w :: 0 <= w < n && s.workers[w].Done? ==> s.complete)
      && (Ending(s.main) ==> s.complete)
  {
    hide Run;
    RunKeepsReal(n, events);
  }

  // A worker that takes a real peer out of the queue goes on to connect to it; one that takes a dummy returns.
  lemma PopDecides(s: State, w: nat, wakee: nat)
    requires Inv(s) && w < |s.workers| && s.queue.threads[w].PopTake?
    ensures Possible(s, InQueue(w, wakee)) && s.queue.queue != []
    ensures var r := Step(s, InQueue(w, wakee));
      && r.queue.queue == s.queue.queue[1..]
      && (IsReal(s.queue.queue[0]) <==> r.workers[w].Connecting?)
      && (!IsReal(s.queue.queue[0]) <==> r.workers[w].Done?)
      && forall v :: 0 <= v < |s.workers| && v != w ==> r.workers[v] == s.workers[v]
  {
    hide Poppers, Q.NoLostWakeup, Q.Fifo;
    assert Q.Holds(s.queue.threads[w]);
  }

  // ----- a worker listens only to a peer it has connected to -----

  // The state before event k.
  ghost function Before(n: nat, events: seq<Event>, k: nat): Option<State>
    requires k <= |events|
  {
    Run(Initial(n), events[..k])
  }

  // Event k is worker w returning from establishNewConnection with success.
  ghost predicate ConnectsAt(n: nat, events: seq<Event>, k: nat, w: nat)
    requires k < |events|
  {
    var s := Before(n, events, k);
    s.Some? && w < |s.value.workers| && s.value.workers[w].Connecting?
    && events[k].Works? && events[k].w == w && events[k].succeeds
  }

  // Event k is worker w leaving the inner loop: by an exception, or because the download is complete.
  ghost predicate LeavesAt(n: nat, events: seq<Event>, k: nat, w: nat)
    requires k < |events|
  {
    var s := Before(n, events, k);
    s.Some? && w < |s.value.workers| && events[k].Works? && events[k].w == w
    && ((s.value.workers[w].Receiving? && !events[k].succeeds) || (s.value.workers[w].InnerTest? && s.value.complete))
  }

  predicate Listens(worker: Worker) { worker.InnerTest? || worker.Receiving? }

  lemma StepListens(s: State, e: Event, w: nat)
    requires |s.queue.threads| == |s.workers| + 1 && Possible(s, e) && w < |s.workers|
    ensures var mine, worker := e.Works? && e.w == w, s.workers[w];
      Listens(Step(s, e).workers[w]) <==>
        || (mine && worker.Connecting? && e.succeeds)
        || (Listens(worker)
            && !(mine && ((worker.Receiving? && !e.succeeds) || (worker.InnerTest? && s.complete)))
            && !(e.InQueue? && e.t == w && s.queue.threads[w].PopTake? && s.queue.queue != []))
  {
    hide Q.Next, Q.Enabled;
  }

  // A worker in the inner loop is not in the queue.
  lemma ListenerIsOutside(s: State, w: nat)
    requires Inv(s) && w < |s.workers| && Listens(s.workers[w])
    ensures s.queue.threads[w].Idle?
  {
  }

  // Event k connected worker w, and it has not left since.
  ghost predicate ListensSince(n: nat, events: seq<Event>, k: nat, w: nat)
    requires k < |events|
  {
    ConnectsAt(n, events, k, w) && forall j :: k < j < |events| ==> !LeavesAt(n, events, j, w)
  }

  lemma SameBefore(n: nat, events: seq<Event>, j: nat, w: nat)
    requires events != [] && j < |events| - 1
    ensures var before := events[..|events| - 1];
      && ConnectsAt(n, events, j, w) == ConnectsAt(n, before, j, w)
      && LeavesAt(n, events, j, w) == LeavesAt(n, before, j, w)
  {
    var before := events[..|events| - 1];
    assert before[..j] == events[..j] && before[j] == events[j];
  }

  // At every point of every run a worker is in the inner loop exactly when it has connected to a peer with
  // success and has not left since.
  lemma {:induction false} ListensExactlyWhen(n: nat, events: seq<Event>, w: nat)
    requires Run(Initial(n), events).Some? && w < n
    ensures Listens(Run(Initial(n), events).value.workers[w])
       <==> exists k :: 0 <= k < |events| && ListensSince(n, events, k, w)
  {
    hide Possible, Step, Inv;
    if events != [] {
      var last := |events| - 1;
      var before := events[..last];
      ListensExactlyWhen(n, before, w);
      RunHolds(n, before);
      var s, e := Run(Initial(n), before).value, events[last];
      StepListens(s, e, w);
      if Listens(s.workers[w]) { ListenerIsOutside(s, w); }
      ListenStep(n, events, w);
    }
  }

  lemma ListenStep(n: nat, events: seq<Event>, w: nat)
    requires events != []
    ensures var last := |events| - 1;
      var before := events[..last];
      (exists k :: 0 <= k < |events| && ListensSince(n, events, k, w)) <==>
        || ConnectsAt(n, events, last, w)
        || (!LeavesAt(n, events, last, w) && exists k :: 0 <= k < last && ListensSince(n, before, k, w))
  {
    hide ConnectsAt, LeavesAt;
    var last := |events| - 1;
    var before := events[..last];
    forall j | 0 <= j < last
      ensures ConnectsAt(n, events, j, w) == ConnectsAt(n, before, j, w)
      ensures LeavesAt(n, events, j, w) == LeavesAt(n, before, j, w)
    {
      SameBefore(n, events, j, w);
    }
    if ConnectsAt(n, events, last, w) { assert ListensSince(n, events, last, w); }
    if k :| 0 <= k < last && ListensSince(n, before, k, w) && !LeavesAt(n, events, last, w) {
      assert ListensSince(n, events, k, w);
    }
    if k :| 0 <= k < |events| && ListensSince(n, events, k, w) {
      assert k < last ==> ListensSince(n, before, k, w);
    }
  }

  // Event k is a worker receiving the block that completes the download.
  ghost predicate CompletesAt(n: nat, events: seq<Event>, k: nat)
    requires k < |events|
  {
    var s := Before(n, events, k);
    s.Some? && events[k].Works? && events[k].completes && events[k].w < |s.value.workers|
    && s.value.workers[events[k].w].Receiving?
  }

  lemma StepCompletes(s: State, e: Event)
    requires |s.queue.threads| == |s.workers| + 1 && Possible(s, e)
    ensures Step(s, e).complete
       <==> s.complete || (e.Works? && e.completes && s.workers[e.w].Receiving?)
  {
    hide Q.Next, Q.Enabled;
  }

  // The download is complete exactly when some worker has received the block that completes it.
  lemma {:induction false} CompleteExactlyWhen(n: nat, events: seq<Event>)
    requires Run(Initial(n), events).Some?
    ensures Run(Initial(n), events).value.complete <==> exists k :: 0 <= k < |events| && CompletesAt(n, events, k)
  {
    hide Possible, Step;
    if events != [] {
      var last := |events| - 1;
      var before := events[..last];
      CompleteExactlyWhen(n, before);
      var s := Run(Initial(n), before).value;
      StepCompletes(s, events[last]);
      PossibleWorker(s, events[last]);
      forall j | 0 <= j < last ensures CompletesAt(n, events, j) == CompletesAt(n, before, j) {
        assert before[..j] == events[..j] && before[j] == events[j];
      }
      assert CompletesAt(n, events, last)
        <==> events[last].Works? && events[last].completes && s.workers[events[last].w].Receiving?;
    }
  }

  lemma PossibleWorker(s: State, e: Event)
    requires |s.queue.threads| == |s.workers| + 1 && Possible(s, e)
    ensures e.Works? ==> e.w < |s.workers|
  {
  }

  // ----- the peers that reach the queue -----

  // What the event hands to the main thread to push: the peers it has retrieved, or a dummy.
  function HandedOver(s: State, e: Event): seq<Peer> {
    if !e.Manages? then []
    else
      match s.main
      case Querying => if e.asks then [] else e.peers
      case Checking => e.peers
      case Terminating(i) => if i < |s.workers| then [Peer("0.0.0.0", 0)] else []
      case _ => []
  }

  ghost function Handed(n: nat, events: seq<Event>): seq<Peer>
    requires Run(Initial(n), events).Some?
  {
    if events == [] then []
    else
      var before := events[..|events| - 1];
      Handed(n, before) + HandedOver(Run(Initial(n), before).value, events[|events| - 1])
  }

  // Everything handed over has been pushed, is being pushed, or is still to be pushed, in this order.
  ghost predicate Conserved(s: State, handed: seq<Peer>) {
    && s.queue.threads != []
    && handed == s.queue.pushed + InHand(s.queue.threads[|s.queue.threads| - 1]) + Waiting(s.main)
  }

  lemma ManagesConserves(s: State, e: Event, handed: seq<Peer>)
    requires Inv(s) && Possible(s, e) && e.Manages? && Conserved(s, handed)
    ensures Conserved(Step(s, e), handed + HandedOver(s, e))
  {
    hide Q.Inv, Poppers, Supplied;
  }

  // A step inside the queue pushes what the last thread has in hand, if only that thread pushes.
  lemma QueueConserves(q: Q.State<Peer>, e: Q.Event<Peer>)
    requires q.threads != [] && Q.Enabled(q, e) && !e.Call?
    requires forall t :: 0 <= t < |q.threads| - 1 ==> Pops(q.threads[t]) || q.threads[t].Idle?
    ensures var r, last := Q.Next(q, e), |q.threads| - 1;
      r.pushed + InHand(r.threads[last]) == q.pushed + InHand(q.threads[last])
  {
    hide Q.SomeSleeper;
  }

  lemma OnlyMainPushes(s: State, t: nat)
    requires Inv(s) && t < |s.workers|
    ensures Pops(s.queue.threads[t]) || s.queue.threads[t].Idle?
  {
    hide Q.Inv, Supplied, Pops;
  }

  lemma WorkConserves(s: State, e: Event, handed: seq<Peer>)
    requires Inv(s) && Possible(s, e) && e.Works? && Conserved(s, handed)
    ensures Conserved(Step(s, e), handed)
  {
    InvSizes(s);
    hide Q.Inv, Placed, Supplied, Q.Enabled, InHand;
  }

  lemma OthersConserve(s: State, e: Event, handed: seq<Peer>)
    requires Inv(s) && Possible(s, e) && !e.Manages? && Conserved(s, handed)
    ensures Conserved(Step(s, e), handed)
  {
    if e.Works? {
      WorkConserves(s, e, handed);
    } else {
      forall t | 0 <= t < |s.workers| ensures Pops(s.queue.threads[t]) || s.queue.threads[t].Idle? {
        OnlyMainPushes(s, t);
      }
      hide Inv, Q.Next, Q.Enabled, Pops, InHand;
      QueueConserves(s.queue, QueueEvent(e));
    }
  }

  lemma {:induction false} HandedIsConserved(n: nat, events: seq<Event>)
    requires Run(Initial(n), events).Some?
    ensures Conserved(Run(Initial(n), events).value, Handed(n, events))
  {
    hide Conserved, Possible, Step, Inv, HandedOver;
    if events == [] {
      NothingHanded(n);
    } else {
      var before, last := events[..|events| - 1], events[|events| - 1];
      HandedIsConserved(n, before);
      RunHolds(n, before);
      var s := Run(Initial(n), before).value;
      if last.Manages? {
        ManagesConserves(s, last, Handed(n, before));
      } else {
        OthersConserve(s, last, Handed(n, before));
        OthersHandNothing(s, last);
        assert Handed(n, before) + [] == Handed(n, before);
      }
    }
  }

  lemma NothingHanded(n: nat)
    ensures Conserved(Initial(n), [])
  {
  }

  lemma OthersHandNothing(s: State, e: Event)
    requires !e.Manages?
    ensures HandedOver(s, e) == []
  {
  }

  // So in every run what has been pushed is exactly what was handed over, in that order, but for the peers
  // that the main thread is still pushing; the queue holds the last of it, and pop_front the earlier ones.
  lemma PeersReachQueue(n: nat, events: seq<Event>)
    requires Run(Initial(n), events).Some?
    ensures var q := Run(Initial(n), events).value.queue;
      && q.pushed <= Handed(n, events)
      && q.gone <= |q.pushed| && q.queue == q.pushed[q.gone..]
    ensures var s := Run(Initial(n), events).value;
      s.main.Polling? || s.main.Finished? ==> s.queue.pushed == Handed(n, events)
  {
    hide Run, Handed, Q.Exclusive, Q.TestStands, Q.NoLostWakeup, Supplied;
    RunHolds(n, events);
    HandedIsConserved(n, events);
  }

  // How many peers were handed over before the last time the main thread retrieved some.
  ghost function Stale(n: nat, events: seq<Event>): nat
    requires Run(Initial(n), events).Some?
  {
    if events == [] then 0
    else
      var before := events[..|events| - 1];
      var s := Run(Initial(n), before).value;
      if HandedOver(s, events[|events| - 1]) != [] && !s.main.Terminating? then |Handed(n, before)|
      else Stale(n, before)
  }

  // The main thread is about to clear the queue of the stale peers, or they have left it.
  ghost predicate StaleLeave(s: State, stale: nat) {
    && s.queue.threads != []
    && var pc := s.queue.threads[|s.queue.threads| - 1];
       if s.main.Clearing? && Clears(pc) then |s.queue.pushed| == stale else s.queue.gone >= stale
  }

  lemma QueueClears(q: Q.State<Peer>, e: Q.Event<Peer>)
    requires Q.Inv(q) && q.threads != [] && Q.Enabled(q, e) && !e.Call?
    requires forall t :: 0 <= t < |q.threads| - 1 ==> Pops(q.threads[t]) || q.threads[t].Idle?
    ensures var r, last := Q.Next(q, e), |q.threads| - 1;
      && r.gone >= q.gone
      && (Clears(q.threads[last]) ==>
            r.pushed == q.pushed && (Clears(r.threads[last]) || r.gone == |q.pushed|))
      && (Clears(r.threads[last]) ==> Clears(q.threads[last]))
  {
    hide Q.SomeSleeper, Q.Exclusive, Q.TestStands, Q.NoLostWakeup;
  }

  lemma OthersClear(s: State, e: Event, stale: nat)
    requires Inv(s) && Possible(s, e) && !e.Manages? && StaleLeave(s, stale)
    ensures StaleLeave(Step(s, e), stale)
  {
    hide Q.Inv, Poppers, Supplied;
    var n := |s.workers|;
    forall t | 0 <= t < n ensures Pops(s.queue.threads[t]) || s.queue.threads[t].Idle? {
      assert s.workers[t].InPop? || s.queue.threads[t].Idle?;
    }
    hide Placed, Q.Next, Q.Enabled, Pops, Clears;
    if !e.Works? { QueueClears(s.queue, QueueEvent(e)); }
  }

  lemma ManagesClears(s: State, e: Event, handed: seq<Peer>, stale: nat)
    requires Inv(s) && Possible(s, e) && e.Manages? && Conserved(s, handed) && StaleLeave(s, stale)
    ensures StaleLeave(Step(s, e), if HandedOver(s, e) != [] && !s.main.Terminating? then |handed| else stale)
  {
    hide Q.Inv, Poppers, Supplied;
  }

  // In every run, once the main thread has cleared the queue for the peers it has retrieved last, none that
  // was handed over before is in the queue.
  lemma {:induction false} StaleAreGone(n: nat, events: seq<Event>)
    requires Run(Initial(n), events).Some?
    ensures StaleLeave(Run(Initial(n), events).value, Stale(n, events))
  {
    hide StaleLeave, Conserved, Possible, Step, Inv, HandedOver;
    if events == [] {
      NothingStale(n);
    } else {
      var before, last := events[..|events| - 1], events[|events| - 1];
      StaleAreGone(n, before);
      RunHolds(n, before);
      HandedIsConserved(n, before);
      var s := Run(Initial(n), before).value;
      if last.Manages? {
        ManagesClears(s, last, Handed(n, before), Stale(n, before));
      } else {
        OthersClear(s, last, Stale(n, before));
        OthersHandNothing(s, last);
      }
    }
  }

  lemma NothingStale(n: nat)
    ensures StaleLeave(Initial(n), 0)
  {
  }
}
