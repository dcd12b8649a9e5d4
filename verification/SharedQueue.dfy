// The blocking queue of SharedQueue.h as a protocol: what threads do between two
// points where another thread can be scheduled is one step.
module SharedQueue {
  import opened Types

  // Where a thread is inside an operation of the queue.
  datatype Pc<+T> =
    | Idle
    // pop_front: waiting for the mutex, holding it before the test of the loop,
    // in wait() and not notified, notified and waiting for the mutex again,
    // holding it after a test that found an element.
    | PopLock | PopTest | Sleeping | Woken | PopTake
    // push_back and clear: waiting for the mutex, holding it before the change.
    | PushLock(item: T) | PushHold(item: T)
    | ClearLock | ClearHold
    // size and empty: waiting for the mutex, holding it.
    | SizeLock | SizeHold
    // After the change: before unlock(), and between unlock() and notify_one().
    | Unlock | Notify

  // pushed, gone and popped are history: all elements ever pushed, how many of
  // them have left, and the positions of those that pop_front returned.
  datatype State<T> = State(
    queue: seq<T>,
    owner: Option<nat>,
    threads: seq<Pc<T>>,
    pushed: seq<T>,
    gone: nat,
    popped: seq<nat>)

  // A thread calls an operation, takes its next step, or wakes from wait()
  // without being notified. Notifying, it wakes the thread named by wakee.
  datatype Event<T> = Call(t: nat, start: Pc<T>) | Advance(t: nat, wakee: nat) | Spurious(t: nat)

  predicate Holds<T>(pc: Pc<T>) {
    pc.PopTest? || pc.PopTake? || pc.PushHold? || pc.ClearHold? || pc.SizeHold? || pc.Unlock?
  }

  predicate WantsLock<T>(pc: Pc<T>) {
    pc.PopLock? || pc.Woken? || pc.PushLock? || pc.ClearLock? || pc.SizeLock?
  }

  predicate SomeSleeper<T>(threads: seq<Pc<T>>) {
    exists t :: 0 <= t < |threads| && threads[t].Sleeping?
  }

  predicate Enabled<T>(s: State<T>, e: Event<T>) {
    && e.t < |s.threads|
    && match e
       case Call(t, start) =>
         s.threads[t].Idle? && (start.PopLock? || start.PushLock? || start.ClearLock? || start.SizeLock?)
       case Spurious(t) => s.threads[t].Sleeping?
       case Advance(t, wakee) =>
         || Holds(s.threads[t])
         || (WantsLock(s.threads[t]) && s.owner.None?)
         || (s.threads[t].Notify?
             && (SomeSleeper(s.threads) ==> wakee < |s.threads| && s.threads[wakee].Sleeping?))
  }

  function At<T>(s: State<T>, t: nat, pc: Pc<T>): State<T>
    requires t < |s.threads|
  {
    s.(threads := s.threads[t := pc])
  }

  function Next<T>(s: State<T>, e: Event<T>): (r: State<T>)
    requires Enabled(s, e)
    ensures |r.threads| == |s.threads|
  {
    match e
    case Call(t, start) => At(s, t, start)
    case Spurious(t) => At(s, t, Woken)
    case Advance(t, wakee) =>
      match s.threads[t]
      case PopLock => At(s, t, PopTest).(owner := Some(t))
      case Woken => At(s, t, PopTest).(owner := Some(t))
      case PopTest => if s.queue == [] then At(s, t, Sleeping).(owner := None) else At(s, t, PopTake)
      case PopTake =>
        if s.queue == [] then s
        else At(s, t, Idle).(owner := None, queue := s.queue[1..], gone := s.gone + 1, popped := s.popped + [s.gone])
      case PushLock(x) => At(s, t, PushHold(x)).(owner := Some(t))
      case PushHold(x) => At(s, t, Unlock).(queue := s.queue + [x], pushed := s.pushed + [x])
      case ClearLock => At(s, t, ClearHold).(owner := Some(t))
      case ClearHold => At(s, t, Unlock).(queue := [], gone := |s.pushed|)
      case SizeLock => At(s, t, SizeHold).(owner := Some(t))
      case SizeHold => At(s, t, Idle).(owner := None)
      case Unlock => At(s, t, Notify).(owner := None)
      case Notify =>
        var idle := At(s, t, Idle);
        if SomeSleeper(s.threads) then At(idle, wakee, Woken) else idle
      case _ => s
  }

  // The state after a run; None when some event was not possible.
  function After<T>(s: State<T>, events: seq<Event<T>>): Option<State<T>> {
    if events == [] then Some(s)
    else
      match After(s, events[..|events| - 1])
      case None => None
      case Some(r) =>
        if Enabled(r, events[|events| - 1]) then Some(Next(r, events[|events| - 1])) else None
  }

  // The constructor, with n threads that have not called anything.
  function Fresh<T>(n: nat): State<T> {
    State([], None, seq(n, _ => Idle), [], 0, [])
  }

  // ----- the invariant -----

  // An awake consumer, or a thread that has changed the queue and has yet to notify.
  predicate Helps<T>(pc: Pc<T>) {
    pc.PopLock? || pc.PopTest? || pc.Woken? || pc.PopTake? || pc.Unlock? || pc.Notify?
  }

  function Helpers<T>(threads: seq<Pc<T>>): nat {
    if threads == [] then 0 else Helpers(threads[1..]) + if Helps(threads[0]) then 1 else 0
  }

  lemma {:induction false} HelpersAfterUpdate<T>(threads: seq<Pc<T>>, t: nat, pc: Pc<T>)
    requires t < |threads|
    ensures Helpers(threads[t := pc])
         == Helpers(threads) - (if Helps(threads[t]) then 1 else 0) + (if Helps(pc) then 1 else 0)
  {
    hide Helps;
    if t > 0 {
      HelpersAfterUpdate(threads[1..], t - 1, pc);
      assert threads[t := pc][1..] == threads[1..][t - 1 := pc];
    }
  }

  // Exactly the owner of the mutex is in a critical section.
  ghost predicate Exclusive<T>(s: State<T>) {
    && (s.owner.Some? ==> s.owner.value < |s.threads|)
    && forall t :: 0 <= t < |s.threads| ==> (Holds(s.threads[t]) <==> s.owner == Some(t))
  }

  // A test that found an element still holds when the element is taken.
  ghost predicate TestStands<T>(s: State<T>) {
    forall t :: 0 <= t < |s.threads| && s.threads[t].PopTake? ==> s.queue != []
  }

  // While a thread sleeps, every element has an awake consumer or a pending notification.
  ghost predicate NoLostWakeup<T>(s: State<T>) {
    SomeSleeper(s.threads) ==> |s.queue| <= Helpers(s.threads)
  }

  // The queue holds what was pushed and has not left; what pop_front returned
  // are different elements, in the order in which they were pushed.
  ghost predicate Fifo<T>(s: State<T>) {
    && s.gone <= |s.pushed| && s.queue == s.pushed[s.gone..]
    && (forall i, j :: 0 <= i < j < |s.popped| ==> s.popped[i] < s.popped[j])
    && (forall i :: 0 <= i < |s.popped| ==> s.popped[i] < s.gone)
  }

  ghost predicate Inv<T>(s: State<T>) {
    Exclusive(s) && TestStands(s) && NoLostWakeup(s) && Fifo(s)
  }

  // One thread moves to pc, taking or releasing the mutex as pc says.
  lemma MoveKeepsExclusive<T>(s: State<T>, r: State<T>, t: nat, pc: Pc<T>)
    requires Exclusive(s) && t < |s.threads| && r.threads == s.threads[t := pc]
    requires Holds(pc) ==> s.owner.None? || s.owner == Some(t)
    requires r.owner == if Holds(pc) then Some(t) else if Holds(s.threads[t]) then None else s.owner
    ensures Exclusive(r)
  {
    hide Holds;
  }

  // A thread that waits stays there until a notification picks it or it wakes without one; every
  // notification picks one if any thread waits.
  lemma WakesExactlyWhen<T>(s: State<T>, e: Event<T>, t: nat)
    requires Enabled(s, e) && t < |s.threads| && s.threads[t].Sleeping?
    ensures Next(s, e).threads[t].Sleeping?
       <==> e != Spurious(t) && !(e.Advance? && s.threads[e.t].Notify? && e.wakee == t)
    ensures e.Advance? && s.threads[e.t].Notify? ==> e.wakee < |s.threads| && s.threads[e.wakee].Sleeping?
  {
  }

  lemma NextKeepsExclusive<T>(s: State<T>, e: Event<T>)
    requires Inv(s) && Enabled(s, e)
    ensures Exclusive(Next(s, e))
  {
    hide Fifo, NoLostWakeup, TestStands, Exclusive, SomeSleeper;
    var r := Next(s, e);
    assert Holds(s.threads[e.t]) ==> s.owner == Some(e.t) by { OwnerHolds(s, e.t); }
    if e.Advance? && s.threads[e.t].Notify? && SomeSleeper(s.threads) {
      var idle := At(s, e.t, Idle);
      MoveKeepsExclusive(s, idle, e.t, Idle);
      MoveKeepsExclusive(idle, r, e.wakee, Woken);
    } else {
      MoveKeepsExclusive(s, r, e.t, r.threads[e.t]);
    }
  }

  lemma OwnerHolds<T>(s: State<T>, t: nat)
    requires Exclusive(s) && t < |s.threads|
    ensures Holds(s.threads[t]) <==> s.owner == Some(t)
  {
  }

  lemma NextKeepsTest<T>(s: State<T>, e: Event<T>)
    requires Inv(s) && Enabled(s, e)
    ensures TestStands(Next(s, e))
  {
    hide Fifo, NoLostWakeup, Exclusive, SomeSleeper;
    var r := Next(s, e);
    forall u | 0 <= u < |r.threads| && r.threads[u].PopTake? ensures r.queue != [] {
      if u != e.t {
        assert s.threads[u].PopTake?;
        OwnerHolds(s, u);
        OwnerHolds(s, e.t);
      }
    }
  }

  lemma NextKeepsWakeup<T>(s: State<T>, e: Event<T>)
    requires Inv(s) && Enabled(s, e)
    ensures NoLostWakeup(Next(s, e))
  {
    hide Fifo, Exclusive, Helpers;
    var r := Next(s, e);
    if e.Advance? && s.threads[e.t].Notify? && SomeSleeper(s.threads) {
      var idle := s.threads[e.t := Idle];
      HelpersAfterUpdate(s.threads, e.t, Idle);
      HelpersAfterUpdate(idle, e.wakee, Woken);
    } else {
      HelpersAfterUpdate(s.threads, e.t, r.threads[e.t]);
      assert s.threads == r.threads || r.threads == s.threads[e.t := r.threads[e.t]];
      if SomeSleeper(r.threads) && !r.threads[e.t].Sleeping? {
        var w :| 0 <= w < |r.threads| && r.threads[w].Sleeping?;
        assert s.threads[w].Sleeping?;
      }
    }
  }

  lemma NextKeepsFifo<T>(s: State<T>, e: Event<T>)
    requires Inv(s) && Enabled(s, e)
    ensures Fifo(Next(s, e))
  {
    hide NoLostWakeup, Exclusive, SomeSleeper;
    if s.queue != [] { assert s.queue[1..] == s.pushed[s.gone + 1..]; }
    if e.Advance? && s.threads[e.t].PushHold? {
      var x := s.threads[e.t].item;
      assert s.queue + [x] == (s.pushed + [x])[s.gone..];
    }
  }

  lemma FreshHolds<T>(n: nat)
    ensures Inv(Fresh<T>(n))
  {
  }

  // Every reachable state is mutually exclusive, loses no wakeup and is first-in first-out.
  lemma {:induction false} RunKeepsInv<T>(n: nat, events: seq<Event<T>>)
    requires After(Fresh<T>(n), events).Some?
    ensures Inv(After(Fresh<T>(n), events).value) && |After(Fresh<T>(n), events).value.threads| == n
  {
    if events == [] {
      FreshHolds<T>(n);
    } else {
      var before, last := events[..|events| - 1], events[|events| - 1];
      RunKeepsInv(n, before);
      var s := After(Fresh<T>(n), before).value;
      hide Inv;
      NextKeepsInv(s, last);
    }
  }

  lemma NextKeepsInv<T>(s: State<T>, e: Event<T>)
    requires Inv(s) && Enabled(s, e)
    ensures Inv(Next(s, e))
  {
    NextKeepsExclusive(s, e);
    NextKeepsTest(s, e);
    NextKeepsWakeup(s, e);
    NextKeepsFifo(s, e);
  }

  // ----- consequences -----

  predicate Resting<T>(threads: seq<Pc<T>>) {
    forall t :: 0 <= t < |threads| ==> threads[t].Idle? || threads[t].Sleeping?
  }

  lemma {:induction false} RestingHasNoHelpers<T>(threads: seq<Pc<T>>)
    requires Resting(threads)
    ensures Helpers(threads) == 0
  {
    if threads != [] {
      assert forall t :: 0 <= t < |threads| - 1 ==> threads[1..][t] == threads[t + 1];
      RestingHasNoHelpers(threads[1..]);
    }
  }

  // The protocol never blocks: unless every thread is outside the queue or
  // asleep, some thread can take its next step; and when they all are, sleepers
  // sleep on an empty queue.
  lemma RestsOnlyWhenEmpty<T>(s: State<T>)
    requires Inv(s)
    ensures Resting(s.threads) <==> forall t, w :: !Enabled(s, Advance(t, w))
    ensures Resting(s.threads) && SomeSleeper(s.threads) ==> s.queue == []
  {
    if Resting(s.threads) {
      RestingHasNoHelpers(s.threads);
    } else {
      var t :| 0 <= t < |s.threads| && !s.threads[t].Idle? && !s.threads[t].Sleeping?;
      if s.owner.Some? {
        assert Enabled(s, Advance(s.owner.value, 0));
      } else if SomeSleeper(s.threads) {
        var w :| 0 <= w < |s.threads| && s.threads[w].Sleeping?;
        assert Enabled(s, Advance(t, w));
      } else {
        assert Enabled(s, Advance(t, 0));
      }
    }
  }

  // pop_front returns the oldest element that has not left the queue.
  lemma PopTakesOldest<T>(s: State<T>, t: nat, wakee: nat)
    requires Inv(s) && t < |s.threads| && s.threads[t].PopTake?
    ensures s.gone < |s.pushed| && s.queue[0] == s.pushed[s.gone]
    ensures var r := Next(s, Advance(t, wakee)); r.popped == s.popped + [s.gone] && r.threads[t].Idle?
  {
  }

  // Without clear, the elements that left are exactly the ones returned, in order.
  lemma {:induction false} WithoutClear<T>(n: nat, events: seq<Event<T>>)
    requires After(Fresh<T>(n), events).Some?
    requires forall i :: 0 <= i < |events| ==> !(events[i].Call? && events[i].start.ClearLock?)
    ensures var s := After(Fresh<T>(n), events).value;
      && s.popped == Indices(s.gone)
      && forall t :: 0 <= t < |s.threads| ==> !s.threads[t].ClearLock? && !s.threads[t].ClearHold?
  {
    if events != [] {
      var before, last := events[..|events| - 1], events[|events| - 1];
      assert last == events[|events| - 1];
      WithoutClear(n, before);
      RunKeepsInv(n, before);
      var s := After(Fresh<T>(n), before).value;
      ClearlessStep(s, last);
    }
  }

  lemma ClearlessStep<T>(s: State<T>, e: Event<T>)
    requires Inv(s) && Enabled(s, e) && !(e.Call? && e.start.ClearLock?)
    requires s.popped == Indices(s.gone)
    requires forall t :: 0 <= t < |s.threads| ==> !s.threads[t].ClearLock? && !s.threads[t].ClearHold?
    ensures var r := Next(s, e);
      && r.popped == Indices(r.gone)
      && forall t :: 0 <= t < |s.threads| ==> !r.threads[t].ClearLock? && !r.threads[t].ClearHold?
  {
    hide Exclusive, NoLostWakeup, Helpers, Fifo;
    assert Indices(s.gone + 1) == Indices(s.gone) + [s.gone];
  }
}
