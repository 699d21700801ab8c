/** The thread scheduler (tysos/Scheduler.cs). */
module Scheduler {
  import opened Events
  import opened ThreadQueues
  import opened DeltaQueues

  class Scheduler {
    var running: seq<seq<Thread>>
    const sleeping: DeltaQueue
    var blocking: seq<Thread>
    ghost var threads: set<Thread>
    ghost var events: set<Event>

    constructor (priorities: nat)
      ensures Valid() && fresh(sleeping) && threads == {} && events == {}
      ensures running == seq(priorities, _ => [])
    {
      running := seq(priorities, _ => []);
      sleeping := new DeltaQueue();
      blocking, threads, events := [], {}, {};
    }

    ghost function Locations(): map<Thread, int>
      reads this`threads, threads`location
    {
      map t | t in threads :: t.location
    }

    ghost function Remaining(): map<Thread, int>
      reads this`threads, threads`timeToRun
    {
      map t | t in threads :: t.timeToRun
    }

    ghost function View(): Queues
      reads this, sleeping, threads`location, threads`timeToRun
    {
      Queues(Locations(), Remaining(), running, Items(sleeping.nodes), blocking)
    }

    ghost predicate WaitsKnown()
      reads this, threads`location, threads`blockingOn
    {
      forall t, k :: t in threads && t.location == LOC_BLOCKING && 0 <= k < |t.blockingOn| ==> Leaves(t.blockingOn[k]) <= events
    }

    ghost predicate Valid()
      reads this, sleeping, threads`location, threads`timeToRun, threads`blockingOn
    {
      Placed(View()) && WaitsKnown()
    }

    lemma LocationsAre(m: map<Thread, int>)
      requires m.Keys == threads && forall t :: t in threads ==> m[t] == t.location
      ensures Locations() == m
    {
    }

    lemma RemainingIs(m: map<Thread, int>)
      requires m.Keys == threads && forall t :: t in threads ==> m[t] == t.timeToRun
      ensures Remaining() == m
    {
    }

    lemma ViewHolds(t: Thread)
      requires t in threads
      ensures t in View().loc && View().loc[t] == t.location && t in View().ttr && View().ttr[t] == t.timeToRun
      ensures View().loc.Keys == threads && View().ttr.Keys == threads
    {
    }

    /** A new thread becomes known to the scheduler; it is in no collection. */
    ghost method Admit(t: Thread)
      requires Valid() && t !in threads && t.location == LOC_RELEASED
      modifies this`threads
      ensures Valid() && threads == old(threads) + {t} && events == old(events)
      ensures View() == old(View()).(loc := old(View()).loc[t := LOC_RELEASED], ttr := old(View()).ttr[t := t.timeToRun])
    {
      hide Placed, Lists;
      ghost var q := View();
      threads := threads + {t};
      LocationsAre(q.loc[t := LOC_RELEASED]);
      RemainingIs(q.ttr[t := t.timeToRun]);
      AdmittedPlaced(q, t, t.timeToRun);
    }

    // ------------------------------------------------------------ the two protected operations

    method Release(t: Thread)
      requires t in threads && t.location < |running|
      modifies this`running, this`blocking, sleeping, t`location
      ensures View() == Released(old(View()), t)
      ensures |running| == |old(running)|
      ensures sleeping.nodes == if old(t.location) == LOC_SLEEPING then Dropped(old(sleeping.nodes), t) else old(sleeping.nodes)
      ensures t !in Items(old(sleeping.nodes)) ==> sleeping.nodes == old(sleeping.nodes)
    {
      hide Without, Items;
      ghost var q := View();
      ViewHolds(t);
      if t.location >= 0 {
        running := running[t.location := Without(running[t.location], t)];
      } else if t.location == LOC_SLEEPING {
        var found := sleeping.Remove(t);
      } else if t.location == LOC_BLOCKING {
        blocking := Without(blocking, t);
      }
      t.location := LOC_RELEASED;
      LocationsAre(q.loc[t := LOC_RELEASED]);
      RemainingIs(q.ttr);
    }

    /** To the back of the queue of the thread's priority; a priority without a queue is noticed only at the end. */
    method Requeue(t: Thread) returns (ok: bool)
      requires t in threads && t.location < |running|
      modifies this`running, this`blocking, sleeping, t`location, t`timeToRun, t`blockingOn
      ensures |running| == |old(running)| && ok == (0 <= t.priority < |running|)
      ensures View() == if ok then Rescheduled(old(View()), t, t.priority, t.defaultSlice)
                        else Stray(old(View()), t, t.priority, t.defaultSlice)
      ensures t.blockingOn == [] && t.location == t.priority
      ensures old(t.location) != LOC_SLEEPING || t !in Items(old(sleeping.nodes)) ==> sleeping.nodes == old(sleeping.nodes)
    {
      hide Without, Items;
      Release(t);
      ghost var q := View();
      ViewHolds(t);
      t.location := t.priority;
      t.timeToRun := t.defaultSlice;
      t.blockingOn := [];
      ok := 0 <= t.priority < |running|;
      if ok {
        running := running[t.priority := running[t.priority] + [t]];
      }
      LocationsAre(q.loc[t := t.priority]);
      RemainingIs(q.ttr[t := t.defaultSlice]);
    }

    // ------------------------------------------------------------ public operations

    method Deschedule(t: Thread)
      requires Valid() && t in threads
      modifies this`running, this`blocking, sleeping, t`location
      ensures Valid() && View() == Released(old(View()), t)
    {
      hide Placed, Released;
      ghost var q := View();
      InBounds(q, t);
      Release(t);
      ReleasedPlaced(q, t);
    }

    /** Fails when the priority has no queue; then the thread is in none, wherever its location says it is. */
    method Reschedule(t: Thread) returns (ok: bool)
      requires Valid() && t in threads
      modifies this`running, this`blocking, sleeping, t`location, t`timeToRun, t`blockingOn
      ensures |running| == |old(running)| && ok == (0 <= t.priority < |running|)
      ensures ok ==> Valid() && View() == Rescheduled(old(View()), t, t.priority, t.defaultSlice)
      ensures !ok ==> View() == Stray(old(View()), t, t.priority, t.defaultSlice)
      ensures !ok ==> (Valid() <==> t.priority < 0 && t.priority != LOC_SLEEPING && t.priority != LOC_BLOCKING)
    {
      hide Placed, Rescheduled, Stray;
      ghost var q := View();
      InBounds(q, t);
      ok := Requeue(t);
      if ok {
        RescheduledPlaced(q, t, t.priority, t.defaultSlice);
      } else {
        StrayPlaced(q, t, t.priority, t.defaultSlice);
      }
    }

    lemma InBounds(q: Queues, t: Thread)
      requires Placed(q) && q == View() && t in threads
      ensures t.location < |running|
    {
      ViewHolds(t);
    }

    /** Waits for a given event. */
    method BlockOn(t: Thread, w: Wait)
      requires Valid() && t in threads
      modifies this, sleeping, t`location, t`blockingOn
      ensures Valid() && View() == Blocked(old(View()), t)
      ensures t.blockingOn == [w] && threads == old(threads) && events == old(events) + Leaves(w)
    {
      hide Placed, Released, Leaves;
      ghost var q := View();
      InBounds(q, t);
      Release(t);
      ghost var r := View();
      t.location := LOC_BLOCKING;
      t.blockingOn := [w];
      blocking := blocking + [t];
      events := events + Leaves(w);
      LocationsAre(r.loc[t := LOC_BLOCKING]);
      RemainingIs(r.ttr);
      BlockedPlaced(q, t);
    }

    /** Waits for a message. */
    method Block(t: Thread)
      requires Valid() && t in threads
      modifies this, sleeping, t`location, t`blockingOn
      ensures Valid() && View() == Blocked(old(View()), t) && threads == old(threads)
      ensures |t.blockingOn| == 1 && t.blockingOn[0].On? && fresh(t.blockingOn[0].event)
      ensures events == old(events) + {t.blockingOn[0].event}
      ensures var e := t.blockingOn[0].event; e.onMessage && e.box == t.box && e.mutex == 0
    {
      var e := new Event(true, t.box);
      BlockOn(t, On(e));
    }

    /** The thread sleeps; in the queue it comes where `InsertAtDelta` puts its delay. */
    method Sleep(t: Thread, ns: int) returns (ghost pos: nat)
      requires Valid() && t in threads
      modifies this`running, this`blocking, sleeping, t`location
      ensures Valid() && threads == old(threads)
      ensures pos <= |Released(old(View()), t).sleeping| && View() == Asleep(old(View()), t, pos)
      ensures var nodes := if old(t.location) == LOC_SLEEPING then Dropped(old(sleeping.nodes), t) else old(sleeping.nodes);
              pos == InsertAt(nodes, 0, ns) && sleeping.nodes == Inserted(nodes, t, ns)
    {
      hide Placed, Released, Inserted, Dropped;
      ghost var q := View();
      InBounds(q, t);
      Release(t);
      ghost var r := View();
      t.location := LOC_SLEEPING;
      pos := InsertAt(sleeping.nodes, 0, ns);
      InsertedItems(sleeping.nodes, t, ns);
      sleeping.InsertAtDelta(t, ns);
      LocationsAre(r.loc[t := LOC_SLEEPING]);
      RemainingIs(r.ttr);
      AsleepPlaced(q, t, pos);
    }

    // ------------------------------------------------------------ choosing the next thread

    ghost function Priorities(): map<Thread, int>
      reads this`threads, threads`priority
    {
      map t | t in threads :: t.priority
    }

    ghost function Slices(): map<Thread, int>
      reads this`threads, threads`defaultSlice
    {
      map t | t in threads :: t.defaultSlice
    }

    ghost predicate Prioritised()
      reads this, threads`priority
    {
      forall t :: t in threads ==> 0 <= t.priority < |running|
    }

    ghost predicate WaitsOver(t: Thread)
      reads this`events, t`blockingOn, events, Boxes(events)
    {
      forall k :: 0 <= k < |t.blockingOn| ==> Over(t.blockingOn[k], UpSet(events))
    }

    /** The blocked threads all of whose events are set. */
    ghost function ReadySet(): set<Thread>
      reads this, threads`location, threads`blockingOn, events, Boxes(events)
    {
      set t | t in threads && t.location == LOC_BLOCKING && WaitsOver(t)
    }

    method AllSet(t: Thread) returns (b: bool)
      requires forall k :: 0 <= k < |t.blockingOn| ==> Leaves(t.blockingOn[k]) <= events
      modifies events`mutex
      ensures UpSet(events) == old(UpSet(events)) && b == WaitsOver(t)
    {
      hide Leaves, Over, UpSet;
      for k := 0 to |t.blockingOn|
        invariant UpSet(events) == old(UpSet(events))
        invariant forall j :: 0 <= j < k ==> Over(t.blockingOn[j], UpSet(events))
      {
        var c := IsSet(t.blockingOn[k], events);
        if !c {
          return false;
        }
      }
      return true;
    }

    /** One step of the scan: the thread at `i` is woken, or passed over. */
    method WakeStep(i: nat) returns (next: nat)
      requires Valid() && Prioritised() && i < |blocking|
      modifies this`running, this`blocking, sleeping, threads`location, threads`timeToRun, threads`blockingOn, events`mutex
      ensures Valid() && |running| == |old(running)| && UpSet(events) == old(UpSet(events)) && sleeping.nodes == old(sleeping.nodes)
      ensures next <= |blocking| && |blocking| - next < |old(blocking)| - i
      ensures var t := old(blocking[i]);
              if t in old(ReadySet())
              then next == i && View() == Rescheduled(old(View()), t, t.priority, t.defaultSlice) && t.location == t.priority
              else next == i + 1 && View() == old(View())
      ensures forall t :: t in threads && t.location == LOC_BLOCKING ==>
                t.blockingOn == old(t.blockingOn) && old(t.location) == LOC_BLOCKING
      ensures forall t :: t in threads && t != old(blocking[i]) ==> t.location == old(t.location)
    {
      hide Leaves, Over, UpSet, Placed, Rescheduled, Items, Lists;
      var t := blocking[i];
      BlockedAt(View(), i);
      var can := AllSet(t);
      if can {
        Wake(t, i);
        next := i;
      } else {
        next := i + 1;
      }
    }

    method Wake(t: Thread, ghost i: nat)
      requires Valid() && Prioritised() && i < |blocking| && blocking[i] == t
      modifies this`running, this`blocking, sleeping, t`location, t`timeToRun, t`blockingOn
      ensures Valid() && |running| == |old(running)| && sleeping.nodes == old(sleeping.nodes) && |blocking| + 1 == |old(blocking)|
      ensures View() == Rescheduled(old(View()), t, t.priority, t.defaultSlice) && t.location == t.priority
      ensures UpSet(events) == old(UpSet(events))
    {
      hide Placed, Rescheduled, Stray, Items, Lists;
      ghost var q := View();
      BlockedAt(q, i);
      var ok := Requeue(t);
      RescheduledPlaced(q, t, t.priority, t.defaultSlice);
      RescheduledBlocking(q, i, t.priority, t.defaultSlice);
    }

    lemma BlockedAt(q: Queues, i: nat)
      requires Placed(q) && q == View() && i < |blocking|
      ensures blocking[i] in threads && blocking[i].location == LOC_BLOCKING
    {
    }

    lemma ReadyKnown()
      ensures ReadySet() <= threads
    {
    }

    twostate lemma StillReady(t: Thread)
      requires threads == old(threads) && events == old(events) && UpSet(events) == old(UpSet(events))
      requires t in threads && t.location == old(t.location) && t.blockingOn == old(t.blockingOn)
      ensures t in ReadySet() <==> t in old(ReadySet())
    {
    }

    lemma SettingsHold(ready: set<Thread>)
      requires Prioritised() && ready <= threads
      ensures Settings(Priorities(), Slices(), ready, |running|)
    {
    }

    /** The scan of the blocked threads wakes exactly those whose events are all set. */
    method WakeUpBlockingTasks()
      requires Valid() && Prioritised()
      modifies this`running, this`blocking, sleeping, threads`location, threads`timeToRun, threads`blockingOn, events`mutex
      ensures Valid() && |running| == |old(running)| && UpSet(events) == old(UpSet(events))
      ensures Settings(Priorities(), Slices(), old(ReadySet()), |old(running)|)
      ensures View() == WakeFrom(old(View()), 0, old(ReadySet()), Priorities(), Slices())
      ensures sleeping.nodes == old(sleeping.nodes)
    {
      hide Leaves, Over, UpSet, Placed, Rescheduled, Items, WakeFrom, Lists, Settings, ReadySet, WaitsOver;
      ghost var ready, prio, slice, q0 := ReadySet(), Priorities(), Slices(), View();
      ReadyKnown();
      SettingsHold(ready);
      var i := 0;
      while i < |blocking|
        invariant 0 <= i <= |blocking| && Valid() && |running| == |old(running)|
        invariant UpSet(events) == old(UpSet(events)) && sleeping.nodes == old(sleeping.nodes)
        invariant forall t :: t in threads && t.location == LOC_BLOCKING ==>
                    t.blockingOn == old(t.blockingOn) && old(t.location) == LOC_BLOCKING
        invariant WakeFrom(View(), i, ready, prio, slice) == WakeFrom(q0, 0, ready, prio, slice)
        decreases |blocking| - i
      {
        ghost var q, j := View(), i;
        ghost var t := blocking[i];
        BlockedAt(q, i);
        StillReady(t);
        i := WakeStep(i);
        WakeUnfold(q, j, ready, prio, slice);
      }
      WakeEnd(View(), ready, prio, slice);
    }

    /**
      The first thread of the highest non-empty queue, after waking: every blocked thread whose
      events were all set is runnable now.
     */
    method GetNextThread() returns (ret: Thread?)
      requires Valid() && Prioritised()
      modifies this`running, this`blocking, sleeping, threads`location, threads`timeToRun, threads`blockingOn, events`mutex
      ensures Valid() && |running| == |old(running)| && UpSet(events) == old(UpSet(events))
      ensures Settings(Priorities(), Slices(), old(ReadySet()), |old(running)|)
      ensures View() == WakeFrom(old(View()), 0, old(ReadySet()), Priorities(), Slices())
      ensures sleeping.nodes == old(sleeping.nodes)
      ensures ret == FirstThread(running, |running|)
      ensures forall t :: t in old(ReadySet()) ==> t.location == t.priority && t in running[t.priority]
    {
      hide Leaves, Over, UpSet, Placed, Items, WakeFrom, Lists, Settings;
      ghost var ready, q := ReadySet(), View();
      WakeUpBlockingTasks();
      Runnable(q, ready);
      ret := null;
      var i := |running|;
      while i > 0
        invariant 0 <= i <= |running| && FirstThread(running, |running|) == FirstThread(running, i)
      {
        i := i - 1;
        if running[i] != [] {
          return running[i][0];
        }
      }
    }

    lemma Runnable(q: Queues, ready: set<Thread>)
      requires Prioritised() && Placed(q) && ready <= threads && |q.running| == |running|
      requires Settings(Priorities(), Slices(), ready, |q.running|)
      requires forall t :: t in ready ==> t in q.loc && q.loc[t] == LOC_BLOCKING
      requires View() == WakeFrom(q, 0, ready, Priorities(), Slices())
      ensures forall t :: t in ready ==> t.location == t.priority && t in running[t.priority]
    {
      hide WakeFrom, Settings;
      NoneLeftReady(q, ready, Priorities(), Slices());
    }

    /** The next thread to run; it has `ns` less of its slice left, or is at the back with a new one. */
    method NextThread(ns: int) returns (ret: Thread?)
      requires Valid() && Prioritised()
      modifies this`running, this`blocking, sleeping, threads`location, threads`timeToRun, threads`blockingOn, events`mutex
      ensures Valid() && |running| == |old(running)| && UpSet(events) == old(UpSet(events))
      ensures Settings(Priorities(), Slices(), old(ReadySet()), |old(running)|)
      ensures var woken := WakeFrom(old(View()), 0, old(ReadySet()), Priorities(), Slices());
              && ret == FirstThread(woken.running, |woken.running|)
              && View() == Tick(woken, Priorities(), Slices(), ns)
      ensures sleeping.nodes == old(sleeping.nodes)
    {
      hide Leaves, Over, UpSet, Placed, Items, WakeFrom, Lists, Settings, Rescheduled, Tick, FirstThread;
      ret := GetNextThread();
      ghost var q := View();
      if ret != null {
        Charge(ret, ns);
      } else {
        NoTick(q, Priorities(), Slices(), ns);
      }
    }

    method Charge(t: Thread, ns: int)
      requires Valid() && Prioritised() && t == FirstThread(running, |running|)
      modifies this`running, this`blocking, sleeping, threads`location, threads`timeToRun, threads`blockingOn
      ensures Valid() && |running| == |old(running)| && View() == Tick(old(View()), Priorities(), Slices(), ns)
      ensures sleeping.nodes == old(sleeping.nodes) && UpSet(events) == old(UpSet(events))
    {
      hide Placed, Items, Lists, Rescheduled, Leaves, FirstThread;
      ghost var q := View();
      Queued(q, t);
      TickPlaced(q, Priorities(), Slices(), ns);
      if t.timeToRun <= ns {
        var ok := Requeue(t);
      } else {
        t.timeToRun := t.timeToRun - ns;
        LocationsAre(q.loc);
        RemainingIs(q.ttr[t := q.ttr[t] - ns]);
      }
    }

    lemma Queued(q: Queues, t: Thread)
      requires Placed(q) && q == View() && FirstThread(running, |running|) == t
      ensures t in threads && 0 <= t.location < |running| && t in q.ttr && q.ttr[t] == t.timeToRun
    {
      var p :| 0 <= p < |running| && running[p] != [] && running[p][0] == t;
      assert Lists(q.loc, running[p], p);
    }

    /** A due sleeper leaves the sleeping queue and is rescheduled, which looks for it there once more. */
    method WakeSleeper() returns (woke: bool)
      requires Valid() && Prioritised()
      modifies this`running, this`blocking, sleeping, threads`location, threads`timeToRun, threads`blockingOn
      ensures Valid() && |running| == |old(running)| && woke == (old(sleeping.nodes) != [] && old(sleeping.nodes[0].d) == 0)
      ensures !woke ==> View() == old(View()) && sleeping.nodes == old(sleeping.nodes)
      ensures woke ==>
                && sleeping.nodes == old(sleeping.nodes[1..])
                && var t := old(sleeping.nodes[0].item);
                   && t in threads && 0 <= t.priority < |old(running)|
                   && View() == Rescheduled(old(View()), t, t.priority, t.defaultSlice)
      ensures UpSet(events) == old(UpSet(events)) && ReadySet() == old(ReadySet())
    {
      hide Placed, Lists, Rescheduled, Leaves;
      ghost var q := View();
      var t := sleeping.GetZero();
      woke := t != null;
      if t != null {
        SleeperFirst(q, t);
        ghost var q' := View();
        assert q' == q.(sleeping := q.sleeping[1..]);
        var ok := Requeue(t);
        SleeperTaken(q, t, t.priority, t.defaultSlice);
        RescheduledPlaced(q, t, t.priority, t.defaultSlice);
      }
    }

    lemma SleeperFirst(q: Queues, t: Thread)
      requires Placed(q) && q.sleeping != [] && q.sleeping[0] == t && q.loc == Locations()
      ensures t in threads && t.location == LOC_SLEEPING && t !in q.sleeping[1..]
    {
    }

    method WakeSleepers()
      requires Valid() && Prioritised()
      modifies this`running, this`blocking, sleeping, threads`location, threads`timeToRun, threads`blockingOn
      ensures Valid() && |running| == |old(running)|
      ensures View() == SleepersWoken(old(View()), Due(old(sleeping.nodes)), Priorities(), Slices())
      ensures sleeping.nodes == old(sleeping.nodes)[Due(old(sleeping.nodes))..]
      ensures UpSet(events) == old(UpSet(events)) && ReadySet() == old(ReadySet())
    {
      hide Placed, Lists, Rescheduled, Leaves, Over, UpSet, ReadySet, SleepersWoken, Due, Items;
      ghost var q0, n0 := View(), Due(sleeping.nodes);
      var woke := true;
      while woke
        invariant Valid() && |running| == |old(running)|
        invariant SleepersWoken(View(), Due(sleeping.nodes), Priorities(), Slices()) == SleepersWoken(q0, n0, Priorities(), Slices())
        invariant !woke ==> View() == SleepersWoken(q0, n0, Priorities(), Slices())
        invariant sleeping.nodes[Due(sleeping.nodes)..] == old(sleeping.nodes)[n0..]
        invariant !woke ==> sleeping.nodes == old(sleeping.nodes)[n0..]
        invariant UpSet(events) == old(UpSet(events)) && ReadySet() == old(ReadySet())
        decreases woke, |sleeping.nodes|
      {
        ghost var q, nodes := View(), sleeping.nodes;
        SleepersUnfold(q, nodes, Priorities(), Slices());
        DueUnfold(nodes);
        woke := WakeSleeper();
      }
    }

    /** The thread to switch to, if it is not the current one. */
    method ScheduleNext(ns: int, cur: Thread?) returns (next: Thread?)
      requires Valid() && Prioritised()
      modifies this`running, this`blocking, sleeping, threads`location, threads`timeToRun, threads`blockingOn, events`mutex
      ensures Valid() && |running| == |old(running)| && UpSet(events) == old(UpSet(events))
      ensures Settings(Priorities(), Slices(), old(ReadySet()), |old(running)|)
      ensures var woken := WakeFrom(old(View()), 0, old(ReadySet()), Priorities(), Slices());
              && View() == Tick(woken, Priorities(), Slices(), ns)
              && var t := FirstThread(woken.running, |woken.running|); next == if t != cur then t else null
      ensures sleeping.nodes == old(sleeping.nodes)
    {
      hide Leaves, Over, UpSet, Placed, Items, WakeFrom, Lists, Settings, Tick, FirstThread, ReadySet;
      var t := NextThread(ns);
      if t != cur && t != null {
        return t;
      }
      return null;
    }

    method PassTime(ns: int)
      modifies sleeping
      ensures sleeping.nodes == Decreased(old(sleeping.nodes), ns)
      ensures View() == old(View()) && UpSet(events) == old(UpSet(events)) && ReadySet() == old(ReadySet())
    {
      hide Over, Items, Decreased;
      DecreasedItems(sleeping.nodes, ns);
      sleeping.DecreaseDelta(ns);
    }

    /** First the sleepers that are due are woken, then the blocked threads, then the next thread has its turn. */
    method TimerTick(ns: int, cur: Thread?) returns (next: Thread?, ghost awake: Queues)
      requires Valid() && Prioritised()
      modifies this`running, this`blocking, sleeping, threads`location, threads`timeToRun, threads`blockingOn, events`mutex
      ensures Valid() && |running| == |old(running)| && UpSet(events) == old(UpSet(events))
      ensures awake == SleepersWoken(old(View()), Due(Decreased(old(sleeping.nodes), ns)), Priorities(), Slices()) && Placed(awake)
      ensures Settings(Priorities(), Slices(), old(ReadySet()), |old(running)|)
      ensures var woken := WakeFrom(awake, 0, old(ReadySet()), Priorities(), Slices());
              && View() == Tick(woken, Priorities(), Slices(), ns)
              && var t := FirstThread(woken.running, |woken.running|); next == if t != cur then t else null
      ensures sleeping.nodes == Ticked(old(sleeping.nodes), ns)
    {
      hide Leaves, Over, UpSet, Placed, Items, WakeFrom, Lists, Settings, Tick, FirstThread, ReadySet, SleepersWoken, Due, Decreased;
      hide Locations, Remaining, Priorities, Slices;
      WakeDue(ns);
      awake := View();
      next := ScheduleNext(ns, cur);
    }

    /** Time passes, and the sleepers that are due are woken. */
    method WakeDue(ns: int)
      requires Valid() && Prioritised()
      modifies this`running, this`blocking, sleeping, threads`location, threads`timeToRun, threads`blockingOn
      ensures Valid() && |running| == |old(running)| && sleeping.nodes == Ticked(old(sleeping.nodes), ns)
      ensures View() == SleepersWoken(old(View()), Due(Decreased(old(sleeping.nodes), ns)), Priorities(), Slices())
      ensures UpSet(events) == old(UpSet(events)) && ReadySet() == old(ReadySet())
    {
      hide Leaves, Over, UpSet, Placed, Items, Lists, ReadySet, SleepersWoken, Due, Decreased;
      PassTime(ns);
      WakeSleepers();
    }
  }

  lemma WakeUnfold(q: Queues, i: nat, ready: set<Thread>, prio: map<Thread, int>, slice: map<Thread, int>)
    requires Placed(q) && i < |q.blocking| && Settings(prio, slice, ready, |q.running|)
    ensures var t := q.blocking[i];
            if t in ready then
              && Placed(Rescheduled(q, t, prio[t], slice[t])) && i <= |Rescheduled(q, t, prio[t], slice[t]).blocking|
              && |Rescheduled(q, t, prio[t], slice[t]).running| == |q.running|
              && WakeFrom(q, i, ready, prio, slice) == WakeFrom(Rescheduled(q, t, prio[t], slice[t]), i, ready, prio, slice)
            else WakeFrom(q, i, ready, prio, slice) == WakeFrom(q, i + 1, ready, prio, slice)
  {
    hide Placed, Rescheduled;
    var t := q.blocking[i];
    if t in ready {
      RescheduledPlaced(q, t, prio[t], slice[t]);
      RescheduledBlocking(q, i, prio[t], slice[t]);
    }
  }

  lemma WakeEnd(q: Queues, ready: set<Thread>, prio: map<Thread, int>, slice: map<Thread, int>)
    requires Placed(q) && Settings(prio, slice, ready, |q.running|)
    ensures WakeFrom(q, |q.blocking|, ready, prio, slice) == q
  {
  }

  lemma AdmittedPlaced(q: Queues, t: Thread, ttr: int)
    requires Placed(q) && t !in q.loc
    ensures Placed(q.(loc := q.loc[t := LOC_RELEASED], ttr := q.ttr[t := ttr]))
  {
    hide Lists;
    forall p | 0 <= p < |q.running| ensures Lists(q.loc[t := LOC_RELEASED], q.running[p], p) {
      Elsewhere(q.loc, q.running[p], p, t, LOC_RELEASED);
    }
    Elsewhere(q.loc, q.sleeping, LOC_SLEEPING, t, LOC_RELEASED);
    Elsewhere(q.loc, q.blocking, LOC_BLOCKING, t, LOC_RELEASED);
  }

  lemma NoTick(q: Queues, prio: map<Thread, int>, slice: map<Thread, int>, ns: int)
    requires FirstThread(q.running, |q.running|) == null
    ensures Tick(q, prio, slice, ns) == q
  {
  }

  lemma DueUnfold(nodes: seq<DeltaNode>)
    ensures nodes == [] || nodes[0].d != 0 ==> nodes[Due(nodes)..] == nodes
    ensures nodes != [] && nodes[0].d == 0 ==> nodes[1..][Due(nodes[1..])..] == nodes[Due(nodes)..]
  {
  }

  lemma SleepersUnfold(q: Queues, nodes: seq<DeltaNode>, prio: map<Thread, int>, slice: map<Thread, int>)
    requires q.sleeping == Items(nodes)
    ensures nodes == [] || nodes[0].d != 0 ==> SleepersWoken(q, Due(nodes), prio, slice) == q
    ensures nodes != [] && nodes[0].d == 0 ==>
              var t := nodes[0].item;
              t in prio && t in slice && 0 <= prio[t] < |q.running| ==>
                SleepersWoken(q, Due(nodes), prio, slice)
                  == SleepersWoken(Rescheduled(q, t, prio[t], slice[t]), Due(nodes[1..]), prio, slice)
  {
    hide Rescheduled;
  }

  lemma SleeperTaken(q: Queues, t: Thread, priority: int, slice: int)
    requires Placed(q) && q.sleeping != [] && q.sleeping[0] == t && 0 <= priority < |q.running|
    ensures Rescheduled(q.(sleeping := q.sleeping[1..]), t, priority, slice) == Rescheduled(q, t, priority, slice)
  {
    WithoutIs(q.sleeping, t);
    assert t !in q.sleeping[1..];
    WithoutIs(q.sleeping[1..], t);
  }
}
