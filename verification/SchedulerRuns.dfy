/**
  Whole runs of the scheduler: any sequence of operations on any threads, interleaved with events
  being set and reset (tysos/Scheduler.cs, tysos/Event.cs).
 */
module SchedulerRuns {
  import opened Events
  import opened ThreadQueues

  /** The queues, what each blocked thread waits for, the events that are set, and each thread's settings. */
  datatype Kernel = Kernel(
    q: Queues,
    waits: map<Thread, seq<Wait>>,
    up: set<Event>,
    prio: map<Thread, int>,
    slice: map<Thread, int>)

  datatype Op =
    | Deschedule(t: Thread)
    | Reschedule(t: Thread)
    | BlockOn(t: Thread, w: Wait)
    | Sleep(t: Thread, pos: nat)
    | SetPriority(t: Thread, priority: int)
    | SetEvent(e: Event)
    | ResetEvent(e: Event)
    | NextThread(ns: int)
    | TimerTick(due: nat, ns: int)

  ghost predicate Consistent(k: Kernel) {
    && Placed(k.q)
    && forall t :: t in k.q.loc ==> t in k.waits && t in k.prio && t in k.slice && 0 <= k.prio[t] < |k.q.running|
  }

  ghost function Ready(k: Kernel): set<Thread> {
    set t | t in k.q.loc && k.q.loc[t] == LOC_BLOCKING && t in k.waits
            && forall i :: 0 <= i < |k.waits[t]| ==> Over(k.waits[t][i], k.up)
  }

  lemma ReadySettings(k: Kernel)
    requires Consistent(k)
    ensures Settings(k.prio, k.slice, Ready(k), |k.q.running|)
  {
  }

  /** Waking, then a turn. */
  ghost function Advance(k: Kernel, ns: int): Kernel
    requires Consistent(k)
  {
    ReadySettings(k);
    k.(q := Tick(WakeFrom(k.q, 0, Ready(k), k.prio, k.slice), k.prio, k.slice, ns))
  }

  /** An operation on a thread the scheduler does not know, or with a priority it does not have, is no step. */
  ghost function Step(k: Kernel, op: Op): Kernel
    requires Consistent(k)
  {
    match op
    case Deschedule(t) => if t in k.q.loc then k.(q := Released(k.q, t)) else k
    case Reschedule(t) => if t in k.q.loc then k.(q := Rescheduled(k.q, t, k.prio[t], k.slice[t]), waits := k.waits[t := []]) else k
    case BlockOn(t, w) => if t in k.q.loc then k.(q := Blocked(k.q, t), waits := k.waits[t := [w]]) else k
    case Sleep(t, pos) =>
      if t in k.q.loc && pos <= |Released(k.q, t).sleeping| then k.(q := Asleep(k.q, t, pos)) else k
    case SetPriority(t, p) => if t in k.q.loc && 0 <= p < |k.q.running| then k.(prio := k.prio[t := p]) else k
    case SetEvent(e) => k.(up := k.up + {e})
    case ResetEvent(e) => k.(up := k.up - {e})
    case NextThread(ns) => Advance(k, ns)
    case TimerTick(due, ns) =>
      var woken := k.(q := SleepersWoken(k.q, due, k.prio, k.slice));
      WokenConsistent(k, due);
      Advance(woken, ns)
  }

  lemma {:induction false} SleepersKeys(q: Queues, n: nat, prio: map<Thread, int>, slice: map<Thread, int>)
    requires Placed(q)
    ensures SleepersWoken(q, n, prio, slice).loc.Keys == q.loc.Keys
    decreases n
  {
    hide Placed;
    if n > 0 && q.sleeping != [] {
      var t := q.sleeping[0];
      FirstSleeper(q);
      if t in prio && t in slice && 0 <= prio[t] < |q.running| {
        RescheduledPlaced(q, t, prio[t], slice[t]);
        SleepersKeys(Rescheduled(q, t, prio[t], slice[t]), n - 1, prio, slice);
        assert Rescheduled(q, t, prio[t], slice[t]).loc.Keys == q.loc.Keys;
      }
    }
  }

  lemma FirstSleeper(q: Queues)
    requires Placed(q) && q.sleeping != []
    ensures q.sleeping[0] in q.loc && q.loc[q.sleeping[0]] == LOC_SLEEPING
  {
  }

  lemma WokenConsistent(k: Kernel, due: nat)
    requires Consistent(k)
    ensures Consistent(k.(q := SleepersWoken(k.q, due, k.prio, k.slice)))
  {
    hide Placed, SleepersWoken;
    SleepersWokenPlaced(k.q, due, k.prio, k.slice);
    SleepersKeys(k.q, due, k.prio, k.slice);
  }

  lemma AdvanceConsistent(k: Kernel, ns: int)
    requires Consistent(k)
    ensures Consistent(Advance(k, ns)) && Advance(k, ns).q.loc.Keys == k.q.loc.Keys
  {
    hide Placed, Settings, Ready, Woken, WakeFrom;
    ReadySettings(k);
    WakeIs(k.q, 0, Ready(k), k.prio, k.slice);
    var woken := WakeFrom(k.q, 0, Ready(k), k.prio, k.slice);
    WokenKeys(k.q, woken, Ready(k), k.prio, k.slice);
    TickPlaced(woken, k.prio, k.slice, ns);
    TickKeys(woken, k.prio, k.slice, ns);
  }

  lemma WokenKeys(q: Queues, r: Queues, ready: set<Thread>, prio: map<Thread, int>, slice: map<Thread, int>)
    requires Settings(prio, slice, ready, |q.running|) && Woken(q, 0, r, ready, prio)
    ensures r.loc.Keys == q.loc.Keys && |r.running| == |q.running|
  {
  }

  lemma TickKeys(q: Queues, prio: map<Thread, int>, slice: map<Thread, int>, ns: int)
    requires Placed(q)
    ensures Tick(q, prio, slice, ns).loc.Keys == q.loc.Keys && |Tick(q, prio, slice, ns).running| == |q.running|
    ensures forall t :: t in q.loc && t in prio && q.loc[t] == prio[t] ==> Tick(q, prio, slice, ns).loc[t] == prio[t]
  {
    hide Without;
    var t := FirstThread(q.running, |q.running|);
    if t != null {
      var p :| 0 <= p < |q.running| && q.running[p] != [] && q.running[p][0] == t;
      assert Lists(q.loc, q.running[p], p);
    }
  }

  /** Every operation keeps each thread exactly where its location says. */
  lemma StepConsistent(k: Kernel, op: Op)
    requires Consistent(k)
    ensures Consistent(Step(k, op)) && Step(k, op).q.loc.Keys == k.q.loc.Keys
  {
    hide Placed, Lists, Advance, SleepersWoken;
    match op
    case Deschedule(t) => ReleasedPlaced(k.q, t);
    case Reschedule(t) => if t in k.q.loc { RescheduledPlaced(k.q, t, k.prio[t], k.slice[t]); }
    case BlockOn(t, w) => BlockedPlaced(k.q, t);
    case Sleep(t, pos) => if pos <= |Released(k.q, t).sleeping| { AsleepPlaced(k.q, t, pos); }
    case SetPriority(t, p) =>
    case SetEvent(e) =>
    case ResetEvent(e) =>
    case NextThread(ns) => AdvanceConsistent(k, ns);
    case TimerTick(due, ns) =>
      WokenConsistent(k, due);
      SleepersKeys(k.q, due, k.prio, k.slice);
      AdvanceConsistent(k.(q := SleepersWoken(k.q, due, k.prio, k.slice)), ns);
  }

  ghost function After(k: Kernel, ops: seq<Op>): (r: Kernel)
    requires Consistent(k)
    ensures Consistent(r) && r.q.loc.Keys == k.q.loc.Keys
    decreases |ops|
  {
    if ops == [] then k
    else
      StepConsistent(k, ops[0]);
      After(Step(k, ops[0]), ops[1..])
  }

  lemma {:induction false} AfterConcat(k: Kernel, a: seq<Op>, b: seq<Op>)
    requires Consistent(k)
    ensures After(k, a + b) == After(After(k, a), b)
    decreases |a|
  {
    hide Consistent, Step;
    if a == [] {
      assert a + b == b;
    } else {
      StepConsistent(k, a[0]);
      AfterConcat(Step(k, a[0]), a[1..], b);
      assert (a + b)[1..] == a[1..] + b;
    }
  }

  // ------------------------------------------------------------ no wake-up is lost

  ghost predicate Lowers(op: Op, w: Wait) {
    op.ResetEvent? && op.e in Leaves(w)
  }

  ghost predicate Touches(op: Op, t: Thread) {
    (op.Deschedule? || op.Reschedule? || op.BlockOn? || op.Sleep?) && op.t == t
  }

  ghost predicate Waiting(k: Kernel, t: Thread, w: Wait) {
    t in k.q.loc && k.q.loc[t] == LOC_BLOCKING && t in k.waits && k.waits[t] == [w]
  }

  /** A wait that is over stays over while none of its events is reset. */
  lemma {:induction false} SignalStays(k: Kernel, ops: seq<Op>, w: Wait)
    requires Consistent(k) && Over(w, k.up) && forall i :: 0 <= i < |ops| ==> !Lowers(ops[i], w)
    ensures Over(w, After(k, ops).up)
    decreases |ops|
  {
    hide Consistent, Over, Leaves;
    if ops != [] {
      StepConsistent(k, ops[0]);
      var k' := Step(k, ops[0]);
      if ops[0].SetEvent? {
        Monotone(w, k.up, k'.up);
      } else if ops[0].ResetEvent? {
        OnlyLeaves(w, k.up, k'.up);
      }
      SignalStays(k', ops[1..], w);
    }
  }

  /** A blocked thread stays blocked while nobody names it and no thread is chosen. */
  lemma {:induction false} WaitStays(k: Kernel, ops: seq<Op>, t: Thread, w: Wait)
    requires Consistent(k) && Waiting(k, t, w)
    requires forall i :: 0 <= i < |ops| ==> !Touches(ops[i], t) && !ops[i].NextThread? && !ops[i].TimerTick?
    ensures Waiting(After(k, ops), t, w)
    decreases |ops|
  {
    hide Consistent, Without;
    if ops != [] {
      StepConsistent(k, ops[0]);
      assert Waiting(Step(k, ops[0]), t, w);
      WaitStays(Step(k, ops[0]), ops[1..], t, w);
    }
  }

  /** Choosing the next thread makes a thread whose wait is over runnable. */
  lemma WokenByNext(k: Kernel, t: Thread, w: Wait, ns: int)
    requires Consistent(k) && Waiting(k, t, w) && Over(w, k.up)
    ensures var r := Advance(k, ns); t in r.q.loc && r.q.loc[t] == k.prio[t] < |r.q.running| && t in r.q.running[k.prio[t]]
  {
    hide WakeFrom, Woken, Tick;
    ReadySettings(k);
    var woken := WakeFrom(k.q, 0, Ready(k), k.prio, k.slice);
    NoneLeftReady(k.q, Ready(k), k.prio, k.slice);
    WakeIs(k.q, 0, Ready(k), k.prio, k.slice);
    TickKeys(woken, k.prio, k.slice, ns);
    TickPlaced(woken, k.prio, k.slice, ns);
    WokenKeys(k.q, woken, Ready(k), k.prio, k.slice);
    assert t in k.q.blocking;
    assert Lists(Advance(k, ns).q.loc, Advance(k, ns).q.running[k.prio[t]], k.prio[t]);
  }

  /**
    A thread blocks on a wait; at some point of the run, before or after it blocks, the wait is
    over, and none of its events is reset from then on. Then the next choice of a thread makes
    it runnable.
   */
  lemma NoLostWakeUp(k: Kernel, before: seq<Op>, t: Thread, w: Wait, after: seq<Op>, ns: int, cut: nat)
    requires Consistent(k) && t in k.q.loc
    requires forall i :: 0 <= i < |after| ==> !Touches(after[i], t) && !after[i].NextThread? && !after[i].TimerTick?
    requires var run := before + [BlockOn(t, w)] + after;
             && cut <= |run| && Over(w, After(k, run[..cut]).up)
             && forall i :: cut <= i < |run| ==> !Lowers(run[i], w)
    ensures var r := After(k, before + [BlockOn(t, w)] + after + [NextThread(ns)]);
            && t in r.q.loc && t in r.prio && r.q.loc[t] == r.prio[t]
            && 0 <= r.prio[t] < |r.q.running| && t in r.q.running[r.prio[t]]
  {
    hide Consistent, Over, Leaves, After, Step, Waiting, Lowers, Touches;
    var run := before + [BlockOn(t, w)] + after;
    StillWaiting(k, before, t, w, after);
    StillOver(k, run, w, cut);
    RunnableNext(k, run, t, w, ns);
  }

  lemma StillWaiting(k: Kernel, before: seq<Op>, t: Thread, w: Wait, after: seq<Op>)
    requires Consistent(k) && t in k.q.loc
    requires forall i :: 0 <= i < |after| ==> !Touches(after[i], t) && !after[i].NextThread? && !after[i].TimerTick?
    ensures Waiting(After(k, before + [BlockOn(t, w)] + after), t, w)
  {
    hide Consistent, After, Waiting, Touches;
    AfterConcat(k, before, [BlockOn(t, w)]);
    AfterConcat(k, before + [BlockOn(t, w)], after);
    BlockedNow(After(k, before), t, w);
    WaitStays(After(k, before + [BlockOn(t, w)]), after, t, w);
  }

  lemma StillOver(k: Kernel, run: seq<Op>, w: Wait, cut: nat)
    requires Consistent(k) && cut <= |run| && Over(w, After(k, run[..cut]).up)
    requires forall i :: cut <= i < |run| ==> !Lowers(run[i], w)
    ensures Over(w, After(k, run).up)
  {
    hide Consistent, After, Over, Lowers;
    assert run == run[..cut] + run[cut..];
    AfterConcat(k, run[..cut], run[cut..]);
    SignalStays(After(k, run[..cut]), run[cut..], w);
  }

  lemma RunnableNext(k: Kernel, run: seq<Op>, t: Thread, w: Wait, ns: int)
    requires Consistent(k) && Waiting(After(k, run), t, w) && Over(w, After(k, run).up)
    ensures var r := After(k, run + [NextThread(ns)]);
            && t in r.q.loc && t in r.prio && r.q.loc[t] == r.prio[t]
            && 0 <= r.prio[t] < |r.q.running| && t in r.q.running[r.prio[t]]
  {
    hide Consistent, After, Over, Advance;
    AfterConcat(k, run, [NextThread(ns)]);
    WokenByNext(After(k, run), t, w, ns);
    NextNow(After(k, run), ns, t);
  }

  lemma BlockedNow(k: Kernel, t: Thread, w: Wait)
    requires Consistent(k) && t in k.q.loc
    ensures Waiting(After(k, [BlockOn(t, w)]), t, w)
  {
    hide Without;
    var op := BlockOn(t, w);
    StepConsistent(k, op);
    assert [op][1..] == [] && [op][0] == op;
  }

  lemma NextNow(k: Kernel, ns: int, t: Thread)
    requires Consistent(k) && t in k.q.loc
    ensures After(k, [NextThread(ns)]) == Advance(k, ns) && Advance(k, ns).prio == k.prio && t in k.prio && 0 <= k.prio[t]
  {
    hide Tick, WakeFrom, Placed, Ready, Settings;
    var op := NextThread(ns);
    StepConsistent(k, op);
    assert [op][1..] == [] && [op][0] == op;
  }
}
