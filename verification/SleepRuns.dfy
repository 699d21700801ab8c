/**
  Runs of the queue of sleeping threads (tysos/collections/Lists.cs, as tysos/Scheduler.cs uses it)
  against what they are for: every thread sleeps until its delay is over.
 */
module SleepRuns {
  import opened DeltaQueues
  import opened Events
  import opened Options
  import opened ThreadQueues

  /** What happens to the queue: a thread goes to sleep or is released, or time passes. */
  datatype Op = Sleep(t: Thread, value: int) | Release(t: Thread) | Tick(ns: int)

  function Apply(nodes: seq<DeltaNode>, op: Op): seq<DeltaNode> {
    match op
    case Sleep(t, value) => Inserted(Dropped(nodes, t), t, value)
    case Release(t) => Dropped(nodes, t)
    case Tick(ns) => Ticked(nodes, ns)
  }

  function Queue(ops: seq<Op>): seq<DeltaNode> {
    if ops == [] then [] else Apply(Queue(ops[..|ops| - 1]), ops[|ops| - 1])
  }

  /** The time now, and until when each sleeper is to sleep. */
  datatype Plan = Plan(clock: int, until: map<Thread, int>)

  function Planned(p: Plan, op: Op): Plan {
    match op
    case Sleep(t, value) => p.(until := p.until[t := p.clock + value])
    case Release(t) => p.(until := p.until - {t})
    case Tick(ns) => Plan(p.clock + ns, map t | t in p.until && p.until[t] > p.clock + ns :: p.until[t])
  }

  function PlanOf(ops: seq<Op>): Plan {
    if ops == [] then Plan(0, map[]) else Planned(PlanOf(ops[..|ops| - 1]), ops[|ops| - 1])
  }

  /** Delays are not negative, and a tick takes time. */
  predicate Sensible(ops: seq<Op>) {
    forall i :: 0 <= i < |ops| ==> match ops[i] case Sleep(_, value) => value >= 0 case Release(_) => true case Tick(ns) => ns > 0
  }

  /** Asleep are the threads that are to be. */
  predicate Agree(nodes: seq<DeltaNode>, p: Plan) {
    (forall t :: t in p.until ==> t in Items(nodes)) && (forall i :: 0 <= i < |nodes| ==> Items(nodes)[i] in p.until)
  }

  /** After every operation, the next tick, whenever it comes, wakes the threads it is to wake. */
  ghost predicate OnTime(ops: seq<Op>) {
    && (forall ns :: ns > 0 ==> Agree(Ticked(Queue(ops), ns), Planned(PlanOf(ops), Tick(ns))))
    && (ops != [] ==> OnTime(ops[..|ops| - 1]))
  }

  /** Every thread that goes to sleep finds the queue in a state in which it will wake on time. */
  ghost predicate AllInTime(ops: seq<Op>) {
    ops != [] ==>
      var init, op := ops[..|ops| - 1], ops[|ops| - 1];
      AllInTime(init) && (op.Sleep? ==> InTime(Dropped(Queue(init), op.t), op.value))
  }

  // ------------------------------------------------------------ what such a run keeps

  /** The sums of the deltas are the times left. */
  ghost predicate Timed(nodes: seq<DeltaNode>, p: Plan) {
    forall k :: 0 <= k < |nodes| ==> nodes[k].item in p.until && SameTick(p.until[nodes[k].item] - p.clock, DueAt(nodes, k))
  }

  ghost predicate Inv(nodes: seq<DeltaNode>, p: Plan) {
    NonNegative(nodes) && NoDup(Items(nodes)) && Timed(nodes, p) && Agree(nodes, p)
  }

  lemma ItemIs(nodes: seq<DeltaNode>, t: Thread) returns (k: nat)
    requires t in Items(nodes)
    ensures k < |nodes| && nodes[k].item == t
  {
    k :| k < |nodes| && Items(nodes)[k] == t;
    ItemsAt(nodes, k);
  }

  lemma Released(nodes: seq<DeltaNode>, p: Plan, t: Thread)
    requires Inv(nodes, p)
    ensures Inv(Dropped(nodes, t), Planned(p, Release(t))) && t !in Items(Dropped(nodes, t))
  {
    hide Items, Without, Find, DueAt, SameTick, NoDup, NonNegative, Timed;
    RemovedItems(nodes, t);
    WithoutIs(Items(nodes), t);
    ReleasedTimed(nodes, p, t);
    var r, p' := Dropped(nodes, t), Planned(p, Release(t));
    forall x | x in p'.until ensures x in Items(r) { assert x in Items(nodes); }
  }

  lemma ReleasedTimed(nodes: seq<DeltaNode>, p: Plan, t: Thread)
    requires NonNegative(nodes) && Timed(nodes, p) && t !in Items(Dropped(nodes, t))
    ensures NonNegative(Dropped(nodes, t)) && Timed(Dropped(nodes, t), Planned(p, Release(t)))
  {
    hide Items, DueAt, SameTick, Find;
    var r, p' := Dropped(nodes, t), Planned(p, Release(t));
    var i := Find(nodes, t);
    AllItems(r);
    forall k | 0 <= k < |r| ensures r[k].item in p'.until && SameTick(p'.until[r[k].item] - p'.clock, DueAt(r, k)) {
      assert r[k].item == Items(r)[k];
      if i < |nodes| {
        RemovedDue(nodes, i, k);
        RemovedItem(nodes, i, k);
      }
    }
  }

  /** Where no delta is negative, a delay that is in time is due when it asks to be. */
  lemma InTimeDue(nodes: seq<DeltaNode>, t: Thread, value: int)
    requires NonNegative(nodes) && value >= 0 && InTime(nodes, value)
    ensures var pos, r := InsertAt(nodes, 0, value), Inserted(nodes, t, value);
            NonNegative(r) && |r| == |nodes| + 1 && r[pos].item == t && SameTick(value, DueAt(r, pos))
  {
    hide InTime, WakesAt, Peak, Stops, DueAt;
    var pos, r := InsertAt(nodes, 0, value), Inserted(nodes, t, value);
    InsertedDueItself(nodes, t, value);
    if pos < |nodes| {
      InTimeBetween(nodes, value);
      WakesAtSum(nodes, pos - 1);
    } else {
      InTimeAtEnd(nodes, value);
      if nodes != [] {
        WakesAtSum(nodes, |nodes| - 1);
      }
    }
  }

  lemma Slept(nodes: seq<DeltaNode>, p: Plan, t: Thread, value: int)
    requires Inv(nodes, p) && t !in Items(nodes) && value >= 0 && InTime(nodes, value)
    ensures Inv(Inserted(nodes, t, value), Planned(p, Sleep(t, value)))
  {
    hide Items, InTime, NonNegative, Timed, NoDup, Inserted, InsertAt;
    var r, p' := Inserted(nodes, t, value), Planned(p, Sleep(t, value));
    InTimeDue(nodes, t, value);
    SleptTimed(nodes, p, t, value);
    InsertedItems(nodes, t, value);
    PutIn(Items(nodes), t, InsertAt(nodes, 0, value));
    forall x | x in p'.until ensures x in Items(r) { assert x == t || x in Items(nodes); }
  }

  lemma PutIn(s: seq<Thread>, t: Thread, pos: nat)
    requires pos <= |s| && NoDup(s) && t !in s
    ensures var r := s[..pos] + [t] + s[pos..];
            NoDup(r) && t in r && (forall x :: x in s ==> x in r) && forall i :: 0 <= i < |r| ==> r[i] == t || r[i] in s
  {
    var r := s[..pos] + [t] + s[pos..];
    assert r[pos] == t;
    forall x | x in s ensures x in r {
      var i :| 0 <= i < |s| && s[i] == x;
      assert r[if i < pos then i else i + 1] == x;
    }
  }

  lemma SleptTimed(nodes: seq<DeltaNode>, p: Plan, t: Thread, value: int)
    requires Timed(nodes, p) && t !in Items(nodes)
    requires var pos, r := InsertAt(nodes, 0, value), Inserted(nodes, t, value); pos < |r| && SameTick(value, DueAt(r, pos))
    ensures Timed(Inserted(nodes, t, value), Planned(p, Sleep(t, value)))
  {
    hide Items, DueAt, SameTick;
    var pos, r, p' := InsertAt(nodes, 0, value), Inserted(nodes, t, value), Planned(p, Sleep(t, value));
    AllItems(nodes);
    forall k | 0 <= k < |r| ensures r[k].item in p'.until && SameTick(p'.until[r[k].item] - p'.clock, DueAt(r, k)) {
      if k != pos {
        var i := if k < pos then k else k - 1;
        InsertedDue(nodes, t, value, i);
        assert r[k] == nodes[i] && Items(nodes)[i] != t;
      } else {
        assert p'.until[t] - p'.clock == value;
      }
    }
  }

  lemma {:induction false} DecreasedNonNegative(nodes: seq<DeltaNode>, ns: int)
    requires NonNegative(nodes) && ns > 0
    ensures NonNegative(Decreased(nodes, ns))
  {
    if nodes != [] && nodes[0].d < ns {
      DecreasedNonNegative(nodes[1..], ns - nodes[0].d);
    }
  }

  /** In a queue without negative deltas a tick wakes the threads whose sums it reaches, and shortens the other sums by as much. */
  lemma TickedDue(nodes: seq<DeltaNode>, ns: int)
    requires NonNegative(nodes) && ns > 0
    ensures var j, r := Due(Decreased(nodes, ns)), Ticked(nodes, ns);
            && j <= |nodes| && |r| == |nodes| - j && NonNegative(r)
            && (forall k :: 0 <= k < j ==> DueAt(nodes, k) <= ns)
            && (forall k :: 0 <= k < |r| ==>
                  r[k].item == nodes[k + j].item && DueAt(nodes, k + j) > ns && DueAt(r, k) == DueAt(nodes, k + j) - ns)
  {
    hide Awake, WakesAt, Peak, Decreased, DueAt, Due, Items;
    var d := Decreased(nodes, ns);
    var j, r := Due(d), Ticked(nodes, ns);
    DecreasedNonNegative(nodes, ns);
    DecreasedLength(nodes, ns);
    forall k | 0 <= k < |nodes| ensures k < j <==> DueAt(nodes, k) <= ns {
      TickWakes(nodes, ns, k);
      AwakeExactly(nodes, k, ns);
      WakesAtSum(nodes, k);
    }
    DecreasedItems(nodes, ns);
    AllItems(nodes);
    AllItems(d);
    forall k | 0 <= k < |r| ensures r[k].item == nodes[k + j].item && DueAt(r, k) == DueAt(nodes, k + j) - ns {
      DueDropped(d, k);
      DecreasedDue(nodes, ns, k + j);
      WakesAtSum(nodes, k + j);
    }
  }

  lemma {:induction false} DueDropped(nodes: seq<DeltaNode>, k: nat)
    requires Due(nodes) + k < |nodes|
    ensures DueAt(nodes[Due(nodes)..], k) == DueAt(nodes, Due(nodes) + k)
  {
    hide DueAt;
    if nodes[0].d == 0 {
      DueDropped(nodes[1..], k);
      DueTail(nodes, Due(nodes) + k - 1);
      assert nodes[1..][Due(nodes[1..])..] == nodes[Due(nodes)..];
    } else {
      assert nodes[0..] == nodes;
    }
  }

  lemma TimePassed(nodes: seq<DeltaNode>, p: Plan, ns: int)
    requires Inv(nodes, p) && ns > 0
    ensures Inv(Ticked(nodes, ns), Planned(p, Tick(ns)))
  {
    hide Items, DueAt, Ticked, Due, Decreased, NonNegative;
    var j, r, p' := Due(Decreased(nodes, ns)), Ticked(nodes, ns), Planned(p, Tick(ns));
    TickedDue(nodes, ns);
    AllItems(nodes);
    AllItems(r);
    forall k | 0 <= k < |r| ensures r[k].item in p'.until && SameTick(p'.until[r[k].item] - p'.clock, DueAt(r, k)) {
      assert SameTick(p.until[nodes[k + j].item] - p.clock, DueAt(nodes, k + j));
    }
    forall x | x in p'.until ensures x in Items(r) {
      var k := ItemIs(nodes, x);
      assert SameTick(p.until[x] - p.clock, DueAt(nodes, k)) && p.until[x] - p.clock > ns;
      assert k >= j && Items(r)[k - j] == x;
    }
  }

  /** A thread that is not in time is woken too early or too late by some tick. */
  lemma NotInTime(nodes: seq<DeltaNode>, p: Plan, t: Thread, value: int) returns (ns: int)
    requires Inv(nodes, p) && t !in Items(nodes) && !InTime(nodes, value)
    ensures ns > 0 && !Agree(Ticked(Inserted(nodes, t, value), ns), Planned(Planned(p, Sleep(t, value)), Tick(ns)))
  {
    hide InTime, Items, Awake, Inserted, Decreased, Due, NonNegative, Timed;
    var pos, r := InsertAt(nodes, 0, value), Inserted(nodes, t, value);
    InsertedItems(nodes, t, value);
    assert |r| == |nodes| + 1;
    OnTimeExactly(nodes, t, value);
    WakesAfterIs(r, pos, value);
    ns :| ns > 0 && (Awake(r, pos, ns) <==> ns < value);
    TickWakes(r, ns, pos);
    TickedItems(r, ns);
    var j := Due(Decreased(r, ns));
    var left := Items(Ticked(r, ns));
    assert NoDup(Items(r)) && Items(r)[pos] == t;
    var p' := Planned(Planned(p, Sleep(t, value)), Tick(ns));
    if pos >= j {
      assert left[pos - j] == t && t !in p'.until;
    } else {
      assert t in p'.until;
      assert forall m :: 0 <= m < |left| ==> left[m] == Items(r)[m + j];
      assert t !in left;
    }
  }

  lemma TickedItems(nodes: seq<DeltaNode>, ns: int)
    ensures var j := Due(Decreased(nodes, ns)); j <= |nodes| && Items(Ticked(nodes, ns)) == Items(nodes)[j..]
  {
    hide Items, Decreased;
    var d := Decreased(nodes, ns);
    DecreasedLength(nodes, ns);
    DecreasedItems(nodes, ns);
    assert d == d[..Due(d)] + d[Due(d)..];
    ItemsConcat(d[..Due(d)], d[Due(d)..]);
  }

  // ------------------------------------------------------------ non-negative deltas

  /** The queue has no negative delta after any operation of the run. */
  ghost predicate AlwaysNonNegative(ops: seq<Op>) {
    NonNegative(Queue(ops)) && (ops != [] ==> AlwaysNonNegative(ops[..|ops| - 1]))
  }

  /** No thread is put at the end of the queue with a shorter delay than the queue's. */
  ghost predicate NoneShorter(ops: seq<Op>) {
    ops != [] ==>
      var init, op := ops[..|ops| - 1], ops[|ops| - 1];
      && NoneShorter(init)
      && (op.Sleep? ==>
            var nodes := Dropped(Queue(init), op.t);
            (exists c: nat :: Stops(nodes, op.value, c)) || op.value >= Before(nodes, |nodes|))
  }

  lemma DroppedNonNegative(nodes: seq<DeltaNode>, t: Thread)
    requires NonNegative(nodes)
    ensures NonNegative(Dropped(nodes, t))
  {
  }

  lemma TickedNonNegative(nodes: seq<DeltaNode>, ns: int)
    requires NonNegative(nodes) && ns > 0
    ensures NonNegative(Ticked(nodes, ns))
  {
    DecreasedNonNegative(nodes, ns);
  }

  /** Over any run the deltas stay non-negative if and only if no such thread is put there. */
  lemma {:induction false} NonNegativeRun(ops: seq<Op>)
    requires forall i :: 0 <= i < |ops| && ops[i].Tick? ==> ops[i].ns > 0
    ensures AlwaysNonNegative(ops) <==> NoneShorter(ops)
  {
    hide NonNegative, Stops, Dropped, Inserted, Ticked, Before;
    if ops == [] {
      EmptyNonNegative();
    } else {
      var init, op := ops[..|ops| - 1], ops[|ops| - 1];
      NonNegativeRun(init);
      if AlwaysNonNegative(init) {
        match op
        case Sleep(t, value) =>
          DroppedNonNegative(Queue(init), t);
          InsertedNonNegative(Dropped(Queue(init), t), t, value);
        case Release(t) => DroppedNonNegative(Queue(init), t);
        case Tick(ns) => TickedNonNegative(Queue(init), ns);
      }
    }
  }

  lemma EmptyNonNegative()
    ensures NonNegative([])
  {
  }

  // ------------------------------------------------------------ the theorem

  lemma Step(nodes: seq<DeltaNode>, p: Plan, op: Op)
    requires Inv(nodes, p) && Sensible([op]) && (op.Sleep? ==> InTime(Dropped(nodes, op.t), op.value))
    ensures Inv(Apply(nodes, op), Planned(p, op))
  {
    hide Inv, InTime, Ticked, Inserted, Dropped;
    assert op == [op][0];
    match op
    case Sleep(t, value) =>
      Released(nodes, p, t);
      Slept(Dropped(nodes, t), Planned(p, Release(t)), t, value);
      assert Planned(Planned(p, Release(t)), op) == Planned(p, op);
    case Release(t) => Released(nodes, p, t);
    case Tick(ns) => TimePassed(nodes, p, ns);
  }

  lemma NextTick(nodes: seq<DeltaNode>, p: Plan)
    requires Inv(nodes, p)
    ensures forall ns :: ns > 0 ==> Agree(Ticked(nodes, ns), Planned(p, Tick(ns)))
  {
    hide Agree, Ticked, Timed, NonNegative, Planned;
    forall ns | ns > 0 ensures Agree(Ticked(nodes, ns), Planned(p, Tick(ns))) { TimePassed(nodes, p, ns); }
  }

  /**
    Over any run of threads going to sleep, being released and time passing: every thread sleeps
    exactly until its delay is over if and only if each one is in time when it goes to sleep.
   */
  lemma {:induction false} OnTimeRun(ops: seq<Op>)
    requires Sensible(ops)
    ensures OnTime(ops) <==> AllInTime(ops)
    ensures AllInTime(ops) ==> Inv(Queue(ops), PlanOf(ops))
  {
    hide Inv, InTime, Apply, Planned, Agree, Ticked;
    if ops == [] {
      Nobody();
      NextTick([], Plan(0, map[]));
    } else {
      var init, op := ops[..|ops| - 1], ops[|ops| - 1];
      OnTimeRun(init);
      if AllInTime(init) {
        var nodes, p := Queue(init), PlanOf(init);
        if op.Sleep? && !InTime(Dropped(nodes, op.t), op.value) {
          var ns := SleptBadly(nodes, p, op.t, op.value);
        } else {
          assert Sensible([op]);
          Step(nodes, p, op);
          NextTick(Queue(ops), PlanOf(ops));
        }
      }
    }
  }

  lemma SleptBadly(nodes: seq<DeltaNode>, p: Plan, t: Thread, value: int) returns (ns: int)
    requires Inv(nodes, p) && !InTime(Dropped(nodes, t), value)
    ensures ns > 0 && !Agree(Ticked(Apply(nodes, Sleep(t, value)), ns), Planned(Planned(p, Sleep(t, value)), Tick(ns)))
  {
    hide Inv, InTime, Agree, Ticked, Inserted, Dropped;
    Released(nodes, p, t);
    ns := NotInTime(Dropped(nodes, t), Planned(p, Release(t)), t, value);
    assert Planned(Planned(p, Release(t)), Sleep(t, value)) == Planned(p, Sleep(t, value));
  }

  lemma Nobody()
    ensures Inv([], Plan(0, map[]))
  {
  }
}
