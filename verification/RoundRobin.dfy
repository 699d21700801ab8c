/**
  How long a runnable thread waits for its turn: repeated calls of `_GetNextThread` with the same
  `ns`, nothing else happening in between (tysos/Scheduler.cs).
 */
module RoundRobin {
  import opened Events
  import opened Options
  import opened SchedulerRuns
  import opened ThreadQueues

  /** What a call of `_GetNextThread` looks at and changes. */
  datatype State = State(running: seq<seq<Thread>>, ttr: map<Thread, int>)

  /** What stays fixed: each thread's priority and slice, and the time each call accounts for. */
  datatype Env = Env(prio: map<Thread, int>, slice: map<Thread, int>, ns: int)

  ghost predicate Known(s: State, e: Env, t: Thread) {
    t in s.ttr && t in e.prio && t in e.slice && 0 <= e.prio[t] < |s.running|
  }

  /** Queue `p` is the highest one that is not empty. */
  ghost predicate TopIs(s: State, e: Env, p: nat) {
    && p < |s.running| && s.running[p] != [] && (forall h :: p < h < |s.running| ==> s.running[h] == [])
    && NoDup(s.running[p]) && (forall i :: 0 <= i < |s.running[p]| ==> Known(s, e, s.running[p][i])) && e.ns > 0
  }

  ghost function Turn(s: State, e: Env): State {
    var t := FirstThread(s.running, |s.running|);
    if t == null || !Known(s, e, t) then s
    else if s.ttr[t] <= e.ns then
      var p := Holder(s.running, t, |s.running|);
      if p < 0 then s else ToBack(s, e, p)
    else s.(ttr := s.ttr[t := s.ttr[t] - e.ns])
  }

  /** The highest queue that starts with `t`. */
  ghost function Holder(running: seq<seq<Thread>>, t: Thread, n: nat): (p: int)
    requires n <= |running|
    ensures -1 <= p < n && (p >= 0 ==> running[p] != [] && running[p][0] == t)
  {
    if n == 0 then -1 else if running[n - 1] != [] && running[n - 1][0] == t then n - 1 else Holder(running, t, n - 1)
  }

  /** The first thread of queue `p` goes to the back of the queue of its priority, with a new slice. */
  ghost function ToBack(s: State, e: Env, p: nat): State
    requires p < |s.running| && s.running[p] != []
  {
    var t := s.running[p][0];
    if !Known(s, e, t) then s
    else
      var rest := s.running[p := s.running[p][1..]];
      State(rest[e.prio[t] := rest[e.prio[t]] + [t]], s.ttr[t := e.slice[t]])
  }

  ghost function Run(s: State, e: Env, n: nat): State
    decreases n
  {
    if n == 0 then s else Run(Turn(s, e), e, n - 1)
  }

  /** What call number `n`, counted from 0, returns. */
  ghost function Returned(s: State, e: Env, n: nat): Thread? {
    FirstThread(Run(s, e, n).running, |Run(s, e, n).running|)
  }

  /** How many calls a thread is returned for before it goes to the back. */
  function Turns(x: int, ns: int): nat
    requires ns > 0
    decreases x
  {
    if x <= ns then 1 else 1 + Turns(x - ns, ns)
  }

  /** That is its time divided by `ns`, rounded up. */
  lemma {:induction false} TurnsIsCeiling(x: int, ns: int)
    requires ns > 0 && x > 0
    ensures (Turns(x, ns) - 1) * ns < x <= Turns(x, ns) * ns
    decreases x
  {
    if x > ns {
      TurnsIsCeiling(x - ns, ns);
    }
  }

  ghost function SumTurns(ts: seq<Thread>, ttr: map<Thread, int>, ns: int): nat
    requires ns > 0 && forall i :: 0 <= i < |ts| ==> ts[i] in ttr
  {
    if ts == [] then 0 else Turns(ttr[ts[0]], ns) + SumTurns(ts[1..], ttr, ns)
  }

  // ------------------------------------------------------------ one thread's turns

  lemma {:induction false} TopFirst(running: seq<seq<Thread>>, p: nat, n: nat)
    requires p < n <= |running| && running[p] != [] && forall h :: p < h < n ==> running[h] == []
    ensures FirstThread(running, n) == running[p][0] && Holder(running, running[p][0], n) == p
    decreases n
  {
    if n - 1 != p {
      TopFirst(running, p, n - 1);
    }
  }

  lemma TurnIs(s: State, e: Env, p: nat)
    requires TopIs(s, e, p)
    ensures var t := s.running[p][0];
            && Returned(s, e, 0) == t
            && Turn(s, e) == if s.ttr[t] <= e.ns then ToBack(s, e, p) else s.(ttr := s.ttr[t := s.ttr[t] - e.ns])
  {
    TopFirst(s.running, p, |s.running|);
  }

  lemma RunStep(s: State, e: Env, n: nat)
    requires n > 0
    ensures Returned(s, e, n) == Returned(Turn(s, e), e, n - 1)
  {
  }

  lemma {:induction false} RunAdd(s: State, e: Env, n: nat, m: nat)
    ensures Run(s, e, n + m) == Run(Run(s, e, n), e, m)
    decreases n
  {
    if n > 0 {
      RunAdd(Turn(s, e), e, n - 1, m);
    }
  }

  lemma ReturnedAdd(s: State, e: Env, n: nat, m: nat)
    ensures Returned(s, e, n + m) == Returned(Run(s, e, n), e, m)
  {
    RunAdd(s, e, n, m);
  }

  /** The first thread is returned for all its turns and then sent to the back. */
  lemma {:induction false} Served(s: State, e: Env, p: nat)
    requires TopIs(s, e, p)
    ensures var t := s.running[p][0]; var k := Turns(s.ttr[t], e.ns);
            Run(s, e, k) == ToBack(s, e, p) && forall i :: 0 <= i < k ==> Returned(s, e, i) == t
    decreases s.ttr[s.running[p][0]]
  {
    hide Returned, FirstThread, NoDup;
    var t := s.running[p][0];
    var k := Turns(s.ttr[t], e.ns);
    TurnIs(s, e, p);
    if s.ttr[t] <= e.ns {
      assert Run(s, e, 1) == Run(Turn(s, e), e, 0);
    } else {
      var s1 := Turn(s, e);
      Served(s1, e, p);
      assert s1.ttr[t := e.slice[t]] == s.ttr[t := e.slice[t]];
      forall i | 0 <= i < k ensures Returned(s, e, i) == t {
        if i > 0 {
          RunStep(s, e, i);
        }
      }
    }
  }

  // ------------------------------------------------------------ the wait of the thread at position j

  lemma {:induction false} SumSame(ts: seq<Thread>, ttr: map<Thread, int>, ttr': map<Thread, int>, ns: int)
    requires ns > 0 && forall i :: 0 <= i < |ts| ==> ts[i] in ttr && ts[i] in ttr' && ttr[ts[i]] == ttr'[ts[i]]
    ensures SumTurns(ts, ttr, ns) == SumTurns(ts, ttr', ns)
  {
    if ts != [] {
      SumSame(ts[1..], ttr, ttr', ns);
    }
  }

  /** With the first thread gone to the back of the same or a lower queue, the others have moved up. */
  lemma MovedUp(s: State, e: Env, p: nat)
    requires TopIs(s, e, p) && |s.running[p]| > 1 && e.prio[s.running[p][0]] <= p
    ensures var s1 := ToBack(s, e, p);
            && TopIs(s1, e, p)
            && s.running[p][1..] == s1.running[p][..|s.running[p]| - 1]
            && s1.running[p] == s.running[p][1..] + (if e.prio[s.running[p][0]] == p then [s.running[p][0]] else [])
            && forall i :: 1 <= i < |s.running[p]| ==> s1.ttr[s.running[p][i]] == s.ttr[s.running[p][i]]
  {
  }

  /**
    If no thread ahead of it has a priority above its queue, the thread at position j is returned
    first by the call numbered with the sum of the turns of the threads ahead of it.
   */
  lemma {:induction false} FirstReturn(s: State, e: Env, p: nat, j: nat)
    requires TopIs(s, e, p) && j < |s.running[p]| && forall i :: 0 <= i < j ==> e.prio[s.running[p][i]] <= p
    ensures var w := SumTurns(s.running[p][..j], s.ttr, e.ns);
            && Returned(s, e, w) == s.running[p][j]
            && forall k :: 0 <= k < w ==> Returned(s, e, k) != s.running[p][j]
    decreases j
  {
    hide Returned, Run, Turn, FirstThread, ToBack, NoDup;
    var q := s.running[p];
    if j == 0 {
      TurnIs(s, e, p);
    } else {
      var s1, k0 := ToBack(s, e, p), Turns(s.ttr[q[0]], e.ns);
      Served(s, e, p);
      MovedUp(s, e, p);
      var q1 := s1.running[p];
      assert forall i :: 0 <= i < |q| - 1 ==> q1[i] == q[i + 1];
      FirstReturn(s1, e, p, j - 1);
      assert q[..j][1..] == q1[..j - 1];
      var w1 := SumTurns(q1[..j - 1], s1.ttr, e.ns);
      SumSame(q1[..j - 1], s1.ttr, s.ttr, e.ns);
      assert SumTurns(q[..j], s.ttr, e.ns) == k0 + w1;
      ReturnedAdd(s, e, k0, w1);
      forall k | 0 <= k < k0 + w1 ensures Returned(s, e, k) != q[j] {
        if k >= k0 {
          ReturnedAdd(s, e, k0, k - k0);
        } else {
          Apart(q, j);
        }
      }
    }
  }

  lemma Apart(q: seq<Thread>, j: nat)
    requires NoDup(q) && 0 < j < |q|
    ensures q[0] != q[j]
  {
  }

  /** A thread alone in the queue of its own priority, with nothing above it, is returned for ever. */
  lemma {:induction false} Alone(s: State, e: Env, p: nat, t: Thread, n: nat)
    requires TopIs(s, e, p) && s.running[p] == [t] && Known(s, e, t) && e.prio[t] == p
    ensures Returned(s, e, n) == t
    decreases n
  {
    hide Returned, FirstThread;
    TurnIs(s, e, p);
    if n > 0 {
      RunStep(s, e, n);
      Alone(Turn(s, e), e, p, t, n - 1);
    }
  }

  /** A thread ahead with a higher priority moves up a queue and keeps the thread at position j from ever being returned. */
  lemma {:induction false} Starved(s: State, e: Env, p: nat, j: nat, i: nat, n: nat)
    requires TopIs(s, e, p) && i < j < |s.running[p]| && e.prio[s.running[p][i]] > p
    ensures Returned(s, e, n) != s.running[p][j]
    decreases j
  {
    hide Returned, Run, Turn, FirstThread, NoDup;
    var q := s.running[p];
    var t, k0 := q[0], Turns(s.ttr[q[0]], e.ns);
    Served(s, e, p);
    Apart(q, j);
    if n >= k0 {
      var s1 := ToBack(s, e, p);
      ReturnedAdd(s, e, k0, n - k0);
      if e.prio[t] > p {
        RaisedTop(s, e, p);
        Alone(s1, e, e.prio[t], t, n - k0);
      } else {
        MovedUp(s, e, p);
        assert s1.running[p][j - 1] == q[j] && s1.running[p][i - 1] == q[i];
        Starved(s1, e, p, j - 1, i - 1, n - k0);
      }
    }
  }

  lemma RaisedTop(s: State, e: Env, p: nat)
    requires TopIs(s, e, p) && e.prio[s.running[p][0]] > p
    ensures var t := s.running[p][0]; TopIs(ToBack(s, e, p), e, e.prio[t]) && ToBack(s, e, p).running[e.prio[t]] == [t]
  {
  }

  /** The thread at position j is ever returned if and only if no thread ahead of it has a higher priority. */
  lemma BoundedWaiting(s: State, e: Env, p: nat, j: nat)
    requires TopIs(s, e, p) && j < |s.running[p]|
    ensures (exists n :: Returned(s, e, n) == s.running[p][j])
       <==> (forall i :: 0 <= i < j ==> e.prio[s.running[p][i]] <= p)
  {
    hide Returned;
    if forall i :: 0 <= i < j ==> e.prio[s.running[p][i]] <= p {
      FirstReturn(s, e, p, j);
    } else {
      var i :| 0 <= i < j && e.prio[s.running[p][i]] > p;
      forall n ensures Returned(s, e, n) != s.running[p][j] {
        Starved(s, e, p, j, i, n);
      }
    }
  }

  // ------------------------------------------------------------ full rotations

  ghost function Trace(s: State, e: Env, n: nat): seq<Thread?>
    decreases n
  {
    if n == 0 then [] else [Returned(s, e, 0)] + Trace(Turn(s, e), e, n - 1)
  }

  lemma {:induction false} TraceAdd(s: State, e: Env, n: nat, m: nat)
    ensures Trace(s, e, n + m) == Trace(s, e, n) + Trace(Run(s, e, n), e, m)
    decreases n
  {
    hide Returned, Turn;
    if n > 0 {
      TraceAdd(Turn(s, e), e, n - 1, m);
    }
  }

  function Times(t: Thread, n: nat): seq<Thread?> {
    if n == 0 then [] else [t] + Times(t, n - 1)
  }

  /** Each thread in turn, for as many calls as it has turns. */
  ghost function Shifts(ts: seq<Thread>, ttr: map<Thread, int>, ns: int): seq<Thread?>
    requires ns > 0 && forall i :: 0 <= i < |ts| ==> ts[i] in ttr
  {
    if ts == [] then [] else Times(ts[0], Turns(ttr[ts[0]], ns)) + Shifts(ts[1..], ttr, ns)
  }

  ghost function Renewed(ttr: map<Thread, int>, ts: seq<Thread>, slice: map<Thread, int>): map<Thread, int>
    decreases |ts|
  {
    if ts == [] then ttr else Renewed(if ts[0] in slice then ttr[ts[0] := slice[ts[0]]] else ttr, ts[1..], slice)
  }

  lemma {:induction false} TraceTimes(s: State, e: Env, n: nat, t: Thread)
    requires forall i :: 0 <= i < n ==> Returned(s, e, i) == t
    ensures Trace(s, e, n) == Times(t, n)
    decreases n
  {
    hide Returned, Turn;
    if n > 0 {
      forall i | 0 <= i < n - 1 ensures Returned(Turn(s, e), e, i) == t {
        RunStep(s, e, i + 1);
      }
      TraceTimes(Turn(s, e), e, n - 1, t);
    }
  }

  lemma {:induction false} ShiftsSame(ts: seq<Thread>, ttr: map<Thread, int>, ttr': map<Thread, int>, ns: int)
    requires ns > 0 && forall i :: 0 <= i < |ts| ==> ts[i] in ttr && ts[i] in ttr' && ttr[ts[i]] == ttr'[ts[i]]
    ensures Shifts(ts, ttr, ns) == Shifts(ts, ttr', ns)
  {
    if ts != [] {
      ShiftsSame(ts[1..], ttr, ttr', ns);
    }
  }

  /** After the turns of the first j threads the queue has rotated by j and nothing else has moved. */
  lemma {:induction false} Rotated(s: State, e: Env, p: nat, j: nat)
    requires TopIs(s, e, p) && j <= |s.running[p]| && forall i :: 0 <= i < |s.running[p]| ==> e.prio[s.running[p][i]] == p
    ensures var q := s.running[p]; var w := SumTurns(q[..j], s.ttr, e.ns);
            && Run(s, e, w) == State(s.running[p := q[j..] + q[..j]], Renewed(s.ttr, q[..j], e.slice))
            && Trace(s, e, w) == Shifts(q[..j], s.ttr, e.ns)
    decreases j
  {
    hide Returned, Turn, FirstThread, NoDup;
    var q := s.running[p];
    if j == 0 {
      assert q[0..] + q[..0] == q && s.running[p := q] == s.running;
    } else {
      var s1, k0 := ToBack(s, e, p), Turns(s.ttr[q[0]], e.ns);
      Served(s, e, p);
      TraceTimes(s, e, k0, q[0]);
      var q1 := q[1..] + [q[0]];
      RotatedOnce(s, e, p);
      Rotated(s1, e, p, j - 1);
      assert q1[..j - 1] == q[..j][1..] && q1[j - 1..] + q1[..j - 1] == q[j..] + q[..j];
      Untouched(s, e, p, j);
      SumSame(q[..j][1..], s1.ttr, s.ttr, e.ns);
      ShiftsSame(q[..j][1..], s1.ttr, s.ttr, e.ns);
      var w1 := SumTurns(q1[..j - 1], s1.ttr, e.ns);
      RunAdd(s, e, k0, w1);
      TraceAdd(s, e, k0, w1);
      assert s1.running[p := q[j..] + q[..j]] == s.running[p := q[j..] + q[..j]];
    }
  }

  lemma RotatedOnce(s: State, e: Env, p: nat)
    requires TopIs(s, e, p) && forall i :: 0 <= i < |s.running[p]| ==> e.prio[s.running[p][i]] == p
    ensures var s1 := ToBack(s, e, p); var q := s.running[p];
            && s1.running == s.running[p := q[1..] + [q[0]]] && TopIs(s1, e, p)
            && forall i :: 0 <= i < |q| ==> e.prio[(q[1..] + [q[0]])[i]] == p
  {
    var q := s.running[p];
    var q1 := q[1..] + [q[0]];
    forall i | 0 <= i < |q| ensures q1[i] in q { }
  }

  lemma Untouched(s: State, e: Env, p: nat, j: nat)
    requires TopIs(s, e, p) && 0 < j <= |s.running[p]|
    ensures var rest := s.running[p][..j][1..];
            forall i :: 0 <= i < |rest| ==> rest[i] in s.ttr && rest[i] in ToBack(s, e, p).ttr
                                            && s.ttr[rest[i]] == ToBack(s, e, p).ttr[rest[i]]
  {
    var rest := s.running[p][..j][1..];
    forall i | 0 <= i < |rest|
      ensures rest[i] in s.ttr && rest[i] in ToBack(s, e, p).ttr && s.ttr[rest[i]] == ToBack(s, e, p).ttr[rest[i]]
    {
      assert rest[i] == s.running[p][i + 1] && Known(s, e, s.running[p][i + 1]);
    }
  }

  /**
    One rotation returns every thread of the queue for its turns and leaves every slice full; the
    threads whose queue it is are in it as before, the others have gone to the lower queues.
   */
  lemma FullRotation(s: State, e: Env, p: nat)
    requires TopIs(s, e, p) && forall i :: 0 <= i < |s.running[p]| ==> e.prio[s.running[p][i]] <= p
    ensures var q := s.running[p]; var w := SumTurns(q, s.ttr, e.ns); var s' := Run(s, e, w);
            && |s'.running| == |s.running| && s'.running[p] == Stay(q, e.prio, p) && Trace(s, e, w) == Shifts(q, s.ttr, e.ns)
            && (forall i :: 0 <= i < |q| ==> q[i] in s'.ttr && s'.ttr[q[i]] == e.slice[q[i]])
            && ((forall i :: 0 <= i < |q| ==> e.prio[q[i]] == p) ==> s'.running == s.running)
  {
    hide Returned, Turn, Run, Trace, NoDup, Shifts;
    var q := s.running[p];
    assert q[..|q|] == q && q[|q|..] == [] && q[|q|..] + q[..|q|] == q;
    Pass(s, e, p, |q|);
    RenewedAll(s, e, p);
    if forall i :: 0 <= i < |q| ==> e.prio[q[i]] == p {
      Rotated(s, e, p, |q|);
      assert s.running[p := q] == s.running;
    }
  }

  lemma RenewedAll(s: State, e: Env, p: nat)
    requires TopIs(s, e, p)
    ensures var q := s.running[p]; var ttr := Renewed(s.ttr, q, e.slice);
            forall i :: 0 <= i < |q| ==> q[i] in ttr && q[i] in e.slice && ttr[q[i]] == e.slice[q[i]]
  {
    forall i | 0 <= i < |s.running[p]|
      ensures s.running[p][i] in e.slice && s.running[p][i] in Renewed(s.ttr, s.running[p], e.slice)
      ensures Renewed(s.ttr, s.running[p], e.slice)[s.running[p][i]] == e.slice[s.running[p][i]]
    {
      assert Known(s, e, s.running[p][i]);
      RenewedAt(s.ttr, s.running[p], e.slice, i);
    }
  }

  lemma {:induction false} RenewedAt(ttr: map<Thread, int>, ts: seq<Thread>, slice: map<Thread, int>, i: nat)
    requires i < |ts| && ts[i] in slice
    ensures ts[i] in Renewed(ttr, ts, slice) && Renewed(ttr, ts, slice)[ts[i]] == slice[ts[i]]
    decreases |ts|
  {
    var ttr1 := if ts[0] in slice then ttr[ts[0] := slice[ts[0]]] else ttr;
    if i > 0 {
      RenewedAt(ttr1, ts[1..], slice, i - 1);
    } else {
      RenewedKeeps(ttr1, ts[1..], slice, ts[0]);
    }
  }

  lemma {:induction false} RenewedKeeps(ttr: map<Thread, int>, ts: seq<Thread>, slice: map<Thread, int>, t: Thread)
    requires t in ttr && t in slice && ttr[t] == slice[t]
    ensures t in Renewed(ttr, ts, slice) && Renewed(ttr, ts, slice)[t] == slice[t]
    decreases |ts|
  {
    if ts != [] {
      RenewedKeeps(if ts[0] in slice then ttr[ts[0] := slice[ts[0]]] else ttr, ts[1..], slice, t);
    }
  }

  lemma {:induction false} TimesCount(t: Thread, n: nat, x: Thread)
    ensures multiset(Times(t, n))[x] == if x == t then n else 0
  {
    if n > 0 {
      TimesCount(t, n - 1, x);
    }
  }

  /** In a rotation each thread is returned exactly as often as it has turns, and no other thread is. */
  lemma {:induction false} ShiftsCount(ts: seq<Thread>, ttr: map<Thread, int>, ns: int, x: Thread)
    requires ns > 0 && (forall i :: 0 <= i < |ts| ==> ts[i] in ttr) && NoDup(ts)
    ensures multiset(Shifts(ts, ttr, ns))[x] == if x in ts then Turns(ttr[x], ns) else 0
  {
    if ts != [] {
      ShiftsCount(ts[1..], ttr, ns, x);
      TimesCount(ts[0], Turns(ttr[ts[0]], ns), x);
      assert x in ts <==> x == ts[0] || x in ts[1..];
      assert ts[0] !in ts[1..];
    }
  }

  // ------------------------------------------------------------ every later rotation

  /** The threads whose own queue this is. */
  function Stay(ts: seq<Thread>, prio: map<Thread, int>, p: int): seq<Thread> {
    if ts == [] then []
    else (if ts[0] in prio && prio[ts[0]] == p then [ts[0]] else []) + Stay(ts[1..], prio, p)
  }

  lemma {:induction false} StayIs(ts: seq<Thread>, prio: map<Thread, int>, p: int)
    requires NoDup(ts)
    ensures var r := Stay(ts, prio, p);
            NoDup(r) && forall i :: 0 <= i < |r| ==> r[i] in ts && r[i] in prio && prio[r[i]] == p
  {
    if ts != [] {
      StayIs(ts[1..], prio, p);
      var rest := Stay(ts[1..], prio, p);
      assert forall i :: 0 <= i < |rest| ==> rest[i] in ts[1..];
      assert ts[0] !in ts[1..];
    }
  }

  /** The first j threads have had their turns: those whose queue it is are at its end, the others in lower queues. */
  ghost predicate Passed(s: State, e: Env, p: nat, j: nat, r: State, trace: seq<Thread?>)
    requires TopIs(s, e, p) && j <= |s.running[p]|
  {
    var q := s.running[p];
    && |r.running| == |s.running| && r.running[p] == q[j..] + Stay(q[..j], e.prio, p)
    && (forall h :: p < h < |r.running| ==> r.running[h] == [])
    && r.ttr == Renewed(s.ttr, q[..j], e.slice) && trace == Shifts(q[..j], s.ttr, e.ns)
  }

  /** That is the case after the turns they have, if no priority is above the queue. */
  lemma {:induction false} Pass(s: State, e: Env, p: nat, j: nat)
    requires TopIs(s, e, p) && 0 < j <= |s.running[p]| && forall i :: 0 <= i < |s.running[p]| ==> e.prio[s.running[p][i]] <= p
    ensures var w := SumTurns(s.running[p][..j], s.ttr, e.ns); Passed(s, e, p, j, Run(s, e, w), Trace(s, e, w))
    decreases j
  {
    hide Returned, Turn, FirstThread, NoDup, SumTurns, Shifts, Turns, Stay, Trace, Run, Times, ToBack, Passed;
    var q := s.running[p];
    var s1, k0 := ToBack(s, e, p), Turns(s.ttr[q[0]], e.ns);
    Served(s, e, p);
    TraceTimes(s, e, k0, q[0]);
    SumUnfold(s, e, p, j);
    if j == 1 {
      PassFirst(s, e, p);
    } else {
      MovedUp(s, e, p);
      forall i | 0 <= i < |s1.running[p]| ensures e.prio[s1.running[p][i]] <= p { assert s1.running[p][i] in q; }
      Pass(s1, e, p, j - 1);
      var w1 := SumTurns(s1.running[p][..j - 1], s1.ttr, e.ns);
      PassNext(s, e, p, j, Run(s1, e, w1), Trace(s1, e, w1));
      RunAdd(s, e, k0, w1);
      TraceAdd(s, e, k0, w1);
    }
  }

  lemma SumUnfold(s: State, e: Env, p: nat, j: nat)
    requires TopIs(s, e, p) && 0 < j <= |s.running[p]| && e.prio[s.running[p][0]] <= p
    ensures var q := s.running[p]; var s1, w := ToBack(s, e, p), SumTurns(q[..j], s.ttr, e.ns);
            && (j == 1 ==> w == Turns(s.ttr[q[0]], e.ns))
            && (j > 1 ==> TopIs(s1, e, p) && j - 1 <= |s1.running[p]|
                          && w == Turns(s.ttr[q[0]], e.ns) + SumTurns(s1.running[p][..j - 1], s1.ttr, e.ns))
  {
    hide NoDup, SumTurns, Shifts, Turns, Stay, Times, ToBack, Renewed;
    PassUnfold(s, e, p, j);
    if j > 1 {
      MovedUp(s, e, p);
      Untouched(s, e, p, j);
      Ahead(s, e, p, j);
      SumSame(s.running[p][1..j], ToBack(s, e, p).ttr, s.ttr, e.ns);
    }
  }

  lemma Ahead(s: State, e: Env, p: nat, j: nat)
    requires TopIs(s, e, p) && 1 < j <= |s.running[p]| && e.prio[s.running[p][0]] <= p
    ensures var q, q1 := s.running[p], ToBack(s, e, p).running[p];
            |q1| >= j - 1 && q1[..j - 1] == q[1..j] == q[..j][1..]
            && q1[j - 1..] == q[j..] + (if e.prio[q[0]] == p then [q[0]] else [])
  {
    hide NoDup, ToBack;
    MovedUp(s, e, p);
  }

  lemma PassFirst(s: State, e: Env, p: nat)
    requires TopIs(s, e, p) && e.prio[s.running[p][0]] <= p
    ensures var t := s.running[p][0]; Passed(s, e, p, 1, ToBack(s, e, p), Times(t, Turns(s.ttr[t], e.ns)))
  {
    hide NoDup, SumTurns, Shifts, Turns, Stay, Times, ToBack, Renewed;
    PassUnfold(s, e, p, 1);
    PassOne(s, e, p);
  }

  lemma PassNext(s: State, e: Env, p: nat, j: nat, r: State, trace: seq<Thread?>)
    requires TopIs(s, e, p) && 1 < j <= |s.running[p]| && e.prio[s.running[p][0]] <= p
    requires TopIs(ToBack(s, e, p), e, p) && j - 1 <= |ToBack(s, e, p).running[p]| && Passed(ToBack(s, e, p), e, p, j - 1, r, trace)
    ensures var t := s.running[p][0]; Passed(s, e, p, j, r, Times(t, Turns(s.ttr[t], e.ns)) + trace)
  {
    hide NoDup, SumTurns, Shifts, Turns, Stay, Times, ToBack, Renewed;
    var q, s1 := s.running[p], ToBack(s, e, p);
    PassUnfold(s, e, p, j);
    PassOne(s, e, p);
    Ahead(s, e, p, j);
    Untouched(s, e, p, j);
    ShiftsSame(q[1..j], s1.ttr, s.ttr, e.ns);
    var own := if e.prio[q[0]] == p then [q[0]] else [];
    assert (q[j..] + own) + Stay(q[1..j], e.prio, p) == q[j..] + (own + Stay(q[1..j], e.prio, p));
  }

  lemma PassOne(s: State, e: Env, p: nat)
    requires TopIs(s, e, p) && e.prio[s.running[p][0]] <= p
    ensures var q := s.running[p]; var r := ToBack(s, e, p);
            && |r.running| == |s.running| && r.running[p] == q[1..] + (if e.prio[q[0]] == p then [q[0]] else [])
            && (forall h :: p < h < |r.running| ==> r.running[h] == [])
            && r.ttr == s.ttr[q[0] := e.slice[q[0]]]
  {
    assert Known(s, e, s.running[p][0]);
  }

  lemma PassUnfold(s: State, e: Env, p: nat, j: nat)
    requires TopIs(s, e, p) && 0 < j <= |s.running[p]|
    ensures var q := s.running[p]; var ts, more, k0 := q[..j], q[1..j], Turns(s.ttr[q[0]], e.ns);
            && (forall i :: 0 <= i < |more| ==> more[i] in s.ttr) && more == ts[1..]
            && SumTurns(ts, s.ttr, e.ns) == k0 + SumTurns(more, s.ttr, e.ns)
            && Shifts(ts, s.ttr, e.ns) == Times(q[0], k0) + Shifts(more, s.ttr, e.ns)
            && Renewed(s.ttr, ts, e.slice) == Renewed(s.ttr[q[0] := e.slice[q[0]]], more, e.slice)
            && Stay(ts, e.prio, p) == (if e.prio[q[0]] == p then [q[0]] else []) + Stay(more, e.prio, p)
            && (j == 1 ==> SumTurns(more, s.ttr, e.ns) == 0 && Shifts(more, s.ttr, e.ns) == [] && Stay(more, e.prio, p) == []
                           && Renewed(s.ttr[q[0] := e.slice[q[0]]], more, e.slice) == s.ttr[q[0] := e.slice[q[0]]])
  {
    var q := s.running[p];
    forall i | 0 <= i < j ensures Known(s, e, q[i]) { }
    assert q[..j][1..] == q[1..j] && q[..j][0] == q[0];
    assert j == 1 ==> q[1..j] == [];
  }

  /** A rotation: the calls it takes, and the state after it. */
  ghost function Period(s: State, e: Env, p: nat): nat {
    if TopIs(s, e, p) then SumTurns(s.running[p], s.ttr, e.ns) else 0
  }

  ghost function Rotations(s: State, e: Env, p: nat, m: nat): State
    decreases m
  {
    if m == 0 then s else Rotations(Run(s, e, Period(s, e, p)), e, p, m - 1)
  }

  /** The number of the call with which rotation m, counted from 0, begins. */
  ghost function Begins(s: State, e: Env, p: nat, m: nat): nat
    decreases m
  {
    if m == 0 then 0 else Period(s, e, p) + Begins(Run(s, e, Period(s, e, p)), e, p, m - 1)
  }

  lemma {:induction false} RotationsAreRuns(s: State, e: Env, p: nat, m: nat)
    ensures Rotations(s, e, p, m) == Run(s, e, Begins(s, e, p, m))
    decreases m
  {
    hide Period;
    if m > 0 {
      var s1 := Run(s, e, Period(s, e, p));
      RotationsAreRuns(s1, e, p, m - 1);
      RunAdd(s, e, Period(s, e, p), Begins(s1, e, p, m - 1));
    }
  }

  /** The queue holds the threads whose queue it is, with full slices. */
  ghost predicate Settled(s: State, e: Env, p: nat, q: seq<Thread>) {
    TopIs(s, e, p) && s.running[p] == q && forall i :: 0 <= i < |q| ==> e.prio[q[i]] == p && s.ttr[q[i]] == e.slice[q[i]]
  }

  /** The first rotation settles the queue. */
  lemma FirstRotation(s: State, e: Env, p: nat)
    requires TopIs(s, e, p) && (forall i :: 0 <= i < |s.running[p]| ==> e.prio[s.running[p][i]] <= p)
    requires Stay(s.running[p], e.prio, p) != []
    ensures Settled(Run(s, e, Period(s, e, p)), e, p, Stay(s.running[p], e.prio, p))
  {
    hide Run, Trace, Shifts;
    var q := s.running[p];
    var r := Stay(q, e.prio, p);
    assert q[..|q|] == q && q[|q|..] == [];
    Pass(s, e, p, |q|);
    StayIs(q, e.prio, p);
    RenewedAll(s, e, p);
    var s1 := Run(s, e, Period(s, e, p));
    assert s1.running[p] == r;
    forall i | 0 <= i < |r| ensures Known(s1, e, r[i]) && s1.ttr[r[i]] == e.slice[r[i]] {
      var k :| 0 <= k < |q| && q[k] == r[i];
      assert Known(s, e, q[k]);
    }
  }

  lemma {:induction false} StaysSettled(s: State, e: Env, p: nat, q: seq<Thread>, m: nat)
    requires Settled(s, e, p, q)
    ensures Settled(Rotations(s, e, p, m), e, p, q)
    decreases m
  {
    if m > 0 {
      StayAll(q, e.prio, p);
      forall i | 0 <= i < |q| ensures e.prio[q[i]] <= p { assert e.prio[q[i]] == p; }
      FirstRotation(s, e, p);
      hide Settled, Run, Period;
      StaysSettled(Run(s, e, Period(s, e, p)), e, p, q, m - 1);
    }
  }

  lemma {:induction false} StayAll(ts: seq<Thread>, prio: map<Thread, int>, p: int)
    requires forall i :: 0 <= i < |ts| ==> ts[i] in prio && prio[ts[i]] == p
    ensures Stay(ts, prio, p) == ts
  {
    if ts != [] {
      StayAll(ts[1..], prio, p);
    }
  }

  /**
    In every rotation after the first, each thread whose queue this is is returned its slice
    divided by `ns`, rounded up, times, and no other thread is returned.
   */
  lemma LaterRotation(s: State, e: Env, p: nat, m: nat, t: Thread)
    requires TopIs(s, e, p) && (forall i :: 0 <= i < |s.running[p]| ==> e.prio[s.running[p][i]] <= p)
    requires var q := Stay(s.running[p], e.prio, p); q != [] && m > 0
    ensures var q := Stay(s.running[p], e.prio, p); var s' := Run(s, e, Begins(s, e, p, m));
            && TopIs(s', e, p) && s'.running[p] == q
            && (t !in q ==> multiset(Trace(s', e, Period(s', e, p)))[t] == 0)
            && (t in q ==> t in e.slice && var n := multiset(Trace(s', e, Period(s', e, p)))[t];
                           n == Turns(e.slice[t], e.ns) && (e.slice[t] > 0 ==> (n - 1) * e.ns < e.slice[t] <= n * e.ns))
  {
    hide Run, Trace, Begins, Turns, Shifts;
    var q := Stay(s.running[p], e.prio, p);
    var s1 := Run(s, e, Period(s, e, p));
    FirstRotation(s, e, p);
    StaysSettled(s1, e, p, q, m - 1);
    var s' := Rotations(s, e, p, m);
    assert s' == Rotations(s1, e, p, m - 1);
    RotationsAreRuns(s, e, p, m);
    SettledTrace(s', e, p, q);
    ShiftsCount(q, s'.ttr, e.ns, t);
    if t in q {
      var i :| 0 <= i < |q| && q[i] == t;
      assert Known(s', e, q[i]);
      if e.slice[t] > 0 {
        TurnsIsCeiling(e.slice[t], e.ns);
      }
    }
  }

  lemma SettledTrace(s: State, e: Env, p: nat, q: seq<Thread>)
    requires Settled(s, e, p, q)
    ensures Trace(s, e, Period(s, e, p)) == Shifts(q, s.ttr, e.ns)
  {
    hide Run, Trace, Shifts;
    assert q[..|q|] == q;
    forall i | 0 <= i < |q| ensures e.prio[q[i]] <= p { assert e.prio[q[i]] == p; }
    Pass(s, e, p, |q|);
  }

  // ------------------------------------------------------------ the scheduler takes these turns

  function StateOf(q: Queues): State {
    State(q.running, q.ttr)
  }

  ghost predicate AllKnown(q: Queues, e: Env) {
    Placed(q) && forall t :: t in q.loc ==> Known(StateOf(q), e, t)
  }

  /** One call of `_GetNextThread` is one turn. */
  lemma TickIsTurn(q: Queues, e: Env)
    requires AllKnown(q, e)
    ensures StateOf(Tick(q, e.prio, e.slice, e.ns)) == Turn(StateOf(q), e) && AllKnown(Tick(q, e.prio, e.slice, e.ns), e)
  {
    hide Lists, Rescheduled;
    var t := FirstThread(q.running, |q.running|);
    TickPlaced(q, e.prio, e.slice, e.ns);
    if t != null {
      var p :| 0 <= p < |q.running| && q.running[p] != [] && q.running[p][0] == t && forall h :: p < h < |q.running| ==> q.running[h] == [];
      TopFirst(q.running, p, |q.running|);
      HeadPlace(q, p);
      RescheduledHead(q, p, e.prio[t], e.slice[t]);
    }
  }

  lemma HeadPlace(q: Queues, p: nat)
    requires Placed(q) && p < |q.running| && q.running[p] != []
    ensures q.running[p][0] in q.loc && q.loc[q.running[p][0]] == p && NoDup(q.running[p])
  {
    assert Lists(q.loc, q.running[p], p);
  }

  lemma RescheduledHead(q: Queues, p: nat, priority: int, slice: int)
    requires p < |q.running| && q.running[p] != [] && NoDup(q.running[p]) && 0 <= priority < |q.running|
    requires q.running[p][0] in q.loc && q.loc[q.running[p][0]] == p
    ensures var t := q.running[p][0]; var r := Rescheduled(q, t, priority, slice);
            var rest := q.running[p := q.running[p][1..]];
            && r.running == rest[priority := rest[priority] + [t]] && r.ttr == q.ttr[t := slice] && r.loc.Keys == q.loc.Keys
  {
    WithoutAt(q.running[p], 0);
  }

  ghost function Ticks(q: Queues, e: Env, n: nat): Queues
    decreases n
  {
    if n == 0 then q else Ticks(Tick(q, e.prio, e.slice, e.ns), e, n - 1)
  }

  lemma {:induction false} TicksAreRun(q: Queues, e: Env, n: nat)
    requires AllKnown(q, e)
    ensures StateOf(Ticks(q, e, n)) == Run(StateOf(q), e, n)
    decreases n
  {
    hide AllKnown, Turn, Tick;
    if n > 0 {
      TickIsTurn(q, e);
      TicksAreRun(Tick(q, e.prio, e.slice, e.ns), e, n - 1);
    }
  }

  /** With no blocked thread ready, the scan before each call changes nothing. */
  lemma {:induction false} NothingToWake(q: Queues, i: nat, ready: set<Thread>, e: Env)
    requires Placed(q) && i <= |q.blocking| && Settings(e.prio, e.slice, ready, |q.running|)
    requires forall t :: t in q.blocking ==> t !in ready
    ensures WakeFrom(q, i, ready, e.prio, e.slice) == q
    decreases |q.blocking| - i
  {
    if i < |q.blocking| {
      NothingToWake(q, i + 1, ready, e);
    }
  }

  /** The thread a call chooses: the first one after the scan. */
  ghost function Chosen(k: Kernel): Thread?
    requires Consistent(k)
  {
    ReadySettings(k);
    var woken := WakeFrom(k.q, 0, Ready(k), k.prio, k.slice);
    FirstThread(woken.running, |woken.running|)
  }

  ghost function Advances(k: Kernel, ns: int, n: nat): (r: Kernel)
    requires Consistent(k)
    ensures Consistent(r)
    decreases n
  {
    if n == 0 then k
    else
      AdvanceConsistent(k, ns);
      Advances(Advance(k, ns), ns, n - 1)
  }

  /** With no blocked thread ready a call is a turn, and leaves none ready. */
  lemma QuietAdvance(k: Kernel, ns: int)
    requires Consistent(k) && Ready(k) == {} && AllKnown(k.q, Env(k.prio, k.slice, ns))
    ensures Advance(k, ns) == k.(q := Tick(k.q, k.prio, k.slice, ns)) && Ready(Advance(k, ns)) == {}
    ensures Chosen(k) == FirstThread(k.q.running, |k.q.running|)
  {
    hide Over, WakeFrom, Rescheduled;
    ReadySettings(k);
    NothingToWake(k.q, 0, {}, Env(k.prio, k.slice, ns));
    BlockedStay(k.q, k.prio, k.slice, ns);
  }

  lemma BlockedStay(q: Queues, prio: map<Thread, int>, slice: map<Thread, int>, ns: int)
    requires Placed(q) && forall t :: t in q.loc ==> t in prio && 0 <= prio[t] < |q.running|
    ensures var r := Tick(q, prio, slice, ns);
            r.loc.Keys == q.loc.Keys && forall t :: t in r.loc && r.loc[t] == LOC_BLOCKING ==> q.loc[t] == LOC_BLOCKING
  {
    hide Without;
    TickKeys(q, prio, slice, ns);
  }

  /** Repeated calls are repeated turns. */
  lemma {:induction false} AdvancesAreTicks(k: Kernel, ns: int, n: nat)
    requires Consistent(k) && Ready(k) == {} && AllKnown(k.q, Env(k.prio, k.slice, ns))
    ensures Advances(k, ns, n).q == Ticks(k.q, Env(k.prio, k.slice, ns), n)
    ensures Chosen(Advances(k, ns, n)) == Returned(StateOf(k.q), Env(k.prio, k.slice, ns), n)
    decreases n
  {
    hide Consistent, Ready, AllKnown, Tick, Advance, FirstThread, Turn, Chosen;
    var e := Env(k.prio, k.slice, ns);
    QuietAdvance(k, ns);
    TickIsTurn(k.q, e);
    if n > 0 {
      AdvanceConsistent(k, ns);
      AdvancesAreTicks(Advance(k, ns), ns, n - 1);
      RunStep(StateOf(k.q), e, n);
    }
  }

  /**
    The bound for the scheduler's own calls, scan included: with no blocked thread ready, the
    thread at position j of the highest non-empty queue is chosen first by the call numbered
    with the sum of the turns ahead of it, if no thread ahead has a higher priority, and never
    otherwise.
   */
  lemma SchedulerBoundedWaiting(k: Kernel, ns: int, p: nat, j: nat)
    requires Consistent(k) && Ready(k) == {} && AllKnown(k.q, Env(k.prio, k.slice, ns))
    requires TopIs(StateOf(k.q), Env(k.prio, k.slice, ns), p) && j < |k.q.running[p]|
    ensures if forall i :: 0 <= i < j ==> k.prio[k.q.running[p][i]] <= p then
              var w := SumTurns(k.q.running[p][..j], k.q.ttr, ns);
              && Chosen(Advances(k, ns, w)) == k.q.running[p][j]
              && forall n: nat :: n < w ==> Chosen(Advances(k, ns, n)) != k.q.running[p][j]
            else forall n: nat :: Chosen(Advances(k, ns, n)) != k.q.running[p][j]
  {
    hide Consistent, Ready, AllKnown, Chosen, Advances, Returned;
    var e := Env(k.prio, k.slice, ns);
    forall n: nat ensures Chosen(Advances(k, ns, n)) == Returned(StateOf(k.q), e, n) {
      AdvancesAreTicks(k, ns, n);
    }
    if forall i :: 0 <= i < j ==> k.prio[k.q.running[p][i]] <= p {
      FirstReturn(StateOf(k.q), e, p, j);
    } else {
      BoundedWaiting(StateOf(k.q), e, p, j);
    }
  }
}
