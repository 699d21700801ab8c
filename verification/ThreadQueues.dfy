/**
  The scheduler's collections as values: which threads each holds and in what order, and what
  each operation of tysos/Scheduler.cs does to them.
 */
module ThreadQueues {
  import opened Events
  import opened Options

  datatype Queues = Queues(
    loc: map<Thread, int>,
    ttr: map<Thread, int>,
    running: seq<seq<Thread>>,
    sleeping: seq<Thread>,
    blocking: seq<Thread>)

  function Without(s: seq<Thread>, t: Thread): seq<Thread> {
    if s == [] then [] else if s[0] == t then s[1..] else [s[0]] + Without(s[1..], t)
  }

  /** The list holds exactly the threads located at `place`, each once. */
  ghost predicate Lists(loc: map<Thread, int>, s: seq<Thread>, place: int) {
    && NoDup(s)
    && (forall i :: 0 <= i < |s| ==> s[i] in loc && loc[s[i]] == place)
    && (forall t :: t in loc && loc[t] == place ==> t in s)
  }

  /** Each thread is exactly once in the collection its location names, and in no other. */
  ghost predicate Placed(q: Queues) {
    && (forall p :: 0 <= p < |q.running| ==> Lists(q.loc, q.running[p], p))
    && Lists(q.loc, q.sleeping, LOC_SLEEPING)
    && Lists(q.loc, q.blocking, LOC_BLOCKING)
    && (forall t :: t in q.loc ==> q.loc[t] < |q.running|)
  }

  // ------------------------------------------------------------ operations

  /** `_Release`: out of the collection the location names. */
  function Released(q: Queues, t: Thread): Queues {
    var place := if t in q.loc then q.loc[t] else LOC_RELEASED;
    q.(running := if 0 <= place < |q.running| then q.running[place := Without(q.running[place], t)] else q.running,
       sleeping := if place == LOC_SLEEPING then Without(q.sleeping, t) else q.sleeping,
       blocking := if place == LOC_BLOCKING then Without(q.blocking, t) else q.blocking,
       loc := q.loc[t := LOC_RELEASED])
  }

  /** `_Reschedule`: to the end of the queue of the thread's priority, with a full slice. */
  function Rescheduled(q: Queues, t: Thread, priority: int, slice: int): Queues
    requires 0 <= priority < |q.running|
  {
    var r := Released(q, t);
    r.(loc := r.loc[t := priority], ttr := r.ttr[t := slice],
       running := r.running[priority := r.running[priority] + [t]])
  }

  /** What is left when the priority has no queue: a location that names none of the collections the thread is in. */
  function Stray(q: Queues, t: Thread, priority: int, slice: int): Queues {
    var r := Released(q, t);
    r.(loc := r.loc[t := priority], ttr := r.ttr[t := slice])
  }

  function Blocked(q: Queues, t: Thread): Queues {
    var r := Released(q, t);
    r.(loc := r.loc[t := LOC_BLOCKING], blocking := r.blocking + [t])
  }

  /** `Sleep`: into the sleeping list, at the position its delay calls for. */
  function Asleep(q: Queues, t: Thread, pos: nat): Queues
    requires pos <= |Released(q, t).sleeping|
  {
    var r := Released(q, t);
    r.(loc := r.loc[t := LOC_SLEEPING], sleeping := r.sleeping[..pos] + [t] + r.sleeping[pos..])
  }

  // ------------------------------------------------------------ lists

  lemma {:induction false} WithoutIs(s: seq<Thread>, t: Thread)
    requires NoDup(s)
    ensures NoDup(Without(s, t)) && t !in Without(s, t)
    ensures forall x :: x in s && x != t ==> x in Without(s, t)
    ensures forall i :: 0 <= i < |Without(s, t)| ==> Without(s, t)[i] in s
    ensures t !in s ==> Without(s, t) == s
    ensures t in s ==> |Without(s, t)| == |s| - 1
  {
    if s != [] && s[0] != t {
      assert s == [s[0]] + s[1..];
      WithoutIs(s[1..], t);
      var r := Without(s[1..], t);
      assert forall i :: 0 <= i < |r| ==> r[i] in s[1..];
      assert s[0] !in s[1..];
    }
  }

  lemma Leaves1(loc: map<Thread, int>, s: seq<Thread>, place: int, t: Thread, other: int)
    requires Lists(loc, s, place) && other != place
    ensures Lists(loc[t := other], Without(s, t), place)
  {
    WithoutIs(s, t);
    var r := Without(s, t);
    forall i | 0 <= i < |r| ensures r[i] in loc[t := other] && loc[t := other][r[i]] == place {
      assert r[i] in s && r[i] in r;
    }
  }

  lemma Elsewhere(loc: map<Thread, int>, s: seq<Thread>, place: int, t: Thread, other: int)
    requires Lists(loc, s, place) && other != place && (t in loc ==> loc[t] != place)
    ensures Lists(loc[t := other], s, place)
  {
  }

  lemma Joins(loc: map<Thread, int>, s: seq<Thread>, place: int, t: Thread, pos: nat)
    requires Lists(loc, s, place) && (t in loc ==> loc[t] != place) && pos <= |s|
    ensures Lists(loc[t := place], s[..pos] + [t] + s[pos..], place)
  {
    var r := s[..pos] + [t] + s[pos..];
    forall x | x in s ensures x in r {
      var i :| 0 <= i < |s| && s[i] == x;
      assert r[if i < pos then i else i + 1] == x;
    }
    assert r[pos] == t;
  }

  // ------------------------------------------------------------ every operation keeps the invariant

  lemma ReleasedPlaced(q: Queues, t: Thread)
    requires Placed(q)
    ensures Placed(Released(q, t)) && t in Released(q, t).loc && Released(q, t).loc[t] == LOC_RELEASED
    ensures |Released(q, t).running| == |q.running|
  {
    hide Lists;
    var r := Released(q, t);
    var place := if t in q.loc then q.loc[t] else LOC_RELEASED;
    forall p | 0 <= p < |q.running| ensures Lists(r.loc, r.running[p], p) {
      if p == place {
        Leaves1(q.loc, q.running[p], p, t, LOC_RELEASED);
      } else {
        Elsewhere(q.loc, q.running[p], p, t, LOC_RELEASED);
      }
    }
    if place == LOC_SLEEPING {
      Leaves1(q.loc, q.sleeping, LOC_SLEEPING, t, LOC_RELEASED);
    } else {
      Elsewhere(q.loc, q.sleeping, LOC_SLEEPING, t, LOC_RELEASED);
    }
    if place == LOC_BLOCKING {
      Leaves1(q.loc, q.blocking, LOC_BLOCKING, t, LOC_RELEASED);
    } else {
      Elsewhere(q.loc, q.blocking, LOC_BLOCKING, t, LOC_RELEASED);
    }
  }

  lemma RescheduledPlaced(q: Queues, t: Thread, priority: int, slice: int)
    requires Placed(q) && 0 <= priority < |q.running|
    ensures Placed(Rescheduled(q, t, priority, slice))
  {
    hide Lists, Released;
    ReleasedPlaced(q, t);
    var r, s := Released(q, t), Rescheduled(q, t, priority, slice);
    forall p | 0 <= p < |s.running| ensures Lists(s.loc, s.running[p], p) {
      if p == priority {
        assert r.running[p][..|r.running[p]|] + [t] + r.running[p][|r.running[p]|..] == r.running[p] + [t];
        Joins(r.loc, r.running[p], p, t, |r.running[p]|);
      } else {
        Elsewhere(r.loc, r.running[p], p, t, priority);
      }
    }
    Elsewhere(r.loc, r.sleeping, LOC_SLEEPING, t, priority);
    Elsewhere(r.loc, r.blocking, LOC_BLOCKING, t, priority);
  }

  /** A priority without a queue breaks the invariant, unless its number stands for no collection at all. */
  lemma StrayPlaced(q: Queues, t: Thread, priority: int, slice: int)
    requires Placed(q) && !(0 <= priority < |q.running|)
    ensures Placed(Stray(q, t, priority, slice)) <==> priority < 0 && priority != LOC_SLEEPING && priority != LOC_BLOCKING
  {
    hide Released;
    ReleasedPlaced(q, t);
    var r, s := Released(q, t), Stray(q, t, priority, slice);
    assert t in s.loc && s.loc[t] == priority;
    assert t !in r.sleeping && t !in r.blocking by { Absent(r, t); }
    if priority < 0 && priority != LOC_SLEEPING && priority != LOC_BLOCKING {
      hide Lists;
      forall p | 0 <= p < |r.running| ensures Lists(s.loc, r.running[p], p) {
        Elsewhere(r.loc, r.running[p], p, t, priority);
      }
      Elsewhere(r.loc, r.sleeping, LOC_SLEEPING, t, priority);
      Elsewhere(r.loc, r.blocking, LOC_BLOCKING, t, priority);
    }
  }

  lemma Absent(q: Queues, t: Thread)
    requires Placed(q) && t in q.loc && q.loc[t] == LOC_RELEASED
    ensures t !in q.sleeping && t !in q.blocking
  {
  }

  lemma BlockedPlaced(q: Queues, t: Thread)
    requires Placed(q)
    ensures Placed(Blocked(q, t))
  {
    hide Lists, Released;
    ReleasedPlaced(q, t);
    var r := Released(q, t);
    forall p | 0 <= p < |r.running| ensures Lists(Blocked(q, t).loc, r.running[p], p) {
      Elsewhere(r.loc, r.running[p], p, t, LOC_BLOCKING);
    }
    Elsewhere(r.loc, r.sleeping, LOC_SLEEPING, t, LOC_BLOCKING);
    assert r.blocking[..|r.blocking|] + [t] + r.blocking[|r.blocking|..] == r.blocking + [t];
    Joins(r.loc, r.blocking, LOC_BLOCKING, t, |r.blocking|);
  }

  lemma AsleepPlaced(q: Queues, t: Thread, pos: nat)
    requires Placed(q) && pos <= |Released(q, t).sleeping|
    ensures Placed(Asleep(q, t, pos))
  {
    hide Lists, Released;
    ReleasedPlaced(q, t);
    var r := Released(q, t);
    forall p | 0 <= p < |r.running| ensures Lists(Asleep(q, t, pos).loc, r.running[p], p) {
      Elsewhere(r.loc, r.running[p], p, t, LOC_SLEEPING);
    }
    Elsewhere(r.loc, r.blocking, LOC_BLOCKING, t, LOC_SLEEPING);
    Joins(r.loc, r.sleeping, LOC_SLEEPING, t, pos);
  }

  // ------------------------------------------------------------ waking up

  /** What rescheduling needs to know of each thread. */
  ghost predicate Settings(prio: map<Thread, int>, slice: map<Thread, int>, ready: set<Thread>, levels: nat) {
    forall t :: t in ready ==> t in prio && t in slice && 0 <= prio[t] < levels
  }

  lemma WithoutAt(s: seq<Thread>, i: nat)
    requires NoDup(s) && i < |s|
    ensures Without(s, s[i]) == s[..i] + s[i + 1..]
    decreases i
  {
    if i > 0 {
      assert s[1..][i - 1] == s[i];
      WithoutAt(s[1..], i - 1);
      assert s[0] != s[i];
      assert s[1..][..i - 1] == s[1..i] && s[1..][i..] == s[i + 1..];
    }
  }

  lemma RescheduledBlocking(q: Queues, i: nat, priority: int, slice: int)
    requires Placed(q) && 0 <= priority < |q.running| && i < |q.blocking|
    ensures var t := q.blocking[i];
            Rescheduled(q, t, priority, slice) ==
              q.(loc := q.loc[t := priority], ttr := q.ttr[t := slice], blocking := q.blocking[..i] + q.blocking[i + 1..],
                 running := q.running[priority := q.running[priority] + [t]])
  {
    WithoutAt(q.blocking, i);
    assert q.loc[q.blocking[i] := LOC_RELEASED][q.blocking[i] := priority] == q.loc[q.blocking[i] := priority];
  }

  /** The scan of the blocked threads from position `i`: the ready ones are rescheduled in order. */
  ghost function WakeFrom(q: Queues, i: nat, ready: set<Thread>, prio: map<Thread, int>, slice: map<Thread, int>): Queues
    requires Placed(q) && i <= |q.blocking| && Settings(prio, slice, ready, |q.running|)
    decreases |q.blocking| - i
  {
    if i == |q.blocking| then q
    else
      var t := q.blocking[i];
      if t in ready then
        RescheduledPlaced(q, t, prio[t], slice[t]);
        RescheduledBlocking(q, i, prio[t], slice[t]);
        WakeFrom(Rescheduled(q, t, prio[t], slice[t]), i, ready, prio, slice)
      else WakeFrom(q, i + 1, ready, prio, slice)
  }

  function Kept(s: seq<Thread>, ready: set<Thread>): seq<Thread> {
    if s == [] then [] else (if s[0] in ready then [] else [s[0]]) + Kept(s[1..], ready)
  }

  function WokenAt(s: seq<Thread>, ready: set<Thread>, prio: map<Thread, int>, p: int): seq<Thread> {
    if s == [] then []
    else (if s[0] in ready && s[0] in prio && prio[s[0]] == p then [s[0]] else []) + WokenAt(s[1..], ready, prio, p)
  }

  /** Where each thread is after the threads of `rest` that are ready have been woken. */
  ghost predicate WokenLocations(loc: map<Thread, int>, r: map<Thread, int>, rest: seq<Thread>, ready: set<Thread>, prio: map<Thread, int>)
    requires forall t :: t in ready ==> t in prio
  {
    r.Keys == loc.Keys && forall t :: t in loc ==> r[t] == if t in rest && t in ready then prio[t] else loc[t]
  }

  /** The queues after them. */
  ghost predicate WokenQueues(running: seq<seq<Thread>>, r: seq<seq<Thread>>, rest: seq<Thread>, ready: set<Thread>, prio: map<Thread, int>) {
    |r| == |running| && forall p :: 0 <= p < |running| ==> r[p] == running[p] + WokenAt(rest, ready, prio, p)
  }

  /**
    From position `i` on, the threads that are not ready stay blocked, in order; the ready ones
    are appended to the queues of their priorities, in order; no other thread is touched.
   */
  ghost predicate Woken(q: Queues, i: nat, r: Queues, ready: set<Thread>, prio: map<Thread, int>)
    requires i <= |q.blocking| && forall t :: t in ready ==> t in prio
  {
    && r.sleeping == q.sleeping && r.blocking == q.blocking[..i] + Kept(q.blocking[i..], ready)
    && WokenLocations(q.loc, r.loc, q.blocking[i..], ready, prio)
    && WokenQueues(q.running, r.running, q.blocking[i..], ready, prio)
  }

  lemma LocationsStep(loc: map<Thread, int>, r: map<Thread, int>, rest: seq<Thread>, ready: set<Thread>, prio: map<Thread, int>)
    requires rest != [] && rest[0] !in rest[1..] && rest[0] in ready && rest[0] in loc && forall x :: x in ready ==> x in prio
    requires WokenLocations(loc[rest[0] := prio[rest[0]]], r, rest[1..], ready, prio)
    ensures WokenLocations(loc, r, rest, ready, prio)
  {
    var t := rest[0];
    assert rest == [t] + rest[1..];
    forall x | x in loc ensures r[x] == if x in rest && x in ready then prio[x] else loc[x] {
      assert x in loc[t := prio[t]] && (x in rest <==> x == t || x in rest[1..]);
    }
  }

  lemma QueuesStep(running: seq<seq<Thread>>, r: seq<seq<Thread>>, rest: seq<Thread>, ready: set<Thread>, prio: map<Thread, int>)
    requires rest != [] && rest[0] in ready && rest[0] in prio && 0 <= prio[rest[0]] < |running|
    requires WokenQueues(running[prio[rest[0]] := running[prio[rest[0]]] + [rest[0]]], r, rest[1..], ready, prio)
    ensures WokenQueues(running, r, rest, ready, prio)
  {
    var t := rest[0];
    forall p | 0 <= p < |r| ensures r[p] == running[p] + WokenAt(rest, ready, prio, p) {
      var more := WokenAt(rest[1..], ready, prio, p);
      assert r[p] == running[prio[t] := running[prio[t]] + [t]][p] + more;
      if p == prio[t] {
        assert WokenAt(rest, ready, prio, p) == [t] + more;
        assert (running[p] + [t]) + more == running[p] + ([t] + more);
      } else {
        assert WokenAt(rest, ready, prio, p) == [] + more;
      }
    }
  }

  lemma NotAgain(s: seq<Thread>, i: nat)
    requires NoDup(s) && i < |s|
    ensures s[i..] != [] && s[i..][0] == s[i] && s[i..][1..] == s[i + 1..] && s[i] !in s[i + 1..]
  {
  }

  lemma CutOut(s: seq<Thread>, i: nat, s': seq<Thread>)
    requires i < |s| && s' == s[..i] + s[i + 1..]
    ensures s'[..i] == s[..i] && s'[i..] == s[i + 1..]
  {
  }

  lemma WokenReady(q: Queues, q': Queues, i: nat, r: Queues, ready: set<Thread>, prio: map<Thread, int>)
    requires i < |q.blocking| && NoDup(q.blocking) && q.blocking[i] in ready && q.blocking[i] in q.loc
    requires forall t :: t in ready ==> t in prio && 0 <= prio[t] < |q.running|
    requires var t := q.blocking[i];
             && q'.loc == q.loc[t := prio[t]] && q'.blocking == q.blocking[..i] + q.blocking[i + 1..]
             && q'.sleeping == q.sleeping && q'.running == q.running[prio[t] := q.running[prio[t]] + [t]]
    requires Woken(q', i, r, ready, prio)
    ensures Woken(q, i, r, ready, prio)
  {
    hide WokenAt, WokenLocations, WokenQueues, NoDup;
    NotAgain(q.blocking, i);
    CutOut(q.blocking, i, q'.blocking);
    LocationsStep(q.loc, r.loc, q.blocking[i..], ready, prio);
    QueuesStep(q.running, r.running, q.blocking[i..], ready, prio);
  }

  lemma WokenSkip(q: Queues, i: nat, r: Queues, ready: set<Thread>, prio: map<Thread, int>)
    requires i < |q.blocking| && NoDup(q.blocking) && q.blocking[i] !in ready && forall t :: t in ready ==> t in prio
    requires Woken(q, i + 1, r, ready, prio)
    ensures Woken(q, i, r, ready, prio)
  {
    hide NoDup;
    NotAgain(q.blocking, i);
    assert q.blocking[..i + 1] == q.blocking[..i] + [q.blocking[i]];
  }

  lemma WokenNone(q: Queues, ready: set<Thread>, prio: map<Thread, int>)
    requires forall t :: t in ready ==> t in prio
    ensures Woken(q, |q.blocking|, q, ready, prio)
  {
    assert q.blocking[|q.blocking|..] == [];
  }

  lemma BlockingListed(q: Queues)
    requires Placed(q)
    ensures NoDup(q.blocking) && forall i :: 0 <= i < |q.blocking| ==> q.blocking[i] in q.loc
  {
  }

  /** The scan terminates, keeps the invariant, and wakes exactly the ready threads. */
  lemma {:induction false} WakeIs(q: Queues, i: nat, ready: set<Thread>, prio: map<Thread, int>, slice: map<Thread, int>)
    requires Placed(q) && i <= |q.blocking| && Settings(prio, slice, ready, |q.running|)
    ensures var r := WakeFrom(q, i, ready, prio, slice); Placed(r) && Woken(q, i, r, ready, prio)
    decreases |q.blocking| - i
  {
    hide Placed, Rescheduled, Woken;
    if i == |q.blocking| {
      WokenNone(q, ready, prio);
    } else {
      var t := q.blocking[i];
      BlockingListed(q);
      if t in ready {
        RescheduledPlaced(q, t, prio[t], slice[t]);
        RescheduledBlocking(q, i, prio[t], slice[t]);
        var q' := Rescheduled(q, t, prio[t], slice[t]);
        WakeIs(q', i, ready, prio, slice);
        WokenReady(q, q', i, WakeFrom(q', i, ready, prio, slice), ready, prio);
      } else {
        WakeIs(q, i + 1, ready, prio, slice);
        WokenSkip(q, i, WakeFrom(q, i + 1, ready, prio, slice), ready, prio);
      }
    }
  }

  lemma {:induction false} KeptNotReady(s: seq<Thread>, ready: set<Thread>)
    ensures forall k :: 0 <= k < |Kept(s, ready)| ==> Kept(s, ready)[k] !in ready
  {
    if s != [] {
      KeptNotReady(s[1..], ready);
    }
  }

  /** After a scan from the start no ready thread is left blocked: each is queued at its priority. */
  lemma NoneLeftReady(q: Queues, ready: set<Thread>, prio: map<Thread, int>, slice: map<Thread, int>)
    requires Placed(q) && Settings(prio, slice, ready, |q.running|)
    ensures var r := WakeFrom(q, 0, ready, prio, slice);
            && (forall t :: t in r.blocking ==> t !in ready)
            && (forall t :: t in q.blocking && t in ready ==>
                  t in r.loc && r.loc[t] == prio[t] < |r.running| && t in r.running[prio[t]])
  {
    hide Woken, WakeFrom;
    WakeIs(q, 0, ready, prio, slice);
    var r := WakeFrom(q, 0, ready, prio, slice);
    KeptNotReady(q.blocking[0..], ready);
    assert q.blocking[0..] == q.blocking;
    WokenParts(q, r, ready, prio);
  }

  lemma WokenParts(q: Queues, r: Queues, ready: set<Thread>, prio: map<Thread, int>)
    requires (forall t :: t in ready ==> t in prio) && Woken(q, 0, r, ready, prio)
    ensures r.blocking == Kept(q.blocking, ready) && |r.running| == |q.running| && r.loc.Keys == q.loc.Keys
    ensures forall t :: t in q.loc && t in q.blocking && t in ready ==> r.loc[t] == prio[t]
  {
    assert q.blocking[0..] == q.blocking;
  }

  // ------------------------------------------------------------ first blocked, first woken

  ghost predicate Ahead(s: seq<Thread>, a: Thread, b: Thread) {
    exists i, j :: 0 <= i < j < |s| && s[i] == a && s[j] == b
  }

  lemma {:induction false} WithoutAhead(s: seq<Thread>, t: Thread, a: Thread, b: Thread)
    requires Ahead(s, a, b) && a != t && b != t
    ensures Ahead(Without(s, t), a, b)
  {
    var i, j :| 0 <= i < j < |s| && s[i] == a && s[j] == b;
    var k := WithoutFinds(s, t, i);
    var l := WithoutFinds(s, t, j);
    assert Without(s, t)[k] == a && Without(s, t)[l] == b && k < l;
  }

  /** Where the i-th thread is once another one is taken out. */
  lemma {:induction false} WithoutFinds(s: seq<Thread>, t: Thread, i: nat) returns (k: nat)
    requires i < |s| && s[i] != t
    ensures k < |Without(s, t)| && Without(s, t)[k] == s[i]
    ensures k == if t in s[..i] then i - 1 else i
    decreases i
  {
    if s[0] == t {
      k := i - 1;
    } else if i == 0 {
      k := 0;
    } else {
      k := WithoutFinds(s[1..], t, i - 1);
      k := k + 1;
      assert s[..i] == [s[0]] + s[1..][..i - 1];
    }
  }

  /** A thread that blocks comes after all that are blocked, and those keep their order. */
  lemma BlockedBehind(q: Queues, t: Thread, a: Thread, b: Thread)
    requires Placed(q) && a != t
    requires if b == t then a in q.blocking else Ahead(q.blocking, a, b)
    ensures Ahead(Blocked(q, t).blocking, a, b)
  {
    var r := Released(q, t).blocking;
    if b == t {
      WithoutIs(q.blocking, t);
      assert a in r;
      var i :| 0 <= i < |r| && r[i] == a;
      assert (r + [t])[i] == a && (r + [t])[|r|] == t;
    } else {
      WithoutAhead(q.blocking, t, a, b);
      assert Ahead(r, a, b);
      var i, j :| 0 <= i < j < |r| && r[i] == a && r[j] == b;
      assert (r + [t])[i] == a && (r + [t])[j] == b;
    }
  }

  lemma {:induction false} WokenAtFinds(s: seq<Thread>, ready: set<Thread>, prio: map<Thread, int>, p: int, i: nat, j: nat)
    requires i < j < |s| && forall k :: k == i || k == j ==> s[k] in ready && s[k] in prio && prio[s[k]] == p
    ensures Ahead(WokenAt(s, ready, prio, p), s[i], s[j])
  {
    var rest := WokenAt(s[1..], ready, prio, p);
    var all := WokenAt(s, ready, prio, p);
    if i == 0 {
      InWokenAt(s[1..], ready, prio, p, j - 1);
      var k :| 0 <= k < |rest| && rest[k] == s[j];
      assert all[0] == s[i] && all[k + 1] == s[j];
    } else {
      WokenAtFinds(s[1..], ready, prio, p, i - 1, j - 1);
      var k, l :| 0 <= k < l < |rest| && rest[k] == s[i] && rest[l] == s[j];
      var d := |all| - |rest|;
      assert all[k + d] == s[i] && all[l + d] == s[j];
    }
  }

  lemma {:induction false} InWokenAt(s: seq<Thread>, ready: set<Thread>, prio: map<Thread, int>, p: int, j: nat)
    requires j < |s| && s[j] in ready && s[j] in prio && prio[s[j]] == p
    ensures s[j] in WokenAt(s, ready, prio, p)
  {
    if j > 0 {
      InWokenAt(s[1..], ready, prio, p, j - 1);
    }
  }

  /** Of two threads of one priority that one scan wakes, the one blocked first is queued first. */
  lemma WakesInOrder(q: Queues, ready: set<Thread>, prio: map<Thread, int>, slice: map<Thread, int>, a: Thread, b: Thread)
    requires Placed(q) && Settings(prio, slice, ready, |q.running|)
    requires Ahead(q.blocking, a, b) && a in ready && b in ready && prio[a] == prio[b]
    ensures var r := WakeFrom(q, 0, ready, prio, slice); prio[a] < |r.running| && Ahead(r.running[prio[a]], a, b)
  {
    hide Placed, WakeFrom;
    WakeIs(q, 0, ready, prio, slice);
    var r, p := WakeFrom(q, 0, ready, prio, slice), prio[a];
    assert q.blocking[0..] == q.blocking;
    var i, j :| 0 <= i < j < |q.blocking| && q.blocking[i] == a && q.blocking[j] == b;
    WokenAtFinds(q.blocking, ready, prio, p, i, j);
    var woken := WokenAt(q.blocking, ready, prio, p);
    var k, l :| 0 <= k < l < |woken| && woken[k] == a && woken[l] == b;
    var n := |q.running[p]|;
    assert r.running[p] == q.running[p] + woken;
    assert r.running[p][n + k] == a && r.running[p][n + l] == b;
  }

  // ------------------------------------------------------------ taking turns

  /** The first thread of the highest queue below `n` that has one. */
  function FirstThread(running: seq<seq<Thread>>, n: nat): (t: Thread?)
    requires n <= |running|
    ensures t == null ==> forall p :: 0 <= p < n ==> running[p] == []
    ensures t != null ==> exists p :: 0 <= p < n && running[p] != [] && running[p][0] == t
                                      && forall h :: p < h < n ==> running[h] == []
  {
    if n == 0 then null
    else if running[n - 1] != [] then running[n - 1][0]
    else FirstThread(running, n - 1)
  }

  /** `_GetNextThread`: the first thread uses up `ns` of its slice, and goes to the back when that was all. */
  ghost function Tick(q: Queues, prio: map<Thread, int>, slice: map<Thread, int>, ns: int): Queues {
    var t := FirstThread(q.running, |q.running|);
    if t == null || t !in q.ttr || t !in prio || t !in slice || !(0 <= prio[t] < |q.running|) then q
    else if q.ttr[t] <= ns then Rescheduled(q, t, prio[t], slice[t])
    else q.(ttr := q.ttr[t := q.ttr[t] - ns])
  }

  lemma TickPlaced(q: Queues, prio: map<Thread, int>, slice: map<Thread, int>, ns: int)
    requires Placed(q)
    ensures Placed(Tick(q, prio, slice, ns))
  {
    hide Lists, Rescheduled;
    var t := FirstThread(q.running, |q.running|);
    if t != null && t in q.ttr && t in prio && t in slice && 0 <= prio[t] < |q.running| {
      RescheduledPlaced(q, t, prio[t], slice[t]);
    }
  }

  /** The first `n` sleepers are rescheduled, in order. */
  ghost function SleepersWoken(q: Queues, n: nat, prio: map<Thread, int>, slice: map<Thread, int>): (r: Queues)
    ensures |r.running| == |q.running|
    decreases n
  {
    if n == 0 || q.sleeping == [] then q
    else
      var t := q.sleeping[0];
      if t in prio && t in slice && 0 <= prio[t] < |q.running| then
        SleepersWoken(Rescheduled(q, t, prio[t], slice[t]), n - 1, prio, slice)
      else q
  }

  lemma {:induction false} SleepersWokenPlaced(q: Queues, n: nat, prio: map<Thread, int>, slice: map<Thread, int>)
    requires Placed(q)
    ensures Placed(SleepersWoken(q, n, prio, slice))
    decreases n
  {
    hide Placed, Rescheduled;
    if n > 0 && q.sleeping != [] {
      var t := q.sleeping[0];
      if t in prio && t in slice && 0 <= prio[t] < |q.running| {
        RescheduledPlaced(q, t, prio[t], slice[t]);
        SleepersWokenPlaced(Rescheduled(q, t, prio[t], slice[t]), n - 1, prio, slice);
      }
    }
  }
}
