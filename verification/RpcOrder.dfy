/**
  Requests (tysos/ServerObject.cs, tysos/IPC.cs), told by a run's steps and by what servers are seen
  to work on: which requests a server's ring accepts, and in which order the server begins them.
 */
module RpcOrder {
  import opened Rpc
  import opened RpcRuns

  /** An earlier step uses this number for a request. */
  ghost predicate Used(run: seq<Step>, id: nat) {
    exists k :: 0 <= k < |run| && Issues(run[k], id)
  }

  predicate Issues(step: Step, id: nat) {
    (step.Invoke? || step.InvokeLocal?) && step.id == id
  }

  /** With this step an idle server begins a request. */
  ghost predicate Begins(m: Machine, step: Step, s: nat, id: nat) {
    step == ReadMessage(s) && PhaseOf(m, s).Idle? && PhaseOf(Next(m, step), s) == Running(id)
  }

  /** The requests a server has begun, in order. */
  ghost function Begun(capacity: nat, run: seq<Step>, s: nat): seq<nat> {
    if run == [] then []
    else
      var n := |run| - 1;
      var before := After(Initial(capacity), run[..n]);
      var earlier := Begun(capacity, run[..n], s);
      if run[n] == ReadMessage(s) && PhaseOf(before, s).Idle? && PhaseOf(Next(before, run[n]), s).Running?
      then earlier + [PhaseOf(Next(before, run[n]), s).id] else earlier
  }

  /** The requests a server's ring has accepted, in order: those that find fewer than `capacity` unread. */
  ghost function Accepted(capacity: nat, run: seq<Step>, s: nat): seq<nat>
    decreases |run|, 1
  {
    if run == [] then []
    else
      var n := |run| - 1;
      var earlier := Accepted(capacity, run[..n], s);
      if AcceptedNext(capacity, run[..n], run[n], s) then earlier + [run[n].id] else earlier
  }

  ghost predicate AcceptedNext(capacity: nat, run: seq<Step>, step: Step, s: nat)
    decreases |run|, 2
  {
    && step.Invoke? && step.server == s && !Used(run, step.id)
    && |Accepted(capacity, run, s)| < |Begun(capacity, run, s)| + capacity
  }

  // ------------------------------------------------------------ the machine does just that

  lemma {:induction false} IssuedIs(capacity: nat, run: seq<Step>, id: nat)
    ensures id in After(Initial(capacity), run).issued <==> Used(run, id)
  {
    hide Sent, Taken, Fired, Register, Tested, Called;
    if run != [] {
      var n := |run| - 1;
      AfterLast(Initial(capacity), run);
      IssuedIs(capacity, run[..n], id);
      assert Used(run, id) <==> Used(run[..n], id) || Issues(run[n], id);
    }
  }

  lemma CapacityKept(m: Machine, step: Step)
    ensures Next(m, step).capacity == m.capacity
  {
  }

  /** One step, as it changes the mailbox of a server. */
  lemma MailStep(m: Machine, step: Step, s: nat)
    requires Valid(m)
    ensures var b, b' := m.mail, Next(m, step).mail;
            && At(b'.sent, s) == (if step.Invoke? && step.server == s && step.id !in m.issued
                                     && |At(b.sent, s)| < |At(b.begun, s)| + m.capacity then At(b.sent, s) + [step.id] else At(b.sent, s))
            && At(b'.begun, s) == (if step == ReadMessage(s) && PhaseOf(m, s).Idle? && PhaseOf(Next(m, step), s).Running?
                                   then At(b.begun, s) + [PhaseOf(Next(m, step), s).id] else At(b.begun, s))
  {
    hide Fired, Register, Tested, Called, Work;
    var b := m.mail;
    assert Mail(s, At(b.sent, s), At(b.begun, s), At(b.queue, s), b.target);
  }

  lemma {:induction false} MailboxIs(capacity: nat, run: seq<Step>, s: nat)
    ensures var m := After(Initial(capacity), run);
            && m.capacity == capacity && At(m.mail.sent, s) == Accepted(capacity, run, s) && At(m.mail.begun, s) == Begun(capacity, run, s)
  {
    hide Next, Valid;
    if run != [] {
      var n := |run| - 1;
      var before := After(Initial(capacity), run[..n]);
      AfterLast(Initial(capacity), run);
      MailboxIs(capacity, run[..n], s);
      ValidInitially(capacity);
      ValidRun(Initial(capacity), run[..n]);
      MailStep(before, run[n], s);
      CapacityKept(before, run[n]);
      if run[n].Invoke? {
        IssuedIs(capacity, run[..n], run[n].id);
      }
    }
  }

  /**
    First in, first out: in every run the requests a server has begun are the first ones its ring
    accepted, in the order of the steps that sent them. While one is left, an idle server that reads
    begins the next one, and else none.
   */
  lemma FirstInFirstOut(capacity: nat, run: seq<Step>, s: nat)
    ensures Begun(capacity, run, s) <= Accepted(capacity, run, s)
    ensures var m, begun, accepted := After(Initial(capacity), run), Begun(capacity, run, s), Accepted(capacity, run, s);
            PhaseOf(m, s).Idle? ==>
              if |begun| < |accepted| then Begins(m, ReadMessage(s), s, accepted[|begun|])
              else Next(m, ReadMessage(s)) == m
  {
    hide Begun, Accepted, After, Work, Sound, SyncsSound;
    var m := After(Initial(capacity), run);
    MailboxIs(capacity, run, s);
    ValidInitially(capacity);
    ValidRun(Initial(capacity), run);
    var b := m.mail;
    assert Mail(s, At(b.sent, s), At(b.begun, s), At(b.queue, s), b.target);
  }

  // ------------------------------------------------------------ two requests

  lemma {:induction false} Grows(capacity: nat, run: seq<Step>, s: nat, k: nat)
    requires k <= |run|
    ensures Accepted(capacity, run[..k], s) <= Accepted(capacity, run, s)
    ensures Begun(capacity, run[..k], s) <= Begun(capacity, run, s)
    decreases |run|
  {
    hide Next, AcceptedNext;
    if k == |run| {
      assert run[..k] == run;
    } else {
      var n := |run| - 1;
      Grows(capacity, run[..n], s, k);
      assert run[..n][..k] == run[..k];
    }
  }

  /** The step with which the server began the request at position `p`. */
  lemma {:induction false} BegunStep(capacity: nat, run: seq<Step>, s: nat, p: nat) returns (k: nat)
    requires p < |Begun(capacity, run, s)|
    ensures k < |run| && Begins(Before(capacity, run, k), run[k], s, Begun(capacity, run, s)[p])
    decreases |run|
  {
    hide Next;
    var n := |run| - 1;
    if p < |Begun(capacity, run[..n], s)| {
      k := BegunStep(capacity, run[..n], s, p);
      assert run[..n][..k] == run[..k];
    } else {
      k := n;
    }
  }

  lemma AcceptedOnce(capacity: nat, run: seq<Step>, s: nat, p: nat, q: nat)
    requires p < |Accepted(capacity, run, s)| && q < |Accepted(capacity, run, s)|
    requires Accepted(capacity, run, s)[p] == Accepted(capacity, run, s)[q]
    ensures p == q
  {
    hide Accepted, After, Work, Sound, SyncsSound;
    MailboxIs(capacity, run, s);
    ValidInitially(capacity);
    ValidRun(Initial(capacity), run);
    var b := After(Initial(capacity), run).mail;
    assert Mail(s, At(b.sent, s), At(b.begun, s), At(b.queue, s), b.target);
  }

  /** The place of an accepted request. */
  lemma AcceptedAt(capacity: nat, run: seq<Step>, s: nat, i: nat)
    requires i < |run| && AcceptedNext(capacity, run[..i], run[i], s)
    ensures var p := |Accepted(capacity, run[..i], s)|;
            p < |Accepted(capacity, run[..i + 1], s)| && p < |Accepted(capacity, run, s)| && Accepted(capacity, run, s)[p] == run[i].id
  {
    hide AcceptedNext;
    Grows(capacity, run, s, i + 1);
    assert run[..i + 1][..i] == run[..i];
  }

  /** Of two requests to a server that were both accepted, the later is never begun before the earlier. */
  lemma NeverBefore(capacity: nat, run: seq<Step>, s: nat, i: nat, j: nat, n: nat) returns (k: nat)
    requires i < j < |run| && AcceptedNext(capacity, run[..i], run[i], s) && AcceptedNext(capacity, run[..j], run[j], s)
    requires n < |run| && Begins(Before(capacity, run, n), run[n], s, run[j].id)
    ensures k < n && Begins(Before(capacity, run, k), run[k], s, run[i].id)
  {
    hide Begins, Accepted, Begun, Before, Used;
    var p, q := |Accepted(capacity, run[..i], s)|, |Accepted(capacity, run[..j], s)|;
    AcceptedAt(capacity, run, s, i);
    AcceptedAt(capacity, run, s, j);
    assert p < q by {
      assert run[..j][..i + 1] == run[..i + 1];
      Grows(capacity, run[..j], s, i + 1);
    }
    var x := |Begun(capacity, run[..n], s)|;
    BeginsNext(capacity, run, s, n, run[j].id);
    FirstInFirstOut(capacity, run[..n + 1], s);
    Grows(capacity, run, s, n + 1);
    AcceptedOnce(capacity, run, s, x, q);
    k := BegunStep(capacity, run[..n], s, p);
    assert run[..n][..k] == run[..k];
    SamePlace(capacity, run, n, k);
  }

  lemma SamePlace(capacity: nat, run: seq<Step>, n: nat, k: nat)
    requires k <= n <= |run|
    ensures Before(capacity, run[..n], k) == Before(capacity, run, k)
  {
    assert run[..n][..k] == run[..k];
  }

  lemma BeginsNext(capacity: nat, run: seq<Step>, s: nat, n: nat, id: nat)
    requires n < |run| && Begins(Before(capacity, run, n), run[n], s, id)
    ensures Begun(capacity, run[..n + 1], s) == Begun(capacity, run[..n], s) + [id]
  {
    hide Next;
    assert run[..n + 1][..n] == run[..n];
  }

  // ------------------------------------------------------------ a whole call

  lemma AfterFirst(m: Machine, step: Step, rest: seq<Step>)
    ensures After(m, [step] + rest) == After(Next(m, step), rest)
  {
    hide Next;
    assert ([step] + rest)[1..] == rest;
  }

  /** The steps of a server from reading a message to the end. */
  function Serve(s: nat, v: int): seq<Step> {
    [ReadMessage(s)] + ([Return(s, v)] + ([StoreResult(s)] + ([SetMutex(s)] + ([RunCallback(s)] + []))))
  }

  function Sync(id: nat): seq<Step> {
    [SyncTest(id)] + ([SyncRead(id)] + [])
  }

  /** What an idle server begins next it completes, with the value its method returns. */
  lemma ServeCompletes(m: Machine, s: nat, v: int)
    requires Valid(m) && PhaseOf(m, s).Idle? && At(m.mail.queue, s) != []
    ensures var id, m' := At(m.mail.queue, s)[0], After(m, Serve(s, v));
            PhaseOf(m', s).Idle? && Complete(m'.progress, id) && m'.progress.value[id] == v
  {
    hide After, Messages, Work, Fired, Taken;
    var m1 := Next(m, ReadMessage(s));
    var m2 := Next(m1, Return(s, v));
    var m3 := Next(m2, StoreResult(s));
    var m4 := Next(m3, SetMutex(s));
    AfterFirst(m, ReadMessage(s), [Return(s, v)] + ([StoreResult(s)] + ([SetMutex(s)] + ([RunCallback(s)] + []))));
    AfterFirst(m1, Return(s, v), [StoreResult(s)] + ([SetMutex(s)] + ([RunCallback(s)] + [])));
    AfterFirst(m2, StoreResult(s), [SetMutex(s)] + ([RunCallback(s)] + []));
    AfterFirst(m3, SetMutex(s), [RunCallback(s)] + []);
    AfterFirst(m4, RunCallback(s), []);
    NoSteps(Next(m4, RunCallback(s)));
  }

  lemma NoSteps(m: Machine)
    ensures After(m, []) == m
  {
  }

  /** Once the event is set, `Sync` returns, and with the value its request's invocation returned. */
  lemma SyncReturns(m: Machine, id: nat)
    requires Valid(m) && id in m.progress.up
    ensures id in m.progress.value && (id, m.progress.value[id]) in After(m, Sync(id)).syncs.synced
  {
    hide After, Messages, Work;
    var m1 := Next(m, SyncTest(id));
    AfterFirst(m, SyncTest(id), [SyncRead(id)] + []);
    AfterFirst(m1, SyncRead(id), []);
    NoSteps(Next(m1, SyncRead(id)));
  }

  /** So a request that is first in line is answered: served, and then waited for, it gives the value its method returned. */
  lemma CallCompletes(m: Machine, s: nat, v: int)
    requires Valid(m) && PhaseOf(m, s).Idle? && At(m.mail.queue, s) != []
    ensures var id := At(m.mail.queue, s)[0]; (id, v) in After(m, Serve(s, v) + Sync(id)).syncs.synced
  {
    hide After, Valid, Serve, Sync;
    var id := At(m.mail.queue, s)[0];
    ServeCompletes(m, s, v);
    ValidRun(m, Serve(s, v));
    SyncReturns(After(m, Serve(s, v)), id);
    AfterConcat(m, Serve(s, v), Sync(id));
  }
}
