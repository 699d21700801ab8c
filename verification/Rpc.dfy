/**
  Remote procedure calls (tysos/ServerObject.cs, tysos/IPC.cs) as a state machine. Any number of
  clients issue requests to any number of servers; each server reads its messages one at a time.
  A step is one access to shared state, so every interleaving of the code is a run.
 */
module Rpc {
  import opened Options

  /** Where a server is in `HandleMessage`. */
  datatype Phase =
    | Idle
    | Running(id: nat)              // the method has been invoked
    | Computed(id: nat, v: int)     // it has returned, its value is not stored yet
    | Stored(id: nat)               // the value is in the request's result
    | Signalled(id: nat)            // the event is set, the callback is not looked at yet

  datatype Stage = Registered | SawSet | Finished

  /**
    One call of `SetCallback` on the result of request `id`. `args` are the values the callback
    has been run with; the other fields record what the call met: whether it stored the callback
    before `Set` looked for one, whether another call replaced it before that, and whether it
    found the event set.
   */
  datatype Callback = Callback(id: nat, stage: Stage, early: bool, replaced: bool, saw: bool, args: seq<int>)

  /** Per server: the messages its ring accepted, those not read yet, the requests it has begun, all in order. */
  datatype Mailboxes = Mailboxes(target: map<nat, nat>, sent: map<nat, seq<nat>>, queue: map<nat, seq<nat>>, begun: map<nat, seq<nat>>)

  /**
    How far each request has come: what its invocation returned, the Result field the client
    reads, whether the event is set, and whether `Set` has looked for a callback.
   */
  datatype Progress = Progress(value: map<nat, int>, result: map<nat, int>, up: set<nat>, checked: set<nat>)

  /** The results some `Sync` has seen set, and what `Sync` has returned for which request. */
  datatype Syncs = Syncs(passed: set<nat>, synced: set<(nat, int)>)

  /** CallOnSet of each result, and all calls of `SetCallback`. */
  datatype Handlers = Handlers(handler: map<nat, nat>, calls: map<nat, Callback>)

  datatype Machine = Machine(
    capacity: nat,
    issued: set<nat>,
    mail: Mailboxes,
    phase: map<nat, Phase>,
    progress: Progress,
    syncs: Syncs,
    handlers: Handlers)

  datatype Step =
    | Invoke(id: nat, server: nat)
    | InvokeLocal(id: nat, v: int)
    | ReadMessage(server: nat)
    | Return(server: nat, v: int)
    | StoreResult(server: nat)
    | SetMutex(server: nat)
    | RunCallback(server: nat)
    | SyncTest(id: nat)
    | SyncRead(id: nat)
    | SetCallback(r: nat, id: nat)
    | TestSet(r: nat)
    | CallDirect(r: nat)

  function At(m: map<nat, seq<nat>>, s: nat): seq<nat> {
    if s in m then m[s] else []
  }

  function PhaseOf(m: Machine, s: nat): Phase {
    if s in m.phase then m.phase[s] else Idle
  }

  function Initial(capacity: nat): Machine {
    Machine(capacity, {}, Mailboxes(map[], map[], map[], map[]), map[], Progress(map[], map[], {}, {}), Syncs({}, {}),
            Handlers(map[], map[]))
  }

  /** A step that is not possible in the state changes nothing. */
  function Next(m: Machine, step: Step): Machine {
    match step
    // A request to another thread; a full ring drops the message and nobody is told.
    case Invoke(id, s) =>
      if id in m.issued then m else m.(issued := m.issued + {id}, mail := Sent(m.mail, id, s, m.capacity))
    // A request of a server to itself is a plain call, whose result is made set.
    case InvokeLocal(id, v) =>
      if id in m.issued then m
      else
        m.(issued := m.issued + {id},
           progress := Progress(m.progress.value[id := v], m.progress.result[id := v], m.progress.up + {id}, m.progress.checked + {id}))
    case ReadMessage(s) =>
      if PhaseOf(m, s).Idle? && At(m.mail.queue, s) != [] then
        m.(mail := Taken(m.mail, s), phase := m.phase[s := Running(At(m.mail.queue, s)[0])])
      else m
    case Return(s, v) =>
      var p := PhaseOf(m, s);
      if p.Running? then
        m.(phase := m.phase[s := Computed(p.id, v)], progress := m.progress.(value := m.progress.value[p.id := v]))
      else m
    case StoreResult(s) =>
      var p := PhaseOf(m, s);
      if p.Computed? then
        m.(phase := m.phase[s := Stored(p.id)], progress := m.progress.(result := m.progress.result[p.id := p.v]))
      else m
    case SetMutex(s) =>
      var p := PhaseOf(m, s);
      if p.Stored? then
        m.(phase := m.phase[s := Signalled(p.id)], progress := m.progress.(up := m.progress.up + {p.id}))
      else m
    case RunCallback(s) =>
      var p := PhaseOf(m, s);
      if p.Signalled? then
        m.(phase := m.phase[s := Idle], progress := m.progress.(checked := m.progress.checked + {p.id}),
           handlers := Fired(m.handlers, m.progress, p.id))
      else m
    case SyncTest(id) =>
      if id in m.progress.up then m.(syncs := m.syncs.(passed := m.syncs.passed + {id})) else m
    case SyncRead(id) =>
      if id in m.syncs.passed && id in m.progress.result then
        m.(syncs := m.syncs.(synced := m.syncs.synced + {(id, m.progress.result[id])}))
      else m
    case SetCallback(r, id) =>
      if r in m.handlers.calls || id !in m.issued then m else m.(handlers := Register(m.handlers, m.progress, r, id))
    case TestSet(r) =>
      m.(handlers := Tested(m.handlers, m.progress, r))
    case CallDirect(r) =>
      m.(handlers := Called(m.handlers, m.progress, r))
  }

  function Sent(b: Mailboxes, id: nat, s: nat, capacity: nat): Mailboxes {
    if |At(b.queue, s)| < capacity then
      b.(target := b.target[id := s], queue := b.queue[s := At(b.queue, s) + [id]], sent := b.sent[s := At(b.sent, s) + [id]])
    else b.(target := b.target[id := s])
  }

  function Taken(b: Mailboxes, s: nat): Mailboxes
    requires At(b.queue, s) != []
  {
    b.(queue := b.queue[s := At(b.queue, s)[1..]], begun := b.begun[s := At(b.begun, s) + [At(b.queue, s)[0]]])
  }

  /** `Set` runs the callback that is registered now. */
  function Fired(h: Handlers, g: Progress, id: nat): Handlers {
    if id in h.handler && h.handler[id] in h.calls && id in g.result then
      var r := h.handler[id];
      h.(calls := h.calls[r := h.calls[r].(args := h.calls[r].args + [g.result[id]])])
    else h
  }

  /** The callback is stored; one that was stored before is replaced, perhaps before `Set` has looked for it. */
  function Register(h: Handlers, g: Progress, r: nat, id: nat): Handlers {
    var calls :=
      if id in h.handler && h.handler[id] in h.calls && id !in g.checked then
        h.calls[h.handler[id] := h.calls[h.handler[id]].(replaced := true)]
      else h.calls;
    Handlers(h.handler[id := r], calls[r := Callback(id, Registered, id !in g.checked, false, false, [])])
  }

  function Tested(h: Handlers, g: Progress, r: nat): Handlers {
    if r in h.calls && h.calls[r].stage.Registered? then
      var c := h.calls[r];
      h.(calls := h.calls[r := c.(stage := if c.id in g.up then SawSet else Finished, saw := c.id in g.up)])
    else h
  }

  function Called(h: Handlers, g: Progress, r: nat): Handlers {
    if r in h.calls && h.calls[r].stage.SawSet? && h.calls[r].id in g.result then
      var c := h.calls[r];
      h.(calls := h.calls[r := c.(stage := Finished, args := c.args + [g.result[c.id]])])
    else h
  }

  function After(m: Machine, run: seq<Step>): Machine
    decreases |run|
  {
    if run == [] then m else After(Next(m, run[0]), run[1..])
  }

  // ------------------------------------------------------------ messages

  /** What a server has begun and what waits for it are the messages sent to it, in order and each once. */
  ghost predicate Mail(s: nat, sent: seq<nat>, begun: seq<nat>, queue: seq<nat>, target: map<nat, nat>) {
    sent == begun + queue && NoDup(sent) && forall i :: 0 <= i < |sent| ==> sent[i] in target && target[sent[i]] == s
  }

  ghost predicate Messages(b: Mailboxes) {
    forall s {:trigger At(b.sent, s)} :: Mail(s, At(b.sent, s), At(b.begun, s), At(b.queue, s), b.target)
  }

  lemma MailAdded(s: nat, sent: seq<nat>, begun: seq<nat>, queue: seq<nat>, target: map<nat, nat>, id: nat, t: nat)
    requires Mail(s, sent, begun, queue, target) && id !in target
    ensures Mail(s, sent, begun, queue, target[id := t])
    ensures t == s ==> Mail(s, sent + [id], begun, queue + [id], target[id := t])
  {
    forall i | 0 <= i < |sent| ensures sent[i] != id { assert sent[i] in target; }
  }

  lemma MessagesSent(b: Mailboxes, id: nat, t: nat, capacity: nat)
    requires Messages(b) && id !in b.target
    ensures Messages(Sent(b, id, t, capacity))
  {
    hide Mail;
    var b' := Sent(b, id, t, capacity);
    forall s ensures Mail(s, At(b'.sent, s), At(b'.begun, s), At(b'.queue, s), b'.target) {
      assert Mail(s, At(b.sent, s), At(b.begun, s), At(b.queue, s), b.target);
      MailAdded(s, At(b.sent, s), At(b.begun, s), At(b.queue, s), b.target, id, t);
    }
  }

  lemma MailTaken(s: nat, sent: seq<nat>, begun: seq<nat>, queue: seq<nat>, target: map<nat, nat>)
    requires Mail(s, sent, begun, queue, target) && queue != []
    ensures Mail(s, sent, begun + [queue[0]], queue[1..], target)
  {
    assert begun + queue == (begun + [queue[0]]) + queue[1..];
  }

  lemma MessagesTaken(b: Mailboxes, t: nat)
    requires Messages(b) && At(b.queue, t) != []
    ensures Messages(Taken(b, t))
  {
    hide Mail;
    var b' := Taken(b, t);
    forall s ensures Mail(s, At(b'.sent, s), At(b'.begun, s), At(b'.queue, s), b'.target) {
      assert Mail(s, At(b.sent, s), At(b.begun, s), At(b.queue, s), b.target);
      if s == t {
        MailTaken(s, At(b.sent, s), At(b.begun, s), At(b.queue, s), b.target);
      }
    }
  }

  // ------------------------------------------------------------ values

  /** All that is to happen to a request has happened, and its result is what its invocation returned. */
  ghost predicate Complete(g: Progress, id: nat) {
    id in g.value && id in g.result && g.result[id] == g.value[id] && id in g.up && id in g.checked
  }

  ghost predicate Fresh(g: Progress, id: nat) {
    id !in g.value && id !in g.result && id !in g.up && id !in g.checked
  }

  /** The request a server is working on has come exactly as far as the server's phase says. */
  ghost predicate InPhase(g: Progress, p: Phase) {
    match p
    case Idle => true
    case Running(id) => Fresh(g, id)
    case Computed(id, v) => id in g.value && g.value[id] == v && id !in g.result && id !in g.up && id !in g.checked
    case Stored(id) => id in g.value && id in g.result && g.result[id] == g.value[id] && id !in g.up && id !in g.checked
    case Signalled(id) => id in g.value && id in g.result && g.result[id] == g.value[id] && id in g.up && id !in g.checked
  }

  /** Of the requests a server has begun, all but the one it is working on are complete; those waiting are untouched. */
  ghost predicate Work(g: Progress, p: Phase, begun: seq<nat>, queue: seq<nat>) {
    && InPhase(g, p)
    && (p.Idle? ==> forall i :: 0 <= i < |begun| ==> Complete(g, begun[i]))
    && (!p.Idle? ==> |begun| > 0 && begun[|begun| - 1] == p.id && forall i :: 0 <= i < |begun| - 1 ==> Complete(g, begun[i]))
    && (forall i :: 0 <= i < |queue| ==> Fresh(g, queue[i]))
  }

  ghost predicate Sound(g: Progress) {
    && (forall id :: id in g.result ==> id in g.value && g.value[id] == g.result[id])
    && g.up <= g.result.Keys && g.checked <= g.up
  }

  /** A result is set only after it holds what its invocation returned, and `Sync` returns nothing else. */
  ghost predicate SyncsSound(y: Syncs, g: Progress) {
    y.passed <= g.up && forall x :: x in y.synced ==> x.0 in g.value && x.1 == g.value[x.0]
  }

  ghost predicate Valid(m: Machine) {
    && Messages(m.mail) && m.mail.target.Keys <= m.issued
    && (forall s {:trigger At(m.mail.begun, s)} :: Work(m.progress, PhaseOf(m, s), At(m.mail.begun, s), At(m.mail.queue, s)))
    && (forall id :: id !in m.issued ==> Fresh(m.progress, id))
    && Sound(m.progress) && SyncsSound(m.syncs, m.progress)
  }

  /** `g'` differs from `g` only in how far request `id` has come. */
  ghost predicate OnlyAt(g: Progress, g': Progress, id: nat) {
    forall x :: x != id ==>
      && (x in g.value <==> x in g'.value) && (x in g.value ==> g.value[x] == g'.value[x])
      && (x in g.result <==> x in g'.result) && (x in g.result ==> g.result[x] == g'.result[x])
      && (x in g.up <==> x in g'.up) && (x in g.checked <==> x in g'.checked)
  }

  lemma WorkKept(g: Progress, g': Progress, p: Phase, begun: seq<nat>, queue: seq<nat>, id: nat)
    requires Work(g, p, begun, queue) && OnlyAt(g, g', id)
    requires forall i :: 0 <= i < |begun| ==> begun[i] != id
    requires forall i :: 0 <= i < |queue| ==> queue[i] != id
    ensures Work(g', p, begun, queue)
  {
    forall i | 0 <= i < |begun| && Complete(g, begun[i]) ensures Complete(g', begun[i]) { }
    forall i | 0 <= i < |queue| ensures Fresh(g', queue[i]) { assert Fresh(g, queue[i]); }
  }

  lemma WorkAdvanced(g: Progress, g': Progress, p: Phase, p': Phase, begun: seq<nat>, queue: seq<nat>)
    requires Work(g, p, begun, queue) && !p.Idle? && OnlyAt(g, g', p.id) && NoDup(begun) && InPhase(g', p')
    requires forall i :: 0 <= i < |queue| ==> queue[i] != p.id
    requires if p'.Idle? then Complete(g', p.id) else p'.id == p.id
    ensures Work(g', p', begun, queue)
  {
    forall i | 0 <= i < |begun| - 1 ensures Complete(g', begun[i]) {
      assert Complete(g, begun[i]) && begun[i] != begun[|begun| - 1];
    }
    forall i | 0 <= i < |queue| ensures Fresh(g', queue[i]) { assert Fresh(g, queue[i]); }
  }

  /** The request a server works on is issued, and occurs in no other server's lists and in no queue. */
  lemma Apart(m: Machine, s: nat, t: nat)
    requires Valid(m) && !PhaseOf(m, s).Idle?
    ensures var id := PhaseOf(m, s).id; var b := m.mail;
            && (forall i :: 0 <= i < |At(b.queue, t)| ==> At(b.queue, t)[i] != id)
            && (t != s ==> forall i :: 0 <= i < |At(b.begun, t)| ==> At(b.begun, t)[i] != id)
            && NoDup(At(b.begun, s)) && id in m.issued
  {
    var b, id := m.mail, PhaseOf(m, s).id;
    var begun := At(b.begun, s);
    assert Work(m.progress, PhaseOf(m, s), begun, At(b.queue, s));
    assert Mail(s, At(b.sent, s), begun, At(b.queue, s), b.target) && Mail(t, At(b.sent, t), At(b.begun, t), At(b.queue, t), b.target);
    assert At(b.sent, s)[|begun| - 1] == id;
    forall i | 0 <= i < |At(b.queue, t)| ensures At(b.queue, t)[i] != id {
      assert At(b.sent, t)[|At(b.begun, t)| + i] == At(b.queue, t)[i];
    }
    forall i | 0 <= i < |At(b.begun, t)| ensures At(b.begun, t)[i] == At(b.sent, t)[i] { }
    forall i | 0 <= i < |begun| ensures begun[i] == At(b.sent, s)[i] { }
  }

  /** A server takes its request one phase further. */
  lemma ValidAdvance(m: Machine, m': Machine, s: nat, p': Phase)
    requires Valid(m) && !PhaseOf(m, s).Idle? && OnlyAt(m.progress, m'.progress, PhaseOf(m, s).id)
    requires m'.mail == m.mail && m'.issued == m.issued && m'.syncs == m.syncs && m'.phase == m.phase[s := p']
    requires InPhase(m'.progress, p')
    requires if p'.Idle? then Complete(m'.progress, PhaseOf(m, s).id) else p'.id == PhaseOf(m, s).id
    requires Sound(m'.progress) && SyncsSound(m.syncs, m'.progress)
    ensures Valid(m')
  {
    hide InPhase, Complete, Mail, Sound, SyncsSound, Work, Messages;
    var g, g', b, id := m.progress, m'.progress, m.mail, PhaseOf(m, s).id;
    forall t ensures Work(g', PhaseOf(m', t), At(b.begun, t), At(b.queue, t)) {
      Apart(m, s, t);
      assert Work(g, PhaseOf(m, t), At(b.begun, t), At(b.queue, t));
      if t != s {
        WorkKept(g, g', PhaseOf(m, t), At(b.begun, t), At(b.queue, t), id);
      } else {
        WorkAdvanced(g, g', PhaseOf(m, t), p', At(b.begun, t), At(b.queue, t));
      }
    }
    Apart(m, s, s);
    forall x | x !in m.issued ensures Fresh(g', x) { assert Fresh(g, x) && x != id; }
  }

  lemma PhaseWork(m: Machine, s: nat)
    requires Valid(m)
    ensures InPhase(m.progress, PhaseOf(m, s))
  {
    assert Work(m.progress, PhaseOf(m, s), At(m.mail.begun, s), At(m.mail.queue, s));
  }

  lemma ValidServer(m: Machine, step: Step)
    requires Valid(m) && (step.Return? || step.StoreResult? || step.SetMutex? || step.RunCallback?)
    ensures Valid(Next(m, step))
  {
    hide Work, Messages, Fired;
    var s, m' := step.server, Next(m, step);
    PhaseWork(m, s);
    if m' != m && !PhaseOf(m, s).Idle? {
      ValidAdvance(m, m', s, PhaseOf(m', s));
    }
  }

  lemma WorkSent(g: Progress, p: Phase, begun: seq<nat>, queue: seq<nat>, id: nat)
    requires Work(g, p, begun, queue) && Fresh(g, id)
    ensures Work(g, p, begun, queue + [id])
  {
  }

  lemma WorkTaken(g: Progress, begun: seq<nat>, queue: seq<nat>)
    requires Work(g, Idle, begun, queue) && queue != []
    ensures Work(g, Running(queue[0]), begun + [queue[0]], queue[1..])
  {
    assert Fresh(g, queue[0]);
    forall i | 0 <= i < |queue| - 1 ensures Fresh(g, queue[1..][i]) { assert queue[1..][i] == queue[i + 1]; }
  }

  lemma ValidInvoke(m: Machine, id: nat, t: nat)
    requires Valid(m)
    ensures Valid(Next(m, Invoke(id, t)))
  {
    hide Work, Messages, Sound, SyncsSound;
    if id !in m.issued {
      var m' := Next(m, Invoke(id, t));
      MessagesSent(m.mail, id, t, m.capacity);
      forall s ensures Work(m.progress, PhaseOf(m', s), At(m'.mail.begun, s), At(m'.mail.queue, s)) {
        assert Work(m.progress, PhaseOf(m, s), At(m.mail.begun, s), At(m.mail.queue, s));
        WorkSent(m.progress, PhaseOf(m, s), At(m.mail.begun, s), At(m.mail.queue, s), id);
      }
    }
  }

  lemma ValidRead(m: Machine, t: nat)
    requires Valid(m)
    ensures Valid(Next(m, ReadMessage(t)))
  {
    hide Work, Messages, Sound, SyncsSound;
    if PhaseOf(m, t).Idle? && At(m.mail.queue, t) != [] {
      var m' := Next(m, ReadMessage(t));
      MessagesTaken(m.mail, t);
      forall s ensures Work(m.progress, PhaseOf(m', s), At(m'.mail.begun, s), At(m'.mail.queue, s)) {
        assert Work(m.progress, PhaseOf(m, s), At(m.mail.begun, s), At(m.mail.queue, s));
        if s == t {
          WorkTaken(m.progress, At(m.mail.begun, s), At(m.mail.queue, s));
        }
      }
    }
  }

  /** A request that has not been issued occurs nowhere. */
  lemma Unissued(m: Machine, id: nat, s: nat)
    requires Valid(m) && id !in m.issued
    ensures forall i :: 0 <= i < |At(m.mail.begun, s)| ==> At(m.mail.begun, s)[i] != id
    ensures forall i :: 0 <= i < |At(m.mail.queue, s)| ==> At(m.mail.queue, s)[i] != id
  {
    var b := m.mail;
    assert Mail(s, At(b.sent, s), At(b.begun, s), At(b.queue, s), b.target);
    forall i | 0 <= i < |At(b.begun, s)| ensures At(b.begun, s)[i] != id {
      assert At(b.sent, s)[i] == At(b.begun, s)[i];
    }
    forall i | 0 <= i < |At(b.queue, s)| ensures At(b.queue, s)[i] != id {
      assert At(b.sent, s)[|At(b.begun, s)| + i] == At(b.queue, s)[i];
    }
  }

  lemma ValidLocal(m: Machine, id: nat, v: int)
    requires Valid(m)
    ensures Valid(Next(m, InvokeLocal(id, v)))
  {
    hide Work, Messages;
    if id !in m.issued {
      var m' := Next(m, InvokeLocal(id, v));
      assert Fresh(m.progress, id);
      forall s ensures Work(m'.progress, PhaseOf(m', s), At(m'.mail.begun, s), At(m'.mail.queue, s)) {
        assert Work(m.progress, PhaseOf(m, s), At(m.mail.begun, s), At(m.mail.queue, s));
        Unissued(m, id, s);
        WorkKept(m.progress, m'.progress, PhaseOf(m, s), At(m.mail.begun, s), At(m.mail.queue, s), id);
      }
    }
  }

  lemma ValidClient(m: Machine, step: Step)
    requires Valid(m) && (step.SyncTest? || step.SyncRead? || step.SetCallback? || step.TestSet? || step.CallDirect?)
    ensures Valid(Next(m, step))
  {
    hide Work, Messages, Register, Tested, Called;
    var m' := Next(m, step);
    assert m'.mail == m.mail && m'.issued == m.issued && m'.phase == m.phase && m'.progress == m.progress;
  }

  lemma ValidStep(m: Machine, step: Step)
    requires Valid(m)
    ensures Valid(Next(m, step))
  {
    hide Valid, Next;
    if step.Invoke? {
      ValidInvoke(m, step.id, step.server);
    } else if step.InvokeLocal? {
      ValidLocal(m, step.id, step.v);
    } else if step.ReadMessage? {
      ValidRead(m, step.server);
    } else if step.Return? || step.StoreResult? || step.SetMutex? || step.RunCallback? {
      ValidServer(m, step);
    } else {
      ValidClient(m, step);
    }
  }

  lemma {:induction false} ValidRun(m: Machine, run: seq<Step>)
    requires Valid(m)
    ensures Valid(After(m, run))
    decreases |run|
  {
    hide Valid, Next;
    if run != [] {
      ValidStep(m, run[0]);
      ValidRun(Next(m, run[0]), run[1..]);
    }
  }

  lemma ValidInitially(capacity: nat)
    ensures Valid(Initial(capacity))
  {
  }

  // ------------------------------------------------------------ what holds in every run

  /**
    The requests a server has invoked are a prefix of those sent to it, so they are invoked in
    the order they were sent; no request is invoked twice, neither by one server nor by two.
   */
  lemma InvokedOnceInOrder(capacity: nat, run: seq<Step>, s: nat, t: nat, i: nat, j: nat)
    ensures var b := After(Initial(capacity), run).mail;
            && At(b.begun, s) <= At(b.sent, s)
            && (i < |At(b.begun, s)| && j < |At(b.begun, t)| && At(b.begun, s)[i] == At(b.begun, t)[j] ==> s == t && i == j)
  {
    hide After;
    var m := After(Initial(capacity), run);
    ValidInitially(capacity);
    ValidRun(Initial(capacity), run);
    var b := m.mail;
    assert Mail(s, At(b.sent, s), At(b.begun, s), At(b.queue, s), b.target) && Mail(t, At(b.sent, t), At(b.begun, t), At(b.queue, t), b.target);
    assert i < |At(b.begun, s)| ==> At(b.sent, s)[i] == At(b.begun, s)[i];
    assert j < |At(b.begun, t)| ==> At(b.sent, t)[j] == At(b.begun, t)[j];
  }

  lemma {:induction false} AfterLast(m: Machine, run: seq<Step>)
    requires run != []
    ensures After(m, run) == Next(After(m, run[..|run| - 1]), run[|run| - 1])
    decreases |run|
  {
    hide Next;
    if |run| > 1 {
      AfterLast(Next(m, run[0]), run[1..]);
      assert run[1..][..|run| - 2] == run[..|run| - 1][1..];
    }
  }

  /** The step at which the invocation of `id` returned `v`. */
  ghost predicate Yields(m: Machine, step: Step, id: nat, v: int) {
    step == InvokeLocal(id, v) || (step.Return? && step.v == v && PhaseOf(m, step.server) == Running(id))
  }

  lemma ValueStep(m: Machine, step: Step, id: nat)
    requires Valid(m) && id in Next(m, step).progress.value
    ensures var v := Next(m, step).progress.value[id]; (id in m.progress.value && m.progress.value[id] == v) || Yields(m, step, id, v)
  {
    hide Messages, Work, Fired, Register, Tested, Called, Sent, Taken;
    if step.Return? {
      PhaseWork(m, step.server);
    }
    if step.InvokeLocal? {
      assert step.id !in m.issued ==> Fresh(m.progress, step.id);
    }
  }

  lemma {:induction false} ValueReturned(capacity: nat, run: seq<Step>, id: nat) returns (k: nat)
    requires id in After(Initial(capacity), run).progress.value
    ensures k < |run| && Yields(After(Initial(capacity), run[..k]), run[k], id, After(Initial(capacity), run).progress.value[id])
    decreases |run|
  {
    hide Next, Valid, Yields;
    assert run != [];
    var init := run[..|run| - 1];
    var m := After(Initial(capacity), init);
    AfterLast(Initial(capacity), run);
    ValidInitially(capacity);
    ValidRun(Initial(capacity), init);
    ValueStep(m, run[|run| - 1], id);
    var v := After(Initial(capacity), run).progress.value[id];
    if Yields(m, run[|run| - 1], id, v) {
      k := |run| - 1;
    } else {
      k := ValueReturned(capacity, init, id);
      assert init[..k] == run[..k];
    }
  }

  /**
    `Sync` on a request returns only what the invocation of that very request returned: the run
    has the step at which the server working on it, or the caller itself, returned that value.
   */
  lemma SyncReturnsOwnValue(capacity: nat, run: seq<Step>, id: nat, v: int) returns (k: nat)
    requires (id, v) in After(Initial(capacity), run).syncs.synced
    ensures k < |run| && Yields(After(Initial(capacity), run[..k]), run[k], id, v)
  {
    hide After, Yields;
    ValidInitially(capacity);
    ValidRun(Initial(capacity), run);
    k := ValueReturned(capacity, run, id);
  }

  // ------------------------------------------------------------ callbacks

  /** The two ways a callback is run: by `Set`, and by `SetCallback` itself. */
  ghost predicate BySet(c: Callback, g: Progress) {
    c.early && !c.replaced && c.id in g.checked
  }

  ghost predicate ByItself(c: Callback) {
    c.stage.Finished? && c.saw
  }

  ghost predicate AllAre(args: seq<int>, v: int) {
    forall i :: 0 <= i < |args| ==> args[i] == v
  }

  ghost predicate CallSound(c: Callback, g: Progress) {
    && (c.saw ==> c.id in g.up) && (c.stage.Registered? ==> !c.saw) && (c.stage.SawSet? ==> c.saw)
    && (c.stage.Finished? && !c.saw ==> c.early) && (!c.early ==> c.id in g.checked)
    && |c.args| == (if BySet(c, g) then 1 else 0) + (if ByItself(c) then 1 else 0)
    && (c.args != [] ==> c.id in g.value && AllAre(c.args, g.value[c.id]))
  }

  /** A result whose `Set` has not looked yet has the last callback stored, and the others were replaced. */
  ghost predicate HandlersSound(h: Handlers, g: Progress) {
    && (forall r :: r in h.calls ==> CallSound(h.calls[r], g))
    && (forall id :: id in h.handler ==> h.handler[id] in h.calls && h.calls[h.handler[id]].id == id)
    && (forall r :: r in h.calls && h.calls[r].id !in g.checked ==>
          h.calls[r].id in h.handler && (h.calls[r].replaced <==> h.handler[h.calls[r].id] != r))
  }

  lemma CallKept(c: Callback, g: Progress, g': Progress)
    requires CallSound(c, g) && Sound(g) && g.up <= g'.up && (c.id in g.checked <==> c.id in g'.checked)
    requires forall id :: id in g.value ==> id in g'.value && g'.value[id] == g.value[id]
    ensures CallSound(c, g')
  {
  }

  lemma HandlersKept(h: Handlers, g: Progress, g': Progress)
    requires HandlersSound(h, g) && Sound(g) && g.up <= g'.up
    requires forall r :: r in h.calls ==> (h.calls[r].id in g.checked <==> h.calls[r].id in g'.checked)
    requires forall id :: id in g.value ==> id in g'.value && g'.value[id] == g.value[id]
    ensures HandlersSound(h, g')
  {
    hide CallSound;
    forall r | r in h.calls ensures CallSound(h.calls[r], g') {
      CallKept(h.calls[r], g, g');
    }
  }

  lemma FiredSound(h: Handlers, g: Progress, id: nat)
    requires HandlersSound(h, g) && Sound(g) && id in g.up && id !in g.checked
    ensures HandlersSound(Fired(h, g, id), g.(checked := g.checked + {id}))
  {
    var h', g' := Fired(h, g, id), g.(checked := g.checked + {id});
    forall r | r in h'.calls ensures CallSound(h'.calls[r], g') {
      assert CallSound(h.calls[r], g);
    }
  }

  lemma {:induction false} CallReplaced(c: Callback, g: Progress)
    requires CallSound(c, g) && c.id !in g.checked
    ensures CallSound(c.(replaced := true), g)
  {
    var c' := c.(replaced := true);
    assert c'.args == c.args && c'.id == c.id && BySet(c', g) == BySet(c, g);
  }

  lemma {:induction false} CallNew(g: Progress, id: nat, early: bool)
    requires early == (id !in g.checked)
    ensures CallSound(Callback(id, Registered, early, false, false, []), g)
  {
  }

  lemma RegisterSound(h: Handlers, g: Progress, r: nat, id: nat)
    requires HandlersSound(h, g) && r !in h.calls
    ensures HandlersSound(Register(h, g, r, id), g)
  {
    hide CallSound;
    var h' := Register(h, g, r, id);
    CallNew(g, id, id !in g.checked);
    forall x | x in h'.calls ensures CallSound(h'.calls[x], g) {
      if x != r {
        assert CallSound(h.calls[x], g);
        if id in h.handler && h.handler[id] == x && id !in g.checked {
          CallReplaced(h.calls[x], g);
        }
      }
    }
  }

  lemma TestedSound(h: Handlers, g: Progress, r: nat)
    requires HandlersSound(h, g) && Sound(g)
    ensures HandlersSound(Tested(h, g, r), g) && HandlersSound(Called(h, g, r), g)
  {
    if r in h.calls {
      assert CallSound(h.calls[r], g);
    }
  }

  ghost predicate Callbacks(m: Machine) {
    HandlersSound(m.handlers, m.progress) && forall r :: r in m.handlers.calls ==> m.handlers.calls[r].id in m.issued
  }

  lemma CallbacksServer(m: Machine, step: Step)
    requires Valid(m) && Callbacks(m) && (step.Return? || step.StoreResult? || step.SetMutex? || step.RunCallback?)
    ensures Callbacks(Next(m, step))
  {
    hide Work, Messages, CallSound;
    PhaseWork(m, step.server);
    var m', p := Next(m, step), PhaseOf(m, step.server);
    if step.RunCallback? && p.Signalled? {
      hide HandlersSound;
      FiredSound(m.handlers, m.progress, p.id);
    } else {
      hide HandlersSound, Fired;
      HandlersKept(m.handlers, m.progress, m'.progress);
    }
  }

  lemma CallbacksOther(m: Machine, step: Step)
    requires Valid(m) && Callbacks(m) && !(step.Return? || step.StoreResult? || step.SetMutex? || step.RunCallback?)
    ensures Callbacks(Next(m, step))
  {
    hide Work, Messages, CallSound, HandlersSound;
    var m' := Next(m, step);
    if step.SetCallback? {
      if step.r !in m.handlers.calls {
        RegisterSound(m.handlers, m.progress, step.r, step.id);
      }
    } else if step.TestSet? || step.CallDirect? {
      TestedSound(m.handlers, m.progress, step.r);
    } else {
      HandlersKept(m.handlers, m.progress, m'.progress);
    }
  }

  lemma {:induction false} CallbacksRun(m: Machine, run: seq<Step>)
    requires Valid(m) && Callbacks(m)
    ensures Callbacks(After(m, run))
    decreases |run|
  {
    hide Valid, Next, Callbacks;
    if run != [] {
      ValidStep(m, run[0]);
      if run[0].Return? || run[0].StoreResult? || run[0].SetMutex? || run[0].RunCallback? {
        CallbacksServer(m, run[0]);
      } else {
        CallbacksOther(m, run[0]);
      }
      CallbacksRun(Next(m, run[0]), run[1..]);
    }
  }

  /**
    Once `SetCallback` and `Set` are both done, the callback has run, once or twice and each time
    with the value the invocation returned, unless another `SetCallback` on the same result
    replaced it before `Set` looked and it had found the event not set: then it has not run. It
    has run twice exactly when it was stored before `Set` looked and also found the event set.
   */
  lemma CallbackRuns(capacity: nat, run: seq<Step>, r: nat)
    requires var m := After(Initial(capacity), run);
             r in m.handlers.calls && m.handlers.calls[r].stage.Finished? && m.handlers.calls[r].id in m.progress.checked
    ensures var m := After(Initial(capacity), run); var c := m.handlers.calls[r];
            && (|c.args| == 0 <==> !c.saw && c.replaced)
            && (|c.args| == 2 <==> c.saw && c.early && !c.replaced)
            && |c.args| <= 2
            && (c.args != [] ==> c.id in m.progress.value && AllAre(c.args, m.progress.value[c.id]))
  {
    hide After, Valid;
    ValidInitially(capacity);
    CallbacksRun(Initial(capacity), run);
    var m := After(Initial(capacity), run);
    CallFinished(m.handlers.calls[r], m.progress);
  }

  lemma {:induction false} CallFinished(c: Callback, g: Progress)
    requires CallSound(c, g) && c.stage.Finished? && c.id in g.checked
    ensures |c.args| == 0 <==> !c.saw && c.replaced
    ensures |c.args| == 2 <==> c.saw && c.early && !c.replaced
    ensures |c.args| <= 2 && (c.args != [] ==> c.id in g.value && AllAre(c.args, g.value[c.id]))
  {
  }

  /** Another call of `SetCallback` on the same result. */
  ghost predicate Rivals(step: Step, r: nat, id: nat) {
    step.SetCallback? && step.id == id && step.r != r
  }

  /** With one `SetCallback` on a result its callback is never replaced, and so it runs in every interleaving. */
  lemma {:induction false} SoleNotReplaced(capacity: nat, run: seq<Step>, r: nat, id: nat)
    requires r in After(Initial(capacity), run).handlers.calls && After(Initial(capacity), run).handlers.calls[r].id == id
    requires forall i :: 0 <= i < |run| ==> !Rivals(run[i], r, id)
    ensures !After(Initial(capacity), run).handlers.calls[r].replaced
    decreases |run|
  {
    hide Next, Valid, Callbacks;
    assert run != [];
    var init, last := run[..|run| - 1], run[|run| - 1];
    var m := After(Initial(capacity), init);
    AfterLast(Initial(capacity), run);
    ValidInitially(capacity);
    assert Callbacks(Initial(capacity)) by { NoCallbacks(capacity); }
    CallbacksRun(Initial(capacity), init);
    CallStep(m, last, r);
    if r in m.handlers.calls {
      forall i | 0 <= i < |init| ensures !Rivals(init[i], r, id) { assert init[i] == run[i]; }
      SoleNotReplaced(capacity, init, r, id);
    }
  }

  lemma NoCallbacks(capacity: nat)
    ensures Callbacks(Initial(capacity))
  {
  }

  /** What one step does to whether a callback is replaced. */
  lemma {:induction false} CallStep(m: Machine, step: Step, r: nat)
    requires Callbacks(m) && r in Next(m, step).handlers.calls
    ensures var c := Next(m, step).handlers.calls[r];
            if r in m.handlers.calls then
              && c.id == m.handlers.calls[r].id
              && (c.replaced && !m.handlers.calls[r].replaced ==> Rivals(step, r, c.id))
            else !c.replaced
  {
    hide CallSound, Sent, Taken;
  }

  lemma {:induction false} AfterConcat(m: Machine, a: seq<Step>, b: seq<Step>)
    ensures After(m, a + b) == After(After(m, a), b)
    decreases |a|
  {
    hide Next;
    if a == [] {
      assert a + b == b;
    } else {
      AfterConcat(Next(m, a[0]), a[1..], b);
      assert (a + b)[1..] == a[1..] + b;
    }
  }

  /** Two clients each register a callback on the result of a request that is still queued. */
  function TwoClients(): seq<Step> {
    [Invoke(0, 0), SetCallback(0, 0), TestSet(0), SetCallback(1, 0), TestSet(1)]
  }

  lemma AfterTwoClients()
    ensures var m := After(Initial(1), TwoClients());
            && At(m.mail.queue, 0) == [0] && PhaseOf(m, 0) == Idle && m.progress == Progress(map[], map[], {}, {})
            && m.handlers.handler == map[0 := 1]
            && m.handlers.calls == map[0 := Callback(0, Finished, true, true, false, []), 1 := Callback(0, Finished, true, false, false, [])]
  {
    hide Fired, Called;
    var m1 := Next(Initial(1), Invoke(0, 0));
    var m2 := Next(m1, SetCallback(0, 0));
    assert m2.handlers.calls == map[0 := Callback(0, Registered, true, false, false, [])];
    var m3 := Next(m2, TestSet(0));
    assert m3.handlers.calls == map[0 := Callback(0, Finished, true, false, false, [])];
    var m4 := Next(m3, SetCallback(1, 0));
    var m5 := Next(m4, TestSet(1));
    assert After(Initial(1), TwoClients()) == m5;
  }

  /** A second `SetCallback` on the same result before `Set`: the first callback never runs. */
  lemma ReplacedNeverRuns()
    ensures var serve := [ReadMessage(0), Return(0, 7), StoreResult(0), SetMutex(0), RunCallback(0)];
            var m := After(Initial(1), TwoClients() + serve);
            && 0 in m.handlers.calls && m.handlers.calls[0].stage.Finished? && m.handlers.calls[0].id in m.progress.checked
            && m.handlers.calls[0].args == [] && 1 in m.handlers.calls && m.handlers.calls[1].args == [7]
  {
    hide TwoClients, Next;
    var serve := [ReadMessage(0), Return(0, 7), StoreResult(0), SetMutex(0), RunCallback(0)];
    AfterConcat(Initial(1), TwoClients(), serve);
    AfterTwoClients();
    var m := After(Initial(1), TwoClients());
    var m3 := Next(Next(Next(m, ReadMessage(0)), Return(0, 7)), StoreResult(0));
    AfterValue(m);
    AfterSetting(m3);
    assert After(m, serve) == Next(Next(m3, SetMutex(0)), RunCallback(0));
  }

  /** The server takes the request and stores the value of its method. */
  lemma AfterValue(m: Machine)
    requires At(m.mail.queue, 0) == [0] && PhaseOf(m, 0) == Idle && m.progress == Progress(map[], map[], {}, {})
    ensures var m' := Next(Next(Next(m, ReadMessage(0)), Return(0, 7)), StoreResult(0));
            m'.handlers == m.handlers && PhaseOf(m', 0) == Stored(0) && m'.progress == Progress(map[0 := 7], map[0 := 7], {}, {})
  {
    hide Taken, Fired;
  }

  /** Then it sets the event and runs the callback that is registered now. */
  lemma AfterSetting(m: Machine)
    requires PhaseOf(m, 0) == Stored(0) && m.progress == Progress(map[0 := 7], map[0 := 7], {}, {})
    ensures var m' := Next(Next(m, SetMutex(0)), RunCallback(0));
            m'.handlers == Fired(m.handlers, Progress(map[0 := 7], map[0 := 7], {0}, {}), 0) && 0 in m'.progress.checked
  {
    hide Fired;
    assert Next(m, SetMutex(0)).progress == Progress(map[0 := 7], map[0 := 7], {0}, {});
  }
}
