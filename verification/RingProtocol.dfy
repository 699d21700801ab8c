/**
  The ring buffer between threads (tysos/collections/RingBuffer.cs): every read, write and
  compare-and-exchange of `Enqueue` and `Dequeue` is a step of its own, and the steps of any number
  of threads interleave in any order.
 */
module RingProtocol {
  import opened Bits
  import opened Ring

  datatype Result = Nothing | Added | Full | Taken(val: nat) | NoValue

  /** Where a thread is: between calls, or at its next step of one, with its local variables. */
  datatype Phase =
    | Done(result: Result)
    | Putting(val: nat)
    | PutTail(val: nat, tail: nat)
    | PutReady(val: nat, tail: nat, head: nat)
    | PutClaimed(val: nat, pos: nat)
    | PutWritten(val: nat, pos: nat)
    | Taking
    | TakeTail(tail: nat)
    | TakeReady(tail: nat, head: nat)
    | TakeClaimed(pos: nat)
    | TakeRead(pos: nat, val: nat)

  /** A value some thread has claimed a position for. */
  datatype Entry = Entry(val: nat, putter: nat)

  /**
    The shared fields, the threads, and the history: the values in the order of their positions,
    who claimed each position for taking, and what was read there.
   */
  datatype State = State(bits: nat, d: seq<nat>, prodHead: nat, prodTail: nat, consHead: nat, consTail: nat,
                         threads: seq<Phase>, log: seq<Entry>, takers: seq<nat>, got: map<nat, nat>)

  datatype Step = Put(i: nat, val: nat) | Take(i: nat) | Go(i: nat)

  predicate Sized(s: State) {
    |s.d| == Pow2(s.bits)
  }

  function Mask(s: State): nat {
    Pow2(s.bits) - 1
  }

  function Slot(s: State, x: nat): (i: nat)
    requires Sized(s)
    ensures i < |s.d|
  {
    SlotAt(x, Mask(s))
  }

  function At(s: State, i: nat, p: Phase): State
    requires i < |s.threads|
  {
    s.(threads := s.threads[i := p])
  }

  // ------------------------------------------------------------ the steps

  /** The next step of the call thread `i` is in. */
  function Advance(s: State, i: nat): (s': State)
    requires Sized(s) && i < |s.threads|
    ensures Sized(s') && s'.bits == s.bits && |s'.threads| == |s.threads|
  {
    match s.threads[i]
    case Done(_) => s
    case Putting(val) => At(s, i, PutTail(val, s.consTail))
    case PutTail(val, tail) =>
      At(s, i, if Slot(s, s.prodHead + 1) == Slot(s, tail) then Done(Full) else PutReady(val, tail, s.prodHead))
    case PutReady(val, _, head) =>
      if s.prodHead == head then
        At(s, i, PutClaimed(val, head)).(prodHead := head + 1, log := s.log + [Entry(val, i)])
      else At(s, i, Putting(val))
    case PutClaimed(val, pos) => At(s, i, PutWritten(val, pos)).(d := s.d[Slot(s, pos) := val])
    case PutWritten(val, pos) =>
      if s.prodTail == pos then At(s, i, Done(Added)).(prodTail := pos + 1) else s
    case Taking => At(s, i, TakeTail(s.prodTail))
    case TakeTail(tail) =>
      At(s, i, if Slot(s, tail) == Slot(s, s.consHead) then Done(NoValue) else TakeReady(tail, s.consHead))
    case TakeReady(_, head) =>
      if s.consHead == head then
        At(s, i, TakeClaimed(head)).(consHead := head + 1, takers := s.takers + [i])
      else At(s, i, Taking)
    case TakeClaimed(pos) =>
      At(s, i, TakeRead(pos, s.d[Slot(s, pos)])).(got := s.got[pos := s.d[Slot(s, pos)]])
    case TakeRead(pos, val) =>
      if s.consTail == pos then At(s, i, Done(Taken(val))).(consTail := pos + 1) else s
  }

  /** One step; a thread that is in a call starts no other. */
  function Apply(s: State, step: Step): (s': State)
    requires Sized(s)
    ensures Sized(s') && s'.bits == s.bits && |s'.threads| == |s.threads|
  {
    if step.i >= |s.threads| then s
    else match step
      case Put(i, val) => if s.threads[i].Done? then At(s, i, Putting(val)) else s
      case Take(i) => if s.threads[i].Done? then At(s, i, Taking) else s
      case Go(i) => Advance(s, i)
  }

  function Run(s: State, steps: seq<Step>): (s': State)
    requires Sized(s)
    ensures Sized(s') && s'.bits == s.bits && |s'.threads| == |s.threads|
  {
    if steps == [] then s else Apply(Run(s, steps[..|steps| - 1]), steps[|steps| - 1])
  }

  /** A new ring: nothing in it and no thread in a call. */
  predicate Initial(s: State) {
    && Sized(s) && s.prodHead == s.prodTail == s.consHead == s.consTail == 0
    && s.log == [] && s.takers == [] && s.got == map[]
    && forall i :: 0 <= i < |s.threads| ==> s.threads[i].Done?
  }

  // ------------------------------------------------------------ what a sound run keeps

  /** A successful claim finds what it claims: a free slot to put into, or a published value to take. */
  predicate Sound(s: State, step: Step) {
    step.Go? && step.i < |s.threads| ==>
      var p := s.threads[step.i];
      && (p.PutReady? && p.head == s.prodHead ==> s.prodHead < s.consTail + Mask(s))
      && (p.TakeReady? && p.head == s.consHead ==> s.consHead < s.prodTail)
  }

  /** Every claim of the run is sound. */
  predicate AllSound(s: State, steps: seq<Step>)
    requires Sized(s)
  {
    steps != [] ==>
      var n := |steps| - 1;
      AllSound(s, steps[..n]) && Sound(Run(s, steps[..n]), steps[n])
  }

  ghost predicate Order(s: State) {
    && Sized(s) && s.consTail <= s.consHead <= s.prodTail <= s.prodHead <= s.consTail + Mask(s)
    && |s.log| == s.prodHead && |s.takers| == s.consHead
  }

  predicate PutsAt(p: Phase, pos: nat) {
    (p.PutClaimed? || p.PutWritten?) && p.pos == pos
  }

  predicate TakesAt(p: Phase, pos: nat) {
    (p.TakeClaimed? || p.TakeRead?) && p.pos == pos
  }

  /** A thread that is putting has its position for itself. */
  ghost predicate PutOk(s: State, i: nat, p: Phase)
    requires Order(s)
  {
    p.PutClaimed? || p.PutWritten? ==>
      && s.prodTail <= p.pos < s.prodHead && s.log[p.pos] == Entry(p.val, i)
      && (p.PutWritten? ==> s.d[Slot(s, p.pos)] == p.val)
  }

  ghost predicate TakeOk(s: State, i: nat, p: Phase)
    requires Order(s)
  {
    p.TakeClaimed? || p.TakeRead? ==>
      && s.consTail <= p.pos < s.consHead && s.takers[p.pos] == i
      && (p.TakeClaimed? ==> p.pos !in s.got)
      && (p.TakeRead? ==> p.pos in s.got && s.got[p.pos] == p.val)
  }

  ghost predicate Threads(s: State)
    requires Order(s)
  {
    forall i :: 0 <= i < |s.threads| ==> PutOk(s, i, s.threads[i]) && TakeOk(s, i, s.threads[i])
  }

  /** Every position claimed and not yet published, or not yet released, is in some thread's hands. */
  ghost predicate Held(s: State)
    requires Order(s)
  {
    && (forall pos :: s.prodTail <= pos < s.prodHead ==> s.log[pos].putter < |s.threads| && PutsAt(s.threads[s.log[pos].putter], pos))
    && (forall pos :: s.consTail <= pos < s.consHead ==> s.takers[pos] < |s.threads| && TakesAt(s.threads[s.takers[pos]], pos))
  }

  /** Published values are in their slots until they are released. */
  ghost predicate Stored(s: State)
    requires Order(s)
  {
    forall pos :: s.consTail <= pos < s.prodTail ==> s.d[Slot(s, pos)] == s.log[pos].val
  }

  /** What was read at a position is what was put there, and everything released was read. */
  ghost predicate Delivered(s: State)
    requires Order(s)
  {
    && (forall pos :: pos in s.got ==> pos < s.consHead && s.got[pos] == s.log[pos].val)
    && (forall pos :: 0 <= pos < s.consTail ==> pos in s.got)
  }

  ghost predicate Inv(s: State) {
    Order(s) && Threads(s) && Held(s) && Stored(s) && Delivered(s)
  }

  /** A phase in which the thread holds no position. */
  predicate Free(p: Phase) {
    !p.PutClaimed? && !p.PutWritten? && !p.TakeClaimed? && !p.TakeRead?
  }

  lemma LocalKept(s: State, i: nat, p: Phase)
    requires Inv(s) && i < |s.threads| && Free(s.threads[i]) && Free(p)
    ensures Inv(At(s, i, p))
  {
    hide SlotAt, Pow2;
  }

  lemma PutClaimKept(s: State, i: nat)
    requires Inv(s) && i < |s.threads| && s.threads[i].PutReady? && s.threads[i].head == s.prodHead
    requires s.prodHead < s.consTail + Mask(s)
    ensures Inv(Advance(s, i))
  {
    hide SlotAt, Pow2;
  }

  lemma WriteKept(s: State, i: nat)
    requires Inv(s) && i < |s.threads| && s.threads[i].PutClaimed?
    ensures Inv(Advance(s, i))
  {
    hide SlotAt, Pow2;
    var at := s.threads[i].pos;
    assert PutOk(s, i, s.threads[i]);
    forall pos | s.consTail <= pos < s.prodHead && pos != at ensures Slot(s, pos) != Slot(s, at) {
      SlotsAgree(if pos < at then pos else at, if pos < at then at else pos, s.bits);
    }
    var s' := Advance(s, i);
    forall j | 0 <= j < |s.threads| ensures PutOk(s', j, s'.threads[j]) && TakeOk(s', j, s'.threads[j]) {
      assert PutOk(s, j, s.threads[j]) && TakeOk(s, j, s.threads[j]);
    }
  }

  lemma PublishKept(s: State, i: nat)
    requires Inv(s) && i < |s.threads| && s.threads[i].PutWritten? && s.threads[i].pos == s.prodTail
    ensures Inv(Advance(s, i))
  {
    hide SlotAt, Pow2;
    var s' := Advance(s, i);
    assert PutOk(s, i, s.threads[i]);
    forall j | 0 <= j < |s.threads| ensures PutOk(s', j, s'.threads[j]) && TakeOk(s', j, s'.threads[j]) {
      assert PutOk(s, j, s.threads[j]) && TakeOk(s, j, s.threads[j]);
    }
  }

  lemma TakeClaimKept(s: State, i: nat)
    requires Inv(s) && i < |s.threads| && s.threads[i].TakeReady? && s.threads[i].head == s.consHead
    requires s.consHead < s.prodTail
    ensures Inv(Advance(s, i))
  {
    hide SlotAt, Pow2;
  }

  lemma ReadKept(s: State, i: nat)
    requires Inv(s) && i < |s.threads| && s.threads[i].TakeClaimed?
    ensures Inv(Advance(s, i))
  {
    hide SlotAt, Pow2;
    var s' := Advance(s, i);
    assert TakeOk(s, i, s.threads[i]);
    forall j | 0 <= j < |s.threads| ensures PutOk(s', j, s'.threads[j]) && TakeOk(s', j, s'.threads[j]) {
      assert PutOk(s, j, s.threads[j]) && TakeOk(s, j, s.threads[j]);
    }
  }

  lemma ReleaseKept(s: State, i: nat)
    requires Inv(s) && i < |s.threads| && s.threads[i].TakeRead? && s.threads[i].pos == s.consTail
    ensures Inv(Advance(s, i))
  {
    hide SlotAt, Pow2;
    var s' := Advance(s, i);
    assert TakeOk(s, i, s.threads[i]);
    forall j | 0 <= j < |s.threads| ensures PutOk(s', j, s'.threads[j]) && TakeOk(s', j, s'.threads[j]) {
      assert PutOk(s, j, s.threads[j]) && TakeOk(s, j, s.threads[j]);
    }
  }

  /** A sound step of any thread keeps the ring in order. */
  lemma StepKept(s: State, step: Step)
    requires Inv(s) && Sound(s, step)
    ensures Inv(Apply(s, step))
  {
    hide Inv, SlotAt, Pow2;
    assert Sized(s) by { InvSized(s); }
    if step.i < |s.threads| {
      var i, p := step.i, s.threads[step.i];
      if !step.Go? {
        if p.Done? {
          LocalKept(s, i, if step.Put? then Putting(step.val) else Taking);
        }
      } else {
        AdvanceKept(s, i);
      }
    }
  }

  lemma InvSized(s: State)
    requires Inv(s)
    ensures Sized(s)
  {
  }

  lemma AdvanceKept(s: State, i: nat)
    requires Inv(s) && Sized(s) && i < |s.threads| && Sound(s, Go(i))
    ensures Inv(Advance(s, i))
  {
    hide Inv, SlotAt, Pow2;
    match s.threads[i]
    case Done(_) =>
    case PutReady(val, _, head) =>
      if s.prodHead == head {
        PutClaimKept(s, i);
      } else {
        LocalKept(s, i, Putting(val));
      }
    case PutClaimed(_, _) => WriteKept(s, i);
    case PutWritten(_, pos) =>
      if s.prodTail == pos {
        PublishKept(s, i);
      }
    case TakeReady(_, head) =>
      if s.consHead == head {
        TakeClaimKept(s, i);
      } else {
        LocalKept(s, i, Taking);
      }
    case TakeClaimed(_) => ReadKept(s, i);
    case TakeRead(pos, _) =>
      if s.consTail == pos {
        ReleaseKept(s, i);
      }
    case _ => LocalKept(s, i, Advance(s, i).threads[i]);
  }

  lemma InitialInv(s: State)
    requires Initial(s)
    ensures Inv(s)
  {
  }

  /** An unsound claim of any thread puts the ring out of order at once. */
  lemma UnsoundBreaks(s: State, step: Step)
    requires Inv(s) && !Sound(s, step)
    ensures !Inv(Apply(s, step))
  {
    hide SlotAt, Pow2, Threads, Held, Stored, Delivered;
  }

  /** The steps start no new call of thread `i`. */
  predicate SameCall(steps: seq<Step>, i: nat) {
    forall k :: 0 <= k < |steps| ==> steps[k].Go? || steps[k].i != i
  }

  /** The call has claimed a position, and is answered with success or not at all yet. */
  predicate PutSucceeds(p: Phase) {
    p.PutClaimed? || p.PutWritten? || p == Done(Added)
  }

  predicate TakeSucceeds(p: Phase) {
    p.TakeClaimed? || p.TakeRead? || (p.Done? && p.result.Taken?)
  }

  lemma {:induction false} ClaimSucceeds(s: State, i: nat, more: seq<Step>)
    requires Sized(s) && i < |s.threads| && SameCall(more, i)
    ensures PutSucceeds(s.threads[i]) ==> PutSucceeds(Run(s, more).threads[i])
    ensures TakeSucceeds(s.threads[i]) ==> TakeSucceeds(Run(s, more).threads[i])
  {
    hide SlotAt, Pow2;
    if more != [] {
      var n := |more| - 1;
      ClaimSucceeds(s, i, more[..n]);
      assert more[n].Go? || more[n].i != i;
    }
  }

  /** What callers see of an unsound claim: a put succeeds on a full ring, or a take on an empty one, in every run from there. */
  lemma UnsoundSucceeds(s: State, step: Step, more: seq<Step>)
    requires Inv(s) && !Sound(s, step) && SameCall(more, step.i)
    ensures step.i < |s.threads|
    ensures var p, r := s.threads[step.i], Run(Apply(s, step), more).threads[step.i];
            || (p.PutReady? && s.prodHead == s.consTail + Mask(s) && PutSucceeds(r))
            || (p.TakeReady? && s.consHead == s.prodTail && TakeSucceeds(r))
  {
    hide SlotAt, Pow2, Threads, Held, Stored, Delivered, Run;
    ClaimSucceeds(Apply(s, step), step.i, more);
  }

  /** The ring is in order after every step of the run. */
  ghost predicate AlwaysInOrder(s: State, steps: seq<Step>)
    requires Sized(s)
  {
    Inv(Run(s, steps)) && (steps != [] ==> AlwaysInOrder(s, steps[..|steps| - 1]))
  }

  /** A run keeps the ring in order at every moment if and only if all its claims are sound. */
  lemma {:induction false} OrderExactly(s: State, steps: seq<Step>)
    requires Initial(s)
    ensures AllSound(s, steps) <==> AlwaysInOrder(s, steps)
  {
    hide Inv, Sound, Apply, Pow2;
    if steps == [] {
      InitialInv(s);
    } else {
      var n := |steps| - 1;
      OrderExactly(s, steps[..n]);
      if AlwaysInOrder(s, steps[..n]) {
        var before := Run(s, steps[..n]);
        if Sound(before, steps[n]) {
          StepKept(before, steps[n]);
        } else {
          UnsoundBreaks(before, steps[n]);
        }
      }
    }
  }

  // ------------------------------------------------------------ when claims are sound

  /** What a thread has read is no more than what is there now, and its test passed. */
  ghost predicate Seen(s: State, p: Phase)
    requires Sized(s)
  {
    && (p.PutTail? ==> p.tail <= s.consTail)
    && (p.PutReady? ==> p.tail <= s.consTail && p.head <= s.prodHead && Slot(s, p.head + 1) != Slot(s, p.tail))
    && (p.TakeTail? ==> p.tail <= s.prodTail)
    && (p.TakeReady? ==> p.tail <= s.prodTail && p.head <= s.consHead && Slot(s, p.head) != Slot(s, p.tail))
  }

  ghost predicate AllSeen(s: State)
    requires Sized(s)
  {
    forall i :: 0 <= i < |s.threads| ==> Seen(s, s.threads[i])
  }

  /** Between its two reads the thread was passed by more than the ring can hold. */
  predicate Overtaken(s: State, p: Phase) {
    || (p.PutReady? && p.head > p.tail + Mask(s))
    || (p.TakeReady? && p.head > p.tail)
  }

  lemma SeenKept(s: State, step: Step)
    requires Sized(s) && AllSeen(s)
    ensures AllSeen(Apply(s, step))
  {
    hide SlotAt, Pow2, Seen;
    var s' := Apply(s, step);
    forall i | 0 <= i < |s.threads| ensures Seen(s', s'.threads[i]) {
      if i == step.i {
        assert Seen(s, s.threads[i]);
        SeenByMover(s, step);
      } else {
        assert Seen(s, s.threads[i]) && s'.threads[i] == s.threads[i];
        SeenLater(s, step, s.threads[i]);
      }
    }
  }

  lemma SeenByMover(s: State, step: Step)
    requires Sized(s) && step.i < |s.threads| && Seen(s, s.threads[step.i])
    ensures Seen(Apply(s, step), Apply(s, step).threads[step.i])
  {
    hide SlotAt, Pow2;
  }

  lemma SeenLater(s: State, step: Step, p: Phase)
    requires Sized(s) && Seen(s, p)
    ensures Seen(Apply(s, step), p)
  {
    hide SlotAt, Pow2;
  }

  /** A claim by a thread that was not overtaken is sound. */
  lemma CalmIsSound(s: State, step: Step)
    requires Inv(s) && AllSeen(s)
    requires step.i < |s.threads| ==> !Overtaken(s, s.threads[step.i])
    ensures Sound(s, step)
  {
    hide SlotAt, Pow2, Threads, Held, Stored, Delivered;
    if step.Go? && step.i < |s.threads| {
      var p := s.threads[step.i];
      assert Seen(s, p);
      if p.PutReady? && p.head == s.prodHead {
        SlotsAgree(p.head + 1, p.tail + Pow2(s.bits), s.bits);
        TurnSlot(s, p.tail);
      }
    }
  }

  lemma TurnSlot(s: State, x: nat)
    requires Sized(s)
    ensures Slot(s, x + Pow2(s.bits)) == Slot(s, x)
  {
    SlotsAgree(x, x + Pow2(s.bits), s.bits);
  }

  predicate InPut(p: Phase) {
    p.Putting? || p.PutTail? || p.PutReady? || p.PutClaimed? || p.PutWritten?
  }

  predicate InTake(p: Phase) {
    p.Taking? || p.TakeTail? || p.TakeReady? || p.TakeClaimed? || p.TakeRead?
  }

  /** No value is put while another is being put, and none is taken while another is being taken. */
  predicate Exclusive(s: State, step: Step) {
    && (step.Put? ==> forall i :: 0 <= i < |s.threads| ==> !InPut(s.threads[i]))
    && (step.Take? ==> forall i :: 0 <= i < |s.threads| ==> !InTake(s.threads[i]))
  }

  predicate AllExclusive(s: State, steps: seq<Step>)
    requires Sized(s)
  {
    steps != [] ==>
      var n := |steps| - 1;
      AllExclusive(s, steps[..n]) && Exclusive(Run(s, steps[..n]), steps[n])
  }

  ghost predicate Alone(s: State) {
    && (forall i, j :: 0 <= i < |s.threads| && 0 <= j < |s.threads| && InPut(s.threads[i]) && InPut(s.threads[j]) ==> i == j)
    && (forall i, j :: 0 <= i < |s.threads| && 0 <= j < |s.threads| && InTake(s.threads[i]) && InTake(s.threads[j]) ==> i == j)
  }

  /** What an undisturbed thread knows of the ring. */
  ghost predicate Knows(s: State, p: Phase) {
    && !Overtaken(s, p)
    && (p.PutTail? ==> s.prodHead <= p.tail + Mask(s))
    && (p.TakeTail? ==> s.consHead <= p.tail)
  }

  ghost predicate Undisturbed(s: State) {
    Alone(s) && forall i :: 0 <= i < |s.threads| ==> Knows(s, s.threads[i])
  }

  lemma UndisturbedKept(s: State, step: Step)
    requires Inv(s) && Undisturbed(s) && Exclusive(s, step)
    ensures Undisturbed(Apply(s, step))
  {
    hide SlotAt, Pow2, Threads, Held, Stored, Delivered;
    var s' := Apply(s, step);
    if step.i < |s.threads| {
      assert forall j :: 0 <= j < |s.threads| && j != step.i ==> s'.threads[j] == s.threads[j];
      var p, p' := s.threads[step.i], s'.threads[step.i];
      assert InPut(p') ==> InPut(p) || step.Put?;
      assert InTake(p') ==> InTake(p) || step.Take?;
      forall i | 0 <= i < |s.threads| ensures Knows(s', s'.threads[i]) {
        assert Knows(s, s.threads[i]);
      }
    }
  }

  /**
    Without two puts or two takes at once, every interleaving is sound: each value is in the ring, in
    the hands of one thread or delivered, and is delivered as it was put and in the order of the puts.
   */
  lemma {:induction false} ExclusiveDelivers(s: State, steps: seq<Step>)
    requires Initial(s) && AllExclusive(s, steps)
    ensures AllSound(s, steps)
    ensures var s' := Run(s, steps); Inv(s') && AllSeen(s') && Undisturbed(s')
  {
    hide Inv, Sound, AllSeen, Undisturbed, Exclusive, Apply, SlotAt, Pow2;
    if steps == [] {
      InitialInv(s);
      InitialUndisturbed(s);
    } else {
      var n := |steps| - 1;
      var init := steps[..n];
      ExclusiveDelivers(s, init);
      var before := Run(s, init);
      UndisturbedSound(before, steps[n]);
      StepKept(before, steps[n]);
      SeenKept(before, steps[n]);
      UndisturbedKept(before, steps[n]);
    }
  }

  lemma InitialUndisturbed(s: State)
    requires Initial(s)
    ensures AllSeen(s) && Undisturbed(s)
  {
    hide SlotAt, Pow2;
  }

  lemma UndisturbedSound(s: State, step: Step)
    requires Inv(s) && Sized(s) && AllSeen(s) && Undisturbed(s)
    ensures Sound(s, step)
  {
    hide Inv, AllSeen, Sound, Alone, SlotAt, Pow2;
    if step.i < |s.threads| {
      assert Knows(s, s.threads[step.i]);
    }
    CalmIsSound(s, step);
  }

  /** An undisturbed call refuses exactly when the ring was full, or empty, as the call began to look. */
  lemma RefusalsAreRight(s: State, i: nat)
    requires Inv(s) && AllSeen(s) && Undisturbed(s) && i < |s.threads|
    ensures var p := s.threads[i]; p.PutTail? ==> (Advance(s, i).threads[i] == Done(Full) <==> s.prodHead == p.tail + Mask(s))
    ensures var p := s.threads[i]; p.TakeTail? ==> (Advance(s, i).threads[i] == Done(NoValue) <==> s.consHead == p.tail)
  {
    hide SlotAt, Pow2, Alone, Threads, Held, Stored, Delivered;
    var p := s.threads[i];
    assert Seen(s, p) && Knows(s, p);
    if p.PutTail? {
      TurnSlot(s, p.tail);
      SlotsAgree(s.prodHead + 1, p.tail + Pow2(s.bits), s.bits);
    }
    if p.TakeTail? {
      SlotsAgree(s.consHead, p.tail, s.bits);
    }
  }

  /** A position in no thread's hands is published, or released. */
  lemma NothingHeld(s: State, pos: nat, pos': nat)
    requires Inv(s) && s.consTail <= pos && s.prodTail <= pos'
    requires forall i :: 0 <= i < |s.threads| ==> !TakesAt(s.threads[i], pos) && !PutsAt(s.threads[i], pos')
    ensures s.consHead <= pos && s.prodHead <= pos'
  {
    hide Inv;
    if pos < s.consHead {
      var i := Taker(s, pos);
      assert false;
    }
    if pos' < s.prodHead {
      var i := Putter(s, pos');
      assert false;
    }
  }

  lemma Taker(s: State, pos: nat) returns (i: nat)
    requires Inv(s) && s.consTail <= pos < s.consHead
    ensures i < |s.threads| && TakesAt(s.threads[i], pos)
  {
    hide SlotAt, Pow2;
    i := s.takers[pos];
  }

  lemma Putter(s: State, pos: nat) returns (i: nat)
    requires Inv(s) && s.prodTail <= pos < s.prodHead
    ensures i < |s.threads| && PutsAt(s.threads[i], pos)
  {
    hide SlotAt, Pow2;
    i := s.log[pos].putter;
  }

  /** With no call under way, the values taken are the first ones put and the others are in the ring, in order. */
  lemma AtRest(s: State)
    requires Inv(s) && forall i :: 0 <= i < |s.threads| ==> s.threads[i].Done?
    ensures s.consTail == s.consHead && s.prodTail == s.prodHead == |s.log|
    ensures forall pos: nat :: pos in s.got <==> pos < s.consHead
    ensures forall pos :: 0 <= pos < s.consHead ==> s.got[pos] == s.log[pos].val
    ensures forall pos :: s.consHead <= pos < |s.log| ==> s.d[Slot(s, pos)] == s.log[pos].val
  {
    hide SlotAt, Pow2;
    NothingHeld(s, s.consTail, s.prodTail);
  }

  // ------------------------------------------------------------ calls without interruption

  /** `n` steps of one thread. */
  function Goes(i: nat, n: nat): seq<Step> {
    if n == 0 then [] else [Go(i)] + Goes(i, n - 1)
  }

  function Turns(s: State, i: nat, n: nat): (s': State)
    requires Sized(s) && i < |s.threads|
    ensures Sized(s') && s'.bits == s.bits && |s'.threads| == |s.threads|
    decreases n
  {
    if n == 0 then s else Turns(Advance(s, i), i, n - 1)
  }

  lemma {:induction false} RunSteps(s: State, steps: seq<Step>, more: seq<Step>)
    requires Sized(s)
    ensures Run(s, steps + more) == Run(Run(s, steps), more)
    decreases |more|
  {
    hide Apply, Pow2;
    if more == [] {
      assert steps + more == steps;
    } else {
      var n := |more| - 1;
      assert (steps + more)[..|steps| + n] == steps + more[..n];
      RunSteps(s, steps, more[..n]);
    }
  }

  lemma RunFirst(s: State, step: Step, more: seq<Step>)
    requires Sized(s)
    ensures Run(s, [step] + more) == Run(Apply(s, step), more)
  {
    hide Apply, Pow2;
    RunSteps(s, [step], more);
    assert [step][..0] == [];
  }

  lemma {:induction false} RunGoes(s: State, i: nat, n: nat)
    requires Sized(s) && i < |s.threads|
    ensures Run(s, Goes(i, n)) == Turns(s, i, n)
    decreases n
  {
    hide Advance, Pow2;
    if n > 0 {
      RunFirst(s, Go(i), Goes(i, n - 1));
      RunGoes(Advance(s, i), i, n - 1);
    }
  }

  function PutSteps(i: nat, val: nat): seq<Step> {
    [Put(i, val)] + Goes(i, 5)
  }

  function TakeSteps(i: nat): seq<Step> {
    [Take(i)] + Goes(i, 5)
  }

  /** What a put does when no other thread moves. */
  function AfterPut(s: State, i: nat, val: nat): (s': State)
    requires Sized(s) && i < |s.threads|
    ensures Sized(s') && |s'.threads| == |s.threads|
  {
    if s.prodHead == s.consTail + Mask(s) then At(s, i, Done(Full))
    else
      var pos := s.prodHead;
      At(s, i, Done(Added)).(prodHead := pos + 1, prodTail := pos + 1, log := s.log + [Entry(val, i)], d := s.d[Slot(s, pos) := val])
  }

  function AfterTake(s: State, i: nat): (s': State)
    requires Sized(s) && i < |s.threads|
    ensures Sized(s') && |s'.threads| == |s.threads|
  {
    if s.consHead == s.prodTail then At(s, i, Done(NoValue))
    else
      var pos := s.consHead;
      var val := s.d[Slot(s, pos)];
      At(s, i, Done(Taken(val))).(consHead := pos + 1, consTail := pos + 1, takers := s.takers + [i], got := s.got[pos := val])
  }

  /** An uninterrupted put adds at the end, or refuses when the ring is full. */
  lemma PutAlone(s: State, i: nat, val: nat)
    requires Sized(s) && i < |s.threads| && s.threads[i].Done?
    requires s.consTail <= s.prodTail == s.prodHead <= s.consTail + Mask(s)
    ensures Run(s, PutSteps(i, val)) == AfterPut(s, i, val)
  {
    hide SlotAt, Pow2, Run, Goes, Advance;
    var s1 := At(s, i, Putting(val));
    RunFirst(s, Put(i, val), Goes(i, 5));
    RunGoes(s1, i, 5);
    TwoTurns(s1, i, 3);
    PutLooks(s, i, val);
    if s.prodHead == s.consTail + Mask(s) {
      Resting(At(s, i, Done(Full)), i, 3);
    } else {
      PutCompletes(s, i, val, s.consTail);
    }
  }

  lemma TwoTurns(s: State, i: nat, n: nat)
    requires Sized(s) && i < |s.threads|
    ensures Turns(s, i, n + 2) == Turns(Advance(Advance(s, i), i), i, n)
  {
    hide Advance, Pow2;
  }

  lemma {:induction false} Resting(s: State, i: nat, n: nat)
    requires Sized(s) && i < |s.threads| && s.threads[i].Done?
    ensures Turns(s, i, n) == s
  {
    hide Pow2;
    if n > 0 {
      Resting(s, i, n - 1);
    }
  }

  /** The two reads of a put. */
  lemma PutLooks(s: State, i: nat, val: nat)
    requires Sized(s) && i < |s.threads| && s.consTail <= s.prodHead <= s.consTail + Mask(s)
    ensures Advance(Advance(At(s, i, Putting(val)), i), i)
         == At(s, i, if s.prodHead == s.consTail + Mask(s) then Done(Full) else PutReady(val, s.consTail, s.prodHead))
  {
    hide SlotAt, Pow2;
    SlotsAgree(s.consTail, s.prodHead + 1, s.bits);
  }

  /** The second half of a put: claim, write and publish. */
  lemma PutCompletes(s: State, i: nat, val: nat, tail: nat)
    requires Sized(s) && i < |s.threads| && s.prodTail == s.prodHead
    ensures var pos := s.prodHead;
            Turns(At(s, i, PutReady(val, tail, pos)), i, 3)
            == At(s, i, Done(Added)).(prodHead := pos + 1, prodTail := pos + 1, log := s.log + [Entry(val, i)],
                                      d := s.d[Slot(s, pos) := val])
  {
    hide SlotAt, Pow2;
  }

  /** An uninterrupted take gets the oldest value, or none when the ring is empty. */
  lemma TakeAlone(s: State, i: nat)
    requires Sized(s) && i < |s.threads| && s.threads[i].Done?
    requires s.consTail == s.consHead <= s.prodTail <= s.consHead + Mask(s)
    ensures Run(s, TakeSteps(i)) == AfterTake(s, i)
  {
    hide SlotAt, Pow2, Run, Goes, Advance;
    var s1 := At(s, i, Taking);
    RunFirst(s, Take(i), Goes(i, 5));
    RunGoes(s1, i, 5);
    TwoTurns(s1, i, 3);
    TakeLooks(s, i);
    if s.consHead == s.prodTail {
      Resting(At(s, i, Done(NoValue)), i, 3);
    } else {
      TakeCompletes(s, i, s.prodTail);
    }
  }

  lemma TakeLooks(s: State, i: nat)
    requires Sized(s) && i < |s.threads| && s.consHead <= s.prodTail <= s.consHead + Mask(s) + 1
    ensures var nothing := s.prodTail == s.consHead || s.prodTail == s.consHead + Mask(s) + 1;
            Advance(Advance(At(s, i, Taking), i), i) == At(s, i, if nothing then Done(NoValue) else TakeReady(s.prodTail, s.consHead))
  {
    hide SlotAt, Pow2;
    SlotsAgree(s.consHead, s.prodTail, s.bits);
  }

  /** The second half of a take: claim, read and release. */
  lemma TakeCompletes(s: State, i: nat, tail: nat)
    requires Sized(s) && i < |s.threads| && s.consTail == s.consHead
    ensures var pos := s.consHead; var val := s.d[Slot(s, pos)];
            Turns(At(s, i, TakeReady(tail, pos)), i, 3)
            == At(s, i, Done(Taken(val))).(consHead := pos + 1, consTail := pos + 1, takers := s.takers + [i], got := s.got[pos := val])
  {
    hide SlotAt, Pow2;
  }

  // ------------------------------------------------------------ overtaken threads

  /** A put that has read the tail, and a take that has. */
  lemma FirstReads(s: State, i: nat, val: nat)
    requires Sized(s) && i < |s.threads| && s.threads[i].Done?
    ensures Run(s, [Put(i, val)] + Goes(i, 1)) == At(s, i, PutTail(val, s.consTail))
    ensures Run(s, [Take(i)] + Goes(i, 1)) == At(s, i, TakeTail(s.prodTail))
  {
    hide Pow2, Run, Goes;
    RunFirst(s, Put(i, val), Goes(i, 1));
    RunGoes(At(s, i, Putting(val)), i, 1);
    RunFirst(s, Take(i), Goes(i, 1));
    RunGoes(At(s, i, Taking), i, 1);
  }

  /**
    A producer that read the tail before the ring filled up goes on: its put succeeds, the ring holds
    one value too many, and the next take, by any thread, finds nothing.
   */
  lemma OverfullLooksEmpty(s: State, i: nat, j: nat)
    requires Sized(s) && i < |s.threads| && j < |s.threads| && i != j && s.threads[j].Done?
    requires s.consTail == s.consHead && s.prodTail == s.prodHead == s.consTail + Mask(s)
    requires s.threads[i].PutTail? && Slot(s, s.prodHead + 1) != Slot(s, s.threads[i].tail)
    ensures var s' := Run(s, Goes(i, 4) + TakeSteps(j));
            && s'.threads == s.threads[i := Done(Added)][j := Done(NoValue)]
            && s'.log == s.log + [Entry(s.threads[i].val, i)] && s'.got == s.got
            && s'.prodTail == s'.consHead + Pow2(s.bits)
  {
    hide SlotAt, Pow2, Run, Goes, Advance;
    var p, pos := s.threads[i], s.prodHead;
    RunSteps(s, Goes(i, 4), TakeSteps(j));
    RunGoes(s, i, 4);
    PutGoesOn(s, i);
    PutCompletes(s, i, p.val, p.tail);
    var s1 := Turns(s, i, 4);
    RunFirst(s1, Take(j), Goes(j, 5));
    RunGoes(At(s1, j, Taking), j, 5);
    TwoTurns(At(s1, j, Taking), j, 3);
    TakeLooks(s1, j);
    Resting(At(s1, j, Done(NoValue)), j, 3);
  }

  lemma PutGoesOn(s: State, i: nat)
    requires Sized(s) && i < |s.threads| && s.threads[i].PutTail? && Slot(s, s.prodHead + 1) != Slot(s, s.threads[i].tail)
    ensures var p := s.threads[i]; Turns(s, i, 4) == Turns(At(s, i, PutReady(p.val, p.tail, s.prodHead)), i, 3)
  {
    hide SlotAt, Pow2;
  }

  /** A consumer that read the head of the producers before the ring emptied goes on: it takes a value nobody put. */
  lemma TakesNothing(s: State, i: nat)
    requires Sized(s) && i < |s.threads| && s.consTail == s.consHead == s.prodTail == s.prodHead
    requires s.threads[i].TakeTail? && Slot(s, s.threads[i].tail) != Slot(s, s.consHead)
    ensures var s' := Run(s, Goes(i, 4));
            s'.threads == s.threads[i := Done(Taken(s.d[Slot(s, s.consHead)]))] && s'.log == s.log && s'.consHead == s'.prodHead + 1
  {
    hide SlotAt, Pow2, Run, Goes, Advance;
    RunGoes(s, i, 4);
    TakeGoesOn(s, i);
    TakeCompletes(s, i, s.threads[i].tail);
  }

  lemma TakeGoesOn(s: State, i: nat)
    requires Sized(s) && i < |s.threads| && s.threads[i].TakeTail? && Slot(s, s.threads[i].tail) != Slot(s, s.consHead)
    ensures var p := s.threads[i]; Turns(s, i, 4) == Turns(At(s, i, TakeReady(p.tail, s.consHead)), i, 3)
  {
    hide SlotAt, Pow2;
  }

  lemma SmallSlots()
    ensures Pow2(1) == 2 && SlotAt(0, 1) == SlotAt(2, 1) == 0 && SlotAt(1, 1) == SlotAt(3, 1) == 1
  {
  }

  /** A ring of two slots, so of one value, and three threads between calls. */
  function Small(): (s: State)
    ensures Initial(s) && s.bits == 1
  {
    assert Pow2(1) == 2;
    State(1, [0, 0], 0, 0, 0, 0, [Done(Nothing), Done(Nothing), Done(Nothing)], [], [], map[])
  }

  /**
    Two producers: thread 0 reads the tail, then thread 1 puts 8, thread 2 takes it and thread 1 puts
    9. Thread 0 goes on and puts 7 into the full ring. All puts have succeeded, and the next take
    finds nothing.
   */
  lemma TwoProducers()
    ensures var steps := [Put(0, 7)] + Goes(0, 1) + PutSteps(1, 8) + TakeSteps(2) + PutSteps(1, 9) + (Goes(0, 4) + TakeSteps(2));
            var s := Run(Small(), steps);
            && s.threads == [Done(Added), Done(Added), Done(NoValue)]
            && s.log == [Entry(8, 1), Entry(9, 1), Entry(7, 0)] && s.got == map[0 := 8]
  {
    hide Run, Turns, Goes, SlotAt, TakeSteps, PutSteps;
    SmallSlots();
    var s0, first := Small(), [Put(0, 7)] + Goes(0, 1);
    FirstReads(s0, 0, 7);
    var s1 := At(s0, 0, PutTail(7, 0));
    RunSteps(s0, first, PutSteps(1, 8));
    PutAlone(s1, 1, 8);
    var s2 := AfterPut(s1, 1, 8);
    RunSteps(s0, first + PutSteps(1, 8), TakeSteps(2));
    TakeAlone(s2, 2);
    var s3 := AfterTake(s2, 2);
    RunSteps(s0, first + PutSteps(1, 8) + TakeSteps(2), PutSteps(1, 9));
    PutAlone(s3, 1, 9);
    var s4 := AfterPut(s3, 1, 9);
    RunSteps(s0, first + PutSteps(1, 8) + TakeSteps(2) + PutSteps(1, 9), Goes(0, 4) + TakeSteps(2));
    OverfullLooksEmpty(s4, 0, 2);
  }

  /**
    Two consumers: thread 0 looks at the empty ring, then thread 2 puts 5 and thread 1 takes it.
    Thread 0 goes on and takes a value too, though only one was put.
   */
  lemma TwoConsumers()
    ensures var steps := [Take(0)] + Goes(0, 1) + PutSteps(2, 5) + TakeSteps(1) + Goes(0, 4);
            var s := Run(Small(), steps);
            s.threads == [Done(Taken(0)), Done(Taken(5)), Done(Added)] && s.log == [Entry(5, 2)]
  {
    hide Run, Turns, Goes, SlotAt, TakeSteps, PutSteps;
    SmallSlots();
    var s0, first := Small(), [Take(0)] + Goes(0, 1);
    FirstReads(s0, 0, 0);
    var s1 := At(s0, 0, TakeTail(0));
    RunSteps(s0, first, PutSteps(2, 5));
    PutAlone(s1, 2, 5);
    var s2 := AfterPut(s1, 2, 5);
    RunSteps(s0, first + PutSteps(2, 5), TakeSteps(1));
    TakeAlone(s2, 1);
    var s3 := AfterTake(s2, 1);
    RunSteps(s0, first + PutSteps(2, 5) + TakeSteps(1), Goes(0, 4));
    TakesNothing(s3, 0);
  }
}
