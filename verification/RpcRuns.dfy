/**
  Callbacks on results (tysos/ServerObject.cs), told by the order of a run's steps: where
  `SetCallback` stores and tests, where `Set` sets the event and looks for a callback.
 */
module RpcRuns {
  import opened Rpc

  /** The state before step `k` of a run. */
  ghost function Before(capacity: nat, run: seq<Step>, k: nat): Machine
    requires k <= |run|
  {
    After(Initial(capacity), run[..k])
  }

  /** The step registers callback `r` on the result of `id`. */
  ghost predicate Registers(m: Machine, step: Step, r: nat, id: nat) {
    step == SetCallback(r, id) && r !in m.handlers.calls && id in m.issued
  }

  /** The step registers another callback on the result of `id`. */
  ghost predicate Rival(m: Machine, step: Step, r: nat, id: nat) {
    step.SetCallback? && step.r != r && Registers(m, step, step.r, id)
  }

  /** The step is where `SetCallback` asks whether the event is set. */
  ghost predicate Tests(m: Machine, step: Step, r: nat) {
    step == TestSet(r) && r in m.handlers.calls && m.handlers.calls[r].stage.Registered?
  }

  /** The step is the call of a server on itself. */
  ghost predicate Local(m: Machine, step: Step, id: nat) {
    step.InvokeLocal? && step.id == id && id !in m.issued
  }

  /** The step sets the event of `id`. */
  ghost predicate Sets(m: Machine, step: Step, id: nat) {
    (step.SetMutex? && PhaseOf(m, step.server) == Stored(id)) || Local(m, step, id)
  }

  /** The step is where `Set` looks for a callback. */
  ghost predicate Looks(m: Machine, step: Step, id: nat) {
    (step.RunCallback? && PhaseOf(m, step.server) == Signalled(id)) || Local(m, step, id)
  }

  // ------------------------------------------------------------ one step

  lemma UpStep(m: Machine, step: Step, id: nat)
    ensures id in m.progress.up ==> id in Next(m, step).progress.up
    ensures id in Next(m, step).progress.up && id !in m.progress.up ==> Sets(m, step, id)
  {
    hide Fired, Register, Tested, Called, Sent, Taken;
  }

  lemma CheckedStep(m: Machine, step: Step, id: nat)
    ensures id in m.progress.checked ==> id in Next(m, step).progress.checked
    ensures id in Next(m, step).progress.checked && id !in m.progress.checked ==> Looks(m, step, id)
  {
    hide Fired, Register, Tested, Called, Sent, Taken;
  }

  lemma CallAppears(m: Machine, step: Step, r: nat)
    requires r in Next(m, step).handlers.calls && r !in m.handlers.calls
    ensures var c := Next(m, step).handlers.calls[r];
            && Registers(m, step, r, c.id)
            && c == Callback(c.id, Registered, c.id !in m.progress.checked, false, false, [])
  {
    hide Sent, Taken;
  }

  /** What a step does to a callback that is registered. */
  lemma CallChanges(m: Machine, step: Step, r: nat)
    requires Callbacks(m) && r in m.handlers.calls
    ensures r in Next(m, step).handlers.calls
    ensures var c, c' := m.handlers.calls[r], Next(m, step).handlers.calls[r];
            && c'.id == c.id && c'.early == c.early
            && (c'.replaced <==> c.replaced || (Rival(m, step, r, c.id) && c.id !in m.progress.checked))
            && (c.stage.Registered? && !c'.stage.Registered? ==> Tests(m, step, r) && (c'.saw <==> c.id in m.progress.up))
            && (!c.stage.Registered? ==> c'.saw == c.saw && !c'.stage.Registered?)
  {
    hide CallSound, Sent, Taken;
  }

  // ------------------------------------------------------------ the run

  lemma RunInvariant(capacity: nat, run: seq<Step>)
    ensures Valid(After(Initial(capacity), run)) && Callbacks(After(Initial(capacity), run))
  {
    hide Valid, Callbacks, After;
    ValidInitially(capacity);
    NoCallbacks(capacity);
    ValidRun(Initial(capacity), run);
    CallbacksRun(Initial(capacity), run);
  }

  lemma Prefixes(capacity: nat, run: seq<Step>)
    requires run != []
    ensures var init := run[..|run| - 1];
            && (forall k :: 0 <= k <= |init| ==> Before(capacity, run, k) == Before(capacity, init, k))
            && Before(capacity, run, |init|) == After(Initial(capacity), init)
            && After(Initial(capacity), run) == Next(After(Initial(capacity), init), run[|init|])
            && Before(capacity, run, |run|) == After(Initial(capacity), run)
  {
    hide After, Next;
    var init := run[..|run| - 1];
    AfterLast(Initial(capacity), run);
    forall k | 0 <= k <= |init| ensures run[..k] == init[..k] { }
    assert run[..|run|] == run && run[..|init|] == init;
  }

  /** Where a callback was registered, and what its recorded flags say about the run. */
  lemma {:induction false} Registration(capacity: nat, run: seq<Step>, r: nat) returns (i: nat)
    requires r in After(Initial(capacity), run).handlers.calls
    ensures var c := After(Initial(capacity), run).handlers.calls[r];
            && i < |run| && Registers(Before(capacity, run, i), run[i], r, c.id)
            && (c.early <==> c.id !in Before(capacity, run, i).progress.checked)
            && (c.replaced <==> exists k :: i < k < |run| && Rival(Before(capacity, run, k), run[k], r, c.id)
                                            && c.id !in Before(capacity, run, k).progress.checked)
    decreases |run|
  {
    hide Next, Valid, Callbacks, Rival, Registers;
    assert run != [];
    var init, last := run[..|run| - 1], run[|run| - 1];
    var m := After(Initial(capacity), init);
    Prefixes(capacity, run);
    RunInvariant(capacity, init);
    if r in m.handlers.calls {
      CallChanges(m, last, r);
      i := Registration(capacity, init, r);
    } else {
      CallAppears(m, last, r);
      i := |init|;
    }
  }

  /** Where it was tested, and what that saw. */
  lemma {:induction false} Testing(capacity: nat, run: seq<Step>, r: nat) returns (t: nat)
    requires r in After(Initial(capacity), run).handlers.calls && !After(Initial(capacity), run).handlers.calls[r].stage.Registered?
    ensures var c := After(Initial(capacity), run).handlers.calls[r];
            t < |run| && Tests(Before(capacity, run, t), run[t], r) && (c.saw <==> c.id in Before(capacity, run, t).progress.up)
    decreases |run|
  {
    hide Next, Valid, Callbacks, Tests, Rival;
    assert run != [];
    var init, last := run[..|run| - 1], run[|run| - 1];
    var m := After(Initial(capacity), init);
    Prefixes(capacity, run);
    RunInvariant(capacity, init);
    if r in m.handlers.calls {
      CallChanges(m, last, r);
      if m.handlers.calls[r].stage.Registered? {
        t := |init|;
      } else {
        t := Testing(capacity, init, r);
      }
    } else {
      CallAppears(m, last, r);
      assert false;
    }
  }

  /** The event of a result is set by one step, and stays set. */
  lemma {:induction false} Setting(capacity: nat, run: seq<Step>, id: nat) returns (u: nat)
    requires id in After(Initial(capacity), run).progress.up
    ensures u < |run| && Sets(Before(capacity, run, u), run[u], id)
    ensures forall k :: 0 <= k <= |run| ==> (id in Before(capacity, run, k).progress.up <==> k > u)
    decreases |run|
  {
    hide Next, Sets;
    assert run != [];
    var init := run[..|run| - 1];
    var m := After(Initial(capacity), init);
    Prefixes(capacity, run);
    UpStep(m, run[|init|], id);
    if id in m.progress.up {
      u := Setting(capacity, init, id);
    } else {
      u := |init|;
      forall k | 0 <= k <= |init| ensures id !in Before(capacity, run, k).progress.up { NotUpEarlier(capacity, init, k, id); }
    }
  }

  lemma {:induction false} NotUpEarlier(capacity: nat, run: seq<Step>, k: nat, id: nat)
    requires k <= |run| && id !in After(Initial(capacity), run).progress.up
    ensures id !in Before(capacity, run, k).progress.up
    decreases |run|
  {
    hide Next;
    if run != [] {
      Prefixes(capacity, run);
    }
    if k < |run| {
      var init := run[..|run| - 1];
      UpStep(After(Initial(capacity), init), run[|init|], id);
      NotUpEarlier(capacity, init, k, id);
    } else {
      assert run[..k] == run;
    }
  }

  /** So is the look for a callback. */
  lemma {:induction false} Looking(capacity: nat, run: seq<Step>, id: nat) returns (v: nat)
    requires id in After(Initial(capacity), run).progress.checked
    ensures v < |run| && Looks(Before(capacity, run, v), run[v], id)
    ensures forall k :: 0 <= k <= |run| ==> (id in Before(capacity, run, k).progress.checked <==> k > v)
    decreases |run|
  {
    hide Next, Looks;
    assert run != [];
    var init := run[..|run| - 1];
    var m := After(Initial(capacity), init);
    Prefixes(capacity, run);
    CheckedStep(m, run[|init|], id);
    if id in m.progress.checked {
      v := Looking(capacity, init, id);
    } else {
      v := |init|;
      forall k | 0 <= k <= |init| ensures id !in Before(capacity, run, k).progress.checked { NotCheckedEarlier(capacity, init, k, id); }
    }
  }

  lemma {:induction false} NotCheckedEarlier(capacity: nat, run: seq<Step>, k: nat, id: nat)
    requires k <= |run| && id !in After(Initial(capacity), run).progress.checked
    ensures id !in Before(capacity, run, k).progress.checked
    decreases |run|
  {
    hide Next;
    if run != [] {
      Prefixes(capacity, run);
    }
    if k < |run| {
      var init := run[..|run| - 1];
      CheckedStep(After(Initial(capacity), init), run[|init|], id);
      NotCheckedEarlier(capacity, init, k, id);
    } else {
      assert run[..k] == run;
    }
  }

  /**
    In every run in which `SetCallback` of `r` and `Set` of its result are done: with `i` the step
    that stores the callback, `t` the one that tests the event, `u` the one that sets it and `v`
    the one at which `Set` looks for a callback, the callback has never run exactly if it was
    tested before the event was set and another callback was registered on the result between
    being stored and `Set` looking; it has run twice exactly if it was stored before `Set` looked,
    tested after the event was set, and no other was registered in between; and once otherwise.
   */
  lemma CallbackByOrder(capacity: nat, run: seq<Step>, r: nat) returns (i: nat, t: nat, u: nat, v: nat)
    requires var m := After(Initial(capacity), run);
             r in m.handlers.calls && m.handlers.calls[r].stage.Finished? && m.handlers.calls[r].id in m.progress.checked
    ensures i < |run| && t < |run| && u < |run| && v < |run|
    ensures var c := After(Initial(capacity), run).handlers.calls[r];
            && Registers(Before(capacity, run, i), run[i], r, c.id) && Tests(Before(capacity, run, t), run[t], r)
            && Sets(Before(capacity, run, u), run[u], c.id) && Looks(Before(capacity, run, v), run[v], c.id)
            && var rival := exists k :: i < k < v && Rival(Before(capacity, run, k), run[k], r, c.id);
               && (|c.args| == 0 <==> t < u && rival)
               && (|c.args| == 2 <==> u < t && i < v && !rival)
               && |c.args| <= 2
  {
    hide After, Valid, Callbacks, Before;
    var c := After(Initial(capacity), run).handlers.calls[r];
    RunInvariant(capacity, run);
    CheckedIsUp(After(Initial(capacity), run), c.id);
    CallbackRuns(capacity, run, r);
    i := Registration(capacity, run, r);
    t := Testing(capacity, run, r);
    u := Setting(capacity, run, c.id);
    v := Looking(capacity, run, c.id);
    assert forall k :: 0 <= k < |run| && Rival(Before(capacity, run, k), run[k], r, c.id) ==> k != v;
  }

  lemma CheckedIsUp(m: Machine, id: nat)
    requires Valid(m) && id in m.progress.checked
    ensures id in m.progress.up
  {
  }
}
