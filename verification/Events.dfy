/** Events, nested waits and threads (tysos/Event.cs, tysos/Process.cs). */
module Events {

  /** The messages waiting for a process. */
  class Mailbox {
    var messages: seq<nat>

    constructor () {
      messages := [];
    }
  }

  /** A plain event; one that waits for messages latches when it sees the first. */
  class Event {
    var mutex: int
    const onMessage: bool
    const box: Mailbox?

    constructor (onMessage: bool, box: Mailbox?)
      ensures mutex == 0 && this.onMessage == onMessage && this.box == box
    {
      mutex := 0;
      this.onMessage, this.box := onMessage, box;
    }

    ghost predicate Up()
      reads this, box
    {
      mutex == 1 || (onMessage && box != null && box.messages != [])
    }

    method IsSet() returns (b: bool)
      modifies this`mutex
      ensures b == Up() == old(Up())
      ensures mutex == if b then 1 else old(mutex)
    {
      if mutex == 1 {
        return true;
      }
      if onMessage {
        if box != null && |box.messages| > 0 {
          mutex := 1;
          return true;
        }
      }
      return false;
    }

    method Set()
      modifies this`mutex
      ensures Up()
    {
      mutex := 1;
    }

    method Reset()
      modifies this`mutex
      ensures Up() <==> onMessage && box != null && box.messages != []
    {
      mutex := 0;
    }
  }

  /** What a thread can wait for: an event, any of several waits, or all of them. */
  datatype Wait = On(event: Event) | AnyOf(children: seq<Wait>) | AllOf(children: seq<Wait>)

  ghost function Leaves(w: Wait): set<Event> {
    match w
    case On(e) => {e}
    case AnyOf(cs) => set i, e | 0 <= i < |cs| && e in Leaves(cs[i]) :: e
    case AllOf(cs) => set i, e | 0 <= i < |cs| && e in Leaves(cs[i]) :: e
  }

  /** The wait is over when exactly the events in `up` are set. */
  ghost predicate Over(w: Wait, up: set<Event>) {
    match w
    case On(e) => e in up
    case AnyOf(cs) => exists i :: 0 <= i < |cs| && Over(cs[i], up)
    case AllOf(cs) => forall i :: 0 <= i < |cs| ==> Over(cs[i], up)
  }

  /** Setting more events never undoes a wait that is over. */
  lemma {:induction false} Monotone(w: Wait, up: set<Event>, more: set<Event>)
    requires Over(w, up) && up <= more
    ensures Over(w, more)
  {
    match w
    case On(e) =>
    case AnyOf(cs) =>
      var i :| 0 <= i < |cs| && Over(cs[i], up);
      Monotone(cs[i], up, more);
    case AllOf(cs) =>
      forall i | 0 <= i < |cs| ensures Over(cs[i], more) {
        Monotone(cs[i], up, more);
      }
  }

  /** Only the events a wait mentions matter to it. */
  lemma {:induction false} OnlyLeaves(w: Wait, up: set<Event>, up': set<Event>)
    requires forall e :: e in Leaves(w) ==> (e in up <==> e in up')
    ensures Over(w, up) == Over(w, up')
  {
    match w
    case On(e) =>
    case AnyOf(cs) =>
      forall i | 0 <= i < |cs| ensures Over(cs[i], up) == Over(cs[i], up') {
        assert forall e :: e in Leaves(cs[i]) ==> e in Leaves(w);
        OnlyLeaves(cs[i], up, up');
      }
    case AllOf(cs) =>
      forall i | 0 <= i < |cs| ensures Over(cs[i], up) == Over(cs[i], up') {
        assert forall e :: e in Leaves(cs[i]) ==> e in Leaves(w);
        OnlyLeaves(cs[i], up, up');
      }
  }

  /** Waits for any of several, however nested. */
  ghost predicate OnlyAny(w: Wait) {
    !w.AllOf? && (w.AnyOf? ==> forall i :: 0 <= i < |w.children| ==> OnlyAny(w.children[i]))
  }

  /** Waits for all of several, however nested. */
  ghost predicate OnlyAll(w: Wait) {
    !w.AnyOf? && (w.AllOf? ==> forall i :: 0 <= i < |w.children| ==> OnlyAll(w.children[i]))
  }

  /** A wait for any is over exactly if one of its events is set. */
  lemma {:induction false} AnyMeets(w: Wait, up: set<Event>)
    requires OnlyAny(w)
    ensures Over(w, up) <==> exists e :: e in Leaves(w) && e in up
  {
    if w.AnyOf? {
      forall i | 0 <= i < |w.children|
        ensures Over(w.children[i], up) <==> exists e :: e in Leaves(w.children[i]) && e in up
      {
        AnyMeets(w.children[i], up);
      }
    }
  }

  /** A wait for all is over exactly if every one of its events is set. */
  lemma {:induction false} AllWithin(w: Wait, up: set<Event>)
    requires OnlyAll(w)
    ensures Over(w, up) <==> Leaves(w) <= up
  {
    if w.AllOf? {
      forall i | 0 <= i < |w.children|
        ensures Over(w.children[i], up) <==> Leaves(w.children[i]) <= up
      {
        AllWithin(w.children[i], up);
        LeavesOf(w, i);
      }
    }
  }

  ghost function Boxes(events: set<Event>): set<Mailbox> {
    set e | e in events && e.box != null :: e.box
  }

  ghost function UpSet(events: set<Event>): set<Event>
    reads events, Boxes(events)
  {
    set e | e in events && e.Up()
  }

  lemma LeavesOf(w: Wait, i: nat)
    requires !w.On? && i < |w.children|
    ensures Leaves(w.children[i]) <= Leaves(w)
  {
  }

  /**
    Asks a wait whether it is over. Asking may latch message events on the way, which changes
    the value of no event.
   */
  method IsSet(w: Wait, ghost events: set<Event>) returns (b: bool)
    requires Leaves(w) <= events
    modifies events`mutex
    ensures UpSet(events) == old(UpSet(events)) && b == Over(w, UpSet(events))
    decreases w
  {
    match w {
      case On(e) =>
        b := e.IsSet();
      case AnyOf(cs) =>
        for i := 0 to |cs|
          invariant UpSet(events) == old(UpSet(events))
          invariant forall j :: 0 <= j < i ==> !Over(cs[j], UpSet(events))
        {
          LeavesOf(w, i);
          var c := IsSet(cs[i], events);
          if c {
            return true;
          }
        }
        return false;
      case AllOf(cs) =>
        for i := 0 to |cs|
          invariant UpSet(events) == old(UpSet(events))
          invariant forall j :: 0 <= j < i ==> Over(cs[j], UpSet(events))
        {
          LeavesOf(w, i);
          var c := IsSet(cs[i], events);
          if !c {
            return false;
          }
        }
        return true;
    }
  }

  class Thread {
    var location: int
    var priority: int
    var timeToRun: int
    var defaultSlice: int
    var blockingOn: seq<Wait>
    const box: Mailbox?

    constructor (box: Mailbox?)
      ensures location == LOC_RELEASED && priority == 5 && timeToRun == 0 && defaultSlice == 10000000
      ensures blockingOn == [] && this.box == box
    {
      location, priority, timeToRun, defaultSlice := LOC_RELEASED, 5, 0, 10000000;
      blockingOn := [];
      this.box := box;
    }
  }

  const LOC_SLEEPING := -2
  const LOC_BLOCKING := -3
  const LOC_RELEASED := -4
}
