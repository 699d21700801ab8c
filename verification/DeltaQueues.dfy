/** The queue of sleeping threads (tysos/collections/Lists.cs): each node holds the delay after the one before it. */
module DeltaQueues {
  import opened Events
  import opened ThreadQueues

  datatype DeltaNode = DeltaNode(item: Thread, d: int)

  function Items(nodes: seq<DeltaNode>): (s: seq<Thread>)
    ensures |s| == |nodes|
  {
    if nodes == [] then [] else [nodes[0].item] + Items(nodes[1..])
  }

  /** The sum of the deltas up to node `k`. */
  function DueAt(nodes: seq<DeltaNode>, k: nat): int
    requires k < |nodes|
  {
    if k == 0 then nodes[0].d else DueAt(nodes, k - 1) + nodes[k].d
  }

  lemma {:induction false} ItemsAt(nodes: seq<DeltaNode>, k: nat)
    requires k < |nodes|
    ensures Items(nodes)[k] == nodes[k].item
  {
    if k > 0 {
      ItemsAt(nodes[1..], k - 1);
    }
  }

  lemma {:induction false} ItemsConcat(a: seq<DeltaNode>, b: seq<DeltaNode>)
    ensures Items(a + b) == Items(a) + Items(b)
  {
    if a == [] {
      assert a + b == b;
    } else {
      assert (a + b)[1..] == a[1..] + b;
      ItemsConcat(a[1..], b);
    }
  }

  lemma {:induction false} DueSame(a: seq<DeltaNode>, b: seq<DeltaNode>, k: nat)
    requires k < |a| && k < |b| && forall i :: 0 <= i <= k ==> a[i].d == b[i].d
    ensures DueAt(a, k) == DueAt(b, k)
  {
    if k > 0 {
      DueSame(a, b, k - 1);
    }
  }

  // ------------------------------------------------------------ removing

  function Find(nodes: seq<DeltaNode>, t: Thread): (i: nat)
    ensures i <= |nodes| && (i < |nodes| ==> nodes[i].item == t)
  {
    if nodes == [] || nodes[0].item == t then 0 else 1 + Find(nodes[1..], t)
  }

  lemma {:induction false} FindIs(nodes: seq<DeltaNode>, t: Thread)
    ensures Find(nodes, t) < |nodes| <==> t in Items(nodes)
  {
    if nodes != [] && nodes[0].item != t {
      FindIs(nodes[1..], t);
    }
  }

  /** `_remove`: the node's delta is added to the next one's. */
  function RemovedAt(nodes: seq<DeltaNode>, i: nat): (r: seq<DeltaNode>)
    requires i < |nodes|
    ensures |r| == |nodes| - 1
  {
    if i + 1 < |nodes| then nodes[..i] + [nodes[i + 1].(d := nodes[i + 1].d + nodes[i].d)] + nodes[i + 2..]
    else nodes[..i]
  }

  /** `Remove`: the first node of the thread, if there is one. */
  function Dropped(nodes: seq<DeltaNode>, t: Thread): seq<DeltaNode> {
    if Find(nodes, t) < |nodes| then RemovedAt(nodes, Find(nodes, t)) else nodes
  }

  /** Removing a node leaves the sum at every other node as it was. */
  lemma {:induction false} RemovedDue(nodes: seq<DeltaNode>, i: nat, k: nat)
    requires i < |nodes| && k < |nodes| - 1
    ensures DueAt(RemovedAt(nodes, i), k) == DueAt(nodes, if k < i then k else k + 1)
  {
    var r := RemovedAt(nodes, i);
    if k < i {
      DueSame(r, nodes, k);
    } else if k > i {
      RemovedDue(nodes, i, k - 1);
      assert r[k] == nodes[k + 1];
    } else if k > 0 {
      DueSame(r, nodes, k - 1);
    }
  }

  lemma RemovedItemsAt(nodes: seq<DeltaNode>, i: nat)
    requires i < |nodes|
    ensures Items(RemovedAt(nodes, i)) == Items(nodes)[..i] + Items(nodes)[i + 1..]
  {
    hide Items, RemovedAt;
    var r := RemovedAt(nodes, i);
    AllItems(nodes);
    AllItems(r);
    var a, b := Items(r), Items(nodes)[..i] + Items(nodes)[i + 1..];
    forall k | 0 <= k < |r| ensures a[k] == b[k] { RemovedItem(nodes, i, k); }
  }

  lemma RemovedItem(nodes: seq<DeltaNode>, i: nat, k: nat)
    requires i < |nodes| && k < |nodes| - 1
    ensures RemovedAt(nodes, i)[k].item == nodes[if k < i then k else k + 1].item
  {
  }

  lemma AllItems(nodes: seq<DeltaNode>)
    ensures forall k :: 0 <= k < |nodes| ==> Items(nodes)[k] == nodes[k].item
  {
    forall k | 0 <= k < |nodes| ensures Items(nodes)[k] == nodes[k].item { ItemsAt(nodes, k); }
  }

  function Cut(s: seq<Thread>, i: nat): seq<Thread>
    requires i < |s|
  {
    s[..i] + s[i + 1..]
  }

  lemma CutTail(s: seq<Thread>, i: nat)
    requires 0 < i < |s|
    ensures [s[0]] + Cut(s[1..], i - 1) == Cut(s, i)
  {
    var rest := s[1..];
    assert [s[0]] + rest[..i - 1] == s[..i];
    assert rest[i..] == s[i + 1..];
  }

  lemma {:induction false} FirstWithout(s: seq<Thread>, t: Thread, i: nat)
    requires i <= |s| && (i < |s| ==> s[i] == t) && forall j :: 0 <= j < i ==> s[j] != t
    ensures Without(s, t) == if i < |s| then Cut(s, i) else s
  {
    hide Cut;
    if i > 0 {
      FirstWithout(s[1..], t, i - 1);
      if i < |s| {
        CutTail(s, i);
      }
    } else if s != [] {
      CutFirst(s);
    }
  }

  lemma CutFirst(s: seq<Thread>)
    requires s != []
    ensures Cut(s, 0) == s[1..]
  {
  }

  lemma {:induction false} FindFirst(nodes: seq<DeltaNode>, t: Thread)
    ensures forall j :: 0 <= j < Find(nodes, t) ==> nodes[j].item != t
  {
    if nodes != [] && nodes[0].item != t {
      FindFirst(nodes[1..], t);
    }
  }

  lemma RemovedItems(nodes: seq<DeltaNode>, t: Thread)
    ensures Items(Dropped(nodes, t)) == Without(Items(nodes), t)
  {
    hide Items, Without, Find;
    AllItems(nodes);
    FindFirst(nodes, t);
    FirstWithout(Items(nodes), t, Find(nodes, t));
    if Find(nodes, t) < |nodes| {
      RemovedItemsAt(nodes, Find(nodes, t));
    }
  }

  // ------------------------------------------------------------ inserting

  /** Where `InsertAtDelta` puts a delay: the first node is passed over without a comparison. */
  function InsertAt(nodes: seq<DeltaNode>, c: nat, value: int): (pos: nat)
    requires c <= |nodes|
    ensures c <= pos <= |nodes| && (c < |nodes| ==> c < pos)
    decreases |nodes| - c
  {
    if c == |nodes| then c
    else if c + 1 < |nodes| && value <= nodes[c + 1].d then c + 1
    else InsertAt(nodes, c + 1, value - nodes[c].d)
  }

  /** What the new node's delta ends up as: nothing in the middle, the rest of the delay at the end. */
  function Inserted(nodes: seq<DeltaNode>, t: Thread, value: int): seq<DeltaNode> {
    var pos := InsertAt(nodes, 0, value);
    var d := if pos < |nodes| then 0 else if nodes == [] then value else value - DueAt(nodes, |nodes| - 1);
    nodes[..pos] + [DeltaNode(t, d)] + nodes[pos..]
  }

  /** Inserting leaves the sum at every other node as it was. */
  lemma {:induction false} InsertedDue(nodes: seq<DeltaNode>, t: Thread, value: int, k: nat)
    requires k < |nodes|
    ensures var pos := InsertAt(nodes, 0, value);
            DueAt(Inserted(nodes, t, value), if k < pos then k else k + 1) == DueAt(nodes, k)
  {
    var pos, r := InsertAt(nodes, 0, value), Inserted(nodes, t, value);
    if k < pos {
      DueSame(r, nodes, k);
    } else {
      if k > 0 {
        InsertedDue(nodes, t, value, k - 1);
      }
      assert r[k + 1] == nodes[k];
      if k == pos {
        assert r[pos].d == 0 && DueAt(r, k + 1) == DueAt(r, k) + nodes[k].d;
        DueSame(r, nodes, k - 1);
      }
    }
  }

  /** The sum at the new node is its delay if it is put at the end, and otherwise the sum at the node before it. */
  lemma InsertedDueItself(nodes: seq<DeltaNode>, t: Thread, value: int)
    ensures var pos := InsertAt(nodes, 0, value);
            && (pos == |nodes| ==> DueAt(Inserted(nodes, t, value), pos) == value)
            && (pos < |nodes| ==> DueAt(Inserted(nodes, t, value), pos) == DueAt(nodes, pos - 1))
  {
    var pos, r := InsertAt(nodes, 0, value), Inserted(nodes, t, value);
    if nodes != [] {
      DueSame(r, nodes, pos - 1);
    }
  }

  class DeltaQueue {
    var nodes: seq<DeltaNode>

    constructor ()
      ensures nodes == []
    {
      nodes := [];
    }

    method Remove(t: Thread) returns (found: bool)
      modifies this
      ensures Items(nodes) == Without(Items(old(nodes)), t)
      ensures nodes == Dropped(old(nodes), t) && (!found ==> nodes == old(nodes))
      ensures found <==> t in Items(old(nodes))
    {
      RemovedItems(nodes, t);
      FindIs(nodes, t);
      var i := Find(nodes, t);
      found := i < |nodes|;
      if found {
        nodes := RemovedAt(nodes, i);
      }
    }

    method InsertAtDelta(t: Thread, value: int)
      modifies this
      ensures nodes == Inserted(old(nodes), t, value)
    {
      var c, v := 0, value;
      while c < |nodes|
        invariant 0 <= c <= |nodes| && nodes == old(nodes)
        invariant InsertAt(nodes, c, v) == InsertAt(nodes, 0, value)
        invariant v == value - if c == 0 then 0 else DueAt(nodes, c - 1)
      {
        if c + 1 < |nodes| {
          if v <= nodes[c + 1].d {
            nodes := nodes[..c + 1] + [DeltaNode(t, v)] + nodes[c + 1..];
            // The node after `c` is by now the new one.
            nodes := nodes[c + 1 := nodes[c + 1].(d := nodes[c + 1].d - v)];
            return;
          }
        }
        v := v - nodes[c].d;
        c := c + 1;
      }
      nodes := nodes + [DeltaNode(t, v)];
    }

    method GetZero() returns (t: Thread?)
      modifies this
      ensures t != null <==> old(nodes) != [] && old(nodes[0].d) == 0
      ensures t == null ==> nodes == old(nodes)
      ensures t != null ==> t == old(nodes[0].item) && nodes == old(nodes[1..])
    {
      t := null;
      if nodes != [] && nodes[0].d == 0 {
        t := nodes[0].item;
        nodes := RemovedAt(nodes, 0);
      }
    }

    method DecreaseDelta(decval: int)
      modifies this
      ensures nodes == Decreased(old(nodes), decval)
    {
      var c, dec := 0, decval;
      assert nodes[..0] + Decreased(nodes[0..], dec) == Decreased(nodes, dec) by { assert nodes[0..] == nodes; }
      while c < |nodes|
        invariant 0 <= c <= |nodes|
        invariant nodes[..c] + Decreased(nodes[c..], dec) == Decreased(old(nodes), decval)
      {
        DecreasedFrom(nodes, c, dec);
        if nodes[c].d >= dec {
          nodes := nodes[c := nodes[c].(d := nodes[c].d - dec)];
          return;
        }
        dec := dec - nodes[c].d;
        nodes := nodes[c := nodes[c].(d := 0)];
        c := c + 1;
      }
      assert nodes[..c] + Decreased(nodes[c..], dec) == nodes;
    }
  }

  // ------------------------------------------------------------ the passing of time

  function Decreased(nodes: seq<DeltaNode>, dec: int): seq<DeltaNode> {
    if nodes == [] then []
    else if nodes[0].d >= dec then [nodes[0].(d := nodes[0].d - dec)] + nodes[1..]
    else [nodes[0].(d := 0)] + Decreased(nodes[1..], dec - nodes[0].d)
  }

  lemma DecreasedFrom(nodes: seq<DeltaNode>, c: nat, dec: int)
    requires c < |nodes|
    ensures var r := nodes[..c] + Decreased(nodes[c..], dec);
            if nodes[c].d >= dec then r == nodes[c := nodes[c].(d := nodes[c].d - dec)]
            else
              var nodes' := nodes[c := nodes[c].(d := 0)];
              r == nodes'[..c + 1] + Decreased(nodes'[c + 1..], dec - nodes[c].d)
  {
    var rest := nodes[c..];
    assert rest[0] == nodes[c] && rest[1..] == nodes[c + 1..];
    if nodes[c].d < dec {
      var nodes' := nodes[c := nodes[c].(d := 0)];
      assert nodes'[c + 1..] == rest[1..] && nodes'[..c + 1] == nodes[..c] + [nodes'[c]];
    }
  }

  lemma {:induction false} DecreasedItems(nodes: seq<DeltaNode>, dec: int)
    ensures Items(Decreased(nodes, dec)) == Items(nodes)
  {
    if nodes != [] {
      DecreasedItems(nodes[1..], dec - nodes[0].d);
      assert Decreased(nodes, dec)[1..] == if nodes[0].d >= dec then nodes[1..] else Decreased(nodes[1..], dec - nodes[0].d);
    }
  }

  lemma {:induction false} DueTail(nodes: seq<DeltaNode>, k: nat)
    requires k + 1 < |nodes|
    ensures DueAt(nodes, k + 1) == nodes[0].d + DueAt(nodes[1..], k)
  {
    if k > 0 {
      DueTail(nodes, k - 1);
    }
  }

  /** The largest of the sums up to node `k`. */
  function Peak(nodes: seq<DeltaNode>, k: nat): int
    requires k < |nodes|
  {
    if k == 0 then nodes[0].d
    else if DueAt(nodes, k) > Peak(nodes, k - 1) then DueAt(nodes, k) else Peak(nodes, k - 1)
  }

  lemma {:induction false} PeakTail(nodes: seq<DeltaNode>, k: nat)
    requires k + 1 < |nodes|
    ensures Peak(nodes, k + 1) == nodes[0].d + if Peak(nodes[1..], k) > 0 then Peak(nodes[1..], k) else 0
  {
    DueTail(nodes, k);
    if k > 0 {
      PeakTail(nodes, k - 1);
    }
  }

  /** The sums after time has passed, in any queue: nothing is left up to a node once its peak is passed. */
  lemma {:induction false} DecreasedDue(nodes: seq<DeltaNode>, dec: int, k: nat)
    requires k < |nodes|
    ensures |Decreased(nodes, dec)| == |nodes|
    ensures DueAt(Decreased(nodes, dec), k) == if Peak(nodes, k) < dec then 0 else DueAt(nodes, k) - dec
  {
    hide Peak, Decreased, DueAt;
    var r := Decreased(nodes, dec);
    DecreasedUnfold(nodes, dec);
    if k == 0 {
      PeakFirst(nodes);
      PeakFirst(r);
    } else {
      DueTail(nodes, k - 1);
      DueTail(r, k - 1);
      PeakTail(nodes, k - 1);
      if nodes[0].d < dec {
        DecreasedDue(nodes[1..], dec - nodes[0].d, k - 1);
      }
    }
  }

  lemma DecreasedUnfold(nodes: seq<DeltaNode>, dec: int)
    requires nodes != []
    ensures var r := Decreased(nodes, dec);
            && |r| == |nodes| && r[0].d == (if nodes[0].d >= dec then nodes[0].d - dec else 0)
            && r[1..] == (if nodes[0].d >= dec then nodes[1..] else Decreased(nodes[1..], dec - nodes[0].d))
  {
    DecreasedLength(nodes, dec);
  }

  lemma PeakFirst(nodes: seq<DeltaNode>)
    requires nodes != []
    ensures Peak(nodes, 0) == DueAt(nodes, 0) == nodes[0].d
  {
  }

  lemma DecreasedLength(nodes: seq<DeltaNode>, dec: int)
    ensures |Decreased(nodes, dec)| == |nodes|
  {
    DecreasedItems(nodes, dec);
    assert |Items(nodes)| == |nodes|;
  }

  lemma InsertedItems(nodes: seq<DeltaNode>, t: Thread, value: int)
    ensures var pos := InsertAt(nodes, 0, value);
            Items(Inserted(nodes, t, value)) == Items(nodes)[..pos] + [t] + Items(nodes)[pos..]
  {
    var pos, r := InsertAt(nodes, 0, value), Inserted(nodes, t, value);
    assert nodes == nodes[..pos] + nodes[pos..];
    ItemsConcat(nodes[..pos], nodes[pos..]);
    ItemsConcat(nodes[..pos] + [r[pos]], nodes[pos..]);
    ItemsConcat(nodes[..pos], [r[pos]]);
  }

  // ------------------------------------------------------------ when sleepers wake

  /** How many sleepers at the head are due now. */
  function Due(nodes: seq<DeltaNode>): (n: nat)
    ensures n <= |nodes|
  {
    if nodes != [] && nodes[0].d == 0 then 1 + Due(nodes[1..]) else 0
  }

  /** A timer tick: time passes, and `GetZero` is called until it finds no sleeper that is due. */
  function Ticked(nodes: seq<DeltaNode>, ns: int): seq<DeltaNode> {
    var r := Decreased(nodes, ns);
    r[Due(r)..]
  }

  function AfterTicks(nodes: seq<DeltaNode>, ticks: seq<int>): seq<DeltaNode>
    decreases |ticks|
  {
    if ticks == [] then nodes else AfterTicks(Ticked(nodes, ticks[0]), ticks[1..])
  }

  function Elapsed(ticks: seq<int>): int {
    if ticks == [] then 0 else ticks[0] + Elapsed(ticks[1..])
  }

  ghost predicate Positive(ticks: seq<int>) {
    forall i :: 0 <= i < |ticks| ==> ticks[i] > 0
  }

  /** Sleepers leave at the head, so the one at `k` has left when the rest is shorter than what was behind it and itself. */
  predicate Woke(nodes: seq<DeltaNode>, k: nat, ticks: seq<int>) {
    |AfterTicks(nodes, ticks)| < |nodes| - k
  }

  lemma {:induction false} LeaveAtHead(nodes: seq<DeltaNode>, ticks: seq<int>)
    ensures var r := AfterTicks(nodes, ticks); |r| <= |nodes| && Items(r) == Items(nodes)[|nodes| - |r|..]
    decreases |ticks|
  {
    if ticks != [] {
      var d := Decreased(nodes, ticks[0]);
      DecreasedItems(nodes, ticks[0]);
      assert d == d[..Due(d)] + d[Due(d)..];
      ItemsConcat(d[..Due(d)], d[Due(d)..]);
      LeaveAtHead(Ticked(nodes, ticks[0]), ticks[1..]);
    }
  }

  /**
    Whether the sleeper at `k` has been woken when `time` has passed: every sleeper up to it has
    been passed with time to spare, or the time ends exactly at one after which no delta is left.
   */
  ghost predicate Awake(nodes: seq<DeltaNode>, k: nat, time: int)
    requires k < |nodes|
    decreases k
  {
    if nodes[0].d < time then k == 0 || Awake(nodes[1..], k - 1, time - nodes[0].d)
    else nodes[0].d == time && forall i :: 1 <= i <= k ==> nodes[i].d == 0
  }

  lemma {:induction false} DueIs(nodes: seq<DeltaNode>, k: nat)
    requires k < |nodes|
    ensures k < Due(nodes) <==> forall i :: 0 <= i <= k ==> nodes[i].d == 0
  {
    if k > 0 && nodes[0].d == 0 {
      DueIs(nodes[1..], k - 1);
      assert forall i :: 1 <= i <= k ==> nodes[i] == nodes[1..][i - 1];
      assert forall i :: 0 <= i <= k - 1 ==> nodes[1..][i] == nodes[i + 1];
    }
  }

  /** One tick wakes exactly these. */
  lemma {:induction false} TickWakes(nodes: seq<DeltaNode>, time: int, k: nat)
    requires time > 0 && k < |nodes|
    ensures |Decreased(nodes, time)| == |nodes|
    ensures k < Due(Decreased(nodes, time)) <==> Awake(nodes, k, time)
    decreases k
  {
    DecreasedLength(nodes, time);
    var r := Decreased(nodes, time);
    if nodes[0].d < time {
      assert r[1..] == Decreased(nodes[1..], time - nodes[0].d);
      if k > 0 {
        TickWakes(nodes[1..], time - nodes[0].d, k - 1);
      }
    } else {
      assert r[1..] == nodes[1..];
      DueIs(r, k);
      assert forall i :: 1 <= i <= k ==> r[i] == nodes[i];
    }
  }

  /** Sleepers that are due already are passed at once. */
  lemma {:induction false} DuePassed(nodes: seq<DeltaNode>, time: int, k: nat)
    requires time > 0 && k < |nodes|
    ensures Awake(nodes, k, time) <==> k < Due(nodes) || Awake(nodes[Due(nodes)..], k - Due(nodes), time)
    decreases k
  {
    if nodes[0].d == 0 {
      assert nodes[1..][Due(nodes[1..])..] == nodes[Due(nodes)..];
      if k > 0 {
        DuePassed(nodes[1..], time, k - 1);
      }
    } else {
      assert nodes[0..] == nodes;
    }
  }

  /** Two stretches of time wake what their sum wakes. */
  lemma {:induction false} TimeAdds(nodes: seq<DeltaNode>, first: int, more: int, k: nat)
    requires first > 0 && more > 0 && k < |nodes|
    ensures |Decreased(nodes, first)| == |nodes|
    ensures var j := Due(Decreased(nodes, first));
            Awake(nodes, k, first + more) <==> k < j || Awake(Ticked(nodes, first), k - j, more)
    decreases k
  {
    hide Items;
    DecreasedLength(nodes, first);
    var r := Decreased(nodes, first);
    var rest := nodes[1..];
    if nodes[0].d < first {
      var r' := Decreased(rest, first - nodes[0].d);
      assert r[1..] == r' && r'[Due(r')..] == r[Due(r)..];
      if k > 0 {
        TimeAdds(rest, first - nodes[0].d, more, k - 1);
      }
    } else {
      TimeStops(nodes, first, more, k);
    }
  }

  /** The first stretch ends at the head. */
  lemma TimeStops(nodes: seq<DeltaNode>, first: int, more: int, k: nat)
    requires first > 0 && more > 0 && k < |nodes| && nodes[0].d >= first
    ensures var j := Due(Decreased(nodes, first));
            Awake(nodes, k, first + more) <==> k < j || Awake(Ticked(nodes, first), k - j, more)
  {
    var r, rest := Decreased(nodes, first), nodes[1..];
    assert r[1..] == rest;
    if nodes[0].d == first {
      assert rest[Due(rest)..] == r[Due(r)..];
      if k > 0 {
        DuePassed(rest, more, k - 1);
      }
    } else {
      assert r[0..] == r;
      assert forall i :: 1 <= i <= k ==> r[i] == nodes[i];
    }
  }

  /** In any queue, after any ticks, a sleeper has woken exactly if the time they add up to says so. */
  lemma {:induction false} WokenBySum(nodes: seq<DeltaNode>, k: nat, ticks: seq<int>)
    requires k < |nodes| && Positive(ticks) && ticks != []
    ensures Elapsed(ticks) > 0 && (Woke(nodes, k, ticks) <==> Awake(nodes, k, Elapsed(ticks)))
    decreases |ticks|
  {
    hide Awake, Decreased;
    var rest, r := ticks[1..], Ticked(nodes, ticks[0]);
    TickWakes(nodes, ticks[0], k);
    if rest == [] {
      assert AfterTicks(nodes, ticks) == AfterTicks(r, rest);
    } else {
      var j := Due(Decreased(nodes, ticks[0]));
      LeaveAtHead(r, rest);
      if k >= j {
        WokenBySum(r, k - j, rest);
      } else {
        ElapsedPositive(rest);
      }
      TimeAdds(nodes, ticks[0], Elapsed(rest), k);
    }
  }

  lemma {:induction false} ElapsedPositive(ticks: seq<int>)
    requires Positive(ticks) && ticks != []
    ensures Elapsed(ticks) > 0
  {
    if ticks[1..] != [] {
      ElapsedPositive(ticks[1..]);
    }
  }

  /**
    The time at which the sleeper at `k` wakes, in any queue: together with the one before it if
    its delta is 0, at its own sum if that is past all before it, and else just past the peak.
   */
  function WakesAt(nodes: seq<DeltaNode>, k: nat): int
    requires k < |nodes|
  {
    if k == 0 then nodes[0].d
    else if nodes[k].d == 0 then WakesAt(nodes, k - 1)
    else if DueAt(nodes, k) > Peak(nodes, k - 1) then DueAt(nodes, k)
    else Peak(nodes, k - 1) + 1
  }

  predicate NoDelta(nodes: seq<DeltaNode>, k: nat)
    requires k < |nodes|
  {
    forall i :: 1 <= i <= k ==> nodes[i].d == 0
  }

  lemma {:induction false} WakesAtTail(nodes: seq<DeltaNode>, k: nat)
    requires k + 1 < |nodes|
    ensures var w := WakesAt(nodes[1..], k);
            && WakesAt(nodes, k + 1) == nodes[0].d + (if NoDelta(nodes, k + 1) then 0 else if w > 1 then w else 1)
            && (NoDelta(nodes, k + 1) ==> w == 0)
  {
    hide Peak;
    DueTail(nodes, k);
    if k > 0 {
      PeakTail(nodes, k - 1);
      WakesAtTail(nodes, k - 1);
    } else {
      PeakFirst(nodes);
      assert NoDelta(nodes, 1) <==> nodes[1].d == 0;
    }
  }

  /** In any queue a sleeper has been woken exactly when that time has been reached. */
  lemma {:induction false} AwakeExactly(nodes: seq<DeltaNode>, k: nat, time: int)
    requires k < |nodes| && time > 0
    ensures Awake(nodes, k, time) <==> time >= WakesAt(nodes, k)
    decreases k
  {
    hide WakesAt;
    if k == 0 {
      WakesAtFirst(nodes);
    } else {
      WakesAtTail(nodes, k - 1);
      if nodes[0].d < time {
        AwakeExactly(nodes[1..], k - 1, time - nodes[0].d);
      }
    }
  }

  lemma WakesAtFirst(nodes: seq<DeltaNode>)
    requires nodes != []
    ensures WakesAt(nodes, 0) == nodes[0].d
  {
  }

  ghost predicate NonNegative(nodes: seq<DeltaNode>) {
    forall i :: 0 <= i < |nodes| ==> nodes[i].d >= 0
  }

  /** Where no delta is negative, peak, sum and waking time are the same. */
  lemma {:induction false} WakesAtSum(nodes: seq<DeltaNode>, k: nat)
    requires NonNegative(nodes) && k < |nodes|
    ensures WakesAt(nodes, k) == Peak(nodes, k) == DueAt(nodes, k) >= 0
  {
    if k > 0 {
      WakesAtSum(nodes, k - 1);
    }
  }

  // ------------------------------------------------------------ when a new sleeper wakes on time

  /** The time before node `c`. */
  function Before(nodes: seq<DeltaNode>, c: nat): int
    requires c <= |nodes|
  {
    if c == 0 then 0 else DueAt(nodes, c - 1)
  }

  /** The test that ends the insertion's search behind node `c`. */
  predicate Stops(nodes: seq<DeltaNode>, value: int, c: nat) {
    c + 1 < |nodes| && value <= Before(nodes, c) + nodes[c + 1].d
  }

  lemma {:induction false} InsertAtIs(nodes: seq<DeltaNode>, c: nat, value: int)
    requires c <= |nodes|
    ensures var pos := InsertAt(nodes, c, value - Before(nodes, c));
            && (pos < |nodes| ==> pos > c && Stops(nodes, value, pos - 1) && forall b :: c <= b < pos - 1 ==> !Stops(nodes, value, b))
            && (pos == |nodes| ==> forall b :: c <= b ==> !Stops(nodes, value, b))
    decreases |nodes| - c
  {
    if c < |nodes| {
      InsertAtIs(nodes, c + 1, value);
      assert value - Before(nodes, c) - nodes[c].d == value - Before(nodes, c + 1);
    }
  }

  lemma {:induction false} PeakSame(a: seq<DeltaNode>, b: seq<DeltaNode>, k: nat)
    requires k < |a| && k < |b| && forall i :: 0 <= i <= k ==> a[i].d == b[i].d
    ensures Peak(a, k) == Peak(b, k) && WakesAt(a, k) == WakesAt(b, k)
  {
    DueSame(a, b, k);
    if k > 0 {
      PeakSame(a, b, k - 1);
    }
  }

  /** When a new sleeper wakes: with the one before it, or at the end at its own time if that is past the peak. */
  function NewWakesAt(nodes: seq<DeltaNode>, value: int): int {
    var pos := InsertAt(nodes, 0, value);
    if nodes == [] then value
    else if pos < |nodes| || value == DueAt(nodes, pos - 1) then WakesAt(nodes, pos - 1)
    else if value > Peak(nodes, pos - 1) then value
    else Peak(nodes, pos - 1) + 1
  }

  lemma InsertedWakes(nodes: seq<DeltaNode>, t: Thread, value: int)
    ensures var pos, r := InsertAt(nodes, 0, value), Inserted(nodes, t, value);
            |r| == |nodes| + 1 && WakesAt(r, pos) == NewWakesAt(nodes, value)
  {
    hide Peak;
    var pos, r := InsertAt(nodes, 0, value), Inserted(nodes, t, value);
    InsertedDueItself(nodes, t, value);
    if nodes != [] {
      DueSame(r, nodes, pos - 1);
      PeakSame(r, nodes, pos - 1);
    }
  }

  /** The sleeper at `k` wakes at the first tick by which `value` has passed, whatever the ticks are. */
  ghost predicate WakesAfter(nodes: seq<DeltaNode>, k: nat, value: int) {
    forall ticks :: Positive(ticks) && ticks != [] ==> (Woke(nodes, k, ticks) <==> Elapsed(ticks) >= value)
  }

  /** The same, told by the time alone. */
  ghost predicate AwakeAfter(nodes: seq<DeltaNode>, k: nat, value: int)
    requires k < |nodes|
  {
    forall time :: time > 0 ==> (Awake(nodes, k, time) <==> time >= value)
  }

  lemma WakesAfterIs(nodes: seq<DeltaNode>, k: nat, value: int)
    requires k < |nodes|
    ensures WakesAfter(nodes, k, value) <==> AwakeAfter(nodes, k, value)
  {
    hide Awake, Woke;
    forall ticks | Positive(ticks) && ticks != []
      ensures Elapsed(ticks) > 0 && (Woke(nodes, k, ticks) <==> Awake(nodes, k, Elapsed(ticks)))
    {
      WokenBySum(nodes, k, ticks);
    }
    if WakesAfter(nodes, k, value) {
      forall time | time > 0 ensures Awake(nodes, k, time) <==> time >= value {
        assert [time][1..] == [] && Positive([time]) && Elapsed([time]) == time;
        assert Woke(nodes, k, [time]) <==> Elapsed([time]) >= value;
      }
    }
  }

  /** Two times no run of ticks can tell apart: a tick takes at least one nanosecond. */
  predicate SameTick(a: int, b: int) {
    a == b || (a <= 1 && b <= 1)
  }

  /** The search stops first behind node `c`. */
  ghost predicate StopsFirst(nodes: seq<DeltaNode>, value: int, c: nat) {
    Stops(nodes, value, c) && forall b: nat :: b < c ==> !Stops(nodes, value, b)
  }

  /**
    The condition on queue and delay: the search stops first behind a node that wakes at that very
    time; or it does not stop, and the delay is past all sums of the queue, or is the last of them
    and the last sleeper wakes then, or no sum of the queue is positive.
   */
  ghost predicate InTime(nodes: seq<DeltaNode>, value: int) {
    if exists c: nat :: Stops(nodes, value, c) then
      exists c: nat :: StopsFirst(nodes, value, c) && SameTick(value, WakesAt(nodes, c))
    else nodes == [] || EndInTime(nodes, value)
  }

  ghost predicate EndInTime(nodes: seq<DeltaNode>, value: int)
    requires nodes != []
  {
    var last := |nodes| - 1;
    || value > Peak(nodes, last)
    || (value == DueAt(nodes, last) && SameTick(value, WakesAt(nodes, last)))
    || Peak(nodes, last) <= 0
  }

  /** In every queue a new sleeper wakes on time exactly under that condition. */
  lemma OnTimeExactly(nodes: seq<DeltaNode>, t: Thread, value: int)
    ensures WakesAfter(Inserted(nodes, t, value), InsertAt(nodes, 0, value), value) <==> InTime(nodes, value)
  {
    hide WakesAfter, AwakeAfter, Inserted, InTime, WakesAt;
    var pos, r := InsertAt(nodes, 0, value), Inserted(nodes, t, value);
    InsertedWakes(nodes, t, value);
    WakesAfterIs(r, pos, value);
    Thresholds(r, pos, value);
    if pos < |nodes| {
      InTimeBetween(nodes, value);
    } else {
      InTimeAtEnd(nodes, value);
    }
  }

  lemma Thresholds(nodes: seq<DeltaNode>, k: nat, value: int)
    requires k < |nodes|
    ensures AwakeAfter(nodes, k, value) <==> SameTick(value, WakesAt(nodes, k))
  {
    hide Awake, WakesAt;
    var due := WakesAt(nodes, k);
    forall time | time > 0 ensures Awake(nodes, k, time) <==> time >= due { AwakeExactly(nodes, k, time); }
    if !SameTick(value, due) {
      var least := if due > value then value else due;
      var time := if least > 1 then least else 1;
      assert (Awake(nodes, k, time) <==> time >= due) && (time >= due) != (time >= value);
    }
  }

  lemma InTimeBetween(nodes: seq<DeltaNode>, value: int)
    requires InsertAt(nodes, 0, value) < |nodes|
    ensures InTime(nodes, value) <==> SameTick(value, NewWakesAt(nodes, value))
  {
    hide Stops, WakesAt, Peak, SameTick;
    var c := InsertAt(nodes, 0, value) - 1;
    InsertAtIs(nodes, 0, value);
    assert StopsFirst(nodes, value, c);
    forall b: nat | StopsFirst(nodes, value, b) ensures b == c { OnlyFirst(nodes, value, b, c); }
  }

  lemma OnlyFirst(nodes: seq<DeltaNode>, value: int, b: nat, c: nat)
    requires StopsFirst(nodes, value, b) && StopsFirst(nodes, value, c)
    ensures b == c
  {
    hide Stops;
  }

  lemma InTimeAtEnd(nodes: seq<DeltaNode>, value: int)
    requires InsertAt(nodes, 0, value) == |nodes|
    ensures InTime(nodes, value) <==> SameTick(value, NewWakesAt(nodes, value))
  {
    hide Stops, WakesAt, Peak, DueAt;
    InsertAtIs(nodes, 0, value);
    if nodes != [] {
      EndIs(nodes, value);
    }
  }

  lemma EndIs(nodes: seq<DeltaNode>, value: int)
    requires nodes != [] && InsertAt(nodes, 0, value) == |nodes|
    ensures EndInTime(nodes, value) <==> SameTick(value, NewWakesAt(nodes, value))
  {
    hide InsertAt, WakesAt, DueAt, Peak;
    var last := |nodes| - 1;
    PeakCovers(nodes, last);
  }

  /** A sleeper wakes at the peak of the sums up to it, or just past it, so no earlier than at its sum. */
  lemma {:induction false} PeakCovers(nodes: seq<DeltaNode>, k: nat)
    requires k < |nodes|
    ensures DueAt(nodes, k) <= Peak(nodes, k) <= WakesAt(nodes, k) <= Peak(nodes, k) + 1
  {
    if k > 0 {
      PeakCovers(nodes, k - 1);
    }
  }

  /** Inserting keeps the deltas non-negative unless a shorter delay is put at the end. */
  lemma InsertedNonNegative(nodes: seq<DeltaNode>, t: Thread, value: int)
    requires NonNegative(nodes)
    ensures NonNegative(Inserted(nodes, t, value)) <==>
              (exists c: nat :: Stops(nodes, value, c)) || value >= Before(nodes, |nodes|)
  {
    hide Stops;
    var pos, r := InsertAt(nodes, 0, value), Inserted(nodes, t, value);
    InsertAtIs(nodes, 0, value);
    assert r[pos].item == t && forall i :: 0 <= i < |r| && i != pos ==> r[i] == nodes[if i < pos then i else i - 1];
    if pos < |nodes| {
      assert Stops(nodes, value, pos - 1);
    }
  }

  /** A thread that asks to sleep for 3 behind threads due in 5 and 10 wakes with the first of them. */
  lemma OverSleeps(a: Thread, b: Thread, t: Thread)
    ensures var nodes := [DeltaNode(a, 5), DeltaNode(b, 5)];
            !Woke(Inserted(nodes, t, 3), InsertAt(nodes, 0, 3), [4]) && !InTime(nodes, 3)
  {
    var nodes := [DeltaNode(a, 5), DeltaNode(b, 5)];
    assert Stops(nodes, 3, 0);
    assert InsertAt(nodes, 0, 3) == 1 && Inserted(nodes, t, 3) == [DeltaNode(a, 5), DeltaNode(t, 0), DeltaNode(b, 5)];
    WokenBySum(Inserted(nodes, t, 3), 1, [4]);
    assert [4][1..] == [];
    assert forall c: nat :: Stops(nodes, 3, c) ==> c == 0;
  }

  /** One that asks for 3 behind a thread due in 10 goes to the end and wakes after it. */
  lemma OverSleepsAtEnd(a: Thread, t: Thread)
    ensures var nodes := [DeltaNode(a, 10)];
            && InsertAt(nodes, 0, 3) == 1 && Inserted(nodes, t, 3) == [DeltaNode(a, 10), DeltaNode(t, -7)]
            && !Woke(Inserted(nodes, t, 3), 1, [3]) && !Woke(Inserted(nodes, t, 3), 1, [10]) && Woke(Inserted(nodes, t, 3), 1, [11])
  {
    var q := [DeltaNode(a, 10), DeltaNode(t, -7)];
    assert InsertAt([DeltaNode(a, 10)], 1, -7) == 1;
    assert q[1..] == [DeltaNode(t, -7)];
    WokenBySum(q, 1, [3]);
    WokenBySum(q, 1, [10]);
    WokenBySum(q, 1, [11]);
    assert [3][1..] == [] && [10][1..] == [] && [11][1..] == [];
  }

  /** One that asks for 5 where the first thread is due now wakes at the next tick. */
  lemma WakesEarly(a: Thread, b: Thread, t: Thread)
    ensures var nodes := [DeltaNode(a, 0), DeltaNode(b, 5)]; Woke(Inserted(nodes, t, 5), InsertAt(nodes, 0, 5), [1])
  {
    var nodes := [DeltaNode(a, 0), DeltaNode(b, 5)];
    assert InsertAt(nodes, 0, 5) == 1 && Inserted(nodes, t, 5) == [DeltaNode(a, 0), DeltaNode(t, 0), DeltaNode(b, 5)];
    WokenBySum(Inserted(nodes, t, 5), 1, [1]);
    assert [1][1..] == [];
    assert Inserted(nodes, t, 5)[1..][0] == DeltaNode(t, 0);
  }
}
