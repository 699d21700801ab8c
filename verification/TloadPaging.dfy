/**
  tload's page mapper (tload/vmem.c) on top of its bitmap allocator: each call maps one
  virtual page, creating tables, and the page itself, on demand.
 */
module TloadPaging {
  import opened Options
  import opened PageTree
  import B = BitmapAllocator

  /** `x | 2`. */
  function SetWritable(x: nat): nat {
    if x / 2 % 2 == 1 then x else x + 2
  }

  /** MAKE_PSTRUCT_ENTRY: the page bits and the present bit. */
  function MakeEntry(x: nat): nat {
    x / 0x1000 * 0x1000 + 1
  }

  lemma EntryFlags(k: nat)
    ensures MakeEntry(k * 0x1000) == k * 0x1000 + 1
    ensures SetWritable(k * 0x1000 + 1) == k * 0x1000 + 3
    ensures SetWritable(k * 0x1000 + 3) == k * 0x1000 + 3
  {
    Even(0x400 * k);
    Odd(0x400 * k);
  }

  lemma NewEntry(page: nat)
    requires page % 0x1000 == 0
    ensures MakeEntry(page) == page + 1 && SetWritable(page + 1) == page + 3
  {
    EntryFlags(page / 0x1000);
  }

  lemma WritableEntry(e: nat, a: nat, w: bool)
    requires PointsTo(e, a, w)
    ensures SetWritable(e) == a + 3 && MakeEntry(a) == a + 1 && PointsTo(SetWritable(e), a, true)
  {
    EntryFlags(a / 0x1000);
  }

  /** Frames are marked used: every table page, and every page of memory is below 4 GiB. */
  ghost predicate Marked(words: seq<nat>, tables: Tables) {
    && B.EndsUsed(words)
    && forall t :: t in tables ==> 0 < tables[t] < 0x1_0000_0000 && B.Used(words, tables[t] / 0x1000)
  }

  lemma ClearIsFresh(words: seq<nat>, tables: Tables, page: nat)
    requires Marked(words, tables) && page % 0x1000 == 0 && page < 0x1_0000_0000
    requires !B.Used(words, page / 0x1000)
    ensures page !in tables.Values
  {
  }

  /** Setting more bits keeps the marks; the new page may join the tables. */
  lemma StillMarked(before: seq<nat>, after: seq<nat>, tables: Tables, page: nat, t: Node)
    requires Marked(before, tables) && page % 0x1000 == 0 && 0 < page < 0x1_0000_0000
    requires B.RangeSet(before, after, page / 0x1000, 1)
    ensures Marked(after, tables) && Marked(after, tables[t := page])
  {
  }

  class Mapper {
    const mm: B.Bitmap
    var pages: Pages
    ghost var tables: Tables
    ghost var leaves: Leaves

    ghost predicate Valid()
      reads this, mm, mm.words
    {
      && Root in tables && Tree(pages, tables, leaves)
      && SelfMapped(pages, tables[Root])
      && Marked(mm.words[..], tables)
    }

    /** The root page, zeroed, with the recursive entry in place. */
    constructor (mm: B.Bitmap, pages0: Pages, pml4t: nat)
      requires B.EndsUsed(mm.words[..]) && PageAligned(pml4t) && 0 < pml4t < 0x1_0000_0000
      requires B.Used(mm.words[..], pml4t / 0x1000)
      ensures Valid() && this.mm == mm && tables[Root] == pml4t && leaves == map[]
    {
      this.mm := mm;
      var zeroed := pages0[pml4t := Zeros()];
      pages := WriteEntry(zeroed, pml4t, 511, pml4t + 3);
      tables, leaves := map[Root := pml4t], map[];
      new;
      EmptyTree(zeroed, pml4t);
      SelfMap(zeroed, tables, leaves, pages);
    }

    /** A fresh page: clear before, marked afterwards, and zero-filled; 0 when there is none. */
    method NewPage() returns (page: nat)
      requires Valid()
      modifies mm.words, this`pages
      ensures Valid()
      ensures page == 0 ==> pages == old(pages) && mm.words[..] == old(mm.words[..]) && AllUsed(mm.words[..])
      ensures page != 0 ==>
        && page % 0x1000 == 0 && page < 0x1_0000_0000 && pages == old(pages)[page := Zeros()]
        && !B.Used(old(mm.words[..]), page / 0x1000)
        && B.RangeSet(old(mm.words[..]), mm.words[..], page / 0x1000, 1)
        && page !in tables.Values
    {
      hide Tree, SelfMapped;
      ghost var words := mm.words[..];
      ghost var m;
      page, m := mm.MallocAlign(0x1000, 0x1000);
      if page == 0 {
        NoneClear(words);
        return;
      }
      LowestClear(words, m, page);
      ClearIsFresh(words, tables, page);
      StillMarked(words, mm.words[..], tables, page, Root);
      ghost var pages0 := pages;
      pages := pages[page := Zeros()];
      KeepTree(pages0, tables, leaves, pages, page);
    }

    /** The table below entry `i` of table `t`, created if missing; 0 when out of pages. */
    method GetTable(parent: nat, i: nat, ghost t: Node) returns (child: nat)
      requires Valid() && t in tables && tables[t] == parent
      requires 2 <= t.level <= 4 && i < 512 && !(t == Root && i == 511)
      modifies mm.words, this`pages, this`tables
      ensures Valid() && tables[Root] == old(tables)[Root]
      ensures forall u :: u in old(tables) ==> u in tables && tables[u] == old(tables)[u]
      ensures child != 0 ==> Child(t, i) in tables && tables[Child(t, i)] == child
      ensures child == 0 ==> AllUsed(mm.words[..])
      ensures Grown(old(mm.words[..]), mm.words[..]) && FromClear(old(tables), tables, old(mm.words[..]))
    {
      hide Tree, FromClear, Grown;
      InnerEntryAt(pages, tables, leaves, t, i);
      if Present(pages[parent][i]) {
        child := ExistingTable(parent, i, t);
        NothingGrown(tables, mm.words[..]);
      } else {
        child := FreshTable(parent, i, t);
      }
    }

    /** The entry is there and is made writable. */
    method ExistingTable(parent: nat, i: nat, ghost t: Node) returns (child: nat)
      requires Valid() && t in tables && tables[t] == parent
      requires 2 <= t.level <= 4 && i < 512 && !(t == Root && i == 511) && Child(t, i) in tables
      modifies this`pages
      ensures Valid() && child == tables[Child(t, i)] && child != 0
    {
      hide Tree;
      ghost var c := Child(t, i);
      InnerEntryAt(pages, tables, leaves, t, i);
      WritableEntry(pages[parent][i], tables[c], true);
      TablePage(pages, tables, leaves, c);
      child := pages[parent][i] / 0x1000 * 0x1000;
      ChildPage(pages[parent][i], tables[c], true);
      ghost var pages0 := pages;
      KeepSelfMapped(pages, tables, leaves, t, i, SetWritable(pages[parent][i]));
      pages := WriteEntry(pages, parent, i, SetWritable(pages[parent][i]));
      SetInner(pages0, tables, leaves, t, i, pages);
    }

    /** The entry is not there: a fresh page is hung below it. */
    method FreshTable(parent: nat, i: nat, ghost t: Node) returns (child: nat)
      requires Valid() && t in tables && tables[t] == parent
      requires 2 <= t.level <= 4 && i < 512 && !(t == Root && i == 511) && Child(t, i) !in tables
      modifies mm.words, this`pages, this`tables
      ensures Valid() && (child == 0 ==> tables == old(tables) && AllUsed(mm.words[..]))
      ensures child != 0 ==> tables == old(tables)[Child(t, i) := child]
      ensures Grown(old(mm.words[..]), mm.words[..]) && FromClear(old(tables), tables, old(mm.words[..]))
    {
      hide Tree, Marked, FromClear, Grown, SelfMapped;
      ghost var words := mm.words[..];
      NothingGrown(tables, words);
      child := NewPage();
      if child == 0 {
        return;
      }
      ghost var pages0 := pages;
      StillMarked(words, mm.words[..], tables, child, Child(t, i));
      GrownByOne(words, mm.words[..], tables, Child(t, i), child);
      InnerEntryAt(pages, tables, leaves, t, i);
      NewEntry(child);
      KeepSelfMapped(pages, tables, leaves, t, i, child + 3);
      assert pages0[child := Zeros()] == pages0;
      pages := WriteEntry(pages, parent, i, SetWritable(MakeEntry(child)));
      AddTable(pages0, tables, leaves, t, i, child, pages);
      tables := tables[Child(t, i) := child];
    }

    /**
      Entry `n % 512` of the bottom table: overwritten with the given frame, or filled with
      a fresh one unless it is present already.  0 when pages ran out.
     */
    method GetPage(pt: nat, n: nat, writable: bool, pageExists: bool, page: nat) returns (frame: nat, ghost ok: bool)
      requires Valid() && Table(1, n) in tables && tables[Table(1, n)] == pt
      requires pageExists ==> PageAligned(page) && page < 0x1_0000_0000
      modifies mm.words, this`pages, this`leaves
      ensures Valid() && Grown(old(mm.words[..]), mm.words[..])
      ensures !ok ==> frame == 0 && leaves == old(leaves) && AllUsed(mm.words[..]) && !pageExists
      ensures ok ==> Mapped(old(leaves), leaves, n, frame, writable, pageExists, page, old(mm.words[..]), mm.words[..])
      ensures ok && !pageExists && n !in old(leaves) ==> frame !in tables.Values
    {
      hide Tree;
      ghost var b := Table(1, n);
      var i := n % 512;
      LeafEntryAt(pages, tables, leaves, n);
      ok := true;
      if pageExists {
        frame := page;
      } else if Present(pages[pt][i]) {
        frame := pages[pt][i] / 0x1000 * 0x1000;
        ChildPage(pages[pt][i], leaves[n].frame, leaves[n].writable);
      } else {
        frame := NewPage();
        if frame == 0 {
          ok := false;
          return;
        }
      }
      ghost var pages0 := pages;
      TablePage(pages, tables, leaves, b);
      var entry := if pageExists || !Present(pages[pt][i]) then MakeEntry(frame) else pages[pt][i];
      if writable {
        entry := SetWritable(entry);
      }
      LeafEntryAt(pages, tables, leaves, n);
      NewEntry(frame);
      if n in leaves {
        WritableEntry(pages[pt][i], leaves[n].frame, leaves[n].writable);
      }
      KeepSelfMapped(pages, tables, leaves, b, i, entry);
      pages := WriteEntry(pages, pt, i, entry);
      ghost var leaf := Leaf(frame, Rights(leaves, n, writable, pageExists));
      SetLeaf(pages0, tables, leaves, n, leaf, entry, pages);
      leaves := leaves[n := leaf];
    }

    /**
      Maps the page of `v`: to the given frame, or to a fresh one unless it is mapped
      already.  Returns the physical address of `v`, or only its page offset when every
      page is in use; the leaf map changes at this page and nowhere else.
     */
    method CreateVirtualMapping(v: nat, pml4t: nat, writable: bool, pageExists: bool, page: nat)
      returns (r: nat, ghost frame: nat, ghost ok: bool)
      requires Valid() && tables[Root] == pml4t && v / 0x1000 < 511 * 0x800_0000
      requires pageExists ==> PageAligned(page) && page < 0x1_0000_0000
      modifies mm.words, this`pages, this`tables, this`leaves
      ensures Valid() && tables[Root] == pml4t && Grown(old(mm.words[..]), mm.words[..])
      ensures forall u :: u in old(tables) ==> u in tables && tables[u] == old(tables)[u]
      ensures !ok ==> r == v % 0x1000 && leaves == old(leaves) && AllUsed(mm.words[..])
      ensures ok ==> r == frame + v % 0x1000
      ensures ok ==> Mapped(old(leaves), leaves, v / 0x1000, frame, writable, pageExists, page, old(mm.words[..]), mm.words[..])
      ensures FromClear(old(tables), tables, old(mm.words[..]))
      ensures ok && !pageExists && v / 0x1000 !in old(leaves) ==> frame !in tables.Values
    {
      hide Tree, SelfMapped, Marked, Mapped, B.EndsUsed, FromClear, Grown;
      ghost var n := v / 0x1000;
      SourceIndices(v);
      TopSlot(n);
      TableIndices(n);
      var found, pdpt, pd, pt := 0, 0, 0, 0;
      ok := false;
      ghost var words0 := mm.words[..];
      pdpt := GetTable(pml4t, v / 0x80_0000_0000 % 512, Root);
      ghost var words, tables1 := mm.words[..], tables;
      if pdpt != 0 {
        pd := GetTable(pdpt, v / 0x4000_0000 % 512, Table(3, n));
        FromClearOn(old(tables), tables1, tables, words0, words, mm.words[..]);
      }
      words, tables1 := mm.words[..], tables;
      if pd != 0 {
        pt := GetTable(pd, v / 0x20_0000 % 512, Table(2, n));
        FromClearOn(old(tables), tables1, tables, words0, words, mm.words[..]);
      }
      ghost var words1 := mm.words[..];
      if pt != 0 {
        found, ok := GetPage(pt, v / 0x1000, writable, pageExists, page);
        GrownOn(words0, words1, mm.words[..]);
        if ok {
          MappedEarlier(old(leaves), leaves, n, found, writable, pageExists, page, words0, words1, mm.words[..]);
        }
      }
      frame, r := found, found + v % 0x1000;
    }
  }

  /** A mapping request: an address, and the frame to use or none. */
  datatype Request = Request(v: nat, writable: bool, pageExists: bool, page: nat)

  predicate RequestOk(q: Request) {
    q.v / 0x1000 < 511 * 0x800_0000 && (q.pageExists ==> PageAligned(q.page) && q.page < 0x1_0000_0000)
  }

  /** A page is writable if the call asks for it, or if it was and the call brings no frame to put in its place. */
  predicate Rights(leaves: Leaves, n: nat, writable: bool, pageExists: bool) {
    writable || (!pageExists && n in leaves && leaves[n].writable)
  }

  /** The leaf map after requests were answered with these frames. */
  ghost function Replay(leaves: Leaves, requests: seq<Request>, frames: seq<nat>): Leaves
    requires |requests| == |frames|
  {
    if requests == [] then leaves
    else
      var k := |requests| - 1;
      var q, cur := requests[k], Replay(leaves, requests[..k], frames[..k]);
      cur[q.v / 0x1000 := Leaf(frames[k], Rights(cur, q.v / 0x1000, q.writable, q.pageExists))]
  }

  /** Request `k` finds its page unmapped and brings no frame of its own. */
  ghost predicate TakesFresh(leaves: Leaves, requests: seq<Request>, frames: seq<nat>, k: nat)
    requires |requests| == |frames| && k < |requests|
  {
    !requests[k].pageExists && requests[k].v / 0x1000 !in Replay(leaves, requests[..k], frames[..k])
  }

  /**
    The frames of a run: a given frame is used as it is, a mapped page keeps its frame, and
    no two fresh frames are the same.
   */
  ghost predicate RunOk(leaves: Leaves, requests: seq<Request>, frames: seq<nat>) {
    && |requests| == |frames|
    && (forall k :: 0 <= k < |requests| && requests[k].pageExists ==> frames[k] == requests[k].page)
    && (forall k :: 0 <= k < |requests| && !requests[k].pageExists && !TakesFresh(leaves, requests, frames, k) ==>
          frames[k] == Replay(leaves, requests[..k], frames[..k])[requests[k].v / 0x1000].frame)
    && (forall i, k :: 0 <= i < k < |requests| && TakesFresh(leaves, requests, frames, i) && TakesFresh(leaves, requests, frames, k) ==>
          frames[i] != frames[k])
  }

  /** The frames requests bring along are in use already. */
  ghost predicate SuppliedUsed(requests: seq<Request>, words: seq<nat>) {
    B.WordsOk(words) && forall k :: 0 <= k < |requests| && requests[k].pageExists ==> RequestOk(requests[k]) && B.Used(words, requests[k].page / 0x1000)
  }

  /** No fresh frame is a table page or one that a request brought along. */
  ghost predicate FreshApart(leaves: Leaves, requests: seq<Request>, frames: seq<nat>, tables: Tables, all: seq<Request>) {
    && |requests| == |frames|
    && (forall k :: 0 <= k < |requests| && TakesFresh(leaves, requests, frames, k) ==> frames[k] !in tables.Values)
    && (forall i, k :: 0 <= k < |requests| && TakesFresh(leaves, requests, frames, k) && 0 <= i < |all| && all[i].pageExists ==>
          frames[k] != all[i].page)
  }

  lemma ApartKept(leaves: Leaves, requests: seq<Request>, frames: seq<nat>, tables: Tables, tables': Tables, all: seq<Request>, words: seq<nat>)
    requires FreshApart(leaves, requests, frames, tables, all) && FreshMarked(leaves, requests, frames, words)
    requires FromClear(tables, tables', words)
    ensures FreshApart(leaves, requests, frames, tables', all)
  {
    forall k | 0 <= k < |requests| && TakesFresh(leaves, requests, frames, k) ensures frames[k] !in tables'.Values {
      forall u | u in tables' ensures tables'[u] != frames[k] {
        if u in tables {
          assert tables[u] in tables.Values;
        }
      }
    }
  }

  lemma ApartExtends(leaves: Leaves, requests: seq<Request>, frames: seq<nat>, q: Request, frame: nat, cur: Leaves,
                     tables: Tables, all: seq<Request>, words: seq<nat>)
    requires FreshApart(leaves, requests, frames, tables, all) && cur == Replay(leaves, requests, frames) && SuppliedUsed(all, words)
    requires !q.pageExists && q.v / 0x1000 !in cur ==> frame < 0x1_0000_0000 && !B.Used(words, frame / 0x1000) && frame !in tables.Values
    ensures FreshApart(leaves, requests + [q], frames + [frame], tables, all)
  {
    var rs, fs, n := requests + [q], frames + [frame], |requests|;
    assert rs[..n] == requests && fs[..n] == frames;
    forall k | 0 <= k < n ensures TakesFresh(leaves, rs, fs, k) == TakesFresh(leaves, requests, frames, k) {
      assert rs[..k] == requests[..k] && fs[..k] == frames[..k];
    }
  }

  lemma SuppliedStay(all: seq<Request>, words: seq<nat>, words': seq<nat>)
    requires SuppliedUsed(all, words) && Grown(words, words')
    ensures SuppliedUsed(all, words')
  {
  }

  lemma MappedFresh(before: Leaves, after: Leaves, n: nat, frame: nat, writable: bool, pageExists: bool, page: nat,
                    words: seq<nat>, words': seq<nat>)
    requires Mapped(before, after, n, frame, writable, pageExists, page, words, words') && !pageExists && n !in before
    ensures B.WordsOk(words) && frame < 0x1_0000_0000 && !B.Used(words, frame / 0x1000)
  {
  }

  lemma ApartStarts(leaves: Leaves, tables: Tables, all: seq<Request>)
    ensures FreshApart(leaves, [], [], tables, all)
  {
  }

  /** The fresh frames of a run so far are marked. */
  ghost predicate FreshMarked(leaves: Leaves, requests: seq<Request>, frames: seq<nat>, words: seq<nat>) {
    && |requests| == |frames| && B.WordsOk(words)
    && forall k :: 0 <= k < |requests| && TakesFresh(leaves, requests, frames, k) ==>
         frames[k] < 0x1_0000_0000 && B.Used(words, frames[k] / 0x1000)
  }

  lemma RunExtends(leaves: Leaves, requests: seq<Request>, frames: seq<nat>, q: Request, frame: nat, cur: Leaves, next: Leaves,
                   words: seq<nat>, words': seq<nat>)
    requires RunOk(leaves, requests, frames) && FreshMarked(leaves, requests, frames, words) && Grown(words, words')
    requires cur == Replay(leaves, requests, frames)
    requires Mapped(cur, next, q.v / 0x1000, frame, q.writable, q.pageExists, q.page, words, words')
    ensures RunOk(leaves, requests + [q], frames + [frame])
    ensures FreshMarked(leaves, requests + [q], frames + [frame], words')
    ensures next == Replay(leaves, requests + [q], frames + [frame])
  {
    hide Replay, TakesFresh, FreshMarked, Grown;
    OneMore(leaves, requests, frames, q, frame);
    RunExtended(leaves, requests, frames, q, frame, cur, words, words', next);
    MarkedExtended(leaves, requests, frames, q, frame, cur, words, words', next);
  }

  /** One more request: what the run says of the earlier ones stays, and the replay goes on from there. */
  lemma OneMore(leaves: Leaves, requests: seq<Request>, frames: seq<nat>, q: Request, frame: nat)
    requires |requests| == |frames|
    ensures var rs, fs, n := requests + [q], frames + [frame], |requests|;
            && (forall k :: 0 <= k < n ==> TakesFresh(leaves, rs, fs, k) == TakesFresh(leaves, requests, frames, k))
            && (forall k :: 0 <= k < n ==> Replay(leaves, rs[..k], fs[..k]) == Replay(leaves, requests[..k], frames[..k]))
            && Replay(leaves, rs[..n], fs[..n]) == Replay(leaves, requests, frames)
            && (TakesFresh(leaves, rs, fs, n) <==> !q.pageExists && q.v / 0x1000 !in Replay(leaves, requests, frames))
            && var cur, p := Replay(leaves, requests, frames), q.v / 0x1000;
               Replay(leaves, rs, fs) == cur[p := Leaf(frame, Rights(cur, p, q.writable, q.pageExists))]
  {
    var rs, fs, n := requests + [q], frames + [frame], |requests|;
    assert rs[..n] == requests && fs[..n] == frames;
    forall k | 0 <= k < n
      ensures TakesFresh(leaves, rs, fs, k) == TakesFresh(leaves, requests, frames, k)
      ensures Replay(leaves, rs[..k], fs[..k]) == Replay(leaves, requests[..k], frames[..k])
    {
      hide Replay;
      assert rs[..k] == requests[..k] && fs[..k] == frames[..k];
    }
  }

  lemma RunExtended(leaves: Leaves, requests: seq<Request>, frames: seq<nat>, q: Request, frame: nat, cur: Leaves,
                    words: seq<nat>, words': seq<nat>, next: Leaves)
    requires RunOk(leaves, requests, frames) && FreshMarked(leaves, requests, frames, words) && cur == Replay(leaves, requests, frames)
    requires Mapped(cur, next, q.v / 0x1000, frame, q.writable, q.pageExists, q.page, words, words')
    ensures RunOk(leaves, requests + [q], frames + [frame])
  {
    hide Replay, TakesFresh;
    OneMore(leaves, requests, frames, q, frame);
  }

  lemma MarkedExtended(leaves: Leaves, requests: seq<Request>, frames: seq<nat>, q: Request, frame: nat, cur: Leaves,
                       words: seq<nat>, words': seq<nat>, next: Leaves)
    requires FreshMarked(leaves, requests, frames, words) && Grown(words, words') && cur == Replay(leaves, requests, frames)
    requires Mapped(cur, next, q.v / 0x1000, frame, q.writable, q.pageExists, q.page, words, words')
    ensures FreshMarked(leaves, requests + [q], frames + [frame], words')
  {
    hide Replay, TakesFresh;
    OneMore(leaves, requests, frames, q, frame);
  }

  /** Call `k` asked for page `n` to be writable, and no later call put another frame in its place. */
  predicate AskedSince(requests: seq<Request>, n: nat, k: nat) {
    && k < |requests| && requests[k].v / 0x1000 == n && requests[k].writable
    && KeptFrom(requests, n, k + 1)
  }

  /** From call `k` on, none brings a frame for page `n`. */
  predicate KeptFrom(requests: seq<Request>, n: nat, k: nat) {
    forall j :: k <= j < |requests| && requests[j].v / 0x1000 == n ==> !requests[j].pageExists
  }

  /**
    After any run of calls a page is writable if and only if some call since its entry was last
    overwritten asked for it, or it was writable to begin with and never overwritten.
   */
  lemma {:induction false} WritableExactly(leaves: Leaves, requests: seq<Request>, frames: seq<nat>, n: nat)
    requires |requests| == |frames| && n in Replay(leaves, requests, frames)
    ensures Replay(leaves, requests, frames)[n].writable <==>
              (exists k: nat :: AskedSince(requests, n, k)) || (n in leaves && leaves[n].writable && KeptFrom(requests, n, 0))
  {
    if requests != [] {
      var k := |requests| - 1;
      var init, q, cur := requests[..k], requests[k], Replay(leaves, requests[..k], frames[..k]);
      if n in cur {
        WritableExactly(leaves, init, frames[..k], n);
      } else {
        NeverAsked(leaves, init, frames[..k], n);
      }
      if q.v / 0x1000 != n || !q.pageExists {
        assert forall j: nat :: AskedSince(init, n, j) <==> AskedSince(requests, n, j) && j < k;
        assert KeptFrom(init, n, 0) <==> KeptFrom(requests, n, 0);
      }
      assert AskedSince(requests, n, k) <==> q.v / 0x1000 == n && q.writable;
    }
  }

  /** The same, as the processor sees it. */
  lemma WalkRights(pages: Pages, tables: Tables, leaves: Leaves, requests: seq<Request>, frames: seq<nat>, v: nat)
    requires |requests| == |frames| && Root in tables && Tree(pages, tables, Replay(leaves, requests, frames))
    requires v / 0x1000 < 511 * 0x800_0000 && v / 0x1000 in Replay(leaves, requests, frames)
    ensures var n, w := v / 0x1000, Walk(pages, tables[Root], v);
            && w.Physical? && w.addr == Replay(leaves, requests, frames)[n].frame + v % 0x1000
            && (w.writable <==>
                (exists k: nat :: AskedSince(requests, n, k)) || (n in leaves && leaves[n].writable && KeptFrom(requests, n, 0)))
  {
    hide Tree, Walk, Replay, AskedSince, KeptFrom;
    WalkIsLookup(pages, tables, Replay(leaves, requests, frames), v);
    WritableExactly(leaves, requests, frames, v / 0x1000);
  }

  lemma {:induction false} NeverAsked(leaves: Leaves, requests: seq<Request>, frames: seq<nat>, n: nat)
    requires |requests| == |frames| && n !in Replay(leaves, requests, frames)
    ensures n !in leaves && forall k :: 0 <= k < |requests| ==> requests[k].v / 0x1000 != n
  {
    if requests != [] {
      NeverAsked(leaves, requests[..|requests| - 1], frames[..|requests| - 1], n);
    }
  }

  /**
    Any sequence of mapping calls: the tree stays a tree, and the leaf map is the replay of
    the calls that were served.  All are served unless pages ran out.  Where the frames that
    requests bring along are in use, no fresh frame is one of them or a table page.
   */
  method MapAll(m: Mapper, pml4t: nat, requests: seq<Request>) returns (ghost served: seq<Request>, ghost frames: seq<nat>)
    requires m.Valid() && m.tables[Root] == pml4t && forall k :: 0 <= k < |requests| ==> RequestOk(requests[k])
    modifies m, m.mm.words
    ensures m.Valid() && m.tables[Root] == pml4t
    ensures served == requests || AllUsed(m.mm.words[..])
    ensures RunOk(old(m.leaves), served, frames) && m.leaves == Replay(old(m.leaves), served, frames)
    ensures SuppliedUsed(requests, old(m.mm.words[..])) ==> FreshApart(old(m.leaves), served, frames, m.tables, requests)
  {
    hide Tree, RunOk, FreshMarked, Mapped, Replay, Marked, SelfMapped, FromClear, FreshApart, SuppliedUsed, Grown;
    served, frames := [], [];
    ghost var brought := SuppliedUsed(requests, m.mm.words[..]);
    Marks(m.mm.words[..], m.tables);
    RunStarts(m.leaves, m.mm.words[..]);
    ApartStarts(m.leaves, m.tables, requests);
    var i := 0;
    while i < |requests|
      invariant 0 <= i <= |requests|
      invariant m.Valid() && m.tables[Root] == pml4t
      invariant served == requests[..i] || AllUsed(m.mm.words[..])
      invariant |served| == |frames| && RunOk(old(m.leaves), served, frames)
      invariant FreshMarked(old(m.leaves), served, frames, m.mm.words[..])
      invariant m.leaves == Replay(old(m.leaves), served, frames)
      invariant brought ==> SuppliedUsed(requests, m.mm.words[..]) && FreshApart(old(m.leaves), served, frames, m.tables, requests)
    {
      var q := requests[i];
      ghost var frame, ok := ServeOne(m, pml4t, requests, i, old(m.leaves), served, frames, brought);
      if ok {
        served, frames := served + [q], frames + [frame];
      }
      i := i + 1;
    }
    assert requests[..i] == requests;
  }

  method ServeOne(m: Mapper, pml4t: nat, requests: seq<Request>, i: nat, ghost leaves: Leaves, ghost served: seq<Request>,
                  ghost frames: seq<nat>, ghost brought: bool) returns (ghost frame: nat, ghost ok: bool)
    requires i < |requests| && m.Valid() && m.tables[Root] == pml4t && RequestOk(requests[i])
    requires |served| == |frames| && RunOk(leaves, served, frames) && FreshMarked(leaves, served, frames, m.mm.words[..])
    requires m.leaves == Replay(leaves, served, frames)
    requires brought ==> SuppliedUsed(requests, m.mm.words[..]) && FreshApart(leaves, served, frames, m.tables, requests)
    modifies m, m.mm.words
    ensures m.Valid() && m.tables[Root] == pml4t && (!ok ==> AllUsed(m.mm.words[..]))
    ensures AllUsed(old(m.mm.words[..])) ==> AllUsed(m.mm.words[..])
    ensures var s := if ok then served + [requests[i]] else served;
            var f := if ok then frames + [frame] else frames;
            && RunOk(leaves, s, f) && FreshMarked(leaves, s, f, m.mm.words[..]) && m.leaves == Replay(leaves, s, f)
            && (brought ==> SuppliedUsed(requests, m.mm.words[..]) && FreshApart(leaves, s, f, m.tables, requests))
  {
    hide Tree, RunOk, FreshMarked, Mapped, Replay, Marked, SelfMapped, FromClear, FreshApart, SuppliedUsed, Grown;
    var q := requests[i];
    ghost var cur, words, tables := m.leaves, m.mm.words[..], m.tables;
    var r;
    r, frame, ok := m.CreateVirtualMapping(q.v, pml4t, q.writable, q.pageExists, q.page);
    UsedStay(words, m.mm.words[..]);
    if brought {
      SuppliedStay(requests, words, m.mm.words[..]);
      ApartKept(leaves, served, frames, tables, m.tables, requests, words);
    }
    if ok {
      RunExtends(leaves, served, frames, q, frame, cur, m.leaves, words, m.mm.words[..]);
      if brought {
        if !q.pageExists && q.v / 0x1000 !in cur {
          MappedFresh(cur, m.leaves, q.v / 0x1000, frame, q.writable, q.pageExists, q.page, words, m.mm.words[..]);
        }
        ApartExtends(leaves, served, frames, q, frame, cur, m.tables, requests, words);
      }
    } else {
      MarksGrow(leaves, served, frames, words, m.mm.words[..]);
    }
  }

  lemma UsedStay(words: seq<nat>, words': seq<nat>)
    requires Grown(words, words')
    ensures AllUsed(words) ==> AllUsed(words')
  {
  }

  lemma Marks(words: seq<nat>, tables: Tables)
    requires Marked(words, tables)
    ensures B.WordsOk(words)
  {
  }

  lemma MarksGrow(leaves: Leaves, requests: seq<Request>, frames: seq<nat>, words: seq<nat>, words': seq<nat>)
    requires FreshMarked(leaves, requests, frames, words) && Grown(words, words')
    ensures FreshMarked(leaves, requests, frames, words')
  {
  }

  lemma RunStarts(leaves: Leaves, words: seq<nat>)
    requires B.WordsOk(words)
    ensures RunOk(leaves, [], []) && FreshMarked(leaves, [], [], words) && Replay(leaves, [], []) == leaves
  {
  }

  /** No page is left. */
  ghost predicate AllUsed(words: seq<nat>) {
    B.WordsOk(words) && forall p :: 0 <= p < B.PAGES ==> B.Used(words, p)
  }

  /**
    Page `n` is now mapped to `frame` and no other page changed: the given frame, else the
    frame it had, else one that was clear before and is in use now.
   */
  ghost predicate Mapped(before: Leaves, after: Leaves, n: nat, frame: nat, writable: bool, pageExists: bool, page: nat,
                         words: seq<nat>, words': seq<nat>)
  {
    && after == before[n := Leaf(frame, Rights(before, n, writable, pageExists))]
    && (pageExists ==> frame == page)
    && (!pageExists && n in before ==> frame == before[n].frame)
    && (!pageExists && n !in before ==>
          && B.WordsOk(words) && B.WordsOk(words') && 0 < frame < 0x1_0000_0000 && frame % 0x1000 == 0
          && !B.Used(words, frame / 0x1000) && B.Used(words', frame / 0x1000))
  }

  lemma MappedEarlier(before: Leaves, after: Leaves, n: nat, frame: nat, writable: bool, pageExists: bool, page: nat,
                      words0: seq<nat>, words1: seq<nat>, words2: seq<nat>)
    requires Mapped(before, after, n, frame, writable, pageExists, page, words1, words2) && Grown(words0, words1)
    ensures Mapped(before, after, n, frame, writable, pageExists, page, words0, words2)
  {
  }

  /** The translation of other pages is what it was. */
  lemma OtherPagesKept(pages: Pages, tables: Tables, leaves: Leaves, pages': Pages, tables': Tables, leaves': Leaves,
                       n: nat, leaf: Leaf, v: nat)
    requires Tree(pages, tables, leaves) && Tree(pages', tables', leaves') && leaves' == leaves[n := leaf]
    requires Root in tables && Root in tables' && v / 0x1000 < 511 * 0x800_0000
    ensures v / 0x1000 != n ==> Walk(pages', tables'[Root], v) == Walk(pages, tables[Root], v)
    ensures v / 0x1000 == n ==> Walk(pages', tables'[Root], v) == Physical(leaf.frame + v % 0x1000, leaf.writable)
  {
    hide Walk;
    WalkIsLookup(pages, tables, leaves, v);
    WalkIsLookup(pages', tables', leaves', v);
  }

  /** Bits are only ever set. */
  ghost predicate Grown(before: seq<nat>, after: seq<nat>) {
    && B.WordsOk(before) && B.WordsOk(after)
    && forall p :: 0 <= p < B.PAGES && B.Used(before, p) ==> B.Used(after, p)
  }

  lemma GrownOn(a: seq<nat>, b: seq<nat>, c: seq<nat>)
    requires Grown(a, b) && Grown(b, c)
    ensures Grown(a, c)
  {
  }

  lemma NothingGrown(tables: Tables, words: seq<nat>)
    requires Marked(words, tables)
    ensures Grown(words, words) && FromClear(tables, tables, words)
  {
  }

  /** Tables that are new lie in pages that were clear. */
  ghost predicate FromClear(before: Tables, after: Tables, words: seq<nat>) {
    B.WordsOk(words) && forall u :: u in after ==>
      if u in before then after[u] == before[u] else after[u] < 0x1_0000_0000 && !B.Used(words, after[u] / 0x1000)
  }

  lemma GrownByOne(words: seq<nat>, words': seq<nat>, tables: Tables, c: Node, page: nat)
    requires B.RangeSet(words, words', page / 0x1000, 1) && page < 0x1_0000_0000 && !B.Used(words, page / 0x1000) && c !in tables
    ensures Grown(words, words') && FromClear(tables, tables[c := page], words)
  {
  }

  lemma FromClearOn(a: Tables, b: Tables, c: Tables, words: seq<nat>, words': seq<nat>, words'': seq<nat>)
    requires FromClear(a, b, words) && Grown(words, words') && FromClear(b, c, words') && Grown(words', words'')
    requires forall u :: u in a ==> u in b
    ensures FromClear(a, c, words) && Grown(words, words'')
  {
  }

  lemma LowestClear(words: seq<nat>, m: nat, page: nat)
    requires B.WordsOk(words) && B.FirstFit(words, 1, 1, Some(m)) && page == B.Nth(1, m) * 0x1000
    ensures page % 0x1000 == 0 && page / 0x1000 == B.Nth(1, m) && !B.Used(words, page / 0x1000)
  {
    B.PageMultiple(B.Nth(1, m), page);
    assert B.RangePage(B.Nth(1, m), 0) == B.Nth(1, m);
  }

  lemma NoneClear(words: seq<nat>)
    requires B.WordsOk(words) && B.FirstFit(words, 1, 1, None)
    ensures AllUsed(words)
  {
    forall p | 0 <= p < B.PAGES ensures B.Used(words, p) {
      B.NthIsProduct(1, p);
      assert !B.RangeClear(words, B.Nth(1, p), 1);
      assert B.RangePage(p, 0) == p;
    }
  }

  lemma KeepTree(pages: Pages, tables: Tables, leaves: Leaves, pages': Pages, page: nat)
    requires Root in tables && Tree(pages, tables, leaves) && SelfMapped(pages, tables[Root])
    requires page !in tables.Values && pages' == pages[page := Zeros()]
    ensures Tree(pages', tables, leaves) && SelfMapped(pages', tables[Root])
  {
    forall t | t in tables ensures tables[t] in pages' && pages'[tables[t]] == pages[tables[t]] {
      assert tables[t] in tables.Values;
    }
    FrameTree(pages, tables, leaves, pages');
  }

  /** Marking an upper entry writable. */
  lemma SetInner(pages: Pages, tables: Tables, leaves: Leaves, t: Node, i: nat, pages': Pages)
    requires Tree(pages, tables, leaves)
    requires t in tables && 2 <= t.level <= 4 && i < 512 && !(t == Root && i == 511) && Child(t, i) in tables
    requires tables[t] in pages && i < |pages[tables[t]]|
    requires pages' == WriteEntry(pages, tables[t], i, tables[Child(t, i)] + 3)
    ensures Tree(pages', tables, leaves)
  {
    hide Shape;
    WriteSeparate(pages, tables, t, i, tables[Child(t, i)] + 3);
    forall u, j | u in tables && 2 <= u.level <= 4 && 0 <= j < 512 && !(u == Root && j == 511)
      ensures InnerEntry(pages'[tables[u]][j], tables, u, j)
    {
      assert InnerEntry(pages[tables[u]][j], tables, u, j);
    }
    forall u, j | u in tables && u.level == 1 && 0 <= j < 512
      ensures LeafEntry(pages'[tables[u]][j], leaves, u.prefix * 512 + j)
    {
      assert LeafEntry(pages[tables[u]][j], leaves, u.prefix * 512 + j);
    }
  }
}
