/**
  The EFI loader's virtual memory (efiloader/vmem.c): a list of virtual regions, first-fit
  placement of new ones, and the page tables built from the list.
 */
module EfiPaging {
  import opened EfiRegions
  import opened Options
  import opened PageTree

  // ------------------------------------------------- the page map of a region list

  function HolePage(r: Region): nat {
    r.startHole / 0x1000 * 0x1000
  }

  /** Pages of `r` from its start hole up to `off`, each with the frame it is mapped to, for writing. */
  function RegionMap(r: Region, off: nat): Leaves {
    if off <= HolePage(r) || off < 0x1000 then map[]
    else
      var last := off - 0x1000;
      RegionMap(r, last)[(r.base + last) / 0x1000 := Leaf(r.src + last, true)]
  }

  function PageMap(entries: seq<Region>): Leaves {
    if entries == [] then map[]
    else
      var r := entries[|entries| - 1];
      PageMap(entries[..|entries| - 1]) + RegionMap(r, r.length)
  }

  predicate Aligned(r: Region) {
    r.base % 0x1000 == 0 && r.length % 0x1000 == 0 && r.src % 0x1000 == 0
  }

  /** The region lies below the end of the allocatable range and its source below 2^52. */
  predicate Placed(r: Region) {
    0 < r.length && r.base + r.length <= END && r.src + r.length <= 0x10_0000_0000_0000
  }

  ghost predicate AllPlaced(entries: seq<Region>) {
    forall i :: 0 <= i < |entries| ==> Placed(entries[i])
  }

  /** What the list says about an address, on its own terms. */
  ghost predicate Covers(r: Region, v: nat) {
    InRange(v, r.base, r.length)
  }

  /** The index of the first region that covers `v`, if any. */
  ghost function FirstCovering(entries: seq<Region>, v: nat): (r: Option<nat>)
    ensures r.Some? ==> r.value < |entries| && Covers(entries[r.value], v)
  {
    if entries == [] then None
    else if Covers(entries[0], v) then Some(0)
    else match FirstCovering(entries[1..], v) case None => None case Some(i) => Some(i + 1)
  }

  lemma {:induction false} FirstCoveringIs(entries: seq<Region>, v: nat)
    ensures match FirstCovering(entries, v)
            case None => forall i :: 0 <= i < |entries| ==> !Covers(entries[i], v)
            case Some(i) => i < |entries| && Covers(entries[i], v) && forall j :: 0 <= j < i ==> !Covers(entries[j], v)
  {
    if entries != [] && !Covers(entries[0], v) {
      FirstCoveringIs(entries[1..], v);
      forall i | 0 < i < |entries| ensures entries[i] == entries[1..][i - 1] {}
    }
  }

  /** The translation the region list calls for: every page it maps can be written to. */
  ghost function Wanted(entries: seq<Region>, v: nat): Translation {
    match FirstCovering(entries, v)
    case None => NotPresent
    case Some(i) =>
      var r := entries[i];
      if v >= r.base + HolePage(r) then Physical(v - r.base + r.src, true) else NotPresent
  }

  /** Page `n` belongs to the region, at or past its start hole. */
  ghost predicate Maps(r: Region, n: nat) {
    Covers(r, n * 0x1000) && n * 0x1000 >= r.base + HolePage(r)
  }

  lemma RegionMapAt(r: Region, n: nat)
    requires Aligned(r) && 0 < r.length
    ensures n in RegionMap(r, r.length) <==> Maps(r, n)
    ensures n in RegionMap(r, r.length) ==> RegionMap(r, r.length)[n] == Leaf(n * 0x1000 - r.base + r.src, true)
  {
    RegionMapUpTo(r, r.length, n);
  }

  lemma {:induction false} RegionMapUpTo(r: Region, off: nat, n: nat)
    requires Aligned(r) && off % 0x1000 == 0
    ensures n in RegionMap(r, off) <==> r.base + HolePage(r) <= n * 0x1000 < r.base + off
    ensures n in RegionMap(r, off) ==> RegionMap(r, off)[n] == Leaf(n * 0x1000 - r.base + r.src, true)
  {
    HoleAligned(r);
    if off > HolePage(r) {
      MultipleBelow(HolePage(r), off);
      var last := off - 0x1000;
      PageNumber(r.base, last);
      RegionMapUpTo(r, last, n);
      PagesAt(r.base + last, n);
    }
  }

  lemma HoleAligned(r: Region)
    ensures HolePage(r) % 0x1000 == 0
  {
  }

  /** Multiples of the page size differ by at least a page. */
  lemma MultipleBelow(a: nat, b: nat)
    requires a % 0x1000 == 0 && b % 0x1000 == 0 && a < b
    ensures a + 0x1000 <= b && (b - 0x1000) % 0x1000 == 0
  {
    var i, j := a / 0x1000, b / 0x1000;
    assert a == i * 0x1000 && b == j * 0x1000;
  }

  lemma PageNumber(base: nat, off: nat)
    requires base % 0x1000 == 0 && off % 0x1000 == 0
    ensures (base + off) / 0x1000 * 0x1000 == base + off && (base + off) % 0x1000 == 0
  {
  }

  lemma PagesAt(a: nat, n: nat)
    requires a / 0x1000 * 0x1000 == a
    ensures n == a / 0x1000 <==> n * 0x1000 == a
    ensures n * 0x1000 < a + 0x1000 <==> n * 0x1000 <= a
  {
  }

  lemma PageOf(v: nat)
    ensures v / 0x1000 * 0x1000 <= v < v / 0x1000 * 0x1000 + 0x1000
    ensures v == v / 0x1000 * 0x1000 + v % 0x1000
  {
  }

  /** A page-aligned region covers all of a page or none of it. */
  lemma WholePage(r: Region, v: nat)
    requires Aligned(r)
    ensures Covers(r, v) <==> Covers(r, v / 0x1000 * 0x1000)
    ensures v >= r.base + HolePage(r) <==> v / 0x1000 * 0x1000 >= r.base + HolePage(r)
  {
    PageOf(v);
    SameSide(r.base, v);
    SameSide(r.base + r.length, v);
    SameSide(r.base + HolePage(r), v);
  }

  lemma SameSide(a: nat, v: nat)
    requires a % 0x1000 == 0
    ensures a <= v <==> a <= v / 0x1000 * 0x1000
  {
    PageOf(v);
    var k := a / 0x1000;
    assert a == k * 0x1000;
  }

  /** For disjoint page-aligned regions the page map is what the list calls for. */
  lemma {:induction false} PageMapIsWanted(entries: seq<Region>, v: nat)
    requires AllPlaced(entries) && Disjoint(entries)
    requires forall i :: 0 <= i < |entries| ==> Aligned(entries[i])
    ensures var n := v / 0x1000;
            Wanted(entries, v) == if n in PageMap(entries) then Physical(PageMap(entries)[n].frame + v % 0x1000, PageMap(entries)[n].writable) else NotPresent
  {
    var n := v / 0x1000;
    FirstCoveringIs(entries, v);
    PageMapAt(entries, n);
    PageOf(v);
    match FirstCovering(entries, v)
    case None =>
      forall i | 0 <= i < |entries| ensures !Covers(entries[i], n * 0x1000) { WholePage(entries[i], v); }
    case Some(i) =>
      WholePage(entries[i], v);
      forall j | 0 <= j < |entries| && j != i ensures !Covers(entries[j], n * 0x1000) {
        NotBoth(entries, i, j, n * 0x1000);
      }
  }

  lemma NotBoth(entries: seq<Region>, i: nat, j: nat, v: nat)
    requires Disjoint(entries) && i < |entries| && j < |entries| && i != j && Covers(entries[i], v)
    ensures !Covers(entries[j], v)
  {
    var a, b := if i < j then i else j, if i < j then j else i;
    assert !Overlap(entries[a].base, entries[a].length, entries[b]);
  }

  /** With disjoint regions the one that covers a page decides it. */
  lemma {:induction false} PageMapAt(entries: seq<Region>, n: nat)
    requires AllPlaced(entries) && Disjoint(entries)
    requires forall i :: 0 <= i < |entries| ==> Aligned(entries[i])
    ensures n in PageMap(entries) <==> exists i :: 0 <= i < |entries| && Maps(entries[i], n)
    ensures forall i :: 0 <= i < |entries| && Maps(entries[i], n) && n in PageMap(entries) ==>
      PageMap(entries)[n] == Leaf(n * 0x1000 - entries[i].base + entries[i].src, true)
  {
    hide RegionMap, Aligned, HolePage;
    if entries != [] {
      var k := |entries| - 1;
      var init, r := entries[..k], entries[k];
      PageMapAt(init, n);
      RegionMapAt(r, n);
      if Maps(r, n) {
        forall i | 0 <= i < k ensures !Maps(init[i], n) { NotBoth(entries, k, i, n * 0x1000); }
      }
      assert forall i :: 0 <= i < k ==> entries[i] == init[i];
    }
  }

  // ------------------------------------------------------------------- the loader

  /** `x | 3`. */
  function SetLowBits(x: nat): nat {
    x / 4 * 4 + 3
  }

  lemma AlignedLowBits(x: nat)
    requires x % 0x1000 == 0
    ensures SetLowBits(x) == x + 3
  {
    var k := x / 0x1000;
    Quarter(k * 0x400);
    assert x == 4 * (k * 0x400);
  }

  lemma Quarter(m: nat)
    ensures 4 * m / 4 == m
  {
  }

  /** Frames that can be handed out: distinct, page-aligned, not table pages. */
  ghost predicate PoolOk(pool: seq<nat>, tables: Tables) {
    && (forall i :: 0 <= i < |pool| ==> PageAligned(pool[i]) && pool[i] !in tables.Values)
    && (forall i, j :: 0 <= i < j < |pool| ==> pool[i] != pool[j])
  }

  /** Pages outside `own` hold what they held. */
  ghost predicate Untouched(before: Pages, after: Pages, own: set<nat>) {
    forall p :: p in before && p !in own ==> p in after && after[p] == before[p]
  }

  class Loader {
    var entries: seq<Region>    // the list from `first` to `last`
    var heap: nat               // list nodes malloc can still provide
    var pages: Pages            // physical memory
    var pool: seq<nat>          // frames alloc_code hands out, in order
    ghost var tables: Tables
    ghost var leaves: Leaves

    constructor (heap0: nat, pages0: Pages, pool0: seq<nat>)
      ensures entries == [] && heap == heap0 && pages == pages0 && pool == pool0
    {
      entries, heap, pages, pool := [], heap0, pages0, pool0;
    }

    method Add(base: nat, length: nat, src: nat) returns (s: Status)
      modifies this`entries, this`heap
      ensures s == if old(heap) > 0 then Success else OutOfResources
      ensures entries == if s == Success then old(entries) + [Region(base, length, 0, src)] else old(entries)
      ensures heap == if s == Success then old(heap) - 1 else 0
    {
      if heap == 0 {
        return OutOfResources;
      }
      heap := heap - 1;
      entries := entries + [Region(base, length, 0, src)];
      s := Success;
    }

    method GetIntersect(base: nat, length: nat) returns (r: Option<nat>)
      ensures match r
              case None => forall i :: 0 <= i < |entries| ==> !Intersects(base, length, entries[i])
              case Some(k) => k < |entries| && Intersects(base, length, entries[k]) &&
                              forall i :: 0 <= i < k ==> !Intersects(base, length, entries[i])
    {
      var i := 0;
      while i < |entries|
        invariant 0 <= i <= |entries|
        invariant forall j :: 0 <= j < i ==> !Intersects(base, length, entries[j])
      {
        if Intersects(base, length, entries[i]) {
          return Some(i);
        }
        i := i + 1;
      }
      r := None;
    }

    /** The physical address of `v`, or 0: the first region that covers `v` decides. */
    method GetPmemForVmem(v: nat) returns (p: nat)
      requires v < WORD && AllProper(entries)
      requires forall i :: 0 <= i < |entries| ==> entries[i].src + entries[i].length <= WORD
      ensures p < WORD
      ensures p == match FirstCovering(entries, v)
                   case None => 0
                   case Some(i) => v - entries[i].base + entries[i].src
    {
      var r := GetIntersect(v, 1);
      FirstCoveringIs(entries, v);
      forall i | 0 <= i < |entries| ensures Intersects(v, 1, entries[i]) <==> Covers(entries[i], v) {
        IntersectsIsOverlap(v, 1, entries[i]);
      }
      match r
      case None => p := 0;
      case Some(i) => p := v - entries[i].base + entries[i].src;
    }

    method AddStartHole(base: nat, len: nat) returns (s: Status)
      requires base < WORD && AllProper(entries)
      modifies this`entries
      ensures match FirstCovering(old(entries), base)
              case None => s == Aborted && entries == old(entries)
              case Some(i) => s == Success && entries == old(entries)[i := old(entries)[i].(startHole := len)]
    {
      var r := GetIntersect(base, 1);
      FirstCoveringIs(entries, base);
      forall i | 0 <= i < |entries| ensures Intersects(base, 1, entries[i]) <==> Covers(entries[i], base) {
        IntersectsIsOverlap(base, 1, entries[i]);
      }
      match r
      case None => s := Aborted;
      case Some(i) =>
        entries := entries[i := entries[i].(startHole := len)];
        s := Success;
    }

    /**
      A region at a fixed place is added exactly when no region of the list intersects it in 64
      bits; for ranges that do not wrap, exactly when the range is free.
     */
    method AllocateFixed(base: nat, length: nat, src: nat) returns (s: Status)
      modifies this`entries, this`heap
      ensures s == Success <==> FirstHit(old(entries), base, length).None? && old(heap) > 0
      ensures Proper(base, length) && AllProper(old(entries)) ==> (s == Success <==> Free(old(entries), base, length) && old(heap) > 0)
      ensures entries == if s == Success then old(entries) + [Region(base, length, 0, src)] else old(entries)
      ensures Proper(base, length) && AllProper(old(entries)) && s == Success && Disjoint(old(entries)) ==> Disjoint(entries)
    {
      var r := GetIntersect(base, length);
      if Proper(base, length) && AllProper(entries) {
        HitIsOverlap(entries, base, length);
      }
      if r.Some? {
        return OutOfResources;
      }
      s := Add(base, length, src);
    }

    /**
      First fit. For sane lists and lengths the new region gets the lowest page-aligned base at
      or above START whose range is free, and there is no room exactly when no such base fits
      below END; otherwise nothing fits and a range that wraps or lies below START is taken.
      Lists and lengths for which the loop never ends cannot be given.
     */
    method AllocateAny(length: nat, src: nat) returns (s: Status, base: nat)
      requires length < WORD && AllProper(entries) && Result(entries, length) != Running
      modifies this`entries, this`heap
      ensures Sane(old(entries), length) ==>
                && (s == NoRoom <==> forall b :: !Fits(old(entries), length, b))
                && (s != NoRoom ==> Fits(old(entries), length, base) && forall b :: START <= b < base ==> !Fits(old(entries), length, b))
                && (s == Success && Disjoint(old(entries)) ==> Disjoint(entries))
      ensures !Sane(old(entries), length) ==>
                s != NoRoom && (base < START || WORD <= base + length) && forall b :: !Fits(old(entries), length, b)
      ensures Result(old(entries), length) == if s == NoRoom then Exhausted else Found(base)
      ensures s != NoRoom ==> s == if old(heap) > 0 then Success else OutOfResources
      ensures entries == if s == Success then old(entries) + [Region(base, length, 0, src)] else old(entries)
    {
      hide Intersects, FirstHit, Ascent, Sane, Fits, RoundUp, PageAfter;
      RightExactly(entries, length);
      base := START;
      ghost var back := false;
      while Wrap(base + length) <= END
        invariant base < WORD && entries == old(entries) && heap == old(heap)
        invariant Ascent(entries, length, base) == Ascent(entries, length, if back then 0 else START)
        invariant back ==> Ascent(entries, length, START) == Running
        decreases !back, WORD - base
      {
        var r := GetIntersect(base, length);
        HitOf(entries, base, length, r);
        Turn(entries, length, base);
        if r == None {
          s := Add(base, length, src);
          if Fits(old(entries), length, base) && Disjoint(old(entries)) {
            FitIsDisjoint(old(entries), length, base, src);
          }
          return;
        }
        var next := PageAfter(entries[r.value]);
        if next <= base {
          back := true;
        }
        base := next;
      }
      Turn(entries, length, base);
      s := NoRoom;
    }

    // ------------------------------------------------------------- page tables

    /** The tree is in place and the pages it may use are all in `own`. */
    ghost predicate Building(own: set<nat>)
      reads this
    {
      && Root in tables && Tree(pages, tables, leaves)
      && PoolOk(pool, tables)
      && (forall t :: t in tables ==> tables[t] in own)
      && (forall i :: 0 <= i < |pool| ==> pool[i] in own)
    }

    method AllocCode() returns (s: Status, page: nat)
      modifies this`pool
      ensures old(pool) == [] ==> s == OutOfResources && pool == []
      ensures old(pool) != [] ==> s == Success && page == old(pool)[0] && pool == old(pool)[1..]
    {
      if pool == [] {
        return OutOfResources, 0;
      }
      s, page := Success, pool[0];
      pool := pool[1..];
    }

    /** The table below entry `idx` of the table at `parent`, created if it is missing. */
    method GetChildEntry(parent: nat, idx: nat, ghost t: Node, ghost own: set<nat>) returns (s: Status, child: nat)
      requires Building(own) && t in tables && tables[t] == parent
      requires 2 <= t.level <= 4 && idx < 512 && !(t == Root && idx == 511)
      modifies this`pages, this`pool, this`tables
      ensures Building(own) && Untouched(old(pages), pages, own)
      ensures forall u :: u in old(tables) ==> u in tables && tables[u] == old(tables)[u]
      ensures s == Success || (s == OutOfResources && pool == [])
      ensures s == Success ==> Child(t, idx) in tables && tables[Child(t, idx)] == child
    {
      hide Tree;
      ghost var c := Child(t, idx);
      InnerEntryAt(pages, tables, leaves, t, idx);
      var pte := pages[parent][idx];
      if !Present(pte) {
        ghost var pool0 := pool;
        var page;
        s, page := AllocCode();
        if s != Success {
          return s, 0;
        }
        PoolNext(pool0, tables, c);
        AlignedLowBits(page);
        ghost var pages0 := pages;
        pages := pages[page := Zeros()];
        pages := WriteEntry(pages, parent, idx, SetLowBits(page));
        AddTable(pages0, tables, leaves, t, idx, page, pages);
        tables := tables[c := page];
      }
      InnerEntryAt(pages, tables, leaves, t, idx);
      pte := pages[parent][idx];
      ChildPage(pte, tables[c], true);
      child := pte / 0x1000 * 0x1000;
      s := Success;
    }

    /** Maps one page, for writing; the leaf map changes at that page and nowhere else. */
    method BuildPteForPage(paddr: nat, vaddr: nat, pml4t: nat, ghost own: set<nat>) returns (s: Status)
      requires Building(own) && tables[Root] == pml4t && vaddr / 0x1000 < 511 * 0x800_0000 && paddr < 0x10_0000_0000_0000
      modifies this`pages, this`pool, this`tables, this`leaves
      ensures Building(own) && Untouched(old(pages), pages, own) && tables[Root] == pml4t
      ensures s == Success ==> paddr % 0x1000 == 0 && leaves == old(leaves)[vaddr / 0x1000 := Leaf(paddr, true)]
      ensures s == Aborted ==> paddr % 0x1000 != 0 || vaddr % 0x1000 != 0
      ensures s == OutOfResources ==> pool == []
      ensures s != NoRoom
    {
      hide Tree;
      if paddr % 0x1000 != 0 {
        return Aborted;
      }
      if vaddr % 0x1000 != 0 {
        return Aborted;
      }
      ghost var n := vaddr / 0x1000;
      SourceIndices(vaddr);
      TopSlot(n);
      TableIndices(n);
      var ptIndex := vaddr / 0x1000 % 512;
      var pdIndex := vaddr / 0x20_0000 % 512;
      var pdptIndex := vaddr / 0x4000_0000 % 512;
      var pml4tIndex := vaddr / 0x80_0000_0000 % 512;
      var pdpt, pd, pt;
      s, pdpt := GetChildEntry(pml4t, pml4tIndex, Root, own);
      if s != Success {
        return;
      }
      s, pd := GetChildEntry(pdpt, pdptIndex, Table(3, n), own);
      if s != Success {
        return;
      }
      s, pt := GetChildEntry(pd, pdIndex, Table(2, n), own);
      if s != Success {
        return;
      }
      AlignedLowBits(paddr);
      TablePage(pages, tables, leaves, Table(1, n));
      ghost var pages0 := pages;
      pages := WriteEntry(pages, pt, ptIndex, SetLowBits(paddr));
      SetLeaf(pages0, tables, leaves, n, Leaf(paddr, true), paddr + 3, pages);
      leaves := leaves[n := Leaf(paddr, true)];
    }

    /** Maps a region from its start hole on. */
    method BuildPteForRegion(r: Region, root: nat, ghost own: set<nat>) returns (s: Status)
      requires Building(own) && Placed(r) && tables[Root] == root
      modifies this`pages, this`pool, this`tables, this`leaves
      ensures Building(own) && Untouched(old(pages), pages, own) && tables[Root] == root
      ensures s == Success ==> Aligned(r) && leaves == old(leaves) + RegionMap(r, r.length)
      ensures s == Aborted ==> !Aligned(r)
      ensures s == OutOfResources ==> pool == []
      ensures s != NoRoom
    {
      hide Tree, PoolOk;
      var cur := r.startHole / 0x1000 * 0x1000;
      if r.base % 0x1000 != 0 || r.length % 0x1000 != 0 || r.src % 0x1000 != 0 {
        return Aborted;
      }
      ghost var leaves0 := leaves;
      HoleAligned(r);
      assert leaves == leaves0 + RegionMap(r, cur);
      while cur < r.length
        invariant HolePage(r) <= cur && cur % 0x1000 == 0 && (cur <= r.length || cur == HolePage(r))
        invariant Building(own) && Untouched(old(pages), pages, own) && tables[Root] == root
        invariant leaves == leaves0 + RegionMap(r, cur)
      {
        RegionStep(r, cur);
        s := BuildPteForPage(r.src + cur, r.base + cur, root, own);
        if s != Success {
          return;
        }
        cur := cur + 0x1000;
      }
      s := Success;
    }

    /**
      Builds the tables of the whole list.  On success every region was page-aligned, and
      the hardware walk of any address outside the recursive slot gives what the region
      list calls for; only pages that were free to take were written.
     */
    method BuildPageTables(ghost own: set<nat>) returns (s: Status, root: nat)
      requires AllPlaced(entries) && PoolOk(pool, map[]) && forall i :: 0 <= i < |pool| ==> pool[i] in own
      modifies this`pages, this`pool, this`tables, this`leaves
      ensures Untouched(old(pages), pages, own)
      ensures s == Success ==>
        && Tree(pages, tables, PageMap(entries)) && tables[Root] == root && SelfMapped(pages, root)
        && (forall i :: 0 <= i < |entries| ==> Aligned(entries[i]))
      ensures s == Success && Disjoint(entries) ==>
        forall v: nat :: v / 0x1000 < 511 * 0x800_0000 ==> Walk(pages, root, v) == Wanted(entries, v)
      ensures s == Aborted ==> exists i :: 0 <= i < |entries| && !Aligned(entries[i])
      ensures s == OutOfResources ==> pool == []
      ensures s != NoRoom
    {
      hide Tree, Walk, Wanted, PageMap;
      s, root := NewRoot(own);
      if s != Success {
        return;
      }
      s := MapRegions(root, own);
      if s != Success {
        return;
      }
      MapTables(root, own);
      if Disjoint(entries) {
        AllWalks(entries, pages, tables);
      }
    }

    /** An empty top table. */
    method NewRoot(ghost own: set<nat>) returns (s: Status, root: nat)
      requires PoolOk(pool, map[]) && forall i :: 0 <= i < |pool| ==> pool[i] in own
      modifies this`pages, this`pool, this`tables, this`leaves
      ensures Untouched(old(pages), pages, own)
      ensures s == Success || (s == OutOfResources && pool == [])
      ensures s == Success ==> Building(own) && tables[Root] == root && leaves == map[]
    {
      hide Tree;
      ghost var pool0 := pool;
      s, root := AllocCode();
      if s == Success {
        PoolNext(pool0, map[], Root);
        pages := pages[root := Zeros()];
        tables, leaves := map[Root := root], map[];
        EmptyTree(pages, root);
      }
    }

    /** All regions, one after the other. */
    method MapRegions(root: nat, ghost own: set<nat>) returns (s: Status)
      requires AllPlaced(entries) && Building(own) && tables[Root] == root && leaves == map[]
      modifies this`pages, this`pool, this`tables, this`leaves
      ensures Building(own) && Untouched(old(pages), pages, own) && tables[Root] == root
      ensures s == Success ==> leaves == PageMap(entries) && forall i :: 0 <= i < |entries| ==> Aligned(entries[i])
      ensures s == Aborted ==> exists i :: 0 <= i < |entries| && !Aligned(entries[i])
      ensures s == OutOfResources ==> pool == []
      ensures s != NoRoom
    {
      hide Tree, PoolOk, Aligned, RegionMap;
      var i := 0;
      while i < |entries|
        invariant 0 <= i <= |entries|
        invariant Building(own) && Untouched(old(pages), pages, own) && tables[Root] == root
        invariant leaves == PageMap(entries[..i])
        invariant forall j :: 0 <= j < i ==> Aligned(entries[j])
      {
        s := BuildPteForRegion(entries[i], root, own);
        if s != Success {
          return;
        }
        assert entries[..i + 1][..i] == entries[..i];
        i := i + 1;
      }
      assert entries[..i] == entries;
      s := Success;
    }

    /** The recursive entry. */
    method MapTables(root: nat, ghost own: set<nat>)
      requires Building(own) && tables[Root] == root
      modifies this`pages
      ensures Tree(pages, tables, leaves) && SelfMapped(pages, root) && Untouched(old(pages), pages, own)
    {
      hide Tree;
      TablePage(pages, tables, leaves, Root);
      AlignedLowBits(root);
      ghost var pages0 := pages;
      pages := WriteEntry(pages, root, 511, SetLowBits(root));
      SelfMap(pages0, tables, leaves, pages);
    }
  }

  lemma AllWalks(entries: seq<Region>, pages: Pages, tables: Tables)
    requires AllPlaced(entries) && Disjoint(entries) && forall i :: 0 <= i < |entries| ==> Aligned(entries[i])
    requires Root in tables && Tree(pages, tables, PageMap(entries))
    ensures forall v: nat :: v / 0x1000 < 511 * 0x800_0000 ==> Walk(pages, tables[Root], v) == Wanted(entries, v)
  {
    hide Tree, Walk, Wanted, PageMap, Aligned, AllPlaced, Disjoint;
    forall v: nat | v / 0x1000 < 511 * 0x800_0000 ensures Walk(pages, tables[Root], v) == Wanted(entries, v) {
      BuiltWalk(entries, pages, tables, v);
    }
  }

  lemma PoolNext(pool: seq<nat>, tables: Tables, c: Node)
    requires pool != [] && PoolOk(pool, tables)
    ensures PageAligned(pool[0]) && pool[0] !in tables.Values
    ensures PoolOk(pool[1..], tables[c := pool[0]])
  {
    var t := tables[c := pool[0]];
    assert t.Values <= tables.Values + {pool[0]};
  }

  /** The next page of a region: where it lies, and what it adds to the map. */
  lemma RegionStep(r: Region, cur: nat)
    requires Aligned(r) && Placed(r) && HolePage(r) <= cur < r.length && cur % 0x1000 == 0
    ensures var n := (r.base + cur) / 0x1000;
            && n < 511 * 0x800_0000 && r.src + cur < 0x10_0000_0000_0000
            && RegionMap(r, cur + 0x1000) == RegionMap(r, cur)[n := Leaf(r.src + cur, true)]
    ensures (r.src + cur) % 0x1000 == 0 && (r.base + cur) % 0x1000 == 0
    ensures cur + 0x1000 <= r.length && (cur + 0x1000) % 0x1000 == 0
  {
    PageNumber(r.base, cur);
    PageNumber(r.src, cur);
    MultipleBelow(cur, r.length);
  }

  /**
    After a successful build over disjoint regions: an address is translated exactly as
    the list says, and otherwise not at all.
   */
  lemma BuiltWalk(entries: seq<Region>, pages: Pages, tables: Tables, v: nat)
    requires AllPlaced(entries) && Disjoint(entries)
    requires forall i :: 0 <= i < |entries| ==> Aligned(entries[i])
    requires Tree(pages, tables, PageMap(entries)) && Root in tables && v / 0x1000 < 511 * 0x800_0000
    ensures Walk(pages, tables[Root], v) == Wanted(entries, v)
  {
    hide Tree, Walk, Wanted;
    WalkIsLookup(pages, tables, PageMap(entries), v);
    PageMapIsWanted(entries, v);
  }

  /**
    In the built tables every mapped page can be remapped through the recursive slot: the
    window address of the page leads to the word that translates it.
   */
  lemma BuiltWindow(entries: seq<Region>, pages: Pages, tables: Tables, n: nat)
    requires Tree(pages, tables, PageMap(entries)) && Root in tables && SelfMapped(pages, tables[Root])
    requires n in PageMap(entries) && n < 511 * 0x800_0000
    ensures Table(1, n) in tables
    ensures Walk(pages, tables[Root], EntryWindow(n)) == Physical(tables[Table(1, n)] + Index(1, n) * 8, true)
    ensures PointsTo(EntryAt(pages, tables[Table(1, n)], Index(1, n)), PageMap(entries)[n].frame, PageMap(entries)[n].writable)
    ensures Walk(pages, tables[Root], 0xffff_ffff_f000) == Physical(tables[Root], true)
  {
    hide Walk, EntryWindow, PageMap, SelfMapped;
    WindowReachesEntry(pages, tables, PageMap(entries), n);
    StepLeaf(pages, tables, PageMap(entries), n);
    TopWindowIsRoot(pages, tables[Root]);
  }

  // -------------------------------------------------------------------- calls that go wrong

  /** A region up to the last page: nothing fits, yet a range that wraps is handed out. */
  method PastTheTop() returns (s: Status, base: nat)
    ensures s == Success && WORD <= base + 0x2000
    ensures var entries := [Region(START, WORD - START - 0x1000, 0, 0)]; forall b :: !Fits(entries, 0x2000, b)
  {
    var loader := new Loader(2, map[], []);
    var r := loader.Add(START, WORD - START - 0x1000, 0);
    var entries := loader.entries;
    assert entries == [Region(START, WORD - START - 0x1000, 0, 0)];
    TopRegion();
    s, base := loader.AllocateAny(0x2000, 0);
  }

  /** A region up to the very end: nothing fits, yet the search goes back and hands out address 0. */
  method BelowTheStart() returns (s: Status, base: nat)
    ensures s == Success && base == 0
    ensures var entries := [Region(START, WORD - START, 0, 0)]; forall b :: !Fits(entries, 0x1000, b)
  {
    var loader := new Loader(2, map[], []);
    var r := loader.Add(START, WORD - START, 0);
    var entries := loader.entries;
    assert entries == [Region(START, WORD - START, 0, 0)];
    EndRegion();
    s, base := loader.AllocateAny(0x1000, 0);
  }

  /** A length whose very first sum wraps: the empty list hands it out at the first base. */
  method FirstSumWraps() returns (s: Status, base: nat)
    ensures s == Success && WORD <= base + (WORD - 1)
  {
    var loader := new Loader(1, map[], []);
    EmptyList();
    s, base := loader.AllocateAny(WORD - 1, 0);
  }

  lemma TopRegion()
    ensures var entries := [Region(START, WORD - START - 0x1000, 0, 0)];
            AllProper(entries) && Result(entries, 0x2000) == Found(WORD - 0x1000) && !Sane(entries, 0x2000)
  {
    var entries := [Region(START, WORD - START - 0x1000, 0, 0)];
    var end := START + (WORD - START - 0x1000);
    assert end == 0xf_ffff_ffff_ffff * 0x1000;
    assert RoundUp(end) == end;
    assert FirstHit(entries, START, 0x2000) == Some(0);
    assert Ascent(entries, 0x2000, end) == Found(end);
    RightExactly(entries, 0x2000);
  }

  lemma EndRegion()
    ensures var entries := [Region(START, WORD - START, 0, 0)];
            AllProper(entries) && Result(entries, 0x1000) == Found(0) && !Sane(entries, 0x1000)
  {
    var entries := [Region(START, WORD - START, 0, 0)];
    assert PageAfter(entries[0]) == 0;
    assert FirstHit(entries, START, 0x1000) == Some(0);
    assert FirstHit(entries, 0, 0x1000) == None;
    assert Ascent(entries, 0x1000, START) == Running;
  }

  lemma EmptyList()
    ensures AllProper([]) && Result([], WORD - 1) == Found(START) && !Sane([], WORD - 1)
  {
    assert !Hit([], START, WORD - 1);
  }
}
