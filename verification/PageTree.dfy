/**
  Four-level x86-64 page tables (Intel SDM Volume 3A, section 4.5).  Physical memory is a map from
  page addresses to the 512 entries a page holds.  The hardware walk is related to a
  plain map from virtual page numbers to frames through the tree of table pages.
 */
module PageTree {

  // A page is 0x1000 bytes or 512 entries; 0x800_0000 virtual pages lie below one entry of the
  // top table; physical addresses are below 2^52 = 0x10_0000_0000_0000.

  type Pages = map<nat, seq<nat>>

  /** Where an address leads, and whether it may be written to. */
  datatype Translation = NotPresent | Physical(addr: nat, writable: bool)

  /** A table: its level (4 is the top) and the virtual page number bits above it. */
  datatype Node = Node(level: nat, prefix: nat)

  /** What a virtual page is mapped to. */
  datatype Leaf = Leaf(frame: nat, writable: bool)

  type Tables = map<Node, nat>
  type Leaves = map<nat, Leaf>

  const Root := Node(4, 0)

  function Zeros(): (z: seq<nat>)
    ensures |z| == 512 && forall i :: 0 <= i < 512 ==> z[i] == 0
  {
    seq(512, _ => 0)
  }

  // ------------------------------------------------------------------ the hardware

  predicate Present(e: nat) {
    e % 2 == 1
  }

  predicate Writable(e: nat) {
    e / 2 % 2 == 1
  }

  predicate PageSize(e: nat) {
    e / 128 % 2 == 1
  }

  /** Bits 51 to 12. */
  function Address(e: nat): nat {
    e % 0x10_0000_0000_0000 / 0x1000 * 0x1000
  }

  function EntryAt(pages: Pages, table: nat, i: nat): nat {
    if table in pages && i < |pages[table]| then pages[table][i] else 0
  }

  /** Storing a 64-bit word into a table page. */
  function WriteEntry(pages: Pages, table: nat, i: nat, e: nat): Pages
    requires table in pages && i < |pages[table]|
  {
    var updated: seq<nat> := pages[table][i := e];
    pages[table := updated]
  }

  /** The table index used at a level for virtual page `n`. */
  function Index(level: nat, n: nat): (i: nat)
    ensures i < 512
  {
    if level == 1 then n % 512
    else if level == 2 then n / 512 % 512
    else if level == 3 then n / 512 / 512 % 512
    else n / 512 / 512 / 512 % 512
  }

  /**
    The walk the processor makes for virtual address `v`, from the top table `root`. A write is
    allowed if every entry on the way allows it (section 4.6).
   */
  function Walk(pages: Pages, root: nat, v: nat): Translation {
    var n := v / 0x1000;
    WalkBy(pages, root, Index(4, n), Index(3, n), Index(2, n), Index(1, n), v)
  }

  function WalkBy(pages: Pages, root: nat, i4: nat, i3: nat, i2: nat, i1: nat, v: nat): Translation {
    var e4 := EntryAt(pages, root, i4);
    if !Present(e4) then NotPresent else
    var e3 := EntryAt(pages, Address(e4), i3);
    if !Present(e3) then NotPresent else
    var w3 := Writable(e4) && Writable(e3);
    if PageSize(e3) then Physical(Address(e3) + v % 0x4000_0000, w3) else
    var e2 := EntryAt(pages, Address(e3), i2);
    if !Present(e2) then NotPresent else
    var w2 := w3 && Writable(e2);
    if PageSize(e2) then Physical(Address(e2) + v % 0x20_0000, w2) else
    var e1 := EntryAt(pages, Address(e2), i1);
    if !Present(e1) then NotPresent else Physical(Address(e1) + v % 0x1000, w2 && Writable(e1))
  }

  // --------------------------------------------------------------------- the tree

  /** The table of the given level that is responsible for virtual page `n`. */
  function Table(level: nat, n: nat): Node {
    if level == 1 then Node(1, n / 512)
    else if level == 2 then Node(2, n / 512 / 512)
    else if level == 3 then Node(3, n / 512 / 512 / 512)
    else Root
  }

  function Child(t: Node, i: nat): Node {
    Node(if t.level > 0 then t.level - 1 else 0, t.prefix * 512 + i)
  }

  function Parent(t: Node): Node {
    Node(t.level + 1, if t.level == 3 then 0 else t.prefix / 512)
  }

  predicate PageAligned(a: nat) {
    a % 0x1000 == 0 && a < 0x10_0000_0000_0000
  }

  /** `e` is the address `a` with the present bit, and the writable bit if `w`. */
  predicate PointsTo(e: nat, a: nat, w: bool) {
    PageAligned(a) && e == a + if w then 3 else 1
  }

  ghost predicate Shape(tables: Tables, leaves: Leaves) {
    && Root in tables
    && (forall t :: t in tables ==>
         1 <= t.level <= 4 && (t.level == 4 ==> t == Root) && (t.level == 3 ==> t.prefix < 511)
         && (t.level < 4 ==> Parent(t) in tables))
    && (forall n :: n in leaves ==> Table(1, n) in tables && PageAligned(leaves[n].frame))
  }

  ghost predicate Separate(pages: Pages, tables: Tables) {
    && (forall t :: t in tables ==> PageAligned(tables[t]) && tables[t] in pages && |pages[tables[t]]| == 512)
    && (forall t, u :: t in tables && u in tables && t != u ==> tables[t] != tables[u])
  }

  /** Entry `i` of an upper table points to the child table, for writing too, if there is one, and is 0 if not. */
  ghost predicate InnerEntry(e: nat, tables: Tables, t: Node, i: nat) {
    if Child(t, i) in tables then PointsTo(e, tables[Child(t, i)], true) else e == 0
  }

  ghost predicate LeafEntry(e: nat, leaves: Leaves, n: nat) {
    if n in leaves then PointsTo(e, leaves[n].frame, leaves[n].writable) else e == 0
  }

  ghost predicate Inner(pages: Pages, tables: Tables)
    requires Separate(pages, tables)
  {
    forall t, i :: t in tables && 2 <= t.level <= 4 && 0 <= i < 512 && !(t == Root && i == 511) ==>
      InnerEntry(pages[tables[t]][i], tables, t, i)
  }

  ghost predicate Bottom(pages: Pages, tables: Tables, leaves: Leaves)
    requires Separate(pages, tables)
  {
    forall t, i :: t in tables && t.level == 1 && 0 <= i < 512 ==>
      LeafEntry(pages[tables[t]][i], leaves, t.prefix * 512 + i)
  }

  /** The pages in `tables` form a tree of tables whose bottom level is the map `leaves`. */
  ghost predicate Tree(pages: Pages, tables: Tables, leaves: Leaves) {
    Shape(tables, leaves) && Separate(pages, tables) && Inner(pages, tables) && Bottom(pages, tables, leaves)
  }

  /** A table of the tree is a page of memory. */
  lemma TablePage(pages: Pages, tables: Tables, leaves: Leaves, t: Node)
    requires Tree(pages, tables, leaves) && t in tables
    ensures tables[t] in pages && |pages[tables[t]]| == 512 && PageAligned(tables[t])
  {
  }

  /** An upper entry is present exactly when the child table exists, and then points to it. */
  lemma InnerEntryAt(pages: Pages, tables: Tables, leaves: Leaves, t: Node, i: nat)
    requires Tree(pages, tables, leaves)
    requires t in tables && 2 <= t.level <= 4 && i < 512 && !(t == Root && i == 511)
    ensures tables[t] in pages && |pages[tables[t]]| == 512
    ensures var e := pages[tables[t]][i];
            if Child(t, i) in tables then PointsTo(e, tables[Child(t, i)], true) && Present(e) && !PageSize(e)
            else e == 0
  {
    var e := pages[tables[t]][i];
    assert InnerEntry(e, tables, t, i);
    if Child(t, i) in tables {
      PointsToFields(e, tables[Child(t, i)], true);
    }
  }

  /** A bottom entry is present exactly when its page is mapped, and then points to the frame. */
  lemma LeafEntryAt(pages: Pages, tables: Tables, leaves: Leaves, n: nat)
    requires Tree(pages, tables, leaves) && Table(1, n) in tables
    ensures var t := tables[Table(1, n)];
            && t in pages && |pages[t]| == 512 && Index(1, n) == n % 512
            && var e := pages[t][n % 512];
               if n in leaves then PointsTo(e, leaves[n].frame, leaves[n].writable) && Present(e) && PageAligned(leaves[n].frame) else e == 0
  {
    StepLeaf(pages, tables, leaves, n);
  }

  // -------------------------------------------------------- walking is looking up

  lemma PointsToFields(e: nat, a: nat, w: bool)
    requires PointsTo(e, a, w)
    ensures Present(e) && !PageSize(e) && Address(e) == a && Writable(e) == w
  {
    FlagBits(a / 0x1000, e);
    WriteBit(0x400 * (a / 0x1000), w);
    assert e < 0x10_0000_0000_0000;
    SmallAddress(e);
  }

  /** The address in an entry. */
  lemma ChildPage(e: nat, a: nat, w: bool)
    requires PointsTo(e, a, w)
    ensures e / 0x1000 * 0x1000 == a
  {
    FlagBits(a / 0x1000, e);
  }

  lemma FlagBits(k: nat, e: nat)
    requires e == k * 0x1000 + 1 || e == k * 0x1000 + 3
    ensures e % 2 == 1 && e / 128 % 2 == 0 && e / 0x1000 == k
  {
    Odd(if e == k * 0x1000 + 1 then 2048 * k else 2048 * k + 1);
    By128(32 * k, e);
    Even(16 * k);
    ByPage(k, e);
  }

  lemma WriteBit(m: nat, w: bool)
    ensures (4 * m + if w then 3 else 1) / 2 % 2 == if w then 1 else 0
  {
  }

  lemma Odd(x: nat)
    ensures (2 * x + 1) % 2 == 1
  {
  }

  lemma By128(m: nat, e: nat)
    requires e == m * 128 + 1 || e == m * 128 + 3
    ensures e / 128 == m
  {
  }

  lemma ByPage(m: nat, e: nat)
    requires e == m * 0x1000 + 1 || e == m * 0x1000 + 3
    ensures e / 0x1000 == m
  {
  }

  lemma Even(x: nat)
    ensures 2 * x % 2 == 0
  {
  }

  lemma SmallAddress(e: nat)
    requires e < 0x10_0000_0000_0000
    ensures Address(e) == e / 0x1000 * 0x1000
  {
    assert e % 0x10_0000_0000_0000 == e;
  }

  lemma TableIndices(n: nat)
    requires n / 512 / 512 / 512 < 512
    ensures Child(Root, Index(4, n)) == Table(3, n) && Index(4, n) == n / 512 / 512 / 512
    ensures Child(Table(3, n), Index(3, n)) == Table(2, n)
    ensures Child(Table(2, n), Index(2, n)) == Table(1, n)
    ensures Table(1, n).prefix * 512 + Index(1, n) == n
    ensures Parent(Table(3, n)) == Root && Parent(Table(2, n)) == Table(3, n) && Parent(Table(1, n)) == Table(2, n)
  {
  }

  /**
    The hardware walk of a tree gives exactly the frame the leaf map holds, for writing exactly
    if the map says so, and nothing for a page that is not in it.
   */
  lemma WalkIsLookup(pages: Pages, tables: Tables, leaves: Leaves, v: nat)
    requires Tree(pages, tables, leaves) && Root in tables && v / 0x1000 < 511 * 0x800_0000
    ensures var n := v / 0x1000;
            Walk(pages, tables[Root], v) == if n in leaves then Physical(leaves[n].frame + v % 0x1000, leaves[n].writable) else NotPresent
  {
    hide Index, Table, Child, WalkBy, WalkLast, Shape, Separate, Inner, Bottom;
    var n := v / 0x1000;
    TopSlot(n);
    TableIndices(n);
    Ancestors(tables, leaves, n);
    Descend(pages, tables, Table(3, n), Table(2, n), Table(1, n), Index(4, n), Index(3, n), Index(2, n), Index(1, n), v);
    LastStep(pages, tables, leaves, n, v);
  }

  lemma LastStep(pages: Pages, tables: Tables, leaves: Leaves, n: nat, v: nat)
    requires Separate(pages, tables) && Bottom(pages, tables, leaves) && (n in leaves ==> Table(1, n) in tables)
    ensures (if Table(1, n) in tables then WalkLast(pages, tables[Table(1, n)], Index(1, n), v) else NotPresent)
         == (if n in leaves then Physical(leaves[n].frame + v % 0x1000, leaves[n].writable) else NotPresent)
  {
    if Table(1, n) in tables {
      StepLeaf(pages, tables, leaves, n);
    }
  }

  lemma Ancestors(tables: Tables, leaves: Leaves, n: nat)
    requires Shape(tables, leaves) && n / 512 / 512 / 512 < 512
    ensures n in leaves ==> Table(1, n) in tables
    ensures Table(1, n) in tables ==> Table(2, n) in tables
    ensures Table(2, n) in tables ==> Table(3, n) in tables
  {
    TableIndices(n);
  }

  /** The last step of a walk, in the bottom table. */
  function WalkLast(pages: Pages, table: nat, i1: nat, v: nat): Translation {
    var e1 := EntryAt(pages, table, i1);
    if !Present(e1) then NotPresent else Physical(Address(e1) + v % 0x1000, Writable(e1))
  }

  /** A walk follows the tree down to the bottom table, if there is one. */
  lemma Descend(pages: Pages, tables: Tables, t3: Node, t2: Node, t1: Node, i4: nat, i3: nat, i2: nat, i1: nat, v: nat)
    requires Separate(pages, tables) && Inner(pages, tables) && Root in tables
    requires i4 < 511 && i3 < 512 && i2 < 512
    requires t3 == Child(Root, i4) && t2 == Child(t3, i3) && t1 == Child(t2, i2)
    requires (t1 in tables ==> t2 in tables) && (t2 in tables ==> t3 in tables)
    ensures WalkBy(pages, tables[Root], i4, i3, i2, i1, v) ==
            if t1 in tables then WalkLast(pages, tables[t1], i1, v) else NotPresent
  {
    Step(pages, tables, Root, i4);
    if t3 in tables {
      Step(pages, tables, t3, i3);
      if t2 in tables {
        Step(pages, tables, t2, i2);
      }
    }
  }

  /** Entering through the recursive slot, a walk stops one level earlier. */
  lemma DescendSelf(pages: Pages, tables: Tables, t3: Node, t2: Node, t1: Node, i4: nat, i3: nat, i2: nat, v: nat)
    requires Separate(pages, tables) && Inner(pages, tables) && Root in tables && SelfMapped(pages, tables[Root])
    requires i4 < 511 && i3 < 512 && i2 < 512
    requires t3 == Child(Root, i4) && t2 == Child(t3, i3) && t1 == Child(t2, i2)
    requires (t1 in tables ==> t2 in tables) && (t2 in tables ==> t3 in tables)
    ensures WalkBy(pages, tables[Root], 511, i4, i3, i2, v) ==
            if t1 in tables then Physical(tables[t1] + v % 0x1000, true) else NotPresent
  {
    PointsToFields(pages[tables[Root]][511], tables[Root], true);
    Step(pages, tables, Root, i4);
    if t3 in tables {
      Step(pages, tables, t3, i3);
      if t2 in tables {
        Step(pages, tables, t2, i2);
      }
    }
  }

  lemma TopSlot(n: nat)
    requires n < 511 * 0x800_0000
    ensures n / 512 / 512 / 512 < 511
  {
  }

  lemma Step(pages: Pages, tables: Tables, t: Node, i: nat)
    requires Separate(pages, tables) && Inner(pages, tables)
    requires t in tables && 2 <= t.level <= 4 && i < 512 && !(t == Root && i == 511)
    ensures var e := EntryAt(pages, tables[t], i);
            if Child(t, i) in tables then Present(e) && !PageSize(e) && Address(e) == tables[Child(t, i)] && Writable(e) else e == 0
  {
    var e := pages[tables[t]][i];
    assert InnerEntry(e, tables, t, i);
    if Child(t, i) in tables {
      PointsToFields(e, tables[Child(t, i)], true);
    }
  }

  lemma StepLeaf(pages: Pages, tables: Tables, leaves: Leaves, n: nat)
    requires Separate(pages, tables) && Bottom(pages, tables, leaves) && Table(1, n) in tables
    ensures var e := EntryAt(pages, tables[Table(1, n)], Index(1, n));
            if n in leaves then
              PointsTo(e, leaves[n].frame, leaves[n].writable) && Present(e) && Address(e) == leaves[n].frame && Writable(e) == leaves[n].writable
            else e == 0
  {
    var e := pages[tables[Table(1, n)]][Index(1, n)];
    assert n / 512 * 512 + n % 512 == n;
    assert LeafEntry(e, leaves, n);
    if n in leaves {
      PointsToFields(e, leaves[n].frame, leaves[n].writable);
    }
  }

  /** The indices the loaders shift and mask out of an address. */
  lemma SourceIndices(v: nat)
    ensures v / 0x20_0000 % 512 == Index(2, v / 0x1000)
    ensures v / 0x4000_0000 % 512 == Index(3, v / 0x1000)
    ensures v / 0x80_0000_0000 % 512 == Index(4, v / 0x1000)
  {
    var n := v / 0x1000;
    assert n / 512 == v / 0x20_0000;
    assert n / 512 / 512 == v / 0x4000_0000;
    assert n / 512 / 512 / 512 == v / 0x80_0000_0000;
  }

  // --------------------------------------------------------- the recursive top slot

  /** The address through which the entry of virtual page `n` is visible. */
  function EntryWindow(n: nat): nat {
    (511 * 0x800_0000 + n / 512) * 0x1000 + n % 512 * 8
  }

  ghost predicate SelfMapped(pages: Pages, root: nat) {
    root in pages && |pages[root]| == 512 && PointsTo(pages[root][511], root, true)
  }

  lemma WindowIndices(n: nat)
    requires n < 511 * 0x800_0000
    ensures var m := EntryWindow(n) / 0x1000;
            && Index(4, m) == 511 && Index(3, m) == Index(4, n) && Index(2, m) == Index(3, n) && Index(1, m) == Index(2, n)
    ensures EntryWindow(n) % 0x1000 == Index(1, n) * 8
  {
    var m := EntryWindow(n) / 0x1000;
    assert m == 511 * 0x800_0000 + n / 512;
    assert m / 512 == 511 * (0x800_0000 / 512) + n / 512 / 512;
    assert m / 512 / 512 == 511 * (0x800_0000 / 512 / 512) + n / 512 / 512 / 512;
    assert m / 512 / 512 / 512 == 511;
  }

  /**
    Walking the window address of page `n` reaches the very table word that maps `n`,
    exactly when the bottom table for `n` exists.
   */
  lemma WindowReachesEntry(pages: Pages, tables: Tables, leaves: Leaves, n: nat)
    requires Tree(pages, tables, leaves) && Root in tables && SelfMapped(pages, tables[Root]) && n < 511 * 0x800_0000
    ensures Walk(pages, tables[Root], EntryWindow(n)) ==
            if Table(1, n) in tables then Physical(tables[Table(1, n)] + Index(1, n) * 8, true) else NotPresent
  {
    hide Index, Table, Child, WalkBy, Shape, Separate, Inner, Bottom, SelfMapped, EntryWindow;
    WindowIndices(n);
    TopSlot(n);
    TableIndices(n);
    Ancestors(tables, leaves, n);
    DescendSelf(pages, tables, Table(3, n), Table(2, n), Table(1, n), Index(4, n), Index(3, n), Index(2, n), EntryWindow(n));
  }

  /** The highest page of the 48-bit space is the top table itself (`VA_PML4T`). */
  lemma TopWindowIsRoot(pages: Pages, root: nat)
    requires SelfMapped(pages, root)
    ensures Walk(pages, root, 0xffff_ffff_f000) == Physical(root, true)
  {
    var n := 0xffff_ffff_f000 / 0x1000;
    assert n == 0xf_ffff_ffff;
    assert Index(4, n) == 511 && Index(3, n) == 511 && Index(2, n) == 511 && Index(1, n) == 511;
    PointsToFields(pages[root][511], root, true);
  }

  // ------------------------------------------------------------------- growing it

  /** Hanging a zeroed page below entry `i` of table `t`. */
  lemma AddTable(pages: Pages, tables: Tables, leaves: Leaves, t: Node, i: nat, page: nat, pages': Pages)
    requires Tree(pages, tables, leaves)
    requires t in tables && 2 <= t.level <= 4 && i < 512 && !(t == Root && i == 511) && Child(t, i) !in tables
    requires PageAligned(page) && page !in tables.Values
    requires pages' == WriteEntry(pages[page := Zeros()], tables[t], i, page + 3)
    ensures Tree(pages', tables[Child(t, i) := page], leaves)
  {
    AddShape(tables, leaves, t, i, page);
    AddSeparate(pages, tables, t, i, page, pages');
    AddInner(pages, tables, leaves, t, i, page, pages');
    AddBottom(pages, tables, leaves, t, i, page, pages');
  }

  lemma AddSeparate(pages: Pages, tables: Tables, t: Node, i: nat, page: nat, pages': Pages)
    requires Separate(pages, tables) && t in tables && i < 512 && Child(t, i) !in tables
    requires PageAligned(page) && page !in tables.Values
    requires pages' == WriteEntry(pages[page := Zeros()], tables[t], i, page + 3)
    ensures Separate(pages', tables[Child(t, i) := page])
    ensures pages'[page] == Zeros()
    ensures forall u :: u in tables && u != t ==> pages'[tables[u]] == pages[tables[u]]
  {
    forall u | u in tables ensures tables[u] != page { assert tables[u] in tables.Values; }
  }

  lemma AddInner(pages: Pages, tables: Tables, leaves: Leaves, t: Node, i: nat, page: nat, pages': Pages)
    requires Shape(tables, leaves) && Separate(pages, tables) && Inner(pages, tables)
    requires t in tables && 2 <= t.level <= 4 && i < 512 && !(t == Root && i == 511) && Child(t, i) !in tables
    requires PageAligned(page) && page !in tables.Values
    requires pages' == WriteEntry(pages[page := Zeros()], tables[t], i, page + 3)
    requires Separate(pages', tables[Child(t, i) := page])
    ensures Inner(pages', tables[Child(t, i) := page])
  {
    hide Shape;
    var c := Child(t, i);
    var tables' := tables[c := page];
    AddSeparate(pages, tables, t, i, page, pages');
    forall u, j | u in tables' && 2 <= u.level <= 4 && 0 <= j < 512 && !(u == Root && j == 511)
      ensures InnerEntry(pages'[tables'[u]][j], tables', u, j)
    {
      if u == c {
        NoOrphan(tables, leaves, c, j);
      } else {
        assert InnerEntry(pages[tables[u]][j], tables, u, j);
        if Child(u, j) == c { SameParent(u, j, t, i); }
      }
    }
  }

  lemma AddBottom(pages: Pages, tables: Tables, leaves: Leaves, t: Node, i: nat, page: nat, pages': Pages)
    requires Shape(tables, leaves) && Separate(pages, tables) && Bottom(pages, tables, leaves)
    requires t in tables && 2 <= t.level <= 4 && i < 512 && Child(t, i) !in tables
    requires PageAligned(page) && page !in tables.Values
    requires pages' == WriteEntry(pages[page := Zeros()], tables[t], i, page + 3)
    requires Separate(pages', tables[Child(t, i) := page])
    ensures Bottom(pages', tables[Child(t, i) := page], leaves)
  {
    hide Shape;
    var c := Child(t, i);
    var tables' := tables[c := page];
    AddSeparate(pages, tables, t, i, page, pages');
    forall u, j | u in tables' && u.level == 1 && 0 <= j < 512
      ensures LeafEntry(pages'[tables'[u]][j], leaves, u.prefix * 512 + j)
    {
      if u == c {
        NoLeaf(tables, leaves, c, j);
      } else {
        KeptBottom(pages, tables, leaves, u, j, pages'[tables[u]]);
      }
    }
  }

  lemma KeptBottom(pages: Pages, tables: Tables, leaves: Leaves, u: Node, j: nat, page: seq<nat>)
    requires Separate(pages, tables) && Bottom(pages, tables, leaves)
    requires u in tables && u.level == 1 && j < 512 && page == pages[tables[u]]
    ensures LeafEntry(page[j], leaves, u.prefix * 512 + j)
  {
  }

  lemma AddShape(tables: Tables, leaves: Leaves, t: Node, i: nat, page: nat)
    requires Shape(tables, leaves)
    requires t in tables && 2 <= t.level <= 4 && i < 512 && !(t == Root && i == 511)
    ensures Parent(Child(t, i)) == t
    ensures Shape(tables[Child(t, i) := page], leaves)
  {
  }

  lemma SameParent(u: Node, j: nat, t: Node, i: nat)
    requires u.level > 0 && t.level > 0 && i < 512 && j < 512 && Child(u, j) == Child(t, i)
    ensures u == t && i == j
  {
  }

  /** Below a table that does not exist there are no tables and no leaves. */
  lemma NoOrphan(tables: Tables, leaves: Leaves, c: Node, j: nat)
    requires Shape(tables, leaves) && c !in tables && 2 <= c.level <= 3 && j < 512
    ensures Child(c, j) !in tables && Child(c, j) != c
  {
    assert Parent(Child(c, j)) == c;
  }

  lemma NoLeaf(tables: Tables, leaves: Leaves, c: Node, j: nat)
    requires Shape(tables, leaves) && c !in tables && c.level == 1 && j < 512
    ensures c.prefix * 512 + j !in leaves
  {
    assert Table(1, c.prefix * 512 + j) == c;
  }

  /** Writing the bottom entry of virtual page `n`. */
  lemma SetLeaf(pages: Pages, tables: Tables, leaves: Leaves, n: nat, leaf: Leaf, e: nat, pages': Pages)
    requires Tree(pages, tables, leaves) && Table(1, n) in tables && PointsTo(e, leaf.frame, leaf.writable)
    requires pages' == WriteEntry(pages, tables[Table(1, n)], Index(1, n), e)
    ensures Tree(pages', tables, leaves[n := leaf])
  {
    var leaves' := leaves[n := leaf];
    var b := Table(1, n);
    assert Shape(tables, leaves');
    WriteSeparate(pages, tables, b, Index(1, n), e);
    SetLeafInner(pages, tables, b, Index(1, n), e);
    SetLeafBottom(pages, tables, leaves, n, leaf, e);
  }

  lemma SetLeafInner(pages: Pages, tables: Tables, b: Node, i: nat, e: nat)
    requires Separate(pages, tables) && Inner(pages, tables) && b in tables && b.level == 1 && i < 512
    requires Separate(WriteEntry(pages, tables[b], i, e), tables)
    ensures Inner(WriteEntry(pages, tables[b], i, e), tables)
  {
    var pages' := WriteEntry(pages, tables[b], i, e);
    forall u, j | u in tables && 2 <= u.level <= 4 && 0 <= j < 512 && !(u == Root && j == 511)
      ensures InnerEntry(pages'[tables[u]][j], tables, u, j)
    {
      assert InnerEntry(pages[tables[u]][j], tables, u, j);
    }
  }

  lemma SetLeafBottom(pages: Pages, tables: Tables, leaves: Leaves, n: nat, leaf: Leaf, e: nat)
    requires Separate(pages, tables) && Bottom(pages, tables, leaves) && Table(1, n) in tables && PointsTo(e, leaf.frame, leaf.writable)
    requires Separate(WriteEntry(pages, tables[Table(1, n)], Index(1, n), e), tables)
    ensures Bottom(WriteEntry(pages, tables[Table(1, n)], Index(1, n), e), tables, leaves[n := leaf])
  {
    var leaves', b, i := leaves[n := leaf], Table(1, n), Index(1, n);
    var pages' := WriteEntry(pages, tables[b], i, e);
    WriteSeparate(pages, tables, b, i, e);
    forall u, j | u in tables && u.level == 1 && 0 <= j < 512
      ensures LeafEntry(pages'[tables[u]][j], leaves', u.prefix * 512 + j)
    {
      assert LeafEntry(pages[tables[u]][j], leaves, u.prefix * 512 + j);
      BottomPosition(u, j, n);
    }
  }

  lemma BottomPosition(u: Node, j: nat, n: nat)
    requires u.level == 1 && j < 512
    ensures u.prefix * 512 + j == n <==> u == Table(1, n) && j == Index(1, n)
  {
  }

  /** A store into one table changes that word and no other. */
  lemma WriteSeparate(pages: Pages, tables: Tables, t: Node, i: nat, e: nat)
    requires Separate(pages, tables) && t in tables && i < 512
    ensures var pages' := WriteEntry(pages, tables[t], i, e);
            && Separate(pages', tables)
            && forall u, j :: u in tables && 0 <= j < 512 ==>
                 pages'[tables[u]][j] == if u == t && j == i then e else pages[tables[u]][j]
  {
  }

  /** Memory outside the tables is irrelevant to the tree. */
  lemma FrameTree(pages: Pages, tables: Tables, leaves: Leaves, pages': Pages)
    requires Tree(pages, tables, leaves)
    requires forall t :: t in tables ==> tables[t] in pages' && pages'[tables[t]] == pages[tables[t]]
    ensures Tree(pages', tables, leaves)
  {
    assert Separate(pages', tables);
    forall u, j | u in tables && 2 <= u.level <= 4 && 0 <= j < 512 && !(u == Root && j == 511)
      ensures InnerEntry(pages'[tables[u]][j], tables, u, j)
    {
      assert InnerEntry(pages[tables[u]][j], tables, u, j);
    }
    forall u, j | u in tables && u.level == 1 && 0 <= j < 512
      ensures LeafEntry(pages'[tables[u]][j], leaves, u.prefix * 512 + j)
    {
      assert LeafEntry(pages[tables[u]][j], leaves, u.prefix * 512 + j);
    }
  }

  /** A single zeroed page is the empty tree. */
  lemma EmptyTree(pages: Pages, root: nat)
    requires root in pages && pages[root] == Zeros() && PageAligned(root)
    ensures Tree(pages, map[Root := root], map[])
  {
  }

  /** Writing the recursive entry leaves the tree as it was. */
  lemma SelfMap(pages: Pages, tables: Tables, leaves: Leaves, pages': Pages)
    requires Tree(pages, tables, leaves) && Root in tables
    requires pages' == WriteEntry(pages, tables[Root], 511, tables[Root] + 3)
    ensures Tree(pages', tables, leaves) && SelfMapped(pages', tables[Root])
  {
    hide Shape;
    WriteSeparate(pages, tables, Root, 511, tables[Root] + 3);
    forall u, j | u in tables && 2 <= u.level <= 4 && 0 <= j < 512 && !(u == Root && j == 511)
      ensures InnerEntry(pages'[tables[u]][j], tables, u, j)
    {
      assert InnerEntry(pages[tables[u]][j], tables, u, j);
    }
    forall u, j | u in tables && u.level == 1 && 0 <= j < 512
      ensures LeafEntry(pages'[tables[u]][j], leaves, u.prefix * 512 + j)
    {
      assert LeafEntry(pages[tables[u]][j], leaves, u.prefix * 512 + j);
    }
  }

  /** Stores into other entries leave the recursive entry alone. */
  lemma KeepSelfMapped(pages: Pages, tables: Tables, leaves: Leaves, t: Node, i: nat, e: nat)
    requires Tree(pages, tables, leaves) && Root in tables && SelfMapped(pages, tables[Root])
    requires t in tables && i < 512 && !(t == Root && i == 511)
    ensures tables[t] in pages && |pages[tables[t]]| == 512
    ensures SelfMapped(WriteEntry(pages, tables[t], i, e), tables[Root])
  {
    WriteSeparate(pages, tables, t, i, e);
  }
}
