/**
  The file image of a symbol trie (tytrie/Trie.cs): a header, the tables of all tiers from the
  deepest up, the palette and the symbols the palette cannot spell.
 */
module TrieImage {
  import opened Bytes
  import opened Options
  import opened SymbolTrie
  import opened TriePalette
  import opened TrieReader
  import opened TrieTail

  datatype Outcome = Done | UnknownBitness | ChildOffsetZero

  // ------------------------------------------------------------ tables

  /** Table entries of `w` bytes each, one after the other. */
  function Entries(vals: seq<nat>, w: nat): seq<Byte> {
    if vals == [] then [] else Entries(vals[..|vals| - 1], w) + LE(vals[|vals| - 1], w)
  }

  lemma {:induction false} EntriesLength(vals: seq<nat>, w: nat)
    ensures |Entries(vals, w)| == Scale(w, |vals|)
  {
    if vals != [] {
      EntriesLength(vals[..|vals| - 1], w);
    }
  }

  /** Entry `i` of a table is found at `i` widths into it. */
  lemma {:induction false} EntryAt(b: seq<Byte>, at: nat, vals: seq<nat>, w: nat, i: nat)
    requires Holds(b, at, Entries(vals, w)) && i < |vals|
    ensures NumAt(b, at + Scale(w, i), w) == Truncate(vals[i], w)
    decreases |vals|
  {
    hide LE, NumAt, Truncate, Scale, Holds;
    var init := vals[..|vals| - 1];
    var e, f := Entries(init, w), LE(vals[|vals| - 1], w);
    EntriesLength(init, w);
    assert Entries(vals, w) == e + f;
    HoldsParts(b, at, e, f);
    if i == |init| {
      NumAtTruncated(b, at + |e|, vals[i], w);
    } else {
      EntryAt(b, at, init, w, i);
    }
  }

  type Marked = map<Path, Option<nat>>
  type Offsets = map<Path, I32>

  /** What a tier's table holds for index `i`: nothing, a symbol's value or where a child's table is. */
  ghost function EntryValue(marks: Marked, offs: Offsets, p: Path, i: nat): nat {
    var q := At(p, i);
    if q !in marks then 0
    else if marks[q].Some? then marks[q].value
    else if q in offs then ToU64(offs[q]) else 0
  }

  ghost function TableValues(marks: Marked, offs: Offsets, p: Path, size: nat): seq<nat> {
    seq(size, i requires 0 <= i < size => EntryValue(marks, offs, p, i))
  }

  ghost predicate Written(b: seq<Byte>, w: nat, size: nat, marks: Marked, offs: Offsets, p: Path) {
    p in offs && 32 <= offs[p] && Holds(b, offs[p], Entries(TableValues(marks, offs, p, size), w))
  }

  ghost predicate AllWritten(b: seq<Byte>, w: nat, size: nat, marks: Marked, offs: Offsets, p: Path) {
    forall q :: q in marks && Below(p, q) && marks[q].None? ==> Written(b, w, size, marks, offs, q)
  }

  ghost predicate SameOutside(offs: Offsets, offs': Offsets, p: Path) {
    offs.Keys == offs'.Keys && forall q :: q in offs && !Below(p, q) ==> offs'[q] == offs[q]
  }

  // ------------------------------------------------------------ subtrees

  ghost function Subtree(marks: Marked, p: Path): set<Path> {
    set q | q in marks && Below(p, q)
  }

  ghost function Depth(p: Path): nat {
    if p.Top? then 0 else 1 + Depth(p.parent)
  }

  lemma {:induction false} BelowIsDeeper(p: Path, q: Path)
    requires Below(p, q)
    ensures p == q || Depth(p) < Depth(q)
    decreases q
  {
    if p != q {
      BelowIsDeeper(p, q.parent);
    }
  }

  lemma {:induction false} BelowChild(p: Path, i: nat, q: Path)
    requires Below(At(p, i), q)
    ensures Below(p, q) && p != q
    decreases q
  {
    BelowIsDeeper(At(p, i), q);
    if q == At(p, i) {
      assert Below(p, p) && Depth(q) == Depth(p) + 1;
    } else {
      BelowChild(p, i, q.parent);
    }
  }

  lemma {:induction false} SiblingsApart(p: Path, i: nat, j: nat, q: Path)
    requires Below(At(p, i), q) && Below(At(p, j), q)
    ensures i == j
    decreases q
  {
    BelowIsDeeper(At(p, i), q);
    BelowIsDeeper(At(p, j), q);
    if q != At(p, i) && q != At(p, j) {
      SiblingsApart(p, i, j, q.parent);
    }
  }

  /** The child through which a tier further down is reached. */
  lemma {:induction false} Towards(marks: Marked, size: nat, p: Path, q: Path) returns (i: nat)
    requires Closed(marks, size) && q in marks && Below(p, q) && p != q
    ensures Below(At(p, i), q) && At(p, i) in marks && i < size
    decreases q
  {
    if q.parent == p {
      i := q.idx;
    } else {
      i := Towards(marks, size, p, q.parent);
    }
  }

  ghost predicate Closed(marks: Marked, size: nat) {
    forall p :: p in marks && p.At? ==> p.parent in marks && p.idx < size
  }

  lemma SubtreeShrinks(marks: Marked, p: Path, i: nat)
    requires p in marks
    ensures Subtree(marks, At(p, i)) < Subtree(marks, p)
  {
    forall q | Below(At(p, i), q) ensures Below(p, q) && p != q {
      BelowChild(p, i, q);
    }
    assert p in Subtree(marks, p) && p !in Subtree(marks, At(p, i));
  }

  // ------------------------------------------------------------ what later writes keep

  lemma HoldsKept(b: seq<Byte>, b': seq<Byte>, at: nat, s: seq<Byte>)
    requires Holds(b, at, s) && 32 <= at && |b| <= |b'| && b[32..] == b'[32..|b|]
    ensures Holds(b', at, s)
  {
    forall k | 0 <= k < |s| ensures b'[at + k] == s[k] {
      assert b[at + k] == b[at..at + |s|][k] && b[at + k] == b[32..][at + k - 32];
      assert b'[at + k] == b'[32..|b|][at + k - 32];
    }
  }

  lemma WrittenKept(b: seq<Byte>, b': seq<Byte>, w: nat, size: nat, marks: Marked, offs: Offsets, offs': Offsets, q: Path)
    requires Written(b, w, size, marks, offs, q) && 32 <= |b| <= |b'| && b[32..] == b'[32..|b|]
    requires offs.Keys == offs'.Keys && offs'[q] == offs[q]
    requires forall i :: At(q, i) in offs ==> offs'[At(q, i)] == offs[At(q, i)]
    ensures Written(b', w, size, marks, offs', q)
  {
    assert TableValues(marks, offs, q, size) == TableValues(marks, offs', q, size);
    HoldsKept(b, b', offs[q], Entries(TableValues(marks, offs, q, size), w));
  }

  /** Writing below one child leaves what stands below another. */
  lemma SiblingKept(b: seq<Byte>, b': seq<Byte>, w: nat, size: nat, marks: Marked, offs: Offsets, offs': Offsets,
                    p: Path, i: nat, j: nat)
    requires AllWritten(b, w, size, marks, offs, At(p, j)) && 32 <= |b| <= |b'| && b[32..] == b'[32..|b|]
    requires SameOutside(offs, offs', At(p, i)) && i != j
    ensures AllWritten(b', w, size, marks, offs', At(p, j))
  {
    hide Written;
    forall q | q in marks && Below(At(p, j), q) && marks[q].None? ensures Written(b', w, size, marks, offs', q) {
      OffsetsKept(offs, offs', p, i, j, q);
      assert Written(b, w, size, marks, offs, q);
      WrittenIn(b, w, size, marks, offs, q);
      WrittenKept(b, b', w, size, marks, offs, offs', q);
    }
  }

  lemma WrittenIn(b: seq<Byte>, w: nat, size: nat, marks: Marked, offs: Offsets, q: Path)
    requires Written(b, w, size, marks, offs, q)
    ensures q in offs
  {
  }

  lemma OffsetsKept(offs: Offsets, offs': Offsets, p: Path, i: nat, j: nat, q: Path)
    requires SameOutside(offs, offs', At(p, i)) && i != j && Below(At(p, j), q)
    ensures q in offs ==> offs'[q] == offs[q]
    ensures forall k :: At(q, k) in offs ==> offs'[At(q, k)] == offs[At(q, k)]
  {
    if Below(At(p, i), q) {
      SiblingsApart(p, i, j, q);
    }
    forall k | At(q, k) in offs ensures offs'[At(q, k)] == offs[At(q, k)] {
      if Below(At(p, i), At(q, k)) {
        SiblingsApart(p, i, j, At(q, k));
      }
    }
  }

  // ------------------------------------------------------------ writing

  class Stream {
    var bytes: seq<Byte>
  }

  function WidthOf(bitness: int): nat {
    if bitness == 0 then 4 else 8
  }

  ghost function OffsetsOf(nodes: map<Path, Tier>): (offs: Offsets)
    reads nodes.Values`fileOffset
    ensures offs.Keys == nodes.Keys
  {
    map p | p in nodes :: nodes[p].fileOffset
  }

  ghost predicate Node(nodes: map<Path, Tier>, marks: Marked, size: nat, p: Path)
    reads nodes.Values`tiers, nodes.Values`isTerminal, nodes.Values`terminal
    requires p in nodes && p in marks
  {
    && |nodes[p].tiers| == size
    && (forall i :: 0 <= i < size ==> nodes[p].tiers[i] == if At(p, i) in nodes then nodes[At(p, i)] else null)
    && marks[p] == if nodes[p].isTerminal then Some(nodes[p].terminal) else None
  }

  ghost predicate Tree(nodes: map<Path, Tier>, marks: Marked, size: nat)
    reads nodes.Values`tiers, nodes.Values`isTerminal, nodes.Values`terminal
  {
    && nodes.Keys == marks.Keys && Closed(marks, size)
    && (forall p :: p in nodes ==> Node(nodes, marks, size, p))
    && (forall p, q :: p in nodes && q in nodes && p != q ==> nodes[p] != nodes[q])
  }

  ghost predicate ChildrenPlaced(marks: Marked, offs: Offsets, p: Path) {
    forall i :: At(p, i) in marks && At(p, i) in offs && marks[At(p, i)].None? ==> offs[At(p, i)] != 0
  }

  /** One table entry. */
  method WriteEntry(out: Stream, child: Tier?, bitness: int, ghost nodes: map<Path, Tier>, ghost marks: Marked,
                    ghost size: nat, ghost p: Path, ghost i: nat) returns (res: Outcome)
    requires Tree(nodes, marks, size) && p in nodes && i < size
    requires child == if At(p, i) in nodes then nodes[At(p, i)] else null
    modifies out
    ensures res.Done? ==> out.bytes == old(out.bytes) + LE(EntryValue(marks, OffsetsOf(nodes), p, i), WidthOf(bitness))
    ensures !res.Done? ==> out.bytes == old(out.bytes)
    ensures 0 <= bitness <= 1 && ChildrenPlaced(marks, OffsetsOf(nodes), p) ==> res.Done?
  {
    assert At(p, i) in nodes ==> Node(nodes, marks, size, At(p, i));
    var val: nat := 0;
    if child != null {
      if child.isTerminal {
        val := child.terminal;
      } else {
        if child.fileOffset == 0 {
          return ChildOffsetZero;
        }
        val := ToU64(child.fileOffset);
      }
    }
    if bitness == 0 {
      out.bytes := out.bytes + LE(val, 4);
    } else if bitness == 1 {
      out.bytes := out.bytes + LE(val, 8);
    } else {
      return UnknownBitness;
    }
    return Done;
  }

  lemma EntriesSnoc(marks: Marked, offs: Offsets, p: Path, i: nat, w: nat)
    ensures Entries(TableValues(marks, offs, p, i + 1), w)
         == Entries(TableValues(marks, offs, p, i), w) + LE(EntryValue(marks, offs, p, i), w)
  {
    assert TableValues(marks, offs, p, i + 1)[..i] == TableValues(marks, offs, p, i);
  }

  /** The table of one tier goes to the end of the file, and the tier remembers where. */
  method WriteTrie(out: Stream, cur: Tier, bitness: int, ghost nodes: map<Path, Tier>, ghost marks: Marked,
                   ghost size: nat, ghost p: Path) returns (res: Outcome)
    requires Tree(nodes, marks, size) && p in nodes && nodes[p] == cur
    modifies out, cur`fileOffset
    ensures old(out.bytes) <= out.bytes
    ensures marks[p].Some? ==> res.Done? && OffsetsOf(nodes) == old(OffsetsOf(nodes)) && out.bytes == old(out.bytes)
    ensures marks[p].None? ==> OffsetsOf(nodes) == old(OffsetsOf(nodes))[p := Position(|old(out.bytes)|)]
    ensures marks[p].None? && res.Done? ==>
              out.bytes == old(out.bytes) + Entries(TableValues(marks, OffsetsOf(nodes), p, size), WidthOf(bitness))
    ensures 0 <= bitness <= 1 && ChildrenPlaced(marks, old(OffsetsOf(nodes)), p) ==> res.Done?
  {
    hide EntryValue, Entries, Closed, TableValues;
    assert Node(nodes, marks, size, p);
    if cur.isTerminal {
      return Done;
    }
    cur.fileOffset := Position(|out.bytes|);
    ghost var offs := OffsetsOf(nodes);
    assert offs == old(OffsetsOf(nodes))[p := cur.fileOffset];
    forall i ensures At(p, i) != p { assert Depth(At(p, i)) == 1 + Depth(p); }
    res := WriteEntries(out, cur, bitness, nodes, marks, size, p);
  }

  method WriteEntries(out: Stream, cur: Tier, bitness: int, ghost nodes: map<Path, Tier>, ghost marks: Marked,
                      ghost size: nat, ghost p: Path) returns (res: Outcome)
    requires Tree(nodes, marks, size) && p in nodes && nodes[p] == cur
    modifies out
    ensures old(out.bytes) <= out.bytes
    ensures res.Done? ==> out.bytes == old(out.bytes) + Entries(TableValues(marks, OffsetsOf(nodes), p, size), WidthOf(bitness))
    ensures 0 <= bitness <= 1 && ChildrenPlaced(marks, OffsetsOf(nodes), p) ==> res.Done?
  {
    hide EntryValue, Entries, Closed, TableValues, Tree, OffsetsOf, ChildrenPlaced, WidthOf, LE;
    assert p in marks && Node(nodes, marks, size, p) by { NodeAt(nodes, marks, size, p); }
    ghost var offs := OffsetsOf(nodes);
    NoEntries(marks, offs, p, WidthOf(bitness));
    for i := 0 to |cur.tiers|
      invariant out.bytes == old(out.bytes) + Entries(TableValues(marks, offs, p, i), WidthOf(bitness))
    {
      EntriesSnoc(marks, offs, p, i, WidthOf(bitness));
      res := WriteEntry(out, cur.tiers[i], bitness, nodes, marks, size, p, i);
      if !res.Done? {
        return;
      }
    }
    res := Done;
  }

  lemma NodeAt(nodes: map<Path, Tier>, marks: Marked, size: nat, p: Path)
    requires Tree(nodes, marks, size) && p in nodes
    ensures p in marks && Node(nodes, marks, size, p)
  {
  }

  lemma NoEntries(marks: Marked, offs: Offsets, p: Path, w: nat)
    ensures Entries(TableValues(marks, offs, p, 0), w) == []
  {
  }

  ghost predicate ChildrenWritten(b: seq<Byte>, w: nat, size: nat, marks: Marked, offs: Offsets, p: Path, n: nat) {
    forall j :: 0 <= j < n && At(p, j) in marks ==> AllWritten(b, w, size, marks, offs, At(p, j))
  }

  /** One more child's subtree is written. */
  lemma OneMoreChild(b: seq<Byte>, b': seq<Byte>, w: nat, size: nat, marks: Marked, offs: Offsets, offs': Offsets, p: Path, i: nat)
    requires ChildrenWritten(b, w, size, marks, offs, p, i) && 32 <= |b| && b <= b'
    requires SameOutside(offs, offs', At(p, i)) && AllWritten(b', w, size, marks, offs', At(p, i))
    ensures ChildrenWritten(b', w, size, marks, offs', p, i + 1)
  {
    hide AllWritten, SameOutside;
    forall j | 0 <= j < i + 1 && At(p, j) in marks ensures AllWritten(b', w, size, marks, offs', At(p, j)) {
      if j < i {
        SiblingKept(b, b', w, size, marks, offs, offs', p, i, j);
      }
    }
  }

  lemma SameOutsideParent(offs0: Offsets, offs: Offsets, offs': Offsets, p: Path, i: nat)
    requires SameOutside(offs0, offs, p) && SameOutside(offs, offs', At(p, i))
    ensures SameOutside(offs0, offs', p)
  {
    forall q | q in offs0 && !Below(p, q) ensures offs'[q] == offs0[q] {
      if Below(At(p, i), q) {
        BelowChild(p, i, q);
      }
    }
  }

  lemma PlacedWhenWritten(b: seq<Byte>, w: nat, size: nat, marks: Marked, offs: Offsets, p: Path)
    requires ChildrenWritten(b, w, size, marks, offs, p, size) && Closed(marks, size)
    ensures ChildrenPlaced(marks, offs, p)
  {
    forall i | At(p, i) in marks && At(p, i) in offs && marks[At(p, i)].None? ensures offs[At(p, i)] != 0 {
      assert AllWritten(b, w, size, marks, offs, At(p, i));
      assert Below(At(p, i), At(p, i));
    }
  }

  /** With the children and then the tier itself written, the whole subtree is. */
  lemma SubtreeWritten(b: seq<Byte>, b': seq<Byte>, w: nat, size: nat, marks: Marked, offs: Offsets, offs': Offsets, p: Path)
    requires ChildrenWritten(b, w, size, marks, offs, p, size) && Closed(marks, size) && 32 <= |b| && b <= b'
    requires p in marks && offs.Keys == offs'.Keys && forall q :: q in offs && q != p ==> offs'[q] == offs[q]
    requires marks[p].None? ==> Written(b', w, size, marks, offs', p)
    ensures AllWritten(b', w, size, marks, offs', p)
  {
    hide Written, Closed;
    forall q | q in marks && Below(p, q) && marks[q].None? ensures Written(b', w, size, marks, offs', q) {
      if q != p {
        var i := Towards(marks, size, p, q);
        assert AllWritten(b, w, size, marks, offs, At(p, i));
        WrittenIn(b, w, size, marks, offs, q);
        BelowIsDeeper(p, q);
        forall k ensures At(q, k) != p { assert Depth(At(q, k)) == 1 + Depth(q); }
        WrittenKept(b, b', w, size, marks, offs, offs', q);
      }
    }
  }

  lemma JustWritten(b: seq<Byte>, w: nat, size: nat, marks: Marked, offs: Offsets, p: Path)
    requires 32 <= |b| < 0x8000_0000 && p in offs && offs[p] == Position(|b|)
    ensures Written(b + Entries(TableValues(marks, offs, p, size), w), w, size, marks, offs, p)
  {
    hide Entries, TableValues;
    PositionSmall(|b|);
  }

  /** Every table below `p` is written, children before parents; tables elsewhere are left alone. */
  method PostOrderTraverse(out: Stream, cur: Tier, bitness: int, ghost nodes: map<Path, Tier>, ghost marks: Marked,
                           ghost size: nat, ghost p: Path) returns (res: Outcome)
    requires Tree(nodes, marks, size) && p in nodes && nodes[p] == cur && 32 <= |out.bytes|
    modifies out, nodes.Values`fileOffset
    ensures old(out.bytes) <= out.bytes && SameOutside(old(OffsetsOf(nodes)), OffsetsOf(nodes), p)
    ensures 0 <= bitness <= 1 && |out.bytes| < 0x8000_0000 ==> res.Done?
    ensures res.Done? && |out.bytes| < 0x8000_0000 ==>
              AllWritten(out.bytes, WidthOf(bitness), size, marks, OffsetsOf(nodes), p)
    decreases Subtree(marks, p)
  {
    hide SameOutside, AllWritten, ChildrenWritten, Written, Subtree, WidthOf, OffsetsOf;
    ghost var offs0, w := OffsetsOf(nodes), WidthOf(bitness);
    assert Node(nodes, marks, size, p);
    NothingYet(out.bytes, w, size, marks, offs0, p);
    for i := 0 to |cur.tiers|
      invariant old(out.bytes) <= out.bytes && SameOutside(offs0, OffsetsOf(nodes), p)
      invariant |out.bytes| < 0x8000_0000 ==> ChildrenWritten(out.bytes, w, size, marks, OffsetsOf(nodes), p, i)
    {
      ghost var b, offs := out.bytes, OffsetsOf(nodes);
      if cur.tiers[i] != null {
        SubtreeShrinks(marks, p, i);
        res := PostOrderTraverse(out, cur.tiers[i], bitness, nodes, marks, size, At(p, i));
        SameOutsideParent(offs0, offs, OffsetsOf(nodes), p, i);
        if !res.Done? {
          return;
        }
        if |out.bytes| < 0x8000_0000 {
          OneMoreChild(b, out.bytes, w, size, marks, offs, OffsetsOf(nodes), p, i);
        }
      } else if |out.bytes| < 0x8000_0000 {
        AbsentChild(b, w, size, marks, offs, p, i);
      }
    }
    ghost var b, offs := out.bytes, OffsetsOf(nodes);
    res := WriteTrie(out, cur, bitness, nodes, marks, size, p);
    Finish(b, out.bytes, w, size, marks, offs0, offs, OffsetsOf(nodes), p, res.Done?);
  }

  lemma NothingYet(b: seq<Byte>, w: nat, size: nat, marks: Marked, offs: Offsets, p: Path)
    ensures ChildrenWritten(b, w, size, marks, offs, p, 0) && SameOutside(offs, offs, p)
  {
  }

  lemma AbsentChild(b: seq<Byte>, w: nat, size: nat, marks: Marked, offs: Offsets, p: Path, i: nat)
    requires ChildrenWritten(b, w, size, marks, offs, p, i) && At(p, i) !in marks
    ensures ChildrenWritten(b, w, size, marks, offs, p, i + 1)
  {
  }

  lemma Finish(b: seq<Byte>, b': seq<Byte>, w: nat, size: nat, marks: Marked, offs0: Offsets, offs: Offsets, offs': Offsets,
               p: Path, done: bool)
    requires |b'| < 0x8000_0000 ==> ChildrenWritten(b, w, size, marks, offs, p, size)
    requires Closed(marks, size) && p in marks && p in offs && 32 <= |b| && b <= b' && SameOutside(offs0, offs, p)
    requires offs' == if marks[p].None? then offs[p := Position(|b|)] else offs
    requires marks[p].None? && done ==> b' == b + Entries(TableValues(marks, offs', p, size), w)
    ensures SameOutside(offs0, offs', p)
    ensures |b'| < 0x8000_0000 ==> ChildrenPlaced(marks, offs, p)
    ensures done && |b'| < 0x8000_0000 ==> AllWritten(b', w, size, marks, offs', p)
  {
    hide Entries, TableValues, AllWritten, Written, ChildrenWritten, Closed, ChildrenPlaced;
    assert SameOutside(offs0, offs', p) by { assert Below(p, p); }
    if |b'| < 0x8000_0000 {
      PlacedWhenWritten(b, w, size, marks, offs, p);
      if done {
        if marks[p].None? {
          JustWritten(b, w, size, marks, offs', p);
        }
        SubtreeWritten(b, b', w, size, marks, offs, offs', p);
      }
    }
  }

  // ------------------------------------------------------------ reading by palette index

  /** Follows a path through the tables, from the base table whose offset stands at byte 12; 0 is "not there". */
  function Walk(b: seq<Byte>, w: nat, p: Path): nat {
    match p
    case Top => NumAt(b, 12, 4)
    case At(q, i) => var t := Walk(b, w, q); if t == 0 then 0 else NumAt(b, t + Scale(w, i), w)
  }

  function Lookup(b: seq<Byte>, w: nat, reverse: map<char, nat>, name: string): nat
    requires Encodable(reverse, name)
  {
    Walk(b, w, EndOf(reverse, name))
  }

  lemma TruncateSmall(n: nat, w: nat)
    requires n < 0x8000_0000 && (w == 4 || w == 8)
    ensures Truncate(n, w) == n
  {
    hide Truncate, Pow256;
    FitsWord(n);
    TruncateFits(n, w);
  }

  /** One table access. */
  lemma WalkStep(b: seq<Byte>, w: nat, size: nat, marks: Marked, offs: Offsets, p: Path, i: nat)
    requires Written(b, w, size, marks, offs, p) && i < size && Walk(b, w, p) == offs[p]
    ensures Walk(b, w, At(p, i)) == Truncate(EntryValue(marks, offs, p, i), w)
  {
    hide NumAt, Entries, EntryValue;
    EntryAt(b, offs[p], TableValues(marks, offs, p, size), w, i);
  }

  ghost predicate Image(b: seq<Byte>, w: nat, size: nat, marks: Marked, offs: Offsets) {
    && (w == 4 || w == 8) && Closed(marks, size) && marks.Keys == offs.Keys && Top in marks && marks[Top].None?
    && AllWritten(b, w, size, marks, offs, Top) && NumAt(b, 12, 4) == offs[Top]
  }

  lemma {:induction false} AllBelowTop(q: Path)
    ensures Below(Top, q)
  {
    if q.At? {
      AllBelowTop(q.parent);
    }
  }

  /** What one more index leads to: a child's table, a symbol's value, or 0. */
  lemma WalkChild(b: seq<Byte>, w: nat, size: nat, marks: Marked, offs: Offsets, p: Path, i: nat)
    requires Image(b, w, size, marks, offs) && p in marks && marks[p].None? && i < size && Walk(b, w, p) == offs[p]
    ensures Walk(b, w, At(p, i)) ==
              if At(p, i) !in marks then 0
              else if marks[At(p, i)].Some? then Truncate(marks[At(p, i)].value, w)
              else offs[At(p, i)]
    ensures At(p, i) in marks && marks[At(p, i)].None? ==> offs[At(p, i)] >= 32
  {
    hide NumAt, Closed, Truncate, Walk, Written;
    AllBelowTop(p);
    WalkStep(b, w, size, marks, offs, p, i);
    TruncateSmall(0, w);
    if At(p, i) in marks && marks[At(p, i)].None? {
      AllBelowTop(At(p, i));
      assert Written(b, w, size, marks, offs, At(p, i));
      WrittenPlace(b, w, size, marks, offs, At(p, i));
      TruncateSmall(offs[At(p, i)], w);
    }
  }

  lemma WrittenPlace(b: seq<Byte>, w: nat, size: nat, marks: Marked, offs: Offsets, q: Path)
    requires Written(b, w, size, marks, offs, q)
    ensures q in offs && 32 <= offs[q]
  {
  }

  lemma {:induction false} WalkName(b: seq<Byte>, w: nat, pal: seq<char>, reverse: map<char, nat>, marks: Marked, offs: Offsets,
                                    name: string, k: nat)
    requires reverse == ReverseOf(pal) && Image(b, w, |pal|, marks, offs) && Terminals(marks, reverse)
    requires Encodable(reverse, name) && NulFree(name) && k <= |name|
    ensures var p := PathOf(reverse, name[..k]);
            Walk(b, w, p) == (if p in marks then offs[p] else 0) && (p in marks ==> marks[p].None? && offs[p] >= 32)
    decreases k
  {
    hide NumAt, ReverseOf, AllWritten, Truncate;
    var p := PathOf(reverse, name[..k]);
    if k == 0 {
      assert p == Top;
      TopPlaced(b, w, |pal|, marks, offs);
    } else {
      PathStep(pal, reverse, name, k - 1);
      PathStep(pal, reverse, name, k);
      WalkName(b, w, pal, reverse, marks, offs, name, k - 1);
      Indices(pal, reverse);
      if p.parent in marks {
        WalkChild(b, w, |pal|, marks, offs, p.parent, p.idx);
      }
    }
  }

  lemma TopPlaced(b: seq<Byte>, w: nat, size: nat, marks: Marked, offs: Offsets)
    requires Image(b, w, size, marks, offs)
    ensures offs[Top] >= 32 && Walk(b, w, Top) == offs[Top]
  {
    hide NumAt;
    AllBelowTop(Top);
  }

  /** The file answers as the trie in memory does. */
  lemma LookupFinds(b: seq<Byte>, w: nat, pal: seq<char>, reverse: map<char, nat>, marks: Marked, offs: Offsets, name: string)
    requires reverse == ReverseOf(pal) && Image(b, w, |pal|, marks, offs) && Terminals(marks, reverse)
    requires Encodable(reverse, name) && NulFree(name)
    ensures var q := EndOf(reverse, name);
            Lookup(b, w, reverse, name) == if q in SymbolsOf(marks) then Truncate(SymbolsOf(marks)[q], w) else 0
  {
    hide NumAt, ReverseOf, AllWritten, Truncate;
    assert name[..|name|] == name;
    WalkName(b, w, pal, reverse, marks, offs, name, |name|);
    Indices(pal, reverse);
    if PathOf(reverse, name) in marks {
      WalkChild(b, w, |pal|, marks, offs, PathOf(reverse, name), reverse['\0']);
    }
  }

  // ------------------------------------------------------------ the whole file

  function Header(ver: nat, endian: nat, bitness: nat): (b: seq<Byte>)
    ensures |b| == 12
  {
    [84, 89, 84, 82, 73, 69, 32, 32] + LE(ver, 2) + LE(endian, 1) + LE(bitness, 1)
  }

  method WriteText(out: Stream, s: string)
    modifies out
    ensures out.bytes == old(out.bytes) + TextBytes(s)
  {
    for i := 0 to |s|
      invariant out.bytes == old(out.bytes) + TextBytes(s[..i])
    {
      assert s[..i + 1][..i] == s[..i];
      out.bytes := out.bytes + LE(s[i] as int, 1);
    }
    assert s[..|s|] == s;
  }

  /** Seeks to `at`, writes a 32-bit number there and seeks back to the end. */
  method Patch(out: Stream, at: nat, x: int)
    requires at + 4 <= |out.bytes| && -0x8000_0000 <= x < 0x8000_0000
    modifies out
    ensures out.bytes == old(out.bytes[..at]) + LE(ToU32(x), 4) + old(out.bytes[at + 4..])
  {
    out.bytes := out.bytes[..at] + LE(ToU32(x), 4) + out.bytes[at + 4..];
  }

  /** The keys of a dictionary, in some order. */
  method KeysOf(m: map<string, nat>) returns (keys: seq<string>)
    ensures (forall s :: s in keys <==> s in m) && NoDup(keys) && |keys| == |m|
  {
    keys := [];
    var rest := m.Keys;
    while rest != {}
      invariant rest <= m.Keys && (forall s :: s in keys <==> s in m && s !in rest)
      invariant NoDup(keys) && |keys| + |rest| == |m.Keys|
    {
      var s :| s in rest;
      keys, rest := keys + [s], rest - {s};
    }
    assert |m.Keys| == |m|;
  }

  /** The symbols the palette cannot spell: their texts, then a table of where each text is and its value. */
  method WriteUnencodable(out: Stream, unencodable: map<string, nat>, keys: seq<string>, bitness: nat) returns (res: Outcome)
    requires forall s :: s in keys ==> s in unencodable
    requires |out.bytes| >= 32
    modifies out
    ensures bitness <= 1 ==> res.Done?
    ensures |out.bytes| >= |old(out.bytes)| && out.bytes[..24] == old(out.bytes[..24])
    ensures out.bytes[28..|old(out.bytes)|] == old(out.bytes[28..])
    ensures bitness <= 1 ==> Tail(out.bytes, |old(out.bytes)|, keys, unencodable, WidthOf(bitness))
  {
    hide LE, TextBytes, Texts, Records, Position;
    ghost var b := out.bytes;
    var at := WriteTexts(out, keys);
    var table := |out.bytes|;
    res := WriteRecords(out, unencodable, keys, at, bitness, |b|);
    if !res.Done? {
      KeptBelow(b, out.bytes);
      return;
    }
    ghost var records := Records(|b|, keys, unencodable, WidthOf(bitness), |keys|);
    Patch(out, 24, Position(table));
    TailIs(b, Texts(keys), records, out.bytes, LE(ToU32(Position(table)), 4));
  }

  method WriteRecords(out: Stream, unencodable: map<string, nat>, keys: seq<string>, at: seq<nat>, bitness: nat, ghost start: nat)
    returns (res: Outcome)
    requires forall s :: s in keys ==> s in unencodable
    requires |at| == |keys| && forall k :: 0 <= k < |keys| ==> at[k] == TextPos(start, keys, k)
    modifies out
    ensures bitness <= 1 ==> res.Done?
    ensures old(out.bytes) <= out.bytes
    ensures res.Done? ==> out.bytes == old(out.bytes) + Records(start, keys, unencodable, WidthOf(bitness), |keys|)
  {
    hide LE, Records, Position, TextPos;
    NoRecords(start, keys, unencodable, WidthOf(bitness));
    for k := 0 to |keys|
      invariant out.bytes == old(out.bytes) + Records(start, keys, unencodable, WidthOf(bitness), k)
    {
      NextRecord(start, keys, unencodable, WidthOf(bitness), k);
      ghost var before := out.bytes;
      out.bytes := out.bytes + LE(ToU32(Position(at[k])), 4);
      if bitness == 0 {
        out.bytes := out.bytes + LE(unencodable[keys[k]], 4);
      } else if bitness == 1 {
        out.bytes := out.bytes + LE(unencodable[keys[k]], 8);
      } else {
        return UnknownBitness;
      }
      assert out.bytes == before + (LE(ToU32(Position(at[k])), 4) + LE(unencodable[keys[k]], WidthOf(bitness)));
    }
    res := Done;
  }

  lemma KeptBelow(b: seq<Byte>, b': seq<Byte>)
    requires 32 <= |b| && b <= b'
    ensures b'[..24] == b[..24] && b'[28..|b|] == b[28..]
  {
  }

  method WriteTexts(out: Stream, keys: seq<string>) returns (at: seq<nat>)
    modifies out
    ensures out.bytes == old(out.bytes) + Texts(keys)
    ensures |at| == |keys| && forall k :: 0 <= k < |keys| ==> at[k] == TextPos(|old(out.bytes)|, keys, k)
  {
    hide LE, TextBytes;
    at := [];
    for k := 0 to |keys|
      invariant out.bytes == old(out.bytes) + Texts(keys[..k])
      invariant |at| == k && forall j :: 0 <= j < k ==> at[j] == TextPos(|old(out.bytes)|, keys, j)
    {
      assert keys[..k + 1][..k] == keys[..k];
      ghost var before := out.bytes;
      at := at + [|out.bytes|];
      WriteText(out, keys[k]);
      out.bytes := out.bytes + [0];
      assert out.bytes == before + (TextBytes(keys[k]) + [0]);
    }
    assert keys[..|keys|] == keys;
  }

  lemma NoRecords(start: nat, keys: seq<string>, vals: map<string, nat>, w: nat)
    requires forall s :: s in keys ==> s in vals
    ensures Records(start, keys, vals, w, 0) == []
  {
  }

  lemma NextRecord(start: nat, keys: seq<string>, vals: map<string, nat>, w: nat, k: nat)
    requires k < |keys| && forall s :: s in keys ==> s in vals
    ensures Records(start, keys, vals, w, k + 1)
         == Records(start, keys, vals, w, k) + (LE(ToU32(Position(TextPos(start, keys, k))), 4) + LE(vals[keys[k]], w))
  {
  }

  lemma TailIs(b: seq<Byte>, texts: seq<Byte>, records: seq<Byte>, b': seq<Byte>, offset: seq<Byte>)
    requires |b| >= 32 && |offset| == 4 && var c := b + texts + records; b' == c[..24] + offset + c[28..]
    ensures |b'| >= |b| && b'[..24] == b[..24] && b'[28..|b|] == b[28..]
    ensures Holds(b', |b|, texts) && Holds(b', |b| + |texts|, records) && Holds(b', 24, offset)
  {
    var c := b + texts + records;
    assert |b'| == |c| && forall i :: 0 <= i < |c| && !(24 <= i < 28) ==> b'[i] == c[i];
    assert b'[|b|..|b| + |texts|] == texts;
    assert b'[|b| + |texts|..] == records;
    assert b'[24..28] == offset;
  }

  lemma TrieIsTree(trie: Trie)
    requires trie.Valid()
    ensures Tree(trie.nodes, trie.Marks(), |trie.pal|) && trie.Marks().Keys == trie.nodes.Keys && Terminals(trie.Marks(), trie.reverse)
    ensures Top in trie.nodes && trie.nodes[Top] == trie.base && trie.Marks()[Top].None? && Closed(trie.Marks(), |trie.pal|)
  {
    hide ReverseOf;
    var nodes, marks, size := trie.nodes, trie.Marks(), |trie.pal|;
    forall p | p in nodes ensures Node(nodes, marks, size, p) {
      Linked(trie, p);
    }
  }

  lemma Linked(trie: Trie, p: Path)
    requires trie.Valid() && p in trie.nodes
    ensures Node(trie.nodes, trie.Marks(), |trie.pal|, p)
  {
    hide ReverseOf, Terminals;
    assert trie.Links()[p] == trie.nodes[p].tiers;
  }

  /** Patching the header leaves the tables and sets the number read there. */
  lemma Patched(b: seq<Byte>, b': seq<Byte>, w: nat, size: nat, marks: Marked, offs: Offsets)
    requires AllWritten(b, w, size, marks, offs, Top) && 32 <= |b| <= |b'| && b[32..] == b'[32..|b|]
    ensures AllWritten(b', w, size, marks, offs, Top)
  {
    hide Written;
    forall q | q in marks && Below(Top, q) && marks[q].None? ensures Written(b', w, size, marks, offs, q) {
      WrittenPlace(b, w, size, marks, offs, q);
      WrittenKept(b, b', w, size, marks, offs, offs, q);
    }
  }

  lemma NumberPatched(b: seq<Byte>, at: nat, x: I32)
    requires 0 <= x && Holds(b, at, LE(ToU32(x), 4))
    ensures NumAt(b, at, 4) == x
  {
    hide NumAt, LE, Pow256;
    FitsWord(x);
    NumAtLE(b, at, x, 4);
  }

  /** After the tables: the offsets of the base table and of the palette, the palette, the rest. */
  method WriteRest(out: Stream, pal: seq<char>, unencodable: map<string, nat>, keys: seq<string>, bitness: nat, base: I32)
    returns (res: Outcome)
    requires |out.bytes| >= 32 && forall s :: s in keys ==> s in unencodable
    modifies out
    ensures bitness <= 1 ==> res.Done?
    ensures Framed(old(out.bytes), out.bytes, pal, base)
    ensures bitness <= 1 ==> Tail(out.bytes, |old(out.bytes)| + |pal|, keys, unencodable, WidthOf(bitness))
  {
    hide LE, TextBytes, Tail;
    ghost var b := out.bytes;
    var at := |out.bytes|;
    Patch(out, 12, base);
    Patch(out, 16, Position(at));
    ghost var b1 := out.bytes;
    WriteText(out, pal);
    ghost var b2 := out.bytes;
    res := WriteUnencodable(out, unencodable, keys, bitness);
    FramedIs(b, b1, b2, out.bytes, pal, base);
  }

  ghost predicate Framed(b: seq<Byte>, b': seq<Byte>, pal: seq<char>, base: I32) {
    && 32 <= |b| <= |b'| && b'[..12] == b[..12] && b'[20..24] == b[20..24] && b'[28..|b|] == b[28..]
    && Holds(b', 12, LE(ToU32(base), 4)) && Holds(b', 16, LE(ToU32(Position(|b|)), 4)) && Holds(b', |b|, TextBytes(pal))
  }

  lemma FramedIs(b: seq<Byte>, b1: seq<Byte>, b2: seq<Byte>, b3: seq<Byte>, pal: seq<char>, base: I32)
    requires |b| >= 32
    requires b1 == b[..12] + LE(ToU32(base), 4) + LE(ToU32(Position(|b|)), 4) + b[20..]
    requires b2 == b1 + TextBytes(pal) && |b2| <= |b3| && b3[..24] == b2[..24] && b3[28..|b2|] == b2[28..]
    ensures Framed(b, b3, pal, base)
  {
    hide LE, TextBytes;
    forall i | 0 <= i < |b2| && !(24 <= i < 28) ensures b3[i] == b2[i] {
      if i < 24 {
        assert b3[i] == b3[..24][i];
      } else {
        assert b3[i] == b3[28..|b2|][i - 28];
      }
    }
    assert b3[12..16] == LE(ToU32(base), 4);
    assert b3[16..20] == LE(ToU32(Position(|b|)), 4);
    assert b3[|b|..|b2|] == TextBytes(pal);
  }

  /** Everything a reader needs is in place. */
  lemma FileIs(b: seq<Byte>, b': seq<Byte>, w: nat, pal: seq<char>, marks: Marked, offs: Offsets)
    requires Closed(marks, |pal|) && marks.Keys == offs.Keys && Top in marks && marks[Top].None? && (w == 4 || w == 8)
    requires AllWritten(b, w, |pal|, marks, offs, Top) && Framed(b, b', pal, offs[Top]) && |b'| < 0x8000_0000
    ensures Image(b', w, |pal|, marks, offs) && Holds(b', NumAt(b', 16, 4), TextBytes(pal))
  {
    hide AllWritten, LE, TextBytes, NumAt;
    assert b'[28..|b|][4..] == b'[32..|b|] && b[28..][4..] == b[32..];
    Patched(b, b', w, |pal|, marks, offs);
    AllBelowTop(Top);
    assert Written(b, w, |pal|, marks, offs, Top) by { WrittenTop(b, w, |pal|, marks, offs); }
    NumberPatched(b', 12, offs[Top]);
    PositionSmall(|b|);
    NumberPatched(b', 16, Position(|b|));
  }

  lemma WrittenTop(b: seq<Byte>, w: nat, size: nat, marks: Marked, offs: Offsets)
    requires AllWritten(b, w, size, marks, offs, Top) && Top in marks && marks[Top].None?
    ensures Written(b, w, size, marks, offs, Top)
  {
    AllBelowTop(Top);
  }

  /** The first 32 bytes, in which the offsets are still to be filled in. */
  function Opening(h: seq<Byte>, size: nat, count: nat): (b: seq<Byte>)
    ensures |b| == |h| + 20
  {
    h + LE(0, 4) + LE(0, 4) + LE(size, 4) + LE(0, 4) + LE(count, 4)
  }

  /**
    The written file: the base table's offset stands at byte 12 and leads, index by index, to the
    value of every symbol in the trie and to 0 for every other name; the palette's offset stands
    at byte 16 and leads to the palette.
   */
  method Write(trie: Trie, out: Stream, ver: nat, endian: nat, bitness: nat) returns (res: Outcome, ghost keys: seq<string>)
    requires trie.Valid() && out.bytes == []
    modifies out, trie.nodes.Values`fileOffset
    ensures trie.Symbols() == old(trie.Symbols())
    ensures bitness <= 1 && |out.bytes| < 0x8000_0000 ==> res.Done?
    ensures res.Done? && bitness <= 1 && |out.bytes| < 0x8000_0000 ==>
              && Holds(out.bytes, 0, Header(ver, endian, bitness))
              && NumAt(out.bytes, 20, 4) == |trie.pal| && Holds(out.bytes, NumAt(out.bytes, 16, 4), TextBytes(trie.pal))
              && NumAt(out.bytes, 28, 4) == |keys| && NoDup(keys) && (forall s :: s in keys <==> s in trie.unencodable)
              && Lists(out.bytes, WidthOf(bitness), keys, trie.unencodable)
              && Answers(out.bytes, WidthOf(bitness), trie.reverse, trie.Symbols())
  {
    hide LE, Header, Opening, TextBytes, Tail, Lists, Answers, NoDup, Closed, AllWritten, Framed, Holds;
    hide Shape, Terminals, ReverseOf, NumAt, SymbolsOf, OffsetsOf, Trie.Links, Trie.Marks;
    ghost var marks := trie.Marks();
    keys := [];
    res := WriteTables(trie, out, ver, endian, bitness);
    if !res.Done? {
      return;
    }
    ghost var b, offs := out.bytes, OffsetsOf(trie.nodes);
    var names := KeysOf(trie.unencodable);
    keys := names;
    res := WriteRest(out, trie.pal, trie.unencodable, names, bitness, trie.base.fileOffset);
    HeaderKept(Header(ver, endian, bitness), b, out.bytes, trie.pal, |trie.unencodable|, offs[Top]);
    if bitness <= 1 && |out.bytes| < 0x8000_0000 {
      Complete(Header(ver, endian, bitness), b, out.bytes, WidthOf(bitness), trie.pal, trie.reverse, marks, offs, keys, trie.unencodable);
    }
  }

  /** The opening and the tables of all tiers. */
  method WriteTables(trie: Trie, out: Stream, ver: nat, endian: nat, bitness: nat) returns (res: Outcome)
    requires trie.Valid() && out.bytes == []
    modifies out, trie.nodes.Values`fileOffset
    ensures bitness <= 1 && |out.bytes| < 0x8000_0000 ==> res.Done?
    ensures Opening(Header(ver, endian, bitness), |trie.pal|, |trie.unencodable|) <= out.bytes
    ensures trie.Marks() == old(trie.Marks()) && Terminals(trie.Marks(), trie.reverse) && Closed(trie.Marks(), |trie.pal|)
    ensures trie.Marks().Keys == OffsetsOf(trie.nodes).Keys && Top in trie.Marks() && trie.Marks()[Top].None?
    ensures OffsetsOf(trie.nodes)[Top] == trie.base.fileOffset && trie.reverse == ReverseOf(trie.pal)
    ensures res.Done? && |out.bytes| < 0x8000_0000 ==>
              AllWritten(out.bytes, WidthOf(bitness), |trie.pal|, trie.Marks(), OffsetsOf(trie.nodes), Top)
  {
    hide Header, Opening, AllWritten, Tree, SameOutside, Shape, Terminals, ReverseOf, Closed, WidthOf;
    TrieIsTree(trie);
    out.bytes := Opening(Header(ver, endian, bitness), |trie.pal|, |trie.unencodable|);
    res := PostOrderTraverse(out, trie.base, bitness, trie.nodes, trie.Marks(), |trie.pal|, Top);
  }

  /** Tables, palette and names together: the file is complete. */
  lemma Complete(h: seq<Byte>, b: seq<Byte>, b': seq<Byte>, w: nat, pal: seq<char>, reverse: map<char, nat>, marks: Marked,
                 offs: Offsets, keys: seq<string>, vals: map<string, nat>)
    requires Closed(marks, |pal|) && marks.Keys == offs.Keys && Top in marks && marks[Top].None? && (w == 4 || w == 8)
    requires AllWritten(b, w, |pal|, marks, offs, Top) && Framed(b, b', pal, offs[Top]) && |b'| < 0x8000_0000
    requires |h| == 12 && Opening(h, |pal|, |keys|) <= b && reverse == ReverseOf(pal) && Terminals(marks, reverse)
    requires (forall s :: s in keys ==> s in vals) && Tail(b', |b| + |pal|, keys, vals, w)
    ensures NumAt(b', 20, 4) == |pal| && Holds(b', NumAt(b', 16, 4), TextBytes(pal)) && NumAt(b', 28, 4) == |keys|
    ensures Lists(b', w, keys, vals) && Answers(b', w, reverse, SymbolsOf(marks))
  {
    hide Closed, AllWritten, Framed, Opening, ReverseOf, Terminals, Tail, NumAt, Holds, TextBytes, Lists, Answers, SymbolsOf, Image;
    FileIs(b, b', w, pal, marks, offs);
    Sizes(h, b, b', pal, offs[Top], keys, vals, w);
    AllListed(b', |b| + |pal|, keys, vals, w);
    AllFound(b', w, pal, reverse, marks, offs);
  }

  /** The file answers every name the palette can spell as the mapping of symbols does. */
  ghost predicate Answers(b: seq<Byte>, w: nat, reverse: map<char, nat>, symbols: map<Path, nat>) {
    forall name :: Encodable(reverse, name) && NulFree(name) ==>
      var q := EndOf(reverse, name); Lookup(b, w, reverse, name) == if q in symbols then Truncate(symbols[q], w) else 0
  }

  /** The table at the end of the file lists the given names with their values. */
  ghost predicate Lists(b: seq<Byte>, w: nat, keys: seq<string>, vals: map<string, nat>)
    requires forall s :: s in keys ==> s in vals
  {
    forall k :: 0 <= k < |keys| ==> ListedAt(b, w, k, keys[k], vals[keys[k]])
  }

  lemma AllFound(b: seq<Byte>, w: nat, pal: seq<char>, reverse: map<char, nat>, marks: Marked, offs: Offsets)
    requires reverse == ReverseOf(pal) && Image(b, w, |pal|, marks, offs) && Terminals(marks, reverse)
    ensures Answers(b, w, reverse, SymbolsOf(marks))
  {
    hide Image, Terminals, SymbolsOf, ReverseOf, Lookup, Truncate, NumAt, PathOf;
    forall name | Encodable(reverse, name) && NulFree(name)
      ensures var q := EndOf(reverse, name);
              Lookup(b, w, reverse, name) == if q in SymbolsOf(marks) then Truncate(SymbolsOf(marks)[q], w) else 0
    {
      LookupFinds(b, w, pal, reverse, marks, offs, name);
    }
  }

  lemma AllListed(b: seq<Byte>, start: nat, keys: seq<string>, vals: map<string, nat>, w: nat)
    requires (forall s :: s in keys ==> s in vals) && Tail(b, start, keys, vals, w) && |b| < 0x8000_0000
    ensures Lists(b, w, keys, vals)
  {
    hide Tail, ListedAt;
    forall k | 0 <= k < |keys| ensures ListedAt(b, w, k, keys[k], vals[keys[k]]) {
      TailLists(b, start, keys, vals, w, k);
    }
  }

  lemma HeaderKept(h: seq<Byte>, b: seq<Byte>, b': seq<Byte>, pal: seq<char>, count: nat, base: I32)
    requires |h| == 12 && Opening(h, |pal|, count) <= b && Framed(b, b', pal, base)
    ensures Holds(b', 0, h) && |b| <= |b'|
  {
    hide LE, TextBytes;
    assert Opening(h, |pal|, count)[..12] == h;
  }

  /** The sizes of the palette and of the table of names, as the header gives them. */
  lemma Sizes(h: seq<Byte>, b: seq<Byte>, b': seq<Byte>, pal: seq<char>, base: I32, keys: seq<string>, vals: map<string, nat>, w: nat)
    requires |h| == 12 && Opening(h, |pal|, |keys|) <= b && Framed(b, b', pal, base)
    requires (forall s :: s in keys ==> s in vals) && Tail(b', |b| + |pal|, keys, vals, w) && |b'| < 0x8000_0000
    ensures NumAt(b', 20, 4) == |pal| && NumAt(b', 28, 4) == |keys|
  {
    hide LE, TextBytes, NumAt, Records, Pow256, Texts;
    ManyTexts(keys);
    var pal', keys' := LE(|pal|, 4), LE(|keys|, 4);
    SizesHeld(h, LE(0, 4), pal', keys', b);
    assert Holds(b', 20, pal');
    assert b'[28..|b|][..4] == b'[28..32] && b[28..][..4] == b[28..32];
    FitsWord(|pal|);
    NumAtLE(b', 20, |pal|, 4);
    FitsWord(|keys|);
    NumAtLE(b', 28, |keys|, 4);
  }

  lemma SizesHeld(h: seq<Byte>, zero: seq<Byte>, pal: seq<Byte>, keys: seq<Byte>, b: seq<Byte>)
    requires |h| == 12 && |zero| == |pal| == |keys| == 4 && h + zero + zero + pal + zero + keys <= b
    ensures Holds(b, 20, pal) && Holds(b, 28, keys)
  {
    assert Holds(b, 0, h + zero + zero + pal + zero + keys);
    HoldsParts(b, 0, h + zero + zero + pal + zero, keys);
    HoldsParts(b, 0, h + zero + zero + pal, zero);
    HoldsParts(b, 0, h + zero + zero, pal);
  }

  lemma {:induction false} ManyTexts(keys: seq<string>)
    ensures |keys| <= |Texts(keys)|
  {
    hide TextBytes;
    if keys != [] {
      ManyTexts(keys[..|keys| - 1]);
    }
  }

  // ------------------------------------------------------------ from symbols to file

  datatype Add = Add(name: string, val: nat, overwrite: bool)

  /** The dictionary a run of additions stands for: the first value stays unless overwriting is asked for. */
  function Final(adds: seq<Add>): map<string, nat> {
    if adds == [] then map[]
    else
      var m, a := Final(adds[..|adds| - 1]), adds[|adds| - 1];
      if a.overwrite || a.name !in m then m[a.name := a.val] else m
  }

  ghost predicate SameAs(dict: map<string, nat>, pal: seq<char>, symbols: map<Path, nat>, unencodable: map<string, nat>) {
    var reverse := ReverseOf(pal);
    && (forall name :: Encodable(reverse, name) && NulFree(name) ==>
          && (name in dict <==> EndOf(reverse, name) in symbols)
          && (name in dict ==> dict[name] == symbols[EndOf(reverse, name)]))
    && (forall name :: !Encodable(reverse, name) && NulFree(name) ==>
          && (name in dict <==> name in unencodable)
          && (name in dict ==> dict[name] == unencodable[name]))
    && (forall name :: name in dict ==> NulFree(name))
    && (forall name :: name in unencodable ==> NulFree(name) && !Encodable(reverse, name))
  }

  lemma SameStep(dict: map<string, nat>, pal: seq<char>, symbols: map<Path, nat>, unencodable: map<string, nat>,
                 name: string, val: nat)
    requires SameAs(dict, pal, symbols, unencodable) && NulFree(name)
    ensures Encodable(ReverseOf(pal), name) ==>
              && (name in dict <==> EndOf(ReverseOf(pal), name) in symbols)
              && SameAs(dict[name := val], pal, symbols[EndOf(ReverseOf(pal), name) := val], unencodable)
    ensures !Encodable(ReverseOf(pal), name) ==>
              && (name in dict <==> name in unencodable)
              && SameAs(dict[name := val], pal, symbols, unencodable[name := val])
  {
    hide ReverseOf, PathOf;
    var reverse := ReverseOf(pal);
    if Encodable(reverse, name) {
      forall n | Encodable(reverse, n) && EndOf(reverse, n) == EndOf(reverse, name) ensures n == name {
        EndInjective(pal, n, name);
      }
    }
  }

  lemma SameName(dict: map<string, nat>, pal: seq<char>, symbols: map<Path, nat>, unencodable: map<string, nat>, name: string)
    requires SameAs(dict, pal, symbols, unencodable) && NulFree(name) && Encodable(ReverseOf(pal), name)
    ensures name in dict <==> EndOf(ReverseOf(pal), name) in symbols
    ensures name in dict ==> dict[name] == symbols[EndOf(ReverseOf(pal), name)]
  {
  }

  lemma SameEmpty(pal: seq<char>)
    ensures SameAs(map[], pal, map[], map[])
  {
    hide ReverseOf, PathOf;
  }

  /** A run of additions to an empty trie. */
  method AddAll(palette: seq<char>, adds: seq<Add>) returns (trie: Trie)
    requires forall k :: 0 <= k < |adds| ==> NulFree(adds[k].name)
    ensures fresh(trie) && fresh(trie.nodes.Values) && trie.Valid() && trie.pal == palette
    ensures SameAs(Final(adds), palette, trie.Symbols(), trie.unencodable)
  {
    hide ReverseOf, Shape, Terminals, SymbolsOf, EndOf, Encodable, PathOf, SameAs;
    var chars := new Palette(palette);
    trie := new Trie(chars);
    SameEmpty(palette);
    for k := 0 to |adds|
      invariant fresh(trie) && fresh(trie.nodes.Values) && trie.Valid()
      invariant SameAs(Final(adds[..k]), palette, trie.Symbols(), trie.unencodable)
    {
      assert adds[..k + 1][..k] == adds[..k];
      SameStep(Final(adds[..k]), palette, trie.Symbols(), trie.unencodable, adds[k].name, adds[k].val);
      var added := trie.AddSymbol(adds[k].name, adds[k].val, adds[k].overwrite);
    }
    assert adds[..|adds|] == adds;
  }

  /**
    The file written after any run of additions answers every name the palette can spell as the
    dictionary does. The others are in the table of names, and read back from it as they are in the
    dictionary exactly if none of them is read back as another.
   */
  method Build(palette: seq<char>, adds: seq<Add>, ver: nat, endian: nat, bitness: nat)
    returns (bytes: seq<Byte>, res: Outcome, ghost keys: seq<string>)
    requires forall k :: 0 <= k < |adds| ==> NulFree(adds[k].name)
    ensures bitness <= 1 && |bytes| < 0x8000_0000 ==> res.Done?
    ensures res.Done? && bitness <= 1 && |bytes| < 0x8000_0000 ==>
              && Table(bytes, WidthOf(bitness), ReverseOf(palette), keys, Final(adds)) && NoDup(keys)
              && AgreesWith(bytes, WidthOf(bitness), ReverseOf(palette), Final(adds))
  {
    hide ReverseOf, Shape, Terminals, SymbolsOf, NumAt, SameAs, Table, AgreesWith, Final, NoDup, WidthOf;
    var out := new Stream;
    out.bytes := [];
    var trie := AddAll(palette, adds);
    res, keys := WriteFor(trie, out, ver, endian, bitness, Final(adds));
    bytes := out.bytes;
  }

  /** The file of a trie that agrees with a dictionary. */
  method WriteFor(trie: Trie, out: Stream, ver: nat, endian: nat, bitness: nat, ghost dict: map<string, nat>)
    returns (res: Outcome, ghost keys: seq<string>)
    requires trie.Valid() && out.bytes == [] && SameAs(dict, trie.pal, trie.Symbols(), trie.unencodable)
    modifies out, trie.nodes.Values`fileOffset
    ensures bitness <= 1 && |out.bytes| < 0x8000_0000 ==> res.Done?
    ensures res.Done? && bitness <= 1 && |out.bytes| < 0x8000_0000 ==>
              && Table(out.bytes, WidthOf(bitness), ReverseOf(trie.pal), keys, dict) && NoDup(keys)
              && AgreesWith(out.bytes, WidthOf(bitness), ReverseOf(trie.pal), dict)
  {
    hide ReverseOf, Shape, Terminals, SymbolsOf, NumAt, TextBytes, SameAs, Header, Holds, Lists, Answers;
    hide Table, AgreesWith, NoDup, WidthOf, Trie.Links, Trie.Marks;
    res, keys := Write(trie, out, ver, endian, bitness);
    if res.Done? && bitness <= 1 && |out.bytes| < 0x8000_0000 {
      Agreement(out.bytes, WidthOf(bitness), trie.pal, keys, dict, trie.Symbols(), trie.unencodable);
    }
  }

  /** What the file says of the names, next to what the dictionary says. */
  ghost predicate AgreesWith(b: seq<Byte>, w: nat, reverse: map<char, nat>, dict: map<string, nat>) {
    && (forall name :: Encodable(reverse, name) && NulFree(name) ==>
          Lookup(b, w, reverse, name) == if name in dict then Truncate(dict[name], w) else 0)
    && (ReadsNames(b, w, reverse, dict) <==> Clear(reverse, dict, w))
  }

  lemma Agreement(b: seq<Byte>, w: nat, pal: seq<char>, keys: seq<string>, dict: map<string, nat>, symbols: map<Path, nat>,
                  unencodable: map<string, nat>)
    requires SameAs(dict, pal, symbols, unencodable) && Answers(b, w, ReverseOf(pal), symbols)
    requires NumAt(b, 28, 4) == |keys| && (forall s :: s in keys <==> s in unencodable) && Lists(b, w, keys, unencodable)
    ensures Table(b, w, ReverseOf(pal), keys, dict) && AgreesWith(b, w, ReverseOf(pal), dict)
  {
    hide ReverseOf, Lookup, Truncate, EndOf, Encodable, ListedAt, SameAs, NumAt, ReadsNames, Clear, Lists, Table;
    var reverse := ReverseOf(pal);
    forall name | Encodable(reverse, name) && NulFree(name)
      ensures Lookup(b, w, reverse, name) == if name in dict then Truncate(dict[name], w) else 0
    {
      SameName(dict, pal, symbols, unencodable, name);
    }
    TableIs(b, w, pal, keys, dict, symbols, unencodable);
    NamesReadBack(b, w, reverse, keys, dict);
  }

  lemma TableIs(b: seq<Byte>, w: nat, pal: seq<char>, keys: seq<string>, dict: map<string, nat>, symbols: map<Path, nat>,
                unencodable: map<string, nat>)
    requires SameAs(dict, pal, symbols, unencodable)
    requires NumAt(b, 28, 4) == |keys| && (forall s :: s in keys <==> s in unencodable) && Lists(b, w, keys, unencodable)
    ensures Table(b, w, ReverseOf(pal), keys, dict)
  {
    hide ReverseOf, EndOf, Encodable, ListedAt, SameAs, NumAt, NulFree;
    var reverse := ReverseOf(pal);
    forall s | s in dict && !Encodable(reverse, s) ensures s in keys {
      OtherName(dict, pal, symbols, unencodable, s);
    }
    forall k | 0 <= k < |keys| ensures keys[k] in dict && !Encodable(reverse, keys[k]) && dict[keys[k]] == unencodable[keys[k]] {
      assert keys[k] in keys;
      OtherName(dict, pal, symbols, unencodable, keys[k]);
    }
  }

  lemma OtherName(dict: map<string, nat>, pal: seq<char>, symbols: map<Path, nat>, unencodable: map<string, nat>, name: string)
    requires SameAs(dict, pal, symbols, unencodable)
    ensures name in dict && !Encodable(ReverseOf(pal), name) <==> name in unencodable
    ensures name in unencodable ==> dict[name] == unencodable[name]
  {
    hide ReverseOf, EndOf;
  }
}
