/**
  The two-level physical page allocator (tysos/PhysMem.cs): a ring of small blocks of 4 KiB and a
  ring of large blocks of 2 MiB, cut from one region of memory.
 */
module PhysMem {
  import opened Bits
  import opened Ring

  datatype Block = Block(addr: nat, size: nat)

  predicate Apart(a: Block, b: Block) {
    a.addr + a.size <= b.addr || b.addr + b.size <= a.addr
  }

  ghost predicate AllApart(bs: seq<Block>) {
    forall i, j :: 0 <= i < j < |bs| ==> Apart(bs[i], bs[j])
  }

  /** A block of one of the two sizes, aligned to its size and inside the region. */
  predicate Fits(b: Block, lo: nat, hi: nat) {
    && lo <= b.addr && b.addr + b.size <= hi
    && ((b.size == 4096 && b.addr % 4096 == 0) || (b.size == 2097152 && b.addr % 2097152 == 0))
  }

  ghost predicate AllFit(bs: seq<Block>, lo: nat, hi: nat) {
    forall i :: 0 <= i < |bs| ==> Fits(bs[i], lo, hi)
  }

  function Sum(bs: seq<Block>): nat {
    if bs == [] then 0 else bs[0].size + Sum(bs[1..])
  }

  ghost function Blocks(addrs: seq<nat>, size: nat): (bs: seq<Block>)
    ensures |bs| == |addrs| && forall i :: 0 <= i < |bs| ==> bs[i] == Block(addrs[i], size)
  {
    seq(|addrs|, i requires 0 <= i < |addrs| => Block(addrs[i], size))
  }

  // ------------------------------------------------------------ lists of blocks

  lemma {:induction false} SumConcat(a: seq<Block>, b: seq<Block>)
    ensures Sum(a + b) == Sum(a) + Sum(b)
  {
    if a == [] {
      assert a + b == b;
    } else {
      assert (a + b)[1..] == a[1..] + b;
      SumConcat(a[1..], b);
    }
  }

  lemma {:induction false} SumSmall(addrs: seq<nat>)
    ensures Sum(Blocks(addrs, 4096)) == 4096 * |addrs|
  {
    if addrs != [] {
      assert Blocks(addrs, 4096)[1..] == Blocks(addrs[1..], 4096);
      SumSmall(addrs[1..]);
    }
  }

  lemma {:induction false} SumLarge(addrs: seq<nat>)
    ensures Sum(Blocks(addrs, 2097152)) == 2097152 * |addrs|
  {
    if addrs != [] {
      assert Blocks(addrs, 2097152)[1..] == Blocks(addrs[1..], 2097152);
      SumLarge(addrs[1..]);
    }
  }

  lemma Inserted(a: seq<Block>, b: seq<Block>, x: Block)
    requires AllApart(a + b) && forall i :: 0 <= i < |a + b| ==> Apart((a + b)[i], x)
    ensures AllApart(a + [x] + b)
  {
    var bs, r := a + b, a + [x] + b;
    forall i, j | 0 <= i < j < |r| ensures Apart(r[i], r[j]) {
      assert i < |a| ==> r[i] == bs[i];
      assert i > |a| ==> r[i] == bs[i - 1];
      assert j < |a| ==> r[j] == bs[j];
      assert j > |a| ==> r[j] == bs[j - 1];
    }
  }

  lemma MovedToEnd(a: seq<Block>, x: Block, b: seq<Block>)
    requires AllApart(a + [x] + b)
    ensures AllApart(a + b + [x])
  {
    var bs, r := a + [x] + b, a + b + [x];
    forall i, j | 0 <= i < j < |r| ensures Apart(r[i], r[j]) {
      var k := if i < |a| then i else i + 1;
      assert r[i] == bs[k];
      assert j < |a| ==> r[j] == bs[j];
      assert |a| <= j < |r| - 1 ==> r[j] == bs[j + 1];
      assert j == |r| - 1 ==> r[j] == bs[|a|];
    }
  }

  lemma Dropped(a: seq<Block>, b: seq<Block>, m: nat, n: nat)
    requires AllApart(a + b) && m <= |a| && n <= |b|
    ensures AllApart(a[..m] + b[..n])
  {
    var bs, r := a + b, a[..m] + b[..n];
    forall i, j | 0 <= i < j < |r| ensures Apart(r[i], r[j]) {
      assert r[i] == bs[if i < m then i else |a| + (i - m)];
      assert r[j] == bs[if j < m then j else |a| + (j - m)];
    }
  }

  // ------------------------------------------------------------ breaking up a large block

  /** The small blocks after the first in the large block at `a`, up to number `n`. */
  function Pieces(a: nat, n: nat): (s: seq<nat>)
    ensures |s| == n && forall i :: 0 <= i < n ==> s[i] == a + 4096 * (i + 1)
  {
    if n == 0 then [] else Pieces(a, n - 1) + [a + 4096 * n]
  }

  lemma LargeAligned(a: nat)
    requires a % 2097152 == 0
    ensures a % 4096 == 0
  {
    var q := a / 2097152;
    assert a == 4096 * (512 * q);
    Multiple(512 * q);
  }

  lemma Multiple(k: nat)
    ensures (4096 * k) % 4096 == 0
  {
  }

  lemma PieceFits(a: nat, i: nat, lo: nat, hi: nat)
    requires Fits(Block(a, 2097152), lo, hi) && i <= 511
    ensures Fits(Block(a + 4096 * i, 4096), lo, hi)
  {
    LargeAligned(a);
  }

  lemma Broken(a: nat, rest: seq<Block>, lo: nat, hi: nat)
    requires AllApart([Block(a, 2097152)] + rest) && AllFit([Block(a, 2097152)] + rest, lo, hi)
    ensures var r := Blocks(Pieces(a, 511), 4096) + rest + [Block(a, 4096)]; AllApart(r) && AllFit(r, lo, hi)
  {
    var bs, r := [Block(a, 2097152)] + rest, Blocks(Pieces(a, 511), 4096) + rest + [Block(a, 4096)];
    assert Fits(bs[0], lo, hi);
    forall i | 0 <= i < |r| ensures Fits(r[i], lo, hi) {
      if i < 511 {
        PieceFits(a, i + 1, lo, hi);
      } else if i < 511 + |rest| {
        assert r[i] == bs[i - 510];
      } else {
        PieceFits(a, 0, lo, hi);
      }
    }
    forall i, j | 0 <= i < j < |r| ensures Apart(r[i], r[j]) {
      BrokenApart(a, rest, i, j);
    }
  }

  lemma BrokenApart(a: nat, rest: seq<Block>, i: nat, j: nat)
    requires AllApart([Block(a, 2097152)] + rest) && i < j < 512 + |rest|
    ensures var r := Blocks(Pieces(a, 511), 4096) + rest + [Block(a, 4096)]; Apart(r[i], r[j])
  {
    var bs, r := [Block(a, 2097152)] + rest, Blocks(Pieces(a, 511), 4096) + rest + [Block(a, 4096)];
    assert 511 <= i < 511 + |rest| ==> r[i] == bs[i - 510] && Apart(bs[0], bs[i - 510]);
    assert 511 <= j < 511 + |rest| ==> r[j] == bs[j - 510] && Apart(bs[0], bs[j - 510]);
  }

  // ------------------------------------------------------------ cutting a region into blocks

  function Align(x: nat): (r: nat)
    ensures x <= r < x + 4096 && r % 4096 == 0
  {
    var rem := x % 4096;
    if rem == 0 then x else x - rem + 4096
  }

  /** The first multiple of 2 MiB at or after `x`. */
  function AlignLarge(x: nat): (r: nat)
    ensures x <= r < x + 2097152 && r % 2097152 == 0
  {
    var rem := x % 2097152;
    if rem == 0 then x else x - rem + 2097152
  }

  /** How many large blocks fit between `lo` and `hi`. */
  function LargeCount(lo: nat, hi: nat): nat {
    if AlignLarge(lo) <= hi then (hi - AlignLarge(lo)) / 2097152 else 0
  }

  /** The whole small blocks in `n` bytes. */
  function RoundDown(n: nat): nat {
    n - n % 4096
  }

  /** How many small blocks the rest is cut into. */
  function SmallCount(lo: nat, hi: nat): int
    requires lo <= hi
  {
    (RoundDown(hi - lo) - 2097152 * LargeCount(lo, hi)) / 4096
  }

  /** What a ring keeps of the values offered to it. */
  function Kept(s: seq<nat>, capacity: nat): seq<nat> {
    if |s| <= capacity then s else s[..capacity]
  }

  lemma KeptNext(s: seq<nat>, x: nat, capacity: nat)
    ensures Kept(s + [x], capacity) == if |Kept(s, capacity)| < capacity then Kept(s, capacity) + [x] else Kept(s, capacity)
  {
  }

  /** The blocks cut so far fill the region from `lo` to `x`. */
  ghost predicate Cut(s: seq<nat>, l: seq<nat>, lo: nat, x: nat) {
    var bs := Blocks(s, 4096) + Blocks(l, 2097152);
    AllApart(bs) && AllFit(bs, lo, x) && 4096 * |s| + 2097152 * |l| == x - lo
  }

  lemma CutSmall(s: seq<nat>, l: seq<nat>, lo: nat, x: nat)
    requires Cut(s, l, lo, x) && lo <= x && x % 4096 == 0
    ensures Cut(s + [x], l, lo, x + 4096) && (x + 4096) % 4096 == 0
  {
    var a, b, n := Blocks(s, 4096), Blocks(l, 2097152), Block(x, 4096);
    assert forall i :: 0 <= i < |a + b| ==> Fits((a + b)[i], lo, x);
    Inserted(a, b, n);
    assert Blocks(s + [x], 4096) == a + [n];
    var bs := a + [n] + b;
    forall i | 0 <= i < |bs| ensures Fits(bs[i], lo, x + 4096) {
      assert i < |a| ==> bs[i] == (a + b)[i];
      assert i > |a| ==> bs[i] == (a + b)[i - 1];
    }
  }

  lemma CutLarge(s: seq<nat>, l: seq<nat>, lo: nat, x: nat)
    requires Cut(s, l, lo, x) && lo <= x && x % 2097152 == 0
    ensures Cut(s, l + [x], lo, x + 2097152) && (x + 2097152) % 2097152 == 0
  {
    var a, b, n := Blocks(s, 4096), Blocks(l, 2097152), Block(x, 2097152);
    assert forall i :: 0 <= i < |a + b| ==> Fits((a + b)[i], lo, x);
    assert a + b + [] == a + b;
    Inserted(a + b, [], n);
    assert Blocks(s, 4096) + Blocks(l + [x], 2097152) == a + b + [n] + [];
    var bs := a + b + [n];
    forall i | 0 <= i < |bs| ensures Fits(bs[i], lo, x + 2097152) {
      assert i < |a + b| ==> bs[i] == (a + b)[i];
    }
  }

  /** Small blocks are cut up to the end, or up to where a large block could start. */
  method CutSmalls(ring: RingBuffer, from: nat, hi: nat, untilLarge: bool, ghost lo: nat, ghost s: seq<nat>, ghost l: seq<nat>)
    returns (x: nat, ghost s': seq<nat>)
    requires ring.Valid() && ring.contents == Kept(s, ring.mask)
    requires Cut(s, l, lo, from) && lo <= from && from % 4096 == 0
    modifies ring, ring.d
    ensures ring.Valid() && ring.contents == Kept(s', ring.mask)
    ensures Cut(s', l, lo, x) && from <= x && x % 4096 == 0 && (from <= hi ==> x <= hi) && (hi < from ==> x == from)
    ensures hi < x + 4096 || (untilLarge && x % 2097152 == 0)
    ensures untilLarge ==> x <= AlignLarge(from)
  {
    hide Cut, Kept;
    x, s' := from, s;
    while (!untilLarge || x % 2097152 != 0) && x + 4096 <= hi
      invariant ring.Valid() && ring.contents == Kept(s', ring.mask)
      invariant Cut(s', l, lo, x) && from <= x && x % 4096 == 0 && (from <= hi ==> x <= hi) && (hi < from ==> x == from)
      invariant untilLarge ==> x <= AlignLarge(from)
      decreases hi - x
    {
      CutSmall(s', l, lo, x);
      KeptNext(s', x, ring.mask);
      if untilLarge {
        BelowNextLarge(from, x);
      }
      var ok := ring.Enqueue(x);
      s' := s' + [x];
      x := x + 4096;
    }
  }

  lemma BelowNextLarge(from: nat, x: nat)
    requires from <= x <= AlignLarge(from) && x % 4096 == 0 && x % 2097152 != 0
    ensures x + 4096 <= AlignLarge(from)
  {
    var up := AlignLarge(from);
    LargeAligned(up);
    MultiplesApart(x, up);
  }

  lemma MultiplesApart(x: nat, y: nat)
    requires x % 4096 == 0 && y % 4096 == 0 && x < y
    ensures x + 4096 <= y
  {
  }

  method CutLarges(ring: RingBuffer, from: nat, hi: nat, ghost lo: nat, ghost s: seq<nat>) returns (x: nat, ghost l: seq<nat>)
    requires ring.Valid() && ring.contents == []
    requires Cut(s, [], lo, from) && lo <= from && from % 4096 == 0
    requires from % 2097152 == 0 || hi < from + 4096
    modifies ring, ring.d
    ensures ring.Valid() && ring.contents == Kept(l, ring.mask)
    ensures Cut(s, l, lo, x) && from <= x && x % 4096 == 0 && (from <= hi ==> x <= hi) && (hi < from ==> x == from)
    ensures hi < x + 2097152 && x == from + 2097152 * |l|
  {
    hide Cut, Kept;
    x, l := from, [];
    assert Kept([], ring.mask) == [] by { KeptNone(ring.mask); }
    while x + 2097152 <= hi
      invariant ring.Valid() && ring.contents == Kept(l, ring.mask)
      invariant Cut(s, l, lo, x) && from <= x && x % 4096 == 0 && (from <= hi ==> x <= hi) && (hi < from ==> x == from) && x == from + 2097152 * |l|
      invariant x % 2097152 == 0 || hi < x + 4096
      decreases hi - x
    {
      CutLarge(s, l, lo, x);
      KeptNext(l, x, ring.mask);
      LargeAligned(x + 2097152);
      var ok := ring.Enqueue(x);
      l := l + [x];
      x := x + 2097152;
    }
  }

  lemma KeptNone(capacity: nat)
    ensures Kept([], capacity) == []
  {
  }

  /** The free blocks and those handed out are apart, aligned, inside the region, and add up to `total`. */
  ghost predicate Sound(s: seq<nat>, l: seq<nat>, given: seq<Block>, lo: nat, hi: nat, total: nat) {
    var bs := Blocks(s, 4096) + Blocks(l, 2097152) + given;
    AllApart(bs) && AllFit(bs, lo, hi) && Sum(bs) == total && (lo == 0 ==> bs == [])
  }

  lemma SumParts(s: seq<nat>, l: seq<nat>, given: seq<Block>)
    ensures Sum(Blocks(s, 4096) + Blocks(l, 2097152) + given) == 4096 * |s| + 2097152 * |l| + Sum(given)
  {
    SumConcat(Blocks(s, 4096) + Blocks(l, 2097152), given);
    SumConcat(Blocks(s, 4096), Blocks(l, 2097152));
    SumSmall(s);
    SumLarge(l);
  }

  lemma {:induction false} SumOne(given: seq<Block>, b: Block)
    ensures Sum(given + [b]) == Sum(given) + b.size
  {
    SumConcat(given, [b]);
    assert [b][1..] == [];
  }

  lemma SoundAtFirst(s: seq<nat>, l: seq<nat>, m: nat, n: nat, lo: nat, x: nat, hi: nat)
    requires Cut(s, l, lo, x) && m <= |s| && n <= |l| && (lo == 0 ==> s == [] && l == []) && (x <= hi || (s == [] && l == []))
    ensures Sound(s[..m], l[..n], [], lo, hi, 4096 * m + 2097152 * n)
  {
    hide Fits, Apart, AllApart;
    var a, b := Blocks(s, 4096), Blocks(l, 2097152);
    Dropped(a, b, m, n);
    assert Blocks(s[..m], 4096) == a[..m] && Blocks(l[..n], 2097152) == b[..n];
    SumParts(s[..m], l[..n], []);
    var bs := a[..m] + b[..n] + [];
    assert bs == a[..m] + b[..n];
    if x <= hi {
      forall i | 0 <= i < |bs| ensures Fits(bs[i], lo, hi) {
        assert bs[i] == (a + b)[if i < m then i else |a| + (i - m)];
        FitsMore(bs[i], lo, x, hi);
      }
    }
  }

  lemma FitsMore(b: Block, lo: nat, x: nat, hi: nat)
    requires Fits(b, lo, x) && x <= hi
    ensures Fits(b, lo, hi)
  {
  }

  /** A small block is handed out. */
  lemma SmallGiven(s: seq<nat>, l: seq<nat>, given: seq<Block>, lo: nat, hi: nat, total: nat)
    requires Sound(s, l, given, lo, hi, total) && s != []
    ensures Sound(s[1..], l, given + [Block(s[0], 4096)], lo, hi, total) && s[0] > 0
  {
    hide Apart, AllApart;
    var x := Block(s[0], 4096);
    var rest := Blocks(s[1..], 4096) + Blocks(l, 2097152) + given;
    var bs := Blocks(s, 4096) + Blocks(l, 2097152) + given;
    assert bs == [] + [x] + rest;
    MovedToEnd([], x, rest);
    assert [] + rest + [x] == Blocks(s[1..], 4096) + Blocks(l, 2097152) + (given + [x]);
    SumParts(s, l, given);
    SumParts(s[1..], l, given + [x]);
    SumOne(given, x);
    assert Fits(bs[0], lo, hi);
    forall i | 0 <= i < |rest + [x]| ensures Fits((rest + [x])[i], lo, hi) {
      assert (rest + [x])[i] == bs[if i < |rest| then i + 1 else 0];
    }
  }

  /** A large block is handed out. */
  lemma LargeGiven(s: seq<nat>, l: seq<nat>, given: seq<Block>, lo: nat, hi: nat, total: nat)
    requires Sound(s, l, given, lo, hi, total) && l != []
    ensures Sound(s, l[1..], given + [Block(l[0], 2097152)], lo, hi, total) && l[0] > 0
  {
    var x := Block(l[0], 2097152);
    var a, b := Blocks(s, 4096), Blocks(l[1..], 2097152) + given;
    var bs := a + Blocks(l, 2097152) + given;
    assert bs == a + [x] + b;
    MovedToEnd(a, x, b);
    assert a + b + [x] == a + Blocks(l[1..], 2097152) + (given + [x]);
    SumParts(s, l, given);
    SumParts(s, l[1..], given + [x]);
    SumOne(given, x);
    assert Fits(bs[|a|], lo, hi);
    forall i | 0 <= i < |a + b + [x]| ensures Fits((a + b + [x])[i], lo, hi) {
      assert (a + b + [x])[i] == bs[if i < |a| then i else if i < |a + b| then i + 1 else |a|];
    }
  }

  /** A large block is broken up, its first piece handed out and the others kept. */
  lemma BrokenGiven(l: seq<nat>, given: seq<Block>, lo: nat, hi: nat, total: nat)
    requires Sound([], l, given, lo, hi, total) && l != []
    ensures Sound(Pieces(l[0], 511), l[1..], given + [Block(l[0], 4096)], lo, hi, total) && l[0] > 0
  {
    var a := l[0];
    var rest := Blocks(l[1..], 2097152) + given;
    var bs := Blocks([], 4096) + Blocks(l, 2097152) + given;
    assert bs == [Block(a, 2097152)] + rest;
    assert Fits(bs[0], lo, hi);
    Broken(a, rest, lo, hi);
    assert Blocks(Pieces(a, 511), 4096) + rest + [Block(a, 4096)]
        == Blocks(Pieces(a, 511), 4096) + Blocks(l[1..], 2097152) + (given + [Block(a, 4096)]);
    SumParts([], l, given);
    SumParts(Pieces(a, 511), l[1..], given + [Block(a, 4096)]);
    SumOne(given, Block(a, 4096));
  }

  lemma RingRoom(len: nat)
    requires len < 0x100_0000_0000
    ensures (len / 4096 * 8) / 8 == len / 4096 < 0x8000_0000 && (len / 2097152 * 8) / 8 == len / 2097152 < 0x8000_0000
  {
    Eights(len / 4096);
    Eights(len / 2097152);
  }

  lemma Eights(k: nat)
    ensures (k * 8) / 8 == k
  {
  }

  lemma NothingCut(lo: nat, capacity: nat)
    ensures Cut([], [], lo, lo) && Kept([], capacity) == []
  {
  }

  lemma NextLarge(from: nat, x: nat)
    requires from <= x <= AlignLarge(from) && x % 2097152 == 0
    ensures x == AlignLarge(from)
  {
    var up := AlignLarge(from);
    Turns(x, up);
  }

  lemma Turns(x: nat, y: nat)
    requires x % 2097152 == 0 && y % 2097152 == 0 && x <= y < x + 2097152
    ensures x == y
  {
  }

  lemma CountIs(lo: nat, hi: nat, x1: nat, x2: nat, n: nat)
    requires lo <= x1 <= hi && x1 <= AlignLarge(lo) && x1 % 4096 == 0 && (x1 % 2097152 == 0 || hi < x1 + 4096)
    requires x2 == x1 + 2097152 * n && x2 <= hi < x2 + 2097152
    ensures n == LargeCount(lo, hi)
  {
    var up := AlignLarge(lo);
    if x1 % 2097152 == 0 {
      NextLarge(lo, x1);
      Quotient(hi - up, n);
    } else {
      BelowNextLarge(lo, x1);
    }
  }

  lemma Quotient(x: nat, n: nat)
    requires 2097152 * n <= x < 2097152 * n + 2097152
    ensures x / 2097152 == n
  {
  }

  lemma RoundIs(n: nat, k: nat)
    requires 4096 * k <= n < 4096 * k + 4096
    ensures RoundDown(n) == 4096 * k
  {
  }

  /** How many blocks of each kind the region is cut into. */
  lemma CutIsAll(base: nat, len: nat, lo: nat, x1: nat, x2: nat, x3: nat, s: seq<nat>, l: seq<nat>)
    requires lo == Align(base + len / 4096 * 8 + len / 2097152 * 8)
    requires var hi := base + len;
             && Cut(s, l, lo, x3) && lo <= x1 <= x2 <= x3 && x1 <= AlignLarge(lo) && x1 % 4096 == 0
             && (x1 % 2097152 == 0 || hi < x1 + 4096) && x2 == x1 + 2097152 * |l| && hi < x2 + 2097152 && hi < x3 + 4096
             && if lo <= hi then x3 <= hi else x3 == lo
    ensures var hi := base + len;
            && (lo <= hi ==> |l| == LargeCount(lo, hi) && 4096 * |s| + 2097152 * |l| == RoundDown(hi - lo))
            && (lo > hi ==> s == [] && l == []) && (lo == 0 ==> s == [] && l == []) && (x3 <= hi || (s == [] && l == []))
  {
    hide AlignLarge, LargeCount, RoundDown;
    var hi := base + len;
    if lo <= hi {
      CountIs(lo, hi, x1, x2, |l|);
      RoundIs(hi - lo, |s| + 512 * |l|);
    }
    if lo == 0 {
      assert len < 4096;
    }
  }

  lemma SoundKept(s: seq<nat>, l: seq<nat>, cs: nat, cl: nat, lo: nat, x: nat, hi: nat)
    requires Cut(s, l, lo, x) && (lo == 0 ==> s == [] && l == []) && (x <= hi || (s == [] && l == []))
    ensures Sound(Kept(s, cs), Kept(l, cl), [], lo, hi, 4096 * |Kept(s, cs)| + 2097152 * |Kept(l, cl)|)
  {
    hide Cut, Sound;
    var m, n := |Kept(s, cs)|, |Kept(l, cl)|;
    assert Kept(s, cs) == s[..m] && Kept(l, cl) == l[..n];
    SoundAtFirst(s, l, m, n, lo, x, hi);
  }

  /** Where there is a large block, the small ring has room for its pieces. */
  lemma RoomForPieces(base: nat, len: nat, lo: nat, x: nat, s: seq<nat>, l: seq<nat>, cl: nat)
    requires lo == Align(base + len / 4096 * 8 + len / 2097152 * 8) && Cut(s, l, lo, x) && Kept(l, cl) != []
    requires x <= base + len || (s == [] && l == [])
    ensures Capacity(len / 4096) >= 511
  {
    hide AllApart, AllFit, Blocks;
    assert len >= 2097152;
    LargeRing(len / 4096);
  }

  lemma LargeRing(count: nat)
    requires count >= 512
    ensures Capacity(count) >= 511
  {
    BitLenBounds(count);
    assert Pow2(9) == 512;
    if BitLen(count) <= 9 {
      Pow2Mono(BitLen(count), 9);
    }
    Pow2Mono(9, BitLen(count) - 1);
  }

  /** Every block cut from the region is kept exactly when each ring has room for all blocks of its kind. */
  lemma NothingLost(s: seq<nat>, l: seq<nat>, cs: nat, cl: nat, lo: nat, hi: nat)
    requires lo <= hi && |l| == LargeCount(lo, hi) && 4096 * |s| + 2097152 * |l| == RoundDown(hi - lo)
    ensures |s| == SmallCount(lo, hi)
    ensures 4096 * |Kept(s, cs)| + 2097152 * |Kept(l, cl)| == RoundDown(hi - lo) <==> |s| <= cs && |l| <= cl
    ensures 4096 * |Kept(s, cs)| + 2097152 * |Kept(l, cl)| <= RoundDown(hi - lo)
  {
    hide LargeCount, RoundDown;
  }

  /** A region of three pages: two are left for blocks, and the small ring has room for one. */
  lemma ThreePages()
    ensures var lo := Align(12288 / 4096 * 8 + 12288 / 2097152 * 8);
            lo == 4096 && SmallCount(lo, 12288) == 2 && Capacity(12288 / 4096) == 1
  {
    assert HighestBit(3) == 1;
  }

  /** A region of 3 GiB from 0: 1532 large blocks are cut, and the large ring has room for 1023. */
  lemma ThreeGigabytes()
    ensures var len := 3221225472; var lo := Align(len / 4096 * 8 + len / 2097152 * 8);
            LargeCount(lo, len) == 1532 && Capacity(len / 2097152) == 1023
  {
    hide Capacity, AlignLarge;
    assert AlignLarge(6303744) == 8388608 by { NextLarge(6303744, 8388608); }
    RingOf1536();
  }

  lemma RingOf1536()
    ensures Capacity(1536) == 1023
  {
    assert BitLen(1536) == 11 by { assert BitLen(96) == 7; }
    assert Pow2(10) == 1024 by { assert Pow2(5) == 32; }
  }

  // ------------------------------------------------------------ the allocator

  class TwoLevelStack {
    const rbs: RingBuffer
    const rbl: RingBuffer
    const start: nat
    const end: nat
    ghost const small: seq<nat>     // every small block cut from the region, whether or not its ring took it
    ghost const large: seq<nat>
    ghost const total: nat
    ghost var given: seq<Block>     // every block handed out

    ghost predicate Valid()
      reads this, rbs, rbs.d, rbl, rbl.d
    {
      && rbs != rbl && rbs.d != rbl.d && rbs.Valid() && rbl.Valid()
      && Sound(rbs.contents, rbl.contents, given, start, end, total)
      && (rbl.contents != [] ==> rbs.mask >= 511)
    }

    /**
      The start of the region holds the two rings; the rest is cut into blocks, and each ring
      keeps the blocks it has room for.
     */
    constructor (base: nat, len: nat)
      requires len < 0x100_0000_0000 && base + len + 0x20_0000 < 0x1_0000_0000_0000_0000
      ensures Valid() && given == [] && fresh(rbs) && fresh(rbs.d) && fresh(rbl) && fresh(rbl.d)
      ensures start == Align(base + len / 4096 * 8 + len / 2097152 * 8) && end == base + len
      ensures rbs.contents == Kept(small, Capacity(len / 4096)) && rbl.contents == Kept(large, Capacity(len / 2097152))
      ensures start <= end ==> |large| == LargeCount(start, end) && 4096 * |small| + 2097152 * |large| == RoundDown(end - start)
      ensures start > end ==> small == [] && large == []
      ensures total == 4096 * |rbs.contents| + 2097152 * |rbl.contents|
      ensures start <= end ==>
                && |small| == SmallCount(start, end)
                && (total == RoundDown(end - start) <==>
                    SmallCount(start, end) <= Capacity(len / 4096) && LargeCount(start, end) <= Capacity(len / 2097152))
    {
      hide Kept, Cut, Sound, Capacity, LargeCount, SmallCount, AlignLarge, RoundDown, Align, SlotAt, Pow2;
      var slen, llen := len / 4096 * 8, len / 2097152 * 8;
      RingRoom(len);
      var s := new RingBuffer(slen);
      var l := new RingBuffer(llen);
      var lo, hi := Align(base + slen + llen), base + len;
      NothingCut(lo, s.mask);
      var x1, cut1 := CutSmalls(s, lo, hi, true, lo, [], []);
      var x2, cut2 := CutLarges(l, x1, hi, lo, cut1);
      var x3, cut3 := CutSmalls(s, x2, hi, false, lo, cut1, cut2);
      rbs, rbl, start, end := s, l, lo, hi;
      small, large, given := cut3, cut2, [];
      total := 4096 * |s.contents| + 2097152 * |l.contents|;
      CutIsAll(base, len, lo, x1, x2, x3, cut3, cut2);
      SoundKept(cut3, cut2, s.mask, l.mask, lo, x3, hi);
      if lo <= hi {
        NothingLost(cut3, cut2, s.mask, l.mask, lo, hi);
      }
      if l.contents != [] {
        RoomForPieces(base, len, lo, x3, cut3, cut2, l.mask);
      }
    }

    method FreeSpace() returns (n: nat)
      requires Valid()
      ensures n == 4096 * |rbs.contents| + 2097152 * |rbl.contents| && n + Sum(given) == total
    {
      SumParts(rbs.contents, rbl.contents, given);
      var s := rbs.Count();
      var l := rbl.Count();
      return s * 4096 + l * 2097152;
    }

    /** A block of at least `len` bytes, or 0: a small request is refused only when nothing is free. */
    method Allocate(len: nat) returns (r: nat)
      requires Valid()
      modifies this`given, rbs, rbs.d, rbl, rbl.d
      ensures Valid()
      ensures r == 0 ==> given == old(given) && rbs.contents == old(rbs.contents) && rbl.contents == old(rbl.contents)
      ensures len > 2097152 ==> r == 0
      ensures len <= 4096 ==>
                && (r == 0 <==> old(rbs.contents) == [] && old(rbl.contents) == [])
                && (r != 0 ==> given == old(given) + [Block(r, 4096)])
      ensures 4096 < len <= 2097152 ==>
                && (r == 0 <==> old(rbl.contents) == [])
                && (r != 0 ==> given == old(given) + [Block(r, 2097152)] && rbs.contents == old(rbs.contents))
    {
      hide Sound;
      if len > 2097152 {
        return 0;
      }
      if len <= 4096 {
        var ok, ret := rbs.Dequeue();
        if ok {
          SmallGiven(old(rbs.contents), rbl.contents, given, start, end, total);
          given := given + [Block(ret, 4096)];
          return ret;
        }
        ok, ret := rbl.Dequeue();
        if ok {
          BrokenGiven(old(rbl.contents), given, start, end, total);
          KeepPieces(ret);
          given := given + [Block(ret, 4096)];
          return ret;
        }
        return 0;
      }
      var ok, ret := rbl.Dequeue();
      if ok {
        LargeGiven(rbs.contents, old(rbl.contents), given, start, end, total);
        given := given + [Block(ret, 2097152)];
        return ret;
      }
      return 0;
    }

    /** Every piece but the first goes to the small ring, which has room for all of them. */
    method KeepPieces(ret: nat)
      requires rbs.Valid() && rbs.contents == [] && rbs.mask >= 511 && rbs != rbl && rbs.d != rbl.d && rbl.Valid()
      modifies rbs, rbs.d
      ensures rbs.Valid() && rbs.contents == Pieces(ret, 511)
    {
      var x := ret + 4096;
      ghost var n := 0;
      while x < ret + 2097152
        invariant rbs.Valid() && rbs.contents == Pieces(ret, n) && x == ret + 4096 * (n + 1) && n <= 511
      {
        var ok := rbs.Enqueue(x);
        n := n + 1;
        x := x + 4096;
      }
    }
  }
}
