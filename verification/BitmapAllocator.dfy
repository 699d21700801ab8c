/**
  tload's physical memory manager (tload/memmgr.c): one bit per 4 KiB page of a 4 GiB
  space, in 0x8000 words of 32 bits, and a first-fit search over it.
 */
module BitmapAllocator {
  import opened Bits
  import opened Options

  const WORDS: nat := 0x8000
  const SPACE: nat := 0x1_0000_0000    // addresses are 32 bits wide
  const PAGES: nat := 0x10_0000        // pages in that space

  // --------------------------------------------- the words as a set of used pages

  ghost predicate WordsOk(words: seq<nat>) {
    |words| == WORDS && forall i :: 0 <= i < WORDS ==> words[i] < W32
  }

  /** The bit of page `p` is set. */
  ghost predicate Used(words: seq<nat>, p: nat)
    requires |words| == WORDS && p < PAGES
  {
    Bit(words[p / 32], p % 32)
  }

  /** `after` is `before` with the bit of page `p` set or cleared. */
  ghost predicate Changed(before: seq<nat>, after: seq<nat>, p: nat, used: bool) {
    && WordsOk(before) && WordsOk(after) && p < PAGES
    && forall q :: 0 <= q < PAGES ==> Used(after, q) == if q == p then used else Used(before, q)
  }

  lemma SetBit(words: seq<nat>, p: nat)
    requires WordsOk(words) && p < PAGES
    ensures Or(words[p / 32], Pow2(p % 32)) < W32
    ensures Changed(words, words[p / 32 := Or(words[p / 32], Pow2(p % 32))], p, true)
  {
    var i, k := p / 32, p % 32;
    var w := Or(words[i], Pow2(k));
    BitValue(k);
    Pow2Values();
    OrBound(words[i], Pow2(k), 32);
    var after := words[i := w];
    forall q | 0 <= q < PAGES
      ensures Used(after, q) == if q == p then true else Used(words, q)
    {
      if q / 32 == i {
        BitOr(words[i], Pow2(k), q % 32);
        BitPow2(k, q % 32);
      }
    }
  }

  lemma ClearBit(words: seq<nat>, p: nat)
    requires WordsOk(words) && p < PAGES
    ensures Pow2(p % 32) < W32 && And(words[p / 32], W32 - 1 - Pow2(p % 32)) < W32
    ensures Changed(words, words[p / 32 := And(words[p / 32], W32 - 1 - Pow2(p % 32))], p, false)
  {
    var i, k := p / 32, p % 32;
    BitValue(k);
    var mask := W32 - 1 - Pow2(k);
    AndBound(words[i], mask);
    var after := words[i := And(words[i], mask)];
    forall q | 0 <= q < PAGES
      ensures Used(after, q) == if q == p then false else Used(words, q)
    {
      if q / 32 == i {
        BitAnd(words[i], mask, q % 32);
        MaskBit(k, q % 32);
      }
    }
  }

  lemma MaskBit(k: nat, j: nat)
    requires k < 32 && j < 32 && Pow2(k) < W32
    ensures Bit(W32 - 1 - Pow2(k), j) == (j != k)
  {
    Pow2Values();
    BitComplement(Pow2(k), 32, j);
    BitPow2(k, j);
  }

  lemma BitValue(k: nat)
    requires k < 32
    ensures Pow2(k) < W32
  {
    Pow2Values();
    Pow2Mono(k, 31);
  }

  // ------------------------------------------------------------------- page ranges

  /** Page `k` of a range that starts at page `first`; addresses wrap at 4 GiB. */
  function RangePage(first: nat, k: nat): nat {
    if first + k >= PAGES then first + k - PAGES else first + k
  }

  /** The `count` pages from page `first` on are clear. */
  ghost predicate RangeClear(words: seq<nat>, first: nat, count: nat)
    requires |words| == WORDS && first < PAGES && count < PAGES
  {
    forall k :: 0 <= k < count ==> !Used(words, RangePage(first, k))
  }

  /** Exactly the pages from `first` on are set in addition. */
  ghost predicate RangeSet(before: seq<nat>, after: seq<nat>, first: nat, count: nat) {
    && WordsOk(before) && WordsOk(after)
    && forall q :: 0 <= q < PAGES ==> Used(after, q) == (Used(before, q) || first <= q < first + count)
  }

  /** The first and the last page are in use, so that no clear range wraps. */
  ghost predicate EndsUsed(words: seq<nat>) {
    WordsOk(words) && Used(words, 0) && Used(words, PAGES - 1)
  }

  lemma ClearRangeFits(words: seq<nat>, first: nat, count: nat)
    requires EndsUsed(words) && first < PAGES && 0 < count < PAGES && RangeClear(words, first, count)
    ensures 0 < first && first + count < PAGES
  {
    var k := if first + count >= PAGES then PAGES - 1 - first else 0;
    assert !Used(words, RangePage(first, k));
    assert RangePage(first, 0) == first;
  }

  /** The `j`-th multiple of `step`. */
  function Nth(step: nat, j: nat): nat {
    if j == 0 then 0 else Nth(step, j - 1) + step
  }

  lemma {:induction false} NthIsProduct(step: nat, j: nat)
    ensures Nth(step, j) == j * step
  {
    if j > 0 {
      NthIsProduct(step, j - 1);
    }
  }

  lemma {:induction false} NthMonotone(step: nat, i: nat, j: nat)
    requires i <= j
    ensures Nth(step, i) <= Nth(step, j)
    decreases j
  {
    if i < j {
      NthMonotone(step, i, j - 1);
    }
  }

  /** The lowest multiple of `step` pages from which `count` pages are clear, if any. */
  ghost predicate FirstFit(words: seq<nat>, count: nat, step: nat, which: Option<nat>)
    requires |words| == WORDS && count < PAGES
  {
    match which
    case None => forall j: nat :: Nth(step, j) < PAGES ==> !RangeClear(words, Nth(step, j), count)
    case Some(m) =>
      && Nth(step, m) < PAGES && RangeClear(words, Nth(step, m), count)
      && forall j: nat :: j < m && Nth(step, j) < PAGES ==> !RangeClear(words, Nth(step, j), count)
  }

  class Bitmap {
    const words: array<nat>

    constructor ()
      ensures words.Length == WORDS && fresh(words) && WordsOk(words[..])
      ensures forall p :: 0 <= p < PAGES ==> !Used(words[..], p)
    {
      words := new nat[WORDS](_ => 0);
      new;
      forall p | 0 <= p < PAGES ensures !Used(words[..], p) { ShrZero(p % 32); }
    }

    ghost predicate Valid()
      reads words
    {
      WordsOk(words[..])
    }

    method Set(addr: nat)
      requires Valid() && addr < SPACE
      modifies words
      ensures Changed(old(words[..]), words[..], addr / 0x1000, true)
    {
      PageSplit(addr);
      var i, setval := addr / 0x1000 / 32, Pow2(addr / 0x1000 % 32);
      SetBit(words[..], addr / 0x1000);
      words[i] := Or(words[i], setval);
    }

    method Unset(addr: nat)
      requires Valid() && addr < SPACE
      modifies words
      ensures Changed(old(words[..]), words[..], addr / 0x1000, false)
    {
      PageSplit(addr);
      var i, setval := addr / 0x1000 / 32, Pow2(addr / 0x1000 % 32);
      ClearBit(words[..], addr / 0x1000);
      words[i] := And(words[i], W32 - 1 - setval);
    }

    method IsSet(addr: nat) returns (b: bool)
      requires Valid() && addr < SPACE
      ensures b == Used(words[..], addr / 0x1000)
    {
      PageSplit(addr);
      var shifted := Shr(words[addr / 0x1000 / 32], addr / 0x1000 % 32);
      LowestBit(shifted);
      b := And(shifted, 1) == 1;
    }

    method IsFree(addr: nat, length: nat) returns (b: bool)
      requires Valid() && addr < SPACE && addr % 0x1000 == 0 && length < SPACE && length % 0x1000 == 0
      ensures b == RangeClear(words[..], addr / 0x1000, length / 0x1000)
    {
      ghost var first := addr / 0x1000;
      var offset := 0;
      ghost var k := 0;
      while offset < length
        invariant 0 <= offset <= length && offset == k * 0x1000 && 0 <= k <= length / 0x1000
        invariant forall j :: 0 <= j < k ==> !Used(words[..], RangePage(first, j))
      {
        var a := addr + offset;
        if a >= SPACE {
          a := a - SPACE;
        }
        WrappedPage(addr, k, a);
        var used := IsSet(a);
        if used {
          return false;
        }
        offset, k := offset + 0x1000, k + 1;
      }
      b := true;
    }

    /** Marks the pages of a range that does not wrap. */
    method MallocFixed(addr: nat, length: nat)
      requires Valid() && addr % 0x1000 == 0 && length % 0x1000 == 0 && addr + length < SPACE
      modifies words
      ensures RangeSet(old(words[..]), words[..], addr / 0x1000, length / 0x1000)
    {
      var cur := addr;
      ghost var k := 0;
      while cur < addr + length
        invariant addr <= cur <= addr + length && cur == addr + k * 0x1000 && 0 <= k <= length / 0x1000
        invariant RangeSet(old(words[..]), words[..], addr / 0x1000, k)
      {
        WrappedPage(addr, k, cur);
        Set(cur);
        cur, k := cur + 0x1000, k + 1;
      }
    }

    /**
      First fit over the multiples of `align`: the lowest one whose pages are all clear,
      or 0 when there is none.  The chosen range never wraps, and exactly its pages are
      marked.
     */
    method MallocAlign(length: nat, align: nat) returns (r: nat, ghost m: nat)
      requires Valid() && 0 < length < SPACE && 0 < align < SPACE && EndsUsed(words[..])
      modifies words
      ensures length % 0x1000 != 0 || align % 0x1000 != 0 ==> r == 0
      ensures r == 0 ==> words[..] == old(words[..])
      ensures length % 0x1000 == 0 && align % 0x1000 == 0 ==>
        FirstFit(old(words[..]), length / 0x1000, align / 0x1000, if r == 0 then None else Some(m))
      ensures r != 0 ==>
        && r == Nth(align / 0x1000, m) * 0x1000 && r + length < SPACE
        && RangeSet(old(words[..]), words[..], r / 0x1000, length / 0x1000)
    {
      hide RangeClear, RangeSet;
      m := 0;
      if length % 0x1000 != 0 || align % 0x1000 != 0 {
        return 0, m;
      }
      var test, found := 0, false;
      ghost var count, step := length / 0x1000, align / 0x1000;
      while true
        invariant test == Nth(step, m) * 0x1000 < SPACE
        invariant words[..] == old(words[..]) && !found
        invariant forall j: nat :: j < m && Nth(step, j) < PAGES ==> !RangeClear(words[..], Nth(step, j), count)
        decreases SPACE - test
      {
        PageMultiple(Nth(step, m), test);
        found := IsFree(test, length);
        if found {
          break;
        }
        if test >= SPACE - align {
          break;
        }
        test, m := test + align, m + 1;
      }
      if found {
        ClearRangeFits(words[..], Nth(step, m), count);
        MallocFixed(test, length);
        return test, m;
      }
      forall j: nat | Nth(step, j) < PAGES
        ensures !RangeClear(words[..], Nth(step, j), count)
      {
        if j > m {
          NthMonotone(step, m + 1, j);
        }
      }
      r := 0;
    }
  }

  lemma PageSplit(addr: nat)
    requires addr < SPACE
    ensures addr / 0x1000 < PAGES && addr / 0x1000 / 32 < WORDS && addr / 0x1000 % 32 < 32
  {
  }

  lemma LowestBit(x: nat)
    ensures And(x, 1) == 1 <==> x % 2 == 1
  {
    AndMask(x, 1);
  }

  lemma WrappedPage(addr: nat, k: nat, a: nat)
    requires addr % 0x1000 == 0 && addr < SPACE && k < PAGES
    requires a == addr + k * 0x1000 || a == addr + k * 0x1000 - SPACE
    requires a < SPACE
    ensures a / 0x1000 == RangePage(addr / 0x1000, k)
  {
    var f := addr / 0x1000;
    assert addr == f * 0x1000;
  }

  lemma PageMultiple(p: nat, a: nat)
    requires a == p * 0x1000
    ensures a % 0x1000 == 0 && a / 0x1000 == p
  {
  }
}
