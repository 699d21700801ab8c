/**
  The region list of the EFI loader (efiloader/vmem.c) and the search for a free range in it, with
  every sum wrapping at 64 bits as the code's do.
 */
module EfiRegions {
  import opened Options

  const START: nat := 0x1000_0000          // START_VMEM_ADDR
  const END: nat := 0x8000_0000_0000       // END_VMEM_ADDR
  const WORD: nat := 0x1_0000_0000_0000_0000

  datatype Status = Success | Aborted | OutOfResources | NoRoom

  datatype Region = Region(base: nat, length: nat, startHole: nat, src: nat)

  // --------------------------------------------------------------------- regions

  /** `base + length - 1` in 64 bits. */
  function LastByte(base: nat, length: nat): nat {
    if base + length == 0 then WORD - 1
    else if base + length - 1 >= WORD then base + length - 1 - WORD
    else base + length - 1
  }

  predicate Intersects(base: nat, length: nat, r: Region) {
    !(LastByte(r.base, r.length) < base) && !(r.base > LastByte(base, length))
  }

  /** A nonempty range that does not wrap around the address space. */
  predicate Proper(base: nat, length: nat) {
    0 < length && base + length <= WORD
  }

  predicate Overlap(base: nat, length: nat, r: Region) {
    base < r.base + r.length && r.base < base + length
  }

  /** For proper ranges the comparison of last bytes decides whether they share an address. */
  lemma IntersectsIsOverlap(base: nat, length: nat, r: Region)
    requires Proper(base, length) && Proper(r.base, r.length)
    ensures Intersects(base, length, r) <==> Overlap(base, length, r)
    ensures Overlap(base, length, r) <==> exists v :: InRange(v, base, length) && InRange(v, r.base, r.length)
  {
    if Overlap(base, length, r) {
      var v := if base < r.base then r.base else base;
      assert InRange(v, base, length) && InRange(v, r.base, r.length);
    }
  }

  predicate InRange(v: nat, base: nat, length: nat) {
    base <= v < base + length
  }

  ghost predicate AllProper(entries: seq<Region>) {
    forall i :: 0 <= i < |entries| ==> Proper(entries[i].base, entries[i].length)
  }

  ghost predicate Disjoint(entries: seq<Region>) {
    forall i, j :: 0 <= i < j < |entries| ==> !Overlap(entries[i].base, entries[i].length, entries[j])
  }

  /** The range shares no address with any region of the list. */
  ghost predicate Free(entries: seq<Region>, base: nat, length: nat) {
    forall i :: 0 <= i < |entries| ==> !Overlap(base, length, entries[i])
  }

  function RoundUp(a: nat): nat {
    if a % 0x1000 != 0 then a / 0x1000 * 0x1000 + 0x1000 else a
  }

  // --------------------------------------------------------------------- the search

  /** The first region of the list that intersects the range. */
  function FirstHit(entries: seq<Region>, base: nat, length: nat): (r: Option<nat>)
    ensures r.None? ==> forall i :: 0 <= i < |entries| ==> !Intersects(base, length, entries[i])
    ensures r.Some? ==> r.value < |entries| && Intersects(base, length, entries[r.value])
                        && forall i :: 0 <= i < r.value ==> !Intersects(base, length, entries[i])
  {
    if entries == [] then None
    else if Intersects(base, length, entries[0]) then Some(0)
    else match FirstHit(entries[1..], base, length) case None => None case Some(i) => Some(i + 1)
  }

  /** A 64-bit sum. */
  function Wrap(x: nat): nat
    requires x < 2 * WORD
  {
    if x >= WORD then x - WORD else x
  }

  /** The page after a region, in 64 bits. */
  function PageAfter(r: Region): nat
    requires Proper(r.base, r.length)
  {
    Wrap(RoundUp(Wrap(r.base + r.length)))
  }

  datatype Outcome = Found(base: nat) | Exhausted | Running

  /** The loop of `allocate_any` from a base on, for at most `steps` more turns. */
  ghost function Search(entries: seq<Region>, length: nat, base: nat, steps: nat): Outcome
    requires AllProper(entries) && base < WORD && length < WORD
    decreases steps
  {
    if Wrap(base + length) > END then Exhausted
    else
      match FirstHit(entries, base, length)
      case None => Found(base)
      case Some(i) =>
        if steps == 0 then Running
        else
          PageAfterIs(entries[i]);
          Search(entries, length, PageAfter(entries[i]), steps - 1)
  }

  /** What the search is for: a page-aligned base in range whose addresses are all free. */
  ghost predicate Fits(entries: seq<Region>, length: nat, b: nat) {
    START <= b && b % 0x1000 == 0 && b + length <= END && Free(entries, b, length)
  }

  /** The answer is the lowest such base, or that there is none. */
  ghost predicate FirstFit(entries: seq<Region>, length: nat, o: Outcome) {
    match o
    case Found(base) => Fits(entries, length, base) && forall b :: START <= b < base ==> !Fits(entries, length, b)
    case Exhausted => forall b :: !Fits(entries, length, b)
    case Running => false
  }

  lemma RoundUpIs(a: nat)
    ensures RoundUp(a) % 0x1000 == 0 && a <= RoundUp(a) < a + 0x1000
  {
  }

  lemma RoundUpTop(a: nat)
    requires a <= WORD
    ensures RoundUp(a) <= WORD
  {
    var k := a / 0x1000;
    assert a == k * 0x1000 + a % 0x1000;
    assert WORD == 0x10_0000_0000_0000 * 0x1000;
  }

  lemma BelowRoundUp(b: nat, a: nat)
    requires b % 0x1000 == 0 && b < RoundUp(a)
    ensures b < a
  {
    var k, m := b / 0x1000, a / 0x1000;
    assert b == k * 0x1000 && a == m * 0x1000 + a % 0x1000;
  }

  /** Unless it is the end of the address space, the page after a region is its rounded end. */
  lemma PageAfterIs(r: Region)
    requires Proper(r.base, r.length)
    ensures PageAfter(r) < WORD && PageAfter(r) % 0x1000 == 0
    ensures PageAfter(r) == if RoundUp(r.base + r.length) == WORD then 0 else RoundUp(r.base + r.length)
    ensures RoundUp(r.base + r.length) <= WORD
  {
    RoundUpIs(r.base + r.length);
    RoundUpTop(r.base + r.length);
  }

  /** For a range that does not wrap, even an empty one, a hit is an overlap. */
  lemma HitIsOverlap(entries: seq<Region>, base: nat, length: nat)
    requires AllProper(entries) && 0 < base + length <= WORD && (length == 0 ==> 0 < base)
    ensures forall i :: 0 <= i < |entries| ==> (Intersects(base, length, entries[i]) <==> Overlap(base, length, entries[i]))
    ensures FirstHit(entries, base, length).None? <==> Free(entries, base, length)
  {
  }

  /** Moving to the page after an overlapping region skips only bases that do not fit. */
  lemma Skip(entries: seq<Region>, base: nat, length: nat, i: nat)
    requires i < |entries| && Overlap(base, length, entries[i])
    ensures var next := RoundUp(entries[i].base + entries[i].length);
            base < next && next % 0x1000 == 0 && forall b :: base <= b < next && b % 0x1000 == 0 ==> !Free(entries, b, length)
  {
    var r := entries[i];
    var end := r.base + r.length;
    RoundUpIs(end);
    forall b | base <= b < RoundUp(end) && b % 0x1000 == 0 ensures !Free(entries, b, length) {
      BelowRoundUp(b, end);
      assert Overlap(b, length, r);
    }
  }

  // ----------------------------------------------------------- as long as nothing wraps

  /** The base at which the search, with sums that do not wrap, leaves the occupied ranges or the range for allocation. */
  ghost function Climb(entries: seq<Region>, length: nat, base: nat): (c: nat)
    requires AllProper(entries) && 0 < base
    ensures base <= c
    decreases if base <= END then END - base + 1 else 0
  {
    if base + length > END then base
    else
      HitIsOverlap(entries, base, length);
      match FirstHit(entries, base, length)
      case None => base
      case Some(i) =>
        Skip(entries, base, length, i);
        Climb(entries, length, RoundUp(entries[i].base + entries[i].length))
  }

  /** The climb passes no base that fits, and ends at one that does or past all that could. */
  lemma {:induction false} ClimbIs(entries: seq<Region>, length: nat, base: nat)
    requires AllProper(entries) && 0 < base && base % 0x1000 == 0
    ensures var c := Climb(entries, length, base);
            && c % 0x1000 == 0 && (forall b :: base <= b < c && b % 0x1000 == 0 ==> !Free(entries, b, length))
            && (c + length <= END ==> Free(entries, c, length))
            && (c != base ==> base + length <= END && c <= WORD)
    decreases if base <= END then END - base + 1 else 0
  {
    hide Intersects, Overlap, Free;
    if base + length <= END {
      HitIsOverlap(entries, base, length);
      match FirstHit(entries, base, length)
      case None =>
      case Some(i) =>
        Skip(entries, base, length, i);
        PageAfterIs(entries[i]);
        ClimbIs(entries, length, RoundUp(entries[i].base + entries[i].length));
    }
  }

  /** So a base fits if and only if the climb ends inside the range, and then that is the lowest. */
  lemma ClimbFits(entries: seq<Region>, length: nat)
    requires AllProper(entries)
    ensures var c := Climb(entries, length, START);
            && (c + length <= END ==> Fits(entries, length, c) && forall b :: START <= b < c ==> !Fits(entries, length, b))
            && (c + length > END ==> forall b :: !Fits(entries, length, b))
  {
    hide Climb, Free;
    ClimbIs(entries, length, START);
  }

  // ------------------------------------------------------------------ the ascents

  /** A hit moves the search up, or back to 0 when the region reaches the last page. */
  lemma HitMoves(entries: seq<Region>, base: nat, length: nat, i: nat)
    requires AllProper(entries) && i < |entries| && Intersects(base, length, entries[i])
    ensures var next, end := PageAfter(entries[i]), RoundUp(entries[i].base + entries[i].length);
            next < WORD && next % 0x1000 == 0 && base < end && (next == end || (next == 0 && end == WORD))
  {
    PageAfterIs(entries[i]);
    RoundUpIs(entries[i].base + entries[i].length);
  }

  /** Where the search from a base on ends, if it ends before it goes back; `Running` if it does go back. */
  ghost function Ascent(entries: seq<Region>, length: nat, base: nat): Outcome
    requires AllProper(entries) && base < WORD && length < WORD
    decreases WORD - base
  {
    if Wrap(base + length) > END then Exhausted
    else
      match FirstHit(entries, base, length)
      case None => Found(base)
      case Some(i) =>
        PageAfterIs(entries[i]);
        if PageAfter(entries[i]) > base then Ascent(entries, length, PageAfter(entries[i])) else Running
  }

  /** What the loop of `allocate_any` answers; `Running` if it never does. */
  ghost function Result(entries: seq<Region>, length: nat): Outcome
    requires AllProper(entries) && length < WORD
  {
    var first := Ascent(entries, length, START);
    if first == Running then Ascent(entries, length, 0) else first
  }

  lemma SearchStep(entries: seq<Region>, length: nat, base: nat, i: nat, steps: nat)
    requires AllProper(entries) && base < WORD && length < WORD && Wrap(base + length) <= END
    requires FirstHit(entries, base, length) == Some(i)
    ensures PageAfter(entries[i]) < WORD
    ensures Search(entries, length, base, steps + 1) == Search(entries, length, PageAfter(entries[i]), steps)
  {
    hide Intersects, FirstHit;
    PageAfterIs(entries[i]);
  }

  /** After `n` turns the search has ended with the ascent, or is back at 0. */
  ghost predicate Ascends(entries: seq<Region>, length: nat, base: nat, n: nat)
    requires AllProper(entries) && base < WORD && length < WORD
  {
    var o := Ascent(entries, length, base);
    if o != Running then forall steps: nat :: n <= steps ==> Search(entries, length, base, steps) == o
    else n > 0 && forall steps: nat ::
           Search(entries, length, base, steps) == if steps < n then Running else Search(entries, length, 0, steps - n)
  }

  lemma {:induction false} SearchAscends(entries: seq<Region>, length: nat, base: nat) returns (n: nat)
    requires AllProper(entries) && base < WORD && length < WORD
    ensures Ascends(entries, length, base, n)
    decreases WORD - base
  {
    hide Intersects;
    if Wrap(base + length) > END || FirstHit(entries, base, length).None? {
      n := 0;
    } else {
      var i := FirstHit(entries, base, length).value;
      HitMoves(entries, base, length, i);
      var next := PageAfter(entries[i]);
      if next > base {
        var m := SearchAscends(entries, length, next);
        n := m + 1;
        OneMore(entries, length, base, i, m);
      } else {
        n := 1;
        NotYet(entries, length, base, i);
        forall steps: nat | steps >= 1 ensures Search(entries, length, base, steps) == Search(entries, length, 0, steps - 1) {
          SearchStep(entries, length, base, i, steps - 1);
        }
      }
    }
  }

  lemma OneMore(entries: seq<Region>, length: nat, base: nat, i: nat, m: nat)
    requires AllProper(entries) && base < WORD && length < WORD && Wrap(base + length) <= END
    requires FirstHit(entries, base, length) == Some(i) && base < PageAfter(entries[i]) < WORD
    requires Ascends(entries, length, PageAfter(entries[i]), m)
    ensures Ascends(entries, length, base, m + 1)
  {
    hide Intersects, FirstHit, Search;
    var next, o := PageAfter(entries[i]), Ascent(entries, length, base);
    assert o == Ascent(entries, length, next);
    NotYet(entries, length, base, i);
    forall steps: nat | steps > 0 ensures Search(entries, length, base, steps) == Search(entries, length, next, steps - 1) {
      SearchStep(entries, length, base, i, steps - 1);
    }
  }

  lemma NotYet(entries: seq<Region>, length: nat, base: nat, i: nat)
    requires AllProper(entries) && base < WORD && length < WORD && Wrap(base + length) <= END
    requires FirstHit(entries, base, length) == Some(i)
    ensures Search(entries, length, base, 0) == Running
  {
  }

  /** From 0 to the top and back again, for ever. */
  lemma {:induction false} RoundAndRound(entries: seq<Region>, length: nat, n: nat, steps: nat)
    requires AllProper(entries) && length < WORD && Ascent(entries, length, 0) == Running && Ascends(entries, length, 0, n)
    ensures Search(entries, length, 0, steps) == Running
    decreases steps
  {
    hide Ascent, Search;
    if steps >= n {
      RoundAndRound(entries, length, n, steps - n);
    }
  }

  /**
    The search never ends if and only if the ascents from START and from 0 both reach the top;
    otherwise it ends with the answer of the first of them that does not.
   */
  lemma EndlessExactly(entries: seq<Region>, length: nat) returns (n: nat)
    requires AllProper(entries) && length < WORD
    ensures Result(entries, length) == Running <==>
              Ascent(entries, length, START) == Running && Ascent(entries, length, 0) == Running
    ensures Result(entries, length) == Running <==> forall steps: nat :: Search(entries, length, START, steps) == Running
    ensures Result(entries, length) != Running ==>
              forall steps: nat :: n <= steps ==> Search(entries, length, START, steps) == Result(entries, length)
  {
    hide Ascent, Search;
    n := SearchAscends(entries, length, START);
    if Ascent(entries, length, START) == Running {
      var m := SearchAscends(entries, length, 0);
      if Ascent(entries, length, 0) == Running {
        forall steps: nat ensures Search(entries, length, START, steps) == Running {
          if steps >= n {
            RoundAndRound(entries, length, m, steps - n);
          }
        }
      } else {
        n := n + m;
      }
    }
    assert Search(entries, length, START, n) == Result(entries, length);
  }

  /** What an ascent finds passed the test and was not hit. */
  lemma {:induction false} AscentFinds(entries: seq<Region>, length: nat, base: nat)
    requires AllProper(entries) && base < WORD && length < WORD && base % 0x1000 == 0
    ensures match Ascent(entries, length, base)
            case Found(b) => base <= b < WORD && b % 0x1000 == 0 && Wrap(b + length) <= END && FirstHit(entries, b, length).None?
            case _ => true
    decreases WORD - base
  {
    hide Intersects;
    if Wrap(base + length) <= END {
      match FirstHit(entries, base, length)
      case None =>
      case Some(i) =>
        PageAfterIs(entries[i]);
        if PageAfter(entries[i]) > base {
          AscentFinds(entries, length, PageAfter(entries[i]));
        }
    }
  }

  /** An ascent follows the climb until that ends or reaches the end of the address space. */
  lemma {:induction false} AscentClimbs(entries: seq<Region>, length: nat, base: nat)
    requires AllProper(entries) && length < WORD && 0 < base < WORD && base % 0x1000 == 0
    ensures var c := Climb(entries, length, base);
            c <= WORD && Ascent(entries, length, base) == if c < WORD then Ascent(entries, length, c) else Running
    decreases if base <= END then END - base + 1 else 0
  {
    hide Intersects, Overlap, RoundUp;
    if base + length <= END {
      HitIsOverlap(entries, base, length);
      match FirstHit(entries, base, length)
      case None =>
      case Some(i) =>
        Skip(entries, base, length, i);
        HitMoves(entries, base, length, i);
        PageAfterIs(entries[i]);
        var next := RoundUp(entries[i].base + entries[i].length);
        if next < WORD {
          AscentClimbs(entries, length, next);
        }
    }
  }

  // ------------------------------------------------------------------ once a sum wraps

  /** An ascent that goes on with a wrapped sum never gives up: it takes a range that wraps, or goes back. */
  lemma {:induction false} NeverExhausted(entries: seq<Region>, length: nat, base: nat)
    requires AllProper(entries) && length <= END && base < WORD <= base + length
    ensures match Ascent(entries, length, base)
            case Found(b) => base <= b < WORD <= b + length
            case Exhausted => false
            case Running => true
    decreases WORD - base
  {
    hide Intersects;
    match FirstHit(entries, base, length)
    case None =>
    case Some(i) =>
      PageAfterIs(entries[i]);
      if PageAfter(entries[i]) > base {
        NeverExhausted(entries, length, PageAfter(entries[i]));
      }
  }

  /** Where sums wrap, the bases below the page after a hit are hit as well. */
  lemma WrapSkip(base: nat, length: nat, r: Region)
    requires Proper(r.base, r.length) && length < WORD && base < WORD < base + length && Intersects(base, length, r)
    ensures forall b :: base <= b < RoundUp(r.base + r.length) && b < WORD && b % 0x1000 == 0 ==> Intersects(b, length, r)
  {
    forall b | base <= b < RoundUp(r.base + r.length) && b < WORD && b % 0x1000 == 0 ensures Intersects(b, length, r) {
      BelowRoundUp(b, r.base + r.length);
    }
  }

  ghost predicate Hit(entries: seq<Region>, base: nat, length: nat) {
    FirstHit(entries, base, length).Some?
  }

  /** Every page-aligned base from `base` on whose wrapped sum passes the loop's test is hit. */
  ghost predicate AllHit(entries: seq<Region>, length: nat, base: nat) {
    forall b :: base <= b < WORD && b % 0x1000 == 0 && b + length - WORD <= END ==> Hit(entries, b, length)
  }

  /** From a wrapping sum on, the ascent takes a base exactly when one is left for it to take by mistake. */
  lemma {:induction false} WrapAscent(entries: seq<Region>, length: nat, base: nat)
    requires AllProper(entries) && length < WORD && base < WORD < base + length && base % 0x1000 == 0
    ensures Ascent(entries, length, base).Found? <==> !AllHit(entries, length, base)
    decreases WORD - base
  {
    hide Intersects, FirstHit, RoundUp;
    if base + length - WORD <= END {
      match FirstHit(entries, base, length)
      case None => assert !Hit(entries, base, length);
      case Some(i) =>
        FirstHitIs(entries, base, length);
        HitMoves(entries, base, length, i);
        var next, end := PageAfter(entries[i]), RoundUp(entries[i].base + entries[i].length);
        forall b | base <= b < end && b < WORD && b % 0x1000 == 0 ensures Hit(entries, b, length) {
          WrapSkip(base, length, entries[i]);
          FirstHitIs(entries, b, length);
        }
        if next > base {
          WrapAscent(entries, length, next);
        }
    }
  }

  lemma FirstHitIs(entries: seq<Region>, base: nat, length: nat)
    ensures match FirstHit(entries, base, length)
            case None => forall i :: 0 <= i < |entries| ==> !Intersects(base, length, entries[i])
            case Some(i) => i < |entries| && Intersects(base, length, entries[i])
  {
  }

  // ------------------------------------------------------------------ when the answer is right

  /**
    The condition on list and length where the search does not go back. If the first sum does not
    wrap: the base at which the climb ends does not wrap either. If it does: the search is kept
    from taking any base by regions that lie across both ends of the wrapped range.
   */
  ghost predicate Unwrapped(entries: seq<Region>, length: nat)
    requires AllProper(entries) && length < WORD
  {
    if START + length < WORD then Climb(entries, length, START) + length < WORD
    else if START + length > WORD then AllHit(entries, length, START)
    else
      match FirstHit(entries, START, length)
      case None => false
      case Some(i) => PageAfter(entries[i]) > START && AllHit(entries, length, PageAfter(entries[i]))
  }

  /** The condition: a search that goes back to 0 has to give up there; one that does not is not to wrap. */
  ghost predicate Sane(entries: seq<Region>, length: nat)
    requires AllProper(entries) && length < WORD
  {
    if Ascent(entries, length, START) == Running then Ascent(entries, length, 0) == Exhausted else Unwrapped(entries, length)
  }

  /** A climb that ends without wrapping is the answer. */
  lemma ClimbAnswers(entries: seq<Region>, length: nat)
    requires AllProper(entries) && Climb(entries, length, START) + length < WORD
    ensures var c := Climb(entries, length, START);
            && Ascent(entries, length, START) == (if c + length <= END then Found(c) else Exhausted)
            && FirstFit(entries, length, Ascent(entries, length, START)) && Sane(entries, length)
  {
    hide Climb, FirstHit, Intersects, Overlap, Free;
    var c := Climb(entries, length, START);
    ClimbIs(entries, length, START);
    ClimbFits(entries, length);
    AscentClimbs(entries, length, START);
    if c + length <= END {
      HitIsOverlap(entries, c, length);
    }
  }

  /** A guard that is easy to check: no region that begins in the range, and no first sum, comes near the wrap. */
  lemma GuardIsSane(entries: seq<Region>, length: nat)
    requires AllProper(entries) && START + length < WORD
    requires forall i :: 0 <= i < |entries| && entries[i].base < END ==> RoundUp(entries[i].base + entries[i].length) + length < WORD
    ensures Sane(entries, length) && Result(entries, length) != Running
  {
    ClimbGuarded(entries, length, START);
    ClimbAnswers(entries, length);
  }

  lemma {:induction false} ClimbGuarded(entries: seq<Region>, length: nat, base: nat)
    requires AllProper(entries) && 0 < base && base + length < WORD
    requires forall i :: 0 <= i < |entries| && entries[i].base < END ==> RoundUp(entries[i].base + entries[i].length) + length < WORD
    ensures Climb(entries, length, base) + length < WORD
    decreases if base <= END then END - base + 1 else 0
  {
    hide Intersects, RoundUp;
    if base + length <= END {
      HitIsOverlap(entries, base, length);
      match FirstHit(entries, base, length)
      case None =>
      case Some(i) =>
        Skip(entries, base, length, i);
        ClimbGuarded(entries, length, RoundUp(entries[i].base + entries[i].length));
    }
  }

  /** If no region reaches into the last page, the search never goes back. */
  lemma {:induction false} BelowTopEnds(entries: seq<Region>, length: nat, base: nat)
    requires AllProper(entries) && length < WORD && base < WORD
    requires forall i :: 0 <= i < |entries| ==> RoundUp(entries[i].base + entries[i].length) < WORD
    ensures Ascent(entries, length, base) != Running
    decreases WORD - base
  {
    hide Intersects, RoundUp;
    if Wrap(base + length) <= END {
      match FirstHit(entries, base, length)
      case None =>
      case Some(i) =>
        HitMoves(entries, base, length, i);
        BelowTopEnds(entries, length, PageAfter(entries[i]));
    }
  }

  /** A list in which something fits is sane: the search finds it before any sum can wrap. */
  lemma FittingIsSane(entries: seq<Region>, length: nat, b: nat)
    requires AllProper(entries) && length < WORD && Fits(entries, length, b)
    ensures Sane(entries, length) && Result(entries, length) != Running
  {
    hide Climb, Ascent, Sane;
    ClimbFits(entries, length);
    ClimbAnswers(entries, length);
  }

  /** A search that takes a wrong base takes one whose range wraps, or one below the start. */
  ghost predicate Wrong(entries: seq<Region>, length: nat, o: Outcome) {
    o.Found? && (o.base < START || WORD <= o.base + length) && forall b :: !Fits(entries, length, b)
  }

  /** The first sum does not wrap, the search does not go back. */
  lemma RightClimbing(entries: seq<Region>, length: nat)
    requires AllProper(entries) && START + length < WORD && Ascent(entries, length, START) != Running
    ensures var o := Ascent(entries, length, START);
            if Unwrapped(entries, length) then FirstFit(entries, length, o) else Wrong(entries, length, o)
  {
    hide Climb, Ascent, FirstFit, Fits, Sane;
    var c := Climb(entries, length, START);
    ClimbFits(entries, length);
    if c + length < WORD {
      ClimbAnswers(entries, length);
    } else {
      ClimbIs(entries, length, START);
      AscentClimbs(entries, length, START);
      NeverExhausted(entries, length, c);
    }
  }

  /** The first sum wraps. */
  lemma RightWrapping(entries: seq<Region>, length: nat)
    requires AllProper(entries) && length < WORD <= START + length && Ascent(entries, length, START) != Running
    ensures var o := Ascent(entries, length, START);
            if Unwrapped(entries, length) then FirstFit(entries, length, o) else Wrong(entries, length, o)
  {
    hide Climb, AllHit, Intersects, RoundUp, FirstHit, Fits;
    assert forall b :: !Fits(entries, length, b) by { ClimbFits(entries, length); TooLong(entries, length); }
    AscentFinds(entries, length, START);
    if START + length > WORD {
      WrapAscent(entries, length, START);
    } else {
      FirstHitIs(entries, START, length);
      match FirstHit(entries, START, length)
      case None =>
      case Some(i) =>
        HitMoves(entries, START, length, i);
        if PageAfter(entries[i]) > START {
          WrapAscent(entries, length, PageAfter(entries[i]));
        }
    }
  }

  lemma TooLong(entries: seq<Region>, length: nat)
    requires AllProper(entries) && WORD <= START + length
    ensures Climb(entries, length, START) == START
  {
  }

  /** The search goes back: then nothing fits, and giving up is the right answer. */
  lemma RightGoingBack(entries: seq<Region>, length: nat)
    requires AllProper(entries) && length < WORD && Ascent(entries, length, START) == Running
    ensures forall b :: !Fits(entries, length, b)
    ensures var o := Ascent(entries, length, 0); o.Found? ==> Wrong(entries, length, o)
  {
    hide Climb, Ascent, FirstHit, Fits, Sane;
    ClimbFits(entries, length);
    if Climb(entries, length, START) + length < WORD {
      ClimbAnswers(entries, length);
    }
    AscentFinds(entries, length, 0);
    var o := Ascent(entries, length, 0);
    if o.Found? && START <= o.base && o.base + length < WORD {
      UnhitFits(entries, length, o.base);
      assert false;
    }
  }

  lemma UnhitFits(entries: seq<Region>, length: nat, b: nat)
    requires AllProper(entries) && START <= b && b % 0x1000 == 0 && b + length <= END && FirstHit(entries, b, length).None?
    ensures Fits(entries, length, b)
  {
    HitIsOverlap(entries, b, length);
  }

  /**
    The answer is the first fit if and only if list and length are sane. Otherwise nothing fits, and
    the search takes a range that wraps, or one below the start, or never ends.
   */
  lemma RightExactly(entries: seq<Region>, length: nat)
    requires AllProper(entries) && length < WORD
    ensures FirstFit(entries, length, Result(entries, length)) <==> Sane(entries, length)
    ensures !Sane(entries, length) ==>
              Result(entries, length) == Running || Wrong(entries, length, Result(entries, length))
  {
    hide Ascent, Unwrapped, Fits;
    if Ascent(entries, length, START) == Running {
      RightGoingBack(entries, length);
    } else if START + length < WORD {
      RightClimbing(entries, length);
    } else {
      RightWrapping(entries, length);
    }
  }

  /** Regions over the whole address space keep the search going round for ever. */
  lemma EndlessList()
    ensures var entries := [Region(START, WORD - START, 0, 0), Region(0, START, 0, 0)];
            AllProper(entries) && Result(entries, 0x1000) == Running
  {
    var entries := [Region(START, WORD - START, 0, 0), Region(0, START, 0, 0)];
    assert PageAfter(entries[0]) == 0 && PageAfter(entries[1]) == START;
    assert FirstHit(entries, START, 0x1000) == Some(0);
    assert entries[1..][0] == entries[1];
    assert FirstHit(entries, 0, 0x1000) == Some(1) by { assert FirstHit(entries[1..], 0, 0x1000) == Some(0); }
    assert Ascent(entries, 0x1000, START) == Running;
  }

  // ------------------------------------------------------------------ one turn of the loop

  lemma HitOf(entries: seq<Region>, base: nat, length: nat, r: Option<nat>)
    requires r.None? ==> forall i :: 0 <= i < |entries| ==> !Intersects(base, length, entries[i])
    requires r.Some? ==> r.value < |entries| && Intersects(base, length, entries[r.value])
                         && forall i :: 0 <= i < r.value ==> !Intersects(base, length, entries[i])
    ensures FirstHit(entries, base, length) == r
  {
    var h := FirstHit(entries, base, length);
    assert h.Some? && r.Some? ==> h.value <= r.value && r.value <= h.value;
  }

  /** One turn of the loop, in terms of the ascent it is in. */
  lemma Turn(entries: seq<Region>, length: nat, base: nat)
    requires AllProper(entries) && base < WORD && length < WORD
    ensures Wrap(base + length) > END ==> Ascent(entries, length, base) == Exhausted
    ensures Wrap(base + length) <= END ==>
              match FirstHit(entries, base, length)
              case None => Ascent(entries, length, base) == Found(base)
              case Some(i) =>
                var next := PageAfter(entries[i]);
                next < WORD && if next > base then Ascent(entries, length, base) == Ascent(entries, length, next)
                               else next == 0 && Ascent(entries, length, base) == Running
  {
    hide Intersects, RoundUp;
    match FirstHit(entries, base, length)
    case None =>
    case Some(i) => HitMoves(entries, base, length, i);
  }

  lemma FitIsDisjoint(entries: seq<Region>, length: nat, base: nat, src: nat)
    requires Fits(entries, length, base) && Disjoint(entries)
    ensures Disjoint(entries + [Region(base, length, 0, src)])
  {
  }
}
