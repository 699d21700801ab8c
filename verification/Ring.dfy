/**
  The ring buffer (tysos/collections/RingBuffer.cs), one call after the other. RingProtocol has the
  calls of several threads interleaved.
 */
module Ring {
  import opened Bits

  /** The position of the highest bit that is set; 0 when none is. */
  function HighestBit(count: nat): nat {
    if count == 0 then 0 else BitLen(count) - 1
  }

  /** How many entries a ring made over room for `count` values holds. */
  function Capacity(count: nat): nat {
    Pow2(HighestBit(count)) - 1
  }

  /** A ring holds at least half, and less than all, of the values there is room for. */
  lemma CapacityIs(count: nat)
    ensures Capacity(0) == 0
    ensures count > 0 ==> Capacity(count) < count <= 2 * Capacity(count) + 1
  {
    if count > 0 {
      BitLenBounds(count);
    }
  }

  lemma {:induction false} LowNext(x: nat, k: nat)
    ensures Low(x + Pow2(k), k) == Low(x, k)
  {
    if k > 0 {
      var p := Pow2(k - 1);
      assert Pow2(k) == 2 * p;
      Halves(x, p);
      LowNext(x / 2, k - 1);
    }
  }

  lemma Halves(x: nat, p: nat)
    ensures (x + 2 * p) / 2 == x / 2 + p && (x + 2 * p) % 2 == x % 2
  {
  }

  /** Positions less than a full turn apart have different slots. */
  lemma {:induction false} SlotsApart(x: nat, y: nat, k: nat)
    requires x < y < x + Pow2(k)
    ensures Low(x, k) != Low(y, k)
  {
    if k > 0 {
      if Low(x, k) == Low(y, k) {
        SameParity(x, y, k);
        SlotsApart(x / 2, y / 2, k - 1);
      }
    }
  }

  lemma SameParity(x: nat, y: nat, k: nat)
    requires k > 0 && x < y < x + Pow2(k) && Low(x, k) == Low(y, k)
    ensures x / 2 < y / 2 < x / 2 + Pow2(k - 1) && Low(x / 2, k - 1) == Low(y / 2, k - 1)
  {
    var p := Pow2(k - 1);
    assert Pow2(k) == 2 * p;
  }

  /** The slot of a position. */
  function SlotAt(x: nat, mask: nat): (i: nat)
    ensures i <= mask
  {
    WithinMask(x, mask);
    And(x, mask)
  }

  lemma SlotIs(x: nat, bits: nat)
    ensures SlotAt(x, Pow2(bits) - 1) == Low(x, bits)
  {
    AndMask(x, bits);
  }

  /** The slots of two positions agree exactly when the positions are a full turn apart, or equal. */
  lemma SlotsAgree(x: nat, y: nat, bits: nat)
    requires x <= y <= x + Pow2(bits)
    ensures SlotAt(x, Pow2(bits) - 1) == SlotAt(y, Pow2(bits) - 1) <==> y == x || y == x + Pow2(bits)
  {
    SlotIs(x, bits);
    SlotIs(y, bits);
    if x < y < x + Pow2(bits) {
      SlotsApart(x, y, bits);
    }
    if y == x + Pow2(bits) {
      LowNext(x, bits);
    }
  }

  class RingBuffer {
    const mask: nat
    ghost const bits: nat
    const d: array<nat>
    var prod: nat
    var cons: nat
    ghost var contents: seq<nat>

    /** Rounds the room down to a power of two. */
    constructor (length: nat)
      requires length / 8 < 0x8000_0000
      ensures Valid() && contents == [] && mask == Capacity(length / 8) && fresh(d)
    {
      var count := length / 8;
      var highest := 0;
      for i := 0 to 32
        invariant highest == (if Low(count, i) == 0 then 0 else BitLen(Low(count, i)) - 1)
      {
        LowBit(count, i);
        if Bit(count, i) {
          highest := i;
        }
      }
      assert Low(count, 32) == count by { WholeCount(count); }
      BitLenIs(count);
      mask := Pow2(highest) - 1;
      bits := highest;
      d := new nat[Pow2(highest)];
      prod, cons, contents := 0, 0, [];
    }

    function Slot(x: nat): (i: nat)
      ensures i <= mask
    {
      SlotAt(x, mask)
    }

    ghost predicate Valid()
      reads this, d
    {
      && mask == Pow2(bits) - 1 && d.Length == mask + 1
      && cons <= prod <= cons + mask && |contents| == prod - cons
      && (forall x :: cons <= x < prod ==> contents[x - cons] == d[Slot(x)])
    }

    /** A value is added at the end; a full ring refuses it. */
    method Enqueue(val: nat) returns (ok: bool)
      requires Valid()
      modifies this`prod, this`contents, d
      ensures Valid() && ok == (|old(contents)| < mask)
      ensures contents == if ok then old(contents) + [val] else old(contents)
    {
      hide Pow2, And;
      SlotsAgree(cons, prod + 1, bits);
      if Slot(prod + 1) == Slot(cons) {
        return false;
      }
      forall x | cons <= x < prod ensures Slot(x) != Slot(prod) {
        SlotsAgree(x, prod, bits);
      }
      d[Slot(prod)] := val;
      contents := contents + [val];
      prod := prod + 1;
      return true;
    }

    /** The oldest value is taken; an empty ring has none. */
    method Dequeue() returns (ok: bool, val: nat)
      requires Valid()
      modifies this`cons, this`contents
      ensures Valid() && ok == (old(contents) != [])
      ensures ok ==> val == old(contents)[0] && contents == old(contents)[1..]
      ensures !ok ==> contents == []
    {
      hide Pow2, And;
      SlotsAgree(cons, prod, bits);
      if Slot(prod) == Slot(cons) {
        return false, 0;
      }
      val := d[Slot(cons)];
      contents := contents[1..];
      cons := cons + 1;
      return true, val;
    }

    method Count() returns (n: nat)
      requires Valid()
      ensures n == |contents|
    {
      return prod - cons;
    }
  }

  lemma {:induction false} LowBit(x: nat, k: nat)
    ensures Low(x, k + 1) == Low(x, k) + (if Bit(x, k) then Pow2(k) else 0)
    ensures Bit(x, k) ==> BitLen(Low(x, k + 1)) == k + 1
  {
    if k > 0 {
      LowBit(x / 2, k - 1);
      assert Low(x, k + 1) / 2 == Low(x / 2, k);
    }
  }

  lemma {:induction false} WithinMask(x: nat, mask: nat)
    ensures And(x, mask) <= mask
  {
    if x > 0 && mask > 0 {
      WithinMask(x / 2, mask / 2);
    }
  }

  lemma WholeCount(count: nat)
    requires count < 0x8000_0000
    ensures Low(count, 32) == count
  {
    hide Low, Pow2;
    Pow2Values();
    LowAll(count, 32);
  }

  lemma BitLenIs(count: nat)
    ensures count > 0 ==> BitLen(count) > 0
  {
    if count > 0 {
      BitLenBounds(count);
    }
  }
}
