/**
  Machine words as natural numbers.  Shifts and bitwise operators are defined one bit at
  a time; wrap-around and truncation are always written out.
 */
module Bits {

  const W32: nat := 0x1_0000_0000
  const W64: nat := 0x1_0000_0000_0000_0000
  const HIGH: nat := 0x8000_0000            // top bit of a word
  const TOP: nat := 0x8000_0000_0000_0000   // top bit of a double word

  function Pow2(n: nat): (r: nat)
    ensures r > 0
  {
    if n == 0 then 1 else 2 * Pow2(n - 1)
  }

  /** `x >> k`. */
  function Shr(x: nat, k: nat): nat {
    if k == 0 then x else Shr(x / 2, k - 1)
  }

  /** `x << k` without truncation. */
  function Up(x: nat, k: nat): nat {
    if k == 0 then x else 2 * Up(x, k - 1)
  }

  /** `x << 1` in 32 bits, and the bit shifted out. */
  function Double32(x: nat): nat
    requires x < W32
  {
    if x >= HIGH then 2 * x - W32 else 2 * x
  }

  function Top32(x: nat): nat {
    if x >= HIGH then 1 else 0
  }

  /** `x << k` truncated to 32 bits. */
  function Shl32(x: nat, k: nat): (r: nat)
    requires x < W32
    ensures r < W32
  {
    if k == 0 then x else Double32(Shl32(x, k - 1))
  }

  /** The `k` low-order bits of `x`. */
  function Low(x: nat, k: nat): nat {
    if k == 0 then 0 else 2 * Low(x / 2, k - 1) + x % 2
  }

  predicate Bit(x: nat, k: nat) {
    Shr(x, k) % 2 == 1
  }

  function Or(x: nat, y: nat): nat {
    if x == 0 && y == 0 then 0
    else 2 * Or(x / 2, y / 2) + (if x % 2 == 1 || y % 2 == 1 then 1 else 0)
  }

  function And(x: nat, y: nat): nat {
    if x == 0 || y == 0 then 0
    else 2 * And(x / 2, y / 2) + (if x % 2 == 1 && y % 2 == 1 then 1 else 0)
  }

  /** Number of significant bits. */
  function BitLen(x: nat): nat {
    if x == 0 then 0 else 1 + BitLen(x / 2)
  }

  /** Leading zeros of a 32-bit word, as `__builtin_clz`. */
  function Clz32(x: nat): int {
    32 - BitLen(x)
  }

  /** Trailing zeros, as `__builtin_ctz`. */
  function Ctz(x: nat): nat
    requires x > 0
  {
    if x % 2 == 1 then 0 else 1 + Ctz(x / 2)
  }

  // ---------------------------------------------------------------- powers of two

  lemma {:induction false} Pow2Mono(m: nat, n: nat)
    requires m <= n
    ensures Pow2(m) <= Pow2(n)
    decreases n
  {
    if m < n {
      Pow2Mono(m, n - 1);
    }
  }

  lemma Pow2Values()
    ensures Pow2(31) == HIGH && Pow2(32) == W32 && Pow2(63) == TOP && Pow2(64) == W64
  {
    assert Pow2(8) == 256;
    UpPow2(8, 8);
    UpMul(256, 8);
    UpPow2(16, 16);
    UpMul(0x1_0000, 16);
    UpPow2(32, 32);
    UpMul(W32, 32);
    assert Pow2(32) == 2 * Pow2(31) && Pow2(64) == 2 * Pow2(63);
  }

  lemma {:induction false} UpPow2(m: nat, n: nat)
    ensures Up(Pow2(m), n) == Pow2(m + n)
  {
    if n > 0 {
      UpPow2(m, n - 1);
    }
  }

  /** Shifting up multiplies by a power of two. */
  lemma {:induction false} UpMul(x: nat, n: nat)
    ensures Up(x, n) == x * Pow2(n)
  {
    if n > 0 {
      UpMul(x, n - 1);
    }
  }

  // ---------------------------------------------------------------------- shifts

  lemma {:induction false} ShrNext(x: nat, k: nat)
    ensures Shr(x, k + 1) == Shr(x, k) / 2
    ensures Shr(x, k) == 2 * Shr(x, k + 1) + (if Bit(x, k) then 1 else 0)
  {
    if k > 0 {
      ShrNext(x / 2, k - 1);
    }
  }

  /** A value of at most `k + e` bits, shifted right by `k`, has at most `e` bits. */
  lemma {:induction false} ShrBelow(x: nat, k: nat, e: nat)
    requires x < Pow2(k + e)
    ensures Shr(x, k) < Pow2(e)
  {
    if k > 0 {
      ShrBelow(x / 2, k - 1, e);
    }
  }

  lemma {:induction false} ShrLe(x: nat, k: nat)
    ensures Shr(x, k) <= x
  {
    if k > 0 {
      ShrLe(x / 2, k - 1);
    }
  }

  lemma {:induction false} LowBelow(x: nat, k: nat)
    ensures Low(x, k) < Pow2(k)
  {
    if k > 0 {
      LowBelow(x / 2, k - 1);
    }
  }

  /** A shift right and the bits it drops make up the value. */
  lemma {:induction false} SplitAt(x: nat, k: nat)
    ensures x == Up(Shr(x, k), k) + Low(x, k)
  {
    if k > 0 {
      SplitAt(x / 2, k - 1);
    }
  }

  /** Shifting a value whose upper part sits `n` bits up. */
  lemma {:induction false} ShrUp(h: nat, n: nat, l: nat, m: nat)
    requires m <= n
    ensures Shr(Up(h, n) + l, m) == Up(h, n - m) + Shr(l, m)
  {
    if m > 0 {
      assert (Up(h, n) + l) / 2 == Up(h, n - 1) + l / 2;
      ShrUp(h, n - 1, l / 2, m - 1);
    }
  }

  lemma {:induction false} LowUp(h: nat, n: nat, l: nat, m: nat)
    requires m <= n
    ensures Low(Up(h, n) + l, m) == Low(l, m)
  {
    if m > 0 {
      assert (Up(h, n) + l) / 2 == Up(h, n - 1) + l / 2;
      LowUp(h, n - 1, l / 2, m - 1);
    }
  }

  lemma {:induction false} ShrShr(x: nat, m: nat, n: nat)
    ensures Shr(Shr(x, m), n) == Shr(x, m + n)
  {
    if m > 0 {
      ShrShr(x / 2, m - 1, n);
    }
  }

  /** `x < 2^n` shifted up stays below `2^(n+j)` by at least `2^j`. */
  lemma {:induction false} UpBelow(x: nat, n: nat, j: nat)
    requires x < Pow2(n)
    ensures Up(x, j) + Pow2(j) <= Pow2(n + j)
  {
    if j > 0 {
      UpBelow(x, n, j - 1);
    }
  }

  lemma {:induction false} UpAbove(x: nat, n: nat, j: nat)
    requires Pow2(n) <= x
    ensures Pow2(n + j) <= Up(x, j)
  {
    if j > 0 {
      UpAbove(x, n, j - 1);
    }
  }

  // ------------------------------------------------------- truncated shifts left

  /** A word without its top bit. */
  function Rest32(y: nat): nat {
    if y >= HIGH then y - HIGH else y
  }

  lemma SplitTop(y: nat)
    requires y < W32
    ensures y == Up(Top32(y), 31) + Rest32(y) && Double32(y) == 2 * Rest32(y)
  {
    Pow2Values();
    UpMul(Top32(y), 31);
  }

  /** Clearing the top bit of a word leaves the others. */
  lemma BitBelowTop(y: nat, m: nat)
    requires y < W32 && m < 31
    ensures Bit(Rest32(y), m) == Bit(y, m)
  {
    SplitTop(y);
    ShrUp(Top32(y), 31, Rest32(y), m);
    assert Up(Top32(y), 31 - m) == 2 * Up(Top32(y), 30 - m);
  }

  lemma {:induction false} BitShl(x: nat, j: nat, m: nat)
    requires x < W32 && j <= m < 32
    ensures Bit(Shl32(x, j), m) == Bit(x, m - j)
  {
    if j > 0 {
      BitShl(x, j - 1, m - 1);
      var y := Shl32(x, j - 1);
      SplitTop(y);
      BitBelowTop(y, m - 1);
    }
  }

  /** One more shift left drops the bit it shifts out and nothing else. */
  lemma ShlNext(x: nat, j: nat)
    requires x < W32 && j < 32
    ensures Shl32(x, j) == (if Bit(x, 31 - j) then HIGH else 0) + Shl32(x, j + 1) / 2
    ensures Shl32(x, j + 1) % 2 == 0
  {
    BitShl(x, j, 31);
    var y := Shl32(x, j);
    TopBit(y);
    SplitTop(y);
  }

  lemma TopBit(y: nat)
    requires y < W32
    ensures Bit(y, 31) == (y >= HIGH)
  {
    Pow2Values();
    SplitTop(y);
    ShrUp(Top32(y), 31, Rest32(y), 31);
    ShrBelow(Rest32(y), 31, 0);
  }

  /** What a word shifted left keeps, and what it loses to the next word. */
  lemma {:induction false} ShlSpill(x: nat, j: nat)
    requires x < W32 && j <= 32
    ensures Up(x, j) == Shr(x, 32 - j) * W32 + Shl32(x, j)
  {
    if j == 0 {
      Pow2Values();
      ShrBelow(x, 32, 0);
    } else {
      ShlSpill(x, j - 1);
      ShlNext(x, j - 1);
      ShrNext(x, 32 - j);
    }
  }

  lemma {:induction false} LowOfShl(x: nat, j: nat)
    requires x < W32 && j <= 32
    ensures Low(Shl32(x, j), j) == 0
  {
    if j > 0 {
      LowOfShl(x, j - 1);
      var y := Shl32(x, j - 1);
      SplitTop(y);
      LowUp(Top32(y), 31, Rest32(y), j - 1);
    }
  }

  // ---------------------------------------------------------- bitwise operators

  lemma {:induction false} OrZero(x: nat)
    ensures Or(x, 0) == x
  {
    if x > 0 {
      OrZero(x / 2);
    }
  }

  /** Or-ing values whose bits do not overlap adds them. */
  lemma {:induction false} OrDisjoint(x: nat, y: nat, k: nat)
    requires Low(x, k) == 0 && y < Pow2(k)
    ensures Or(x, y) == x + y
    decreases k
  {
    if k == 0 {
      OrZero(x);
    } else {
      OrDisjoint(x / 2, y / 2, k - 1);
    }
  }

  /** Masking with `2^k - 1` keeps the `k` low-order bits. */
  lemma {:induction false} AndMask(x: nat, k: nat)
    ensures And(x, Pow2(k) - 1) == Low(x, k)
    decreases k
  {
    if k == 0 {
    } else if x == 0 {
      LowZero(k);
    } else {
      AndMask(x / 2, k - 1);
      assert (2 * Pow2(k - 1) - 1) / 2 == Pow2(k - 1) - 1;
    }
  }

  lemma {:induction false} LowZero(k: nat)
    ensures Low(0, k) == 0
  {
    if k > 0 {
      LowZero(k - 1);
    }
  }

  /** A value of at most `k` bits is its own low part. */
  lemma {:induction false} LowAll(x: nat, k: nat)
    requires x < Pow2(k)
    ensures Low(x, k) == x
  {
    if k > 0 {
      LowAll(x / 2, k - 1);
    }
  }

  lemma {:induction false} AndSelf(x: nat)
    ensures And(x, x) == x
  {
    if x > 0 {
      AndSelf(x / 2);
    }
  }

  /** `d & (d - 1) == 0` holds of powers of two only. */
  lemma {:induction false} PowerOfTwoTest(d: nat)
    requires d > 0 && And(d, d - 1) == 0
    ensures d == Pow2(Ctz(d))
  {
    if d % 2 == 1 {
      if d > 1 {
        AndSelf(d / 2);
      }
    } else {
      assert (d - 1) / 2 == d / 2 - 1;
      PowerOfTwoTest(d / 2);
    }
  }

  lemma {:induction false} BitLenBounds(x: nat)
    requires x > 0
    ensures BitLen(x) > 0
    ensures Pow2(BitLen(x) - 1) <= x < Pow2(BitLen(x))
  {
    if x > 1 {
      BitLenBounds(x / 2);
    }
  }

  lemma {:induction false} BitLenMono(x: nat, k: nat)
    requires x < Pow2(k)
    ensures BitLen(x) <= k
    decreases k
  {
    if x > 0 {
      BitLenMono(x / 2, k - 1);
    }
  }

  // ------------------------------------------------------------- single bits

  lemma {:induction false} ShrZero(k: nat)
    ensures Shr(0, k) == 0
  {
    if k > 0 {
      ShrZero(k - 1);
    }
  }

  lemma {:induction false} BitOr(x: nat, y: nat, k: nat)
    ensures Bit(Or(x, y), k) == (Bit(x, k) || Bit(y, k))
    decreases k
  {
    if k > 0 {
      if x == 0 && y == 0 {
        ShrZero(k);
      } else {
        assert Or(x, y) / 2 == Or(x / 2, y / 2);
        BitOr(x / 2, y / 2, k - 1);
      }
    }
  }

  lemma {:induction false} BitAnd(x: nat, y: nat, k: nat)
    ensures Bit(And(x, y), k) == (Bit(x, k) && Bit(y, k))
    decreases k
  {
    if x == 0 || y == 0 {
      ShrZero(k);
    } else if k > 0 {
      assert And(x, y) / 2 == And(x / 2, y / 2);
      BitAnd(x / 2, y / 2, k - 1);
    }
  }

  /** `1 << j` has exactly bit `j` set. */
  lemma {:induction false} BitPow2(j: nat, k: nat)
    ensures Bit(Pow2(j), k) == (j == k)
    decreases k
  {
    if j == 0 && k > 0 {
      ShrZero(k - 1);
    } else if k > 0 {
      BitPow2(j - 1, k - 1);
    }
  }

  /** Complementing within `n` bits flips each of them. */
  lemma {:induction false} BitComplement(x: nat, n: nat, k: nat)
    requires x < Pow2(n) && k < n
    ensures Bit(Pow2(n) - 1 - x, k) == !Bit(x, k)
    decreases k
  {
    if k > 0 {
      assert (Pow2(n) - 1 - x) / 2 == Pow2(n - 1) - 1 - x / 2;
      BitComplement(x / 2, n - 1, k - 1);
    }
  }

  lemma {:induction false} OrBound(x: nat, y: nat, k: nat)
    requires x < Pow2(k) && y < Pow2(k)
    ensures Or(x, y) < Pow2(k)
    decreases k
  {
    if k > 0 && (x > 0 || y > 0) {
      OrBound(x / 2, y / 2, k - 1);
    }
  }

  lemma {:induction false} AndBound(x: nat, y: nat)
    ensures And(x, y) <= x
  {
    if x > 0 && y > 0 {
      AndBound(x / 2, y / 2);
    }
  }
}
