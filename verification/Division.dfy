/**
  64-bit unsigned division built from 32-bit halves (grub-loader/udivmoddi4.c).
  A double word is the pair of its 32-bit halves; every shift, mask and subtraction
  wraps at the width the C code gives it.
 */
module Division {
  import opened Bits

  function Whole(high: nat, low: nat): nat {
    high * W32 + low
  }

  /** `x << 1` in 64 bits, and the bit shifted out. */
  function Double64(x: nat): nat
    requires x < W64
  {
    if x >= TOP then 2 * x - W64 else 2 * x
  }

  function Top64(x: nat): nat {
    if x >= TOP then 1 else 0
  }

  /** `x * y`, by the binary expansion of `x`. */
  ghost function Times(x: nat, y: nat): nat {
    if x == 0 then 0 else 2 * Times(x / 2, y) + (if x % 2 == 1 then y else 0)
  }

  lemma {:induction false} TimesIsProduct(x: nat, y: nat)
    ensures Times(x, y) == x * y
  {
    if x > 0 {
      TimesIsProduct(x / 2, y);
      if x % 2 == 1 {
        Doubled(x / 2, 1, y);
      } else {
        Doubled(x / 2, 0, y);
      }
    }
  }

  lemma Doubled(h: nat, b: nat, y: nat)
    ensures (2 * h + b) * y == 2 * (h * y) + b * y
  {
  }

  /** The `k` low-order bits of `a` moved to the top of a double word: `a << (64 - k)`. */
  ghost function Register(a: nat, k: nat): nat {
    if k == 0 then 0 else (if Bit(a, k - 1) then TOP else 0) + Register(a, k - 1) / 2
  }

  /** What the code claims on entry to its loop. */
  ghost predicate Ready(a: nat, d: nat, sr: nat, q: nat, r: nat) {
    1 <= sr <= 63 && r == Shr(a, sr) && r < d && q == Register(a, sr)
  }

  /** With `k` steps to go: `quot` is the quotient of the bits consumed so far. */
  ghost predicate Progress(a: nat, d: nat, k: nat, q: nat, r: nat, carry: nat, quot: nat) {
    && k <= 63
    && Shr(a, k) == Times(quot, d) + r
    && r < d
    && quot < Pow2(63 - k)
    && q == Register(a, k) + quot / 2
    && carry == quot % 2
  }

  // -------------------------------------------------------------- the registers

  lemma {:induction false} RegisterRoom(a: nat, k: nat)
    requires k <= 64
    ensures Register(a, k) + Pow2(64 - k) <= W64
    ensures Low(Register(a, k), 64 - k) == 0
  {
    hide Bit, Pow2;
    Pow2Values();
    if k == 0 {
      LowZero(64);
    } else {
      RegisterRoom(a, k - 1);
      HalfRoom(Register(a, k - 1), 64 - k);
      UpTop();
      LowUp(1, 63, Register(a, k - 1) / 2, 64 - k);
    }
  }

  lemma UpTop()
    ensures Up(1, 63) == TOP
  {
    Pow2Values();
    UpPow2(0, 63);
  }

  /** Halving a register that is clear up to bit `j`. */
  lemma HalfRoom(x: nat, j: nat)
    requires x + Pow2(j + 1) <= W64 && Low(x, j + 1) == 0
    ensures x / 2 + Pow2(j) <= TOP && Low(x / 2, j) == 0
  {
    hide Low;
    LowHalf(x, j);
  }

  lemma LowHalf(x: nat, j: nat)
    ensures Low(x, j + 1) == 2 * Low(x / 2, j) + x % 2
  {
  }

  /** The next bit of the dividend is the top bit of `q`; shifting it out leaves the rest. */
  lemma ShiftOut(a: nat, k: nat, q: nat, quot: nat)
    requires 0 < k <= 63 && quot < Pow2(63 - k) && q == Register(a, k) + quot / 2
    ensures q < W64 && (q >= TOP) == Bit(a, k - 1)
    ensures Double64(q) + quot % 2 == Register(a, k - 1) + quot
  {
    RegisterRoom(a, k - 1);
    assert Pow2(65 - k) == 4 * Pow2(63 - k);
    assert Register(a, k - 1) % 2 == 0 by {
      assert Low(Register(a, k - 1), 65 - k) == 0;
    }
  }

  /** One shift followed by a compare-and-subtract keeps the division invariant. */
  lemma Advance(a: nat, d: nat, k: nat, q: nat, r: nat, carry: nat, quot: nat)
    requires 0 < d < W64 && a < W64 && k > 0 && Progress(a, d, k, q, r, carry, quot)
    ensures q < W64
    ensures var r2 := 2 * r + Top64(q);
            var q2 := Double64(q) + carry;
            && r2 < W64 && r2 < 2 * d && (k == 1 && quot == 0 ==> r2 == a)
            && if r2 >= d then Progress(a, d, k - 1, q2, r2 - d, 1, 2 * quot + 1)
               else Progress(a, d, k - 1, q2, r2, 0, 2 * quot)
  {
    ShiftOut(a, k, q, quot);
    ShrNext(a, k - 1);
    ShrLe(a, k - 1);
    assert Times(2 * quot, d) == 2 * Times(quot, d);
    assert Times(2 * quot + 1, d) == 2 * Times(quot, d) + d by {
      assert (2 * quot + 1) / 2 == quot;
    }
  }

  lemma ReadyStarts(a: nat, d: nat, sr: nat, q: nat, r: nat)
    requires Ready(a, d, sr, q, r)
    ensures Progress(a, d, sr, q, r, 0, 0)
  {
  }

  lemma ProgressDone(a: nat, d: nat, q: nat, r: nat, carry: nat, quot: nat)
    requires Progress(a, d, 0, q, r, carry, quot)
    ensures a == quot * d + r && r < d && 2 * q + carry == quot < W64
  {
    TimesIsProduct(quot, d);
    Pow2Values();
  }

  // ------------------------------------------------------------- the loop on halves

  /** A double word shifted left by one with `bit` shifted in. */
  lemma ShiftLeftIn(h: nat, l: nat, bit: nat)
    requires h < W32 && l < W32 && bit <= 1
    ensures Or(Double32(h), Top32(l)) == Double32(h) + Top32(l) < W32
    ensures Or(Double32(l), bit) == Double32(l) + bit < W32
    ensures Whole(Double32(h) + Top32(l), Double32(l) + bit) == Double64(Whole(h, l)) + bit
    ensures Top64(Whole(h, l)) == Top32(h)
  {
    OrDisjoint(Double32(l), bit, 1);
    OrDisjoint(Double32(h), Top32(l), 1);
  }

  /** The sign of `d - r - 1`, spread over the double word. */
  function SignMask(d: nat, r: nat): nat
    requires d < W64 && r < W64
  {
    var difference := if d > r then d - r - 1 else d + W64 - r - 1;
    if difference >= TOP then W64 - 1 else 0
  }

  /** The sign decides `r >= d`, also for divisors with the top bit set. */
  lemma SignMaskCompares(d: nat, r: nat)
    requires 0 < d < W64 && r < W64 && r < 2 * d && (d >= TOP ==> r >= TOP)
    ensures SignMask(d, r) == if r >= d then W64 - 1 else 0
    ensures And(SignMask(d, r), 1) == if r >= d then 1 else 0
    ensures And(d, SignMask(d, r)) == if r >= d then d else 0
  {
    Pow2Values();
    AndMask(d, 64);
    LowAll(d, 64);
  }

  /** For divisors with the top bit set the sign alone would be wrong: `0 >= 2^64 - 1`. */
  lemma SignMaskNeedsLargeRemainder()
    ensures SignMask(W64 - 1, 0) == W64 - 1 && 0 < W64 - 1
  {
  }

  /** `r >= d` decided by a sign bit, then `r - d` or `r`. */
  method Subtract(d: nat, high: nat, low: nat) returns (rh: nat, rl: nat, carry: nat)
    requires 0 < d < W64 && high < W32 && low < W32
    requires Whole(high, low) < 2 * d && (d >= TOP ==> Whole(high, low) >= TOP)
    ensures rh < W32 && rl < W32
    ensures if Whole(high, low) >= d then carry == 1 && Whole(rh, rl) == Whole(high, low) - d
            else carry == 0 && Whole(rh, rl) == Whole(high, low)
  {
    var whole := Whole(high, low);
    SignMaskCompares(d, whole);
    var s := SignMask(d, whole);
    carry := And(s, 1);
    whole := whole - And(d, s);
    rh, rl := whole / W32, whole % W32;
  }

  /** One iteration. */
  method Step(ghost a: nat, d: nat, ghost k: nat, qh0: nat, ql0: nat, rh0: nat, rl0: nat, carry0: nat, ghost quot: nat)
    returns (qh: nat, ql: nat, rh: nat, rl: nat, carry: nat)
    requires a < W64 && 0 < d < W64 && k > 0
    requires qh0 < W32 && ql0 < W32 && rh0 < W32 && rl0 < W32
    requires Progress(a, d, k, Whole(qh0, ql0), Whole(rh0, rl0), carry0, quot)
    requires d >= TOP ==> k == 1 && quot == 0 && a >= TOP
    ensures qh < W32 && ql < W32 && rh < W32 && rl < W32
    ensures Progress(a, d, k - 1, Whole(qh, ql), Whole(rh, rl), carry, 2 * quot + carry)
  {
    hide Or, Pow2, Shr, Up, Low;
    ghost var q0, r0 := Whole(qh0, ql0), Whole(rh0, rl0);
    Advance(a, d, k, q0, r0, carry0, quot);
    ShiftLeftIn(qh0, ql0, carry0);
    ShiftLeftIn(rh0, rl0, Top32(qh0));
    var high, low := Or(Double32(rh0), Top32(rl0)), Or(Double32(rl0), Top32(qh0));
    qh := Or(Double32(qh0), Top32(ql0));
    ql := Or(Double32(ql0), carry0);
    rh, rl, carry := Subtract(d, high, low);
  }

  method ShiftSubtract(ghost a: nat, d: nat, start: nat, qh0: nat, ql0: nat, rh0: nat, rl0: nat)
    returns (q: nat, r: nat)
    requires a < W64 && 0 < d < W64
    requires qh0 < W32 && ql0 < W32 && rh0 < W32 && rl0 < W32
    requires Ready(a, d, start, Whole(qh0, ql0), Whole(rh0, rl0))
    requires d >= TOP ==> start == 1 && a >= TOP
    ensures a == q * d + r && r < d
  {
    hide Progress, Ready;
    var qh: nat, ql: nat, rh: nat, rl: nat := qh0, ql0, rh0, rl0;
    var sr: nat, carry: nat := start, 0;
    ghost var quot: nat := 0;
    ReadyStarts(a, d, sr, Whole(qh, ql), Whole(rh, rl));
    while sr > 0
      invariant qh < W32 && ql < W32 && rh < W32 && rl < W32 && 0 <= sr <= start
      invariant Progress(a, d, sr, Whole(qh, ql), Whole(rh, rl), carry, quot)
      invariant sr == start ==> quot == 0
    {
      qh, ql, rh, rl, carry := Step(a, d, sr, qh, ql, rh, rl, carry, quot);
      quot := 2 * quot + carry;
      sr := sr - 1;
    }
    ProgressDone(a, d, Whole(qh, ql), Whole(rh, rl), carry, quot);
    q := Double64(Whole(qh, ql)) + carry;
    r := Whole(rh, rl);
  }

  // ---------------------------------------------------------------- loop entry

  lemma WholeUp(h: nat, l: nat)
    ensures Whole(h, l) == Up(h, 32) + l
  {
    Pow2Values();
    UpMul(h, 32);
  }

  /** The two parts or-ed together when a double word is shifted right by `t`. */
  lemma JoinHalves(h: nat, l: nat, t: nat)
    requires h < W32 && l < W32 && t <= 32
    ensures Or(Shl32(h, 32 - t), Shr(l, t)) == Shl32(h, 32 - t) + Shr(l, t) < W32
  {
    Pow2Values();
    LowOfShl(h, 32 - t);
    ShrBelow(l, t, 32 - t);
    OrDisjoint(Shl32(h, 32 - t), Shr(l, t), 32 - t);
    ShrLe(l, t);
    OrBound(Shl32(h, 32 - t), Shr(l, t), 32);
  }

  /** `r = n >> t` for a shift of at most a word. */
  lemma ShiftRightHalves(h: nat, l: nat, t: nat)
    requires h < W32 && l < W32 && t <= 32
    ensures Whole(Shr(h, t), Shl32(h, 32 - t) + Shr(l, t)) == Shr(Whole(h, l), t)
  {
    WholeUp(h, l);
    ShrUp(h, 32, l, t);
    ShlSpill(h, 32 - t);
  }

  /** `r = n >> (32 + t)`. */
  lemma ShiftRightWord(h: nat, l: nat, t: nat)
    requires h < W32 && l < W32
    ensures Shr(h, t) == Shr(Whole(h, l), 32 + t)
  {
    WholeUp(h, l);
    ShrUp(h, 32, l, 32);
    Pow2Values();
    ShrBelow(l, 32, 0);
    ShrShr(Whole(h, l), 32, t);
  }

  lemma BitLower(h: nat, l: nat, m: nat)
    requires m < 32
    ensures Bit(Whole(h, l), m) == Bit(l, m)
  {
    WholeUp(h, l);
    ShrUp(h, 32, l, m);
    assert Up(h, 32 - m) == 2 * Up(h, 31 - m);
  }

  /** `q = n << (64 - t)` for a shift of at most a word. */
  lemma {:induction false} RegisterShort(h: nat, l: nat, t: nat)
    requires h < W32 && l < W32 && t <= 32
    ensures Register(Whole(h, l), t) == Whole(Shl32(l, 32 - t), 0)
  {
    if t == 0 {
      ShlAllOut(l);
    } else {
      RegisterShort(h, l, t - 1);
      BitLower(h, l, t - 1);
      ShlNext(l, 32 - t);
    }
  }

  lemma ShlAllOut(x: nat)
    requires x < W32
    ensures Shl32(x, 32) == 0
  {
    ShlSpill(x, 32);
    WholeUp(x, 0);
  }

  /** `q = n << (32 - t)` when the shift `32 + t` exceeds a word. */
  lemma {:induction false} RegisterLong(h: nat, l: nat, t: nat)
    requires h < W32 && l < W32 && t <= 31
    ensures Register(Whole(h, l), 32 + t) == Whole(Shl32(h, 32 - t) + Shr(l, t), Shl32(l, 32 - t))
  {
    if t == 0 {
      RegisterShort(h, l, 32);
      ShlAllOut(h);
      ShlAllOut(l);
    } else {
      RegisterLong(h, l, t - 1);
      ShiftRightWord(h, l, t - 1);
      ShlNext(h, 32 - t);
      ShlNext(l, 32 - t);
      ShrNext(l, t - 1);
      var p, b, c := Shl32(h, 33 - t), Shr(l, t - 1), Shl32(l, 33 - t);
      HalveWhole(p + b, c);
      assert (p + b) / 2 == p / 2 + b / 2 && (p + b) % 2 == b % 2;
      assert TOP == Whole(HIGH, 0);
    }
  }

  lemma HalveWhole(h: nat, l: nat)
    requires l % 2 == 0
    ensures Whole(h, l) / 2 == Whole(h / 2, (if h % 2 == 1 then HIGH else 0) + l / 2)
  {
    assert h == 2 * (h / 2) + h % 2;
  }

  /** `q = n << (64 - sr)` and `r = n >> sr` on halves, for a shift below, at or above a word. */
  method Normalise(nh: nat, nl: nat, sr: nat) returns (qh: nat, ql: nat, rh: nat, rl: nat)
    requires nh < W32 && nl < W32 && 1 <= sr <= 63
    ensures qh < W32 && ql < W32 && rh < W32 && rl < W32
    ensures Whole(rh, rl) == Shr(Whole(nh, nl), sr)
    ensures Whole(qh, ql) == Register(Whole(nh, nl), sr)
  {
    if sr == 32 {
      RegisterShort(nh, nl, 32);
      ShiftRightWord(nh, nl, 0);
      qh, ql, rh, rl := nl, 0, 0, nh;
    } else if sr < 32 {
      RegisterShort(nh, nl, sr);
      ShiftRightHalves(nh, nl, sr);
      JoinHalves(nh, nl, sr);
      ShrLe(nh, sr);
      ql := 0;
      qh := Shl32(nl, 32 - sr);
      rh := Shr(nh, sr);
      rl := Or(Shl32(nh, 32 - sr), Shr(nl, sr));
    } else {
      var t := sr - 32;
      RegisterLong(nh, nl, t);
      ShiftRightWord(nh, nl, t);
      JoinHalves(nh, nl, t);
      ShrLe(nh, t);
      ql := Shl32(nl, 64 - sr);
      qh := Or(Shl32(nh, 64 - sr), Shr(nl, sr - 32));
      rh := 0;
      rl := Shr(nh, sr - 32);
    }
  }

  // ---------------------------------------------------------------- the branches

  /** The bit length of a double word with a nonzero upper half. */
  lemma WholeBelow(h: nat, l: nat)
    requires 0 < h < W32 && l < W32
    ensures 1 <= BitLen(h) <= 32
    ensures Pow2(BitLen(h) + 31) <= Whole(h, l) < Pow2(BitLen(h) + 32)
  {
    Pow2Values();
    BitLenBounds(h);
    BitLenMono(h, 32);
    WholeUp(h, l);
    UpBelow(h, BitLen(h), 32);
    UpAbove(h, BitLen(h) - 1, 32);
  }

  lemma FullWord(x: nat)
    requires 0 < x < W32
    ensures BitLen(x) == 32 <==> x >= HIGH
    ensures BitLen(x) == 1 ==> x == 1
  {
    BitLenBounds(x);
    Pow2Values();
    BitLenMono(x, 32);
    if x < HIGH {
      BitLenMono(x, 31);
    } else if BitLen(x) < 32 {
      Pow2Mono(BitLen(x), 31);
    }
  }

  /** Both upper halves nonzero: the shift chosen from the leading zeros. */
  lemma ShiftForWide(nh: nat, nl: nat, dh: nat, dl: nat)
    requires 0 < nh < W32 && nl < W32 && 0 < dh < W32 && dl < W32
    requires Clz32(dh) >= Clz32(nh)
    ensures var sr := Clz32(dh) - Clz32(nh) + 1;
            && 1 <= sr <= 32
            && Shr(Whole(nh, nl), sr) < Whole(dh, dl)
            && (sr == 32 ==> dh == 1)
            && (dh >= HIGH ==> sr == 1 && nh >= HIGH)
  {
    hide Pow2, BitLen, Shr, Whole;
    WholeBelow(nh, nl);
    WholeBelow(dh, dl);
    CompareLengths(Whole(nh, nl), Whole(dh, dl), BitLen(nh) + 32, BitLen(dh) + 31);
    FullWord(nh);
    FullWord(dh);
  }

  lemma CompareLengths(n: nat, d: nat, i: nat, j: nat)
    requires n < Pow2(i) && Pow2(j) <= d
    ensures i <= j ==> n < d
    ensures j <= i ==> Shr(n, i - j) < d
  {
    if i <= j {
      Pow2Mono(i, j);
    }
    if j <= i {
      ShrBelow(n, i - j, j);
    }
  }

  lemma DivisorLarger(nh: nat, nl: nat, dh: nat, dl: nat)
    requires 0 < nh < W32 && nl < W32 && 0 < dh < W32 && dl < W32
    requires Clz32(dh) < Clz32(nh)
    ensures Whole(nh, nl) < Whole(dh, dl) && Clz32(nh) <= 31 && Clz32(dh) >= 0
  {
    WholeBelow(nh, nl);
    WholeBelow(dh, dl);
    CompareLengths(Whole(nh, nl), Whole(dh, dl), BitLen(nh) + 32, BitLen(dh) + 31);
  }

  /** Divisor below `2^32` that is not a power of two. */
  lemma ShiftForNarrow(nh: nat, nl: nat, dl: nat)
    requires 0 < nh < W32 && nl < W32 && 1 < dl < W32
    ensures var sr := 33 + Clz32(dl) - Clz32(nh);
            2 <= sr <= 63 && Shr(Whole(nh, nl), sr) < dl
  {
    WholeBelow(nh, nl);
    WholeBelow(dl, 0);
    BitLenBounds(dl);
    FullWord(dl);
    CompareLengths(Whole(nh, nl), dl, BitLen(nh) + 32, BitLen(dl) - 1);
  }

  /** Dividing by `2^c` is shifting; the remainder is what the mask keeps. */
  lemma ShiftDivides(n: nat, d: nat)
    requires d > 0 && And(d, d - 1) == 0
    ensures d == Pow2(Ctz(d))
    ensures n == Shr(n, Ctz(d)) * d + Low(n, Ctz(d)) && Low(n, Ctz(d)) < d
    ensures And(n, d - 1) == Low(n, Ctz(d))
  {
    PowerOfTwoTest(d);
    var c := Ctz(d);
    SplitAt(n, c);
    UpMul(Shr(n, c), c);
    LowBelow(n, c);
    AndMask(n, c);
  }

  lemma RaiseWord(nh: nat, nl: nat, dh: nat, q: nat, r: nat)
    requires nh == q * dh + r && r < dh && nl < W32
    ensures Whole(nh, nl) == q * Whole(dh, 0) + Whole(r, nl) && Whole(r, nl) < Whole(dh, 0)
  {
    assert q * (dh * W32) == q * dh * W32;
  }

  /** From the chosen shift to the result. */
  method DivideFrom(nh: nat, nl: nat, d: nat, sr: nat) returns (q: nat, r: nat)
    requires nh < W32 && nl < W32 && 0 < d < W64 && 1 <= sr <= 63
    requires Shr(Whole(nh, nl), sr) < d
    requires d >= TOP ==> sr == 1 && Whole(nh, nl) >= TOP
    ensures Whole(nh, nl) == q * d + r && r < d
  {
    var qh, ql, rh, rl := Normalise(nh, nl, sr);
    q, r := ShiftSubtract(Whole(nh, nl), d, sr, qh, ql, rh, rl);
  }

  /** The divisor has a nonzero upper half: `K X / K 0` and `K X / K K`. */
  method DivideByWide(nh: nat, nl: nat, dh: nat, dl: nat) returns (q: nat, r: nat)
    requires 0 < nh < W32 && nl < W32 && 0 < dh < W32 && dl < W32
    ensures Whole(nh, nl) == q * Whole(dh, dl) + r && r < Whole(dh, dl)
  {
    if dl == 0 && nl == 0 {
      RaiseWord(nh, nl, dh, nh / dh, nh % dh);
      q, r := nh / dh, Whole(nh % dh, 0);
    } else if dl == 0 && And(dh, dh - 1) == 0 {
      ShiftDivides(nh, dh);
      RaiseWord(nh, nl, dh, Shr(nh, Ctz(dh)), Low(nh, Ctz(dh)));
      q, r := Shr(nh, Ctz(dh)), Whole(And(nh, dh - 1), nl);
    } else {
      q, r := DivideByGeneral(nh, nl, dh, dl);
    }
  }

  method DivideByGeneral(nh: nat, nl: nat, dh: nat, dl: nat) returns (q: nat, r: nat)
    requires 0 < nh < W32 && nl < W32 && 0 < dh < W32 && dl < W32
    requires dl == 0 ==> And(dh, dh - 1) != 0
    ensures Whole(nh, nl) == q * Whole(dh, dl) + r && r < Whole(dh, dl)
  {
    var sr := Clz32(dh) - Clz32(nh);
    if sr < 0 {
      DivisorLarger(nh, nl, dh, dl);
      sr := sr + W32;    // the difference is unsigned
    } else {
      ShiftForWide(nh, nl, dh, dl);
    }
    if sr > (if dl == 0 then 30 else 31) {
      q, r := 0, Whole(nh, nl);
    } else {
      q, r := DivideFrom(nh, nl, Whole(dh, dl), sr + 1);
    }
  }

  /** The divisor fits a word: `K X / 0 K`. */
  method DivideByNarrow(nh: nat, nl: nat, dl: nat) returns (q: nat, r: nat)
    requires 0 < nh < W32 && nl < W32 && 0 < dl < W32
    ensures Whole(nh, nl) == q * dl + r && r < dl
  {
    if And(dl, dl - 1) == 0 {
      var sr := Ctz(dl);
      NarrowPowerOfTwo(nh, nl, dl);
      r := And(nl, dl - 1);
      if dl == 1 {
        q := Whole(nh, nl);
      } else {
        q := Whole(Shr(nh, sr), Or(Shl32(nh, 32 - sr), Shr(nl, sr)));
      }
    } else {
      ShiftForNarrow(nh, nl, dl);
      q, r := DivideFrom(nh, nl, dl, 33 + Clz32(dl) - Clz32(nh));
    }
  }

  lemma NarrowPowerOfTwo(nh: nat, nl: nat, dl: nat)
    requires nh < W32 && nl < W32 && 0 < dl < W32 && And(dl, dl - 1) == 0
    ensures Ctz(dl) <= 31
    ensures var q := Whole(Shr(nh, Ctz(dl)), Or(Shl32(nh, 32 - Ctz(dl)), Shr(nl, Ctz(dl))));
            var r := And(nl, dl - 1);
            Whole(nh, nl) == q * dl + r && r < dl
  {
    var c := Ctz(dl);
    ShiftDivides(nl, dl);
    ShiftDivides(Whole(nh, nl), dl);
    if c >= 32 {
      Pow2Values();
      Pow2Mono(32, c);
    } else {
      WholeUp(nh, nl);
      LowUp(nh, 32, nl, c);
      JoinHalves(nh, nl, c);
      ShiftRightHalves(nh, nl, c);
    }
  }

  /**
    `__udivmoddi4`: for every dividend and every nonzero divisor the quotient and the
    remainder of the division, whichever branch computes them.
   */
  method UDivModDi4(a: nat, b: nat) returns (quotient: nat, rem: nat)
    requires a < W64 && 0 < b < W64
    ensures a == quotient * b + rem && rem < b
  {
    var nh, nl := a / W32, a % W32;
    var dh, dl := b / W32, b % W32;
    if nh == 0 {
      if dh == 0 {
        quotient, rem := nl / dl, nl % dl;
      } else {
        quotient, rem := 0, nl;
      }
    } else if dh == 0 {
      quotient, rem := DivideByNarrow(nh, nl, dl);
    } else {
      quotient, rem := DivideByWide(nh, nl, dh, dl);
    }
  }
}
