/** Little-endian numbers in byte sequences. */
module Bytes {

  type Byte = x: nat | x < 256

  /** The `k` low-order bytes of `x`, least significant first. */
  function LE(x: nat, k: nat): (s: seq<Byte>)
    ensures |s| == k
  {
    if k == 0 then [] else [x % 256] + LE(x / 256, k - 1)
  }

  function ByteAt(b: seq<Byte>, i: nat): Byte {
    if i < |b| then b[i] else 0
  }

  /** The `k`-byte number at `i`; bytes past the end read as zero. */
  function NumAt(b: seq<Byte>, i: nat, k: nat): nat
    decreases k
  {
    if k == 0 then 0 else ByteAt(b, i) + 256 * NumAt(b, i + 1, k - 1)
  }

  function Pow256(k: nat): nat {
    if k == 0 then 1 else 256 * Pow256(k - 1)
  }

  /** `x` is representable in `k` bytes. */
  predicate Fits(x: nat, k: nat) {
    x < Pow256(k)
  }

  /** The bytes `s` stand in `b` at `i`. */
  ghost predicate Holds(b: seq<Byte>, i: nat, s: seq<Byte>) {
    i + |s| <= |b| && b[i..i + |s|] == s
  }

  lemma {:induction false} NumAtLE(b: seq<Byte>, i: nat, x: nat, k: nat)
    requires Holds(b, i, LE(x, k)) && Fits(x, k)
    ensures NumAt(b, i, k) == x
    decreases k
  {
    if k > 0 {
      var s := LE(x, k);
      assert b[i] == s[0];
      assert b[i + 1..i + 1 + (k - 1)] == s[1..];
      NumAtLE(b, i + 1, x / 256, k - 1);
    }
  }

  /** `x` cut down to `k` bytes. */
  function Truncate(x: nat, k: nat): nat {
    if k == 0 then 0 else x % 256 + 256 * Truncate(x / 256, k - 1)
  }

  /** A number written in `k` bytes reads back truncated. */
  lemma {:induction false} NumAtTruncated(b: seq<Byte>, i: nat, x: nat, k: nat)
    requires Holds(b, i, LE(x, k))
    ensures NumAt(b, i, k) == Truncate(x, k)
    decreases k
  {
    if k > 0 {
      var s := LE(x, k);
      assert b[i] == s[0];
      assert b[i + 1..i + 1 + (k - 1)] == s[1..];
      NumAtTruncated(b, i + 1, x / 256, k - 1);
    }
  }

  lemma {:induction false} TruncateFits(x: nat, k: nat)
    requires Fits(x, k)
    ensures Truncate(x, k) == x
  {
    if k > 0 {
      TruncateFits(x / 256, k - 1);
    }
  }

  lemma FitsWord(x: nat)
    ensures Fits(x, 4) <==> x < 0x1_0000_0000
    ensures Fits(x, 8) <==> x < 0x1_0000_0000_0000_0000
  {
    assert Pow256(2) == 0x1_0000;
    assert Pow256(4) == 0x1_0000_0000;
    assert Pow256(6) == 0x1_0000_0000_0000;
    assert Pow256(8) == 0x1_0000_0000_0000_0000;
  }

  /** A number read inside a section is the number read at its place in the whole. */
  lemma {:induction false} NumAtEmbedded(b: seq<Byte>, base: nat, s: seq<Byte>, i: nat, k: nat)
    requires Holds(b, base, s) && i + k <= |s|
    ensures NumAt(b, base + i, k) == NumAt(s, i, k)
    decreases k
  {
    if k > 0 {
      assert b[base + i] == s[i];
      NumAtEmbedded(b, base, s, i + 1, k - 1);
    }
  }

  // ------------------------------------------------------------ signed 32-bit values

  type I32 = x: int | -0x8000_0000 <= x < 0x8000_0000
  type U32 = x: nat | x < 0x1_0000_0000
  type U64 = x: nat | x < 0x1_0000_0000_0000_0000

  function ToU32(x: I32): U32 {
    if x < 0 then x + 0x1_0000_0000 else x
  }

  function FromU32(x: U32): I32 {
    if x >= 0x8000_0000 then x - 0x1_0000_0000 else x
  }

  /** `(ulong)x`: sign extension. */
  function ToU64(x: I32): U64 {
    if x < 0 then x + 0x1_0000_0000_0000_0000 else x
  }

  /** `(int)x`: the low 32 bits, as signed. */
  function LowI32(x: U64): I32 {
    FromU32(x % 0x1_0000_0000)
  }

  lemma SignRoundTrip(x: I32)
    ensures FromU32(ToU32(x)) == x && LowI32(ToU64(x)) == x
  {
    if x < 0 {
      assert x + 0x1_0000_0000_0000_0000 == 0xffff_ffff * 0x1_0000_0000 + (x + 0x1_0000_0000);
    }
  }
}
