/** Bit arithmetic of the CMOS settings code: single bits of a byte image, and
    C ints taken apart and put together one bit at a time. */
module CmosBits {

  const CMOS_MAX_BITS: nat := 2048
  const CMOS_MAX_BYTES: nat := 256

  type Image = s: seq<bv8> | |s| == CMOS_MAX_BYTES witness seq(CMOS_MAX_BYTES, _ => 0)

  function Mask(i: nat): bv8
    requires i < 8
  {
    1 << i
  }

  predicate Has(x: bv8, i: nat)
    requires i < 8
  {
    x & Mask(i) != 0
  }

  predicate BitAt(bytes: Image, bit: nat)
    requires bit < CMOS_MAX_BITS
  {
    Has(bytes[bit / 8], bit % 8)
  }

  lemma BitInByte(bytes: Image, at: nat, i: nat)
    requires at < CMOS_MAX_BYTES && i < 8
    ensures BitAt(bytes, 8 * at + i) <==> Has(bytes[at], i)
  {
  }

  lemma SetBit(x: bv8, i: nat, j: nat)
    requires i < 8 && j < 8
    ensures Has(x | Mask(i), j) <==> Has(x, j) || i == j
  {
    MaskTable(i);
    MaskTable(j);
  }

  lemma MaskTable(i: nat)
    requires i < 8
    ensures Mask(i) == if i == 0 then 1 else if i == 1 then 2 else if i == 2 then 4
                       else if i == 3 then 8 else if i == 4 then 16 else if i == 5 then 32
                       else if i == 6 then 64 else 128
  {
  }

  lemma ZeroHasNoBit(i: nat)
    requires i < 8
    ensures !Has(0, i)
  {
  }

  lemma NonZeroHasBit(x: bv8)
    ensures x != 0 <==> exists i :: 0 <= i < 8 && Has(x, i)
  {
    if x != 0 {
      MaskTable(0); MaskTable(1); MaskTable(2); MaskTable(3);
      MaskTable(4); MaskTable(5); MaskTable(6); MaskTable(7);
      assert Has(x, 0) || Has(x, 1) || Has(x, 2) || Has(x, 3)
          || Has(x, 4) || Has(x, 5) || Has(x, 6) || Has(x, 7);
    }
  }

  // ----- Ints, bit by bit -----

  function Pow2(n: nat): (p: int)
    ensures p > 0
  {
    if n == 0 then 1 else 2 * Pow2(n - 1)
  }

  type Int32 = v: int | -0x8000_0000 <= v < 0x8000_0000

  /** Bit `i` of `v` in two's complement, by shifting right `i` times. */
  predicate BitOf(v: int, i: nat)
    decreases i
  {
    if i == 0 then v % 2 == 1 else BitOf(v / 2, i - 1)
  }

  /** The low `n` bits of `v` as a number. */
  function LowBits(v: int, n: nat): nat
    decreases n
  {
    if n == 0 then 0 else v % 2 + 2 * LowBits(v / 2, n - 1)
  }

  lemma {:induction false} TopBit(v: int, n: nat)
    ensures LowBits(v, n + 1) == LowBits(v, n) + if BitOf(v, n) then Pow2(n) else 0
    decreases n
  {
    if n > 0 { TopBit(v / 2, n - 1); }
  }

  lemma {:induction false} LowBitsExactIff(v: int, n: nat)
    ensures LowBits(v, n) < Pow2(n)
    ensures LowBits(v, n) == v <==> 0 <= v < Pow2(n)
    decreases n
  {
    if n > 0 { LowBitsExactIff(v / 2, n - 1); }
  }

  lemma {:induction false} SignBit(v: int, n: nat)
    requires -Pow2(n) <= v < Pow2(n)
    ensures v == LowBits(v, n) - if BitOf(v, n) then Pow2(n) else 0
    decreases n
  {
    if n > 0 { SignBit(v / 2, n - 1); }
  }

  lemma Pow2At31()
    ensures Pow2(31) == 0x8000_0000
  {
    assert Pow2(8) == 256;
    assert Pow2(16) == 65536;
    assert Pow2(24) == 0x100_0000;
  }

  /** What OR-ing bit `i` into a C int adds to it: bit 31 is the sign, bits
      past it are lost when the wider value is stored back. */
  function IntBit(i: nat): int { if i < 31 then Pow2(i) else if i == 31 then -Pow2(31) else 0 }

  /** The int read from `len` bits starting at `start`. */
  function Decode(bytes: Image, start: nat, len: nat): int
    requires start + len <= CMOS_MAX_BITS
  {
    if len == 0 then 0
    else Decode(bytes, start, len - 1) + if BitAt(bytes, start + len - 1) then IntBit(len - 1) else 0
  }

  /** `v` is stored at `start`, `len` bits of it. */
  ghost predicate Holds(bytes: Image, start: nat, len: nat, v: int)
    requires start + len <= CMOS_MAX_BITS
  {
    forall i :: 0 <= i < len ==> (BitAt(bytes, start + i) <==> BitOf(v, i))
  }

  lemma DecodeNext(bytes: Image, start: nat, len: nat, v: int)
    requires start + len + 1 <= CMOS_MAX_BITS && Holds(bytes, start, len + 1, v)
    ensures Holds(bytes, start, len, v)
    ensures Decode(bytes, start, len + 1) == Decode(bytes, start, len) + if BitOf(v, len) then IntBit(len) else 0
  {
    hide BitAt, BitOf, IntBit;
    assert BitAt(bytes, start + len) <==> BitOf(v, len);
  }

  lemma {:induction false} DecodeLow(bytes: Image, start: nat, len: nat, v: int)
    requires len < 32 && start + len <= CMOS_MAX_BITS && Holds(bytes, start, len, v)
    ensures Decode(bytes, start, len) == LowBits(v, len)
  {
    if len > 0 {
      hide Holds, Decode, LowBits, BitOf, Pow2;
      DecodeNext(bytes, start, len - 1, v);
      DecodeLow(bytes, start, len - 1, v);
      TopBit(v, len - 1);
    }
  }

  /** What is read back from where `v` is stored. */
  lemma {:induction false} DecodeHeld(bytes: Image, start: nat, len: nat, v: Int32)
    requires start + len <= CMOS_MAX_BITS && Holds(bytes, start, len, v)
    ensures Decode(bytes, start, len) == if len < 32 then LowBits(v, len) else v
  {
    hide Holds, Decode, LowBits, BitOf, Pow2;
    if len < 32 {
      DecodeLow(bytes, start, len, v);
    } else {
      DecodeNext(bytes, start, len - 1, v);
      DecodeHeld(bytes, start, len - 1, v);
      if len == 32 {
        Pow2At31();
        SignBit(v, 31);
      }
    }
  }

  /** Whether a C int survives being cut to `len` bits. */
  predicate Fits(v: int, len: nat) { len >= 32 || 0 <= v < Pow2(len) }

  lemma DecodeExactIff(bytes: Image, start: nat, len: nat, v: Int32)
    requires start + len <= CMOS_MAX_BITS && Holds(bytes, start, len, v)
    ensures Decode(bytes, start, len) == v <==> Fits(v, len)
  {
    DecodeHeld(bytes, start, len, v);
    LowBitsExactIff(v, len);
  }
}
