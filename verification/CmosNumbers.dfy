/** Where a setting lies in CMOS RAM, in numbers: which byte, and with which weight. */
module CmosNumbers {
  import opened CmosBits
  import opened Cmos
  import opened CmosRead

  lemma HasShifted(x: bv8, i: nat)
    requires 0 < i < 8
    ensures Has(x, i) <==> Has(x >> 1, i - 1)
  {
    MaskTable(i);
    MaskTable(i - 1);
  }

  lemma Halved(x: bv8)
    ensures (x >> 1) as int == x as int / 2
  {
  }

  lemma LowBit(x: bv8)
    ensures Has(x, 0) <==> x as int % 2 == 1
  {
    MaskTable(0);
  }

  /** The bits of a byte are those of its value. */
  lemma {:induction false} ByteBit(x: bv8, i: nat)
    requires i < 8
    ensures Has(x, i) <==> BitOf(x as int, i)
    decreases i
  {
    hide Has;
    if i == 0 {
      LowBit(x);
    } else {
      HasShifted(x, i);
      Halved(x);
      ByteBit(x >> 1, i - 1);
    }
  }

  /** CMOS bit `b` is the digit of weight two to the `b % 8` of byte `b / 8`. */
  lemma BitDigit(bytes: Image, b: nat)
    requires b < CMOS_MAX_BITS
    ensures BitAt(bytes, b) <==> (bytes[b / 8] as int / Pow2(b % 8)) % 2 == 1
  {
    ByteBit(bytes[b / 8], b % 8);
    IntDigit(bytes[b / 8] as int, b % 8);
  }

  // ----- Ints in numbers -----

  /** Halving `v` and then dividing by `p` is dividing by twice `p`. */
  lemma HalfFirst(v: int, p: int)
    requires p > 0
    ensures (v / 2) / p == v / (2 * p)
    ensures v % (2 * p) == v % 2 + 2 * ((v / 2) % p)
  {
    var (h, r) := (v / 2, v % 2);
    var (q, m) := (h / p, h % p);
    assert v == (2 * p) * q + (2 * m + r) by { assert h == p * q + m; Doubled(p, q); }
    DivisionIs(v, 2 * p, q, 2 * m + r);
  }

  lemma Doubled(p: int, q: int)
    ensures 2 * (p * q) == (2 * p) * q
  {
  }

  lemma DivisionIs(v: int, d: int, q: int, r: int)
    requires d > 0 && 0 <= r < d && v == d * q + r
    ensures v / d == q && v % d == r
  {
    var (q', r') := (v / d, v % d);
    assert d * (q' - q) == r - r';
    if q' > q { AtLeast(d, q' - q); } else if q' < q { AtLeast(d, q - q'); }
  }

  lemma AtLeast(d: int, n: int)
    requires d > 0 && n > 0
    ensures d * n >= d
  {
  }

  lemma {:induction false} IntDigit(v: int, i: nat)
    ensures BitOf(v, i) <==> (v / Pow2(i)) % 2 == 1
    decreases i
  {
    if i > 0 {
      IntDigit(v / 2, i - 1);
      HalfFirst(v, Pow2(i - 1));
    }
  }

  lemma {:induction false} LowBitsMod(v: int, n: nat)
    ensures LowBits(v, n) == v % Pow2(n)
    decreases n
  {
    if n > 0 {
      LowBitsMod(v / 2, n - 1);
      HalfFirst(v, Pow2(n - 1));
    }
  }

  lemma {:induction false} BitOfShifted(v: int, a: nat, i: nat)
    ensures BitOf(v, a + i) <==> BitOf(v / Pow2(a), i)
    decreases a
  {
    if a > 0 {
      BitOfShifted(v / 2, a - 1, i);
      HalfFirst(v, Pow2(a - 1));
    }
  }

  // ----- What is written -----

  /** Bit `i` of a written value has its place and weight, whatever else is written. */
  lemma WrittenDigit(objs: seq<Obj>, before: Image, after: Image, k: nat, i: nat)
    requires FirstError(objs, WriteError, |objs|) == 0 && Packed(objs, before, after) && Disjoint(objs)
    requires k < |objs| && objs[k].isMenu && objs[k].id >= 5 && i < objs[k].bitLength
    ensures HasCurrent(objs[k]) && objs[k].startBit + i < CMOS_MAX_BITS
    ensures var b := objs[k].startBit + i;
            (after[b / 8] as int / Pow2(b % 8)) % 2 == (CurVal(objs[k]) / Pow2(i)) % 2
  {
    hide FirstError, Packed, Disjoint, BitOf, BitAt;
    PackedHolds(objs, before, after, k);
    assert BitAt(after, objs[k].startBit + i) <==> BitOf(CurVal(objs[k]), i);
    BitDigit(after, objs[k].startBit + i);
    IntDigit(CurVal(objs[k]), i);
  }

  lemma {:induction false} SameLowBits(v: int, w: int, n: nat)
    requires forall i :: 0 <= i < n ==> (BitOf(v, i) <==> BitOf(w, i))
    ensures LowBits(v, n) == LowBits(w, n)
  {
    if n > 0 {
      SameLowBits(v, w, n - 1);
      TopBit(v, n - 1);
      TopBit(w, n - 1);
    }
  }

  lemma Pow2At8()
    ensures Pow2(8) == 256
  {
  }

  lemma NumberIs(n: int, v: int)
    requires 0 <= n < 256 && forall i :: 0 <= i < 8 ==> (BitOf(n, i) <==> BitOf(v, i))
    ensures n == v % 256
  {
    hide BitOf, LowBits, Pow2;
    SameLowBits(n, v, 8);
    LowBitsMod(n, 8);
    LowBitsMod(v, 8);
    Pow2At8();
  }

  lemma ByteRange(x: bv8)
    ensures 0 <= x as int < 256
  {
  }

  /** A byte whose bits are those of `v` is `v` modulo 256. */
  lemma ByteIs(x: bv8, v: int)
    requires forall i :: 0 <= i < 8 ==> (Has(x, i) <==> BitOf(v, i))
    ensures x as int == v % 256
  {
    hide Has, BitOf;
    var n := x as int;
    forall i | 0 <= i < 8
      ensures BitOf(n, i) <==> BitOf(v, i)
    {
      ByteBit(x, i);
    }
    ByteRange(x);
    NumberIs(n, v);
  }

  lemma HeldByte(bytes: Image, base: nat, len: nat, v: int, j: nat)
    requires 8 * base + len <= CMOS_MAX_BITS && Holds(bytes, 8 * base, len, v) && 8 * j + 8 <= len
    ensures bytes[base + j] as int == (v / Pow2(8 * j)) % 256
  {
    hide BitOf, BitAt, Has, Pow2;
    forall i | 0 <= i < 8
      ensures Has(bytes[base + j], i) <==> BitOf(v / Pow2(8 * j), i)
    {
      assert BitAt(bytes, 8 * base + (8 * j + i)) <==> BitOf(v, 8 * j + i);
      BitInByte(bytes, base + j, i);
      BitOfShifted(v, 8 * j, i);
    }
    ByteIs(bytes[base + j], v / Pow2(8 * j));
  }

  /** The value that is written: the one of the first item with the current id, or its
      position in the menu if it has none. */
  lemma CurrentIs(o: Obj, i: nat)
    requires i < |o.items| && o.items[i].id == o.curItem && forall j :: 0 <= j < i ==> o.items[j].id != o.curItem
    ensures HasCurrent(o) && CurVal(o) == if o.items[i].value == 0x7fff_ffff then i else o.items[i].value
  {
  }

  /** A menu on a byte boundary is written byte by byte, the low one first: byte `j` of
      its field holds byte `j` of its value. */
  lemma WrittenByte(objs: seq<Obj>, before: Image, after: Image, k: nat, j: nat)
    requires FirstError(objs, WriteError, |objs|) == 0 && Packed(objs, before, after) && Disjoint(objs)
    requires k < |objs| && objs[k].isMenu && objs[k].id >= 5
    requires objs[k].startBit % 8 == 0 && 8 * j + 8 <= objs[k].bitLength
    ensures HasCurrent(objs[k]) && objs[k].startBit / 8 + j < CMOS_MAX_BYTES
    ensures after[objs[k].startBit / 8 + j] as int == (CurVal(objs[k]) / Pow2(8 * j)) % 256
  {
    hide FirstError, Packed, Disjoint, Holds, Pow2, IndexOfId, ItemVal;
    PackedHolds(objs, before, after, k);
    var base := objs[k].startBit / 8;
    assert 8 * base == objs[k].startBit;
    HeldByte(after, base, objs[k].bitLength, CurVal(objs[k]), j);
  }

  /** A menu of eight bits on a byte boundary leaves exactly its value there. */
  lemma WrittenWholeByte(objs: seq<Obj>, before: Image, after: Image, k: nat)
    requires FirstError(objs, WriteError, |objs|) == 0 && Packed(objs, before, after) && Disjoint(objs)
    requires k < |objs| && objs[k].isMenu && objs[k].id >= 5 && objs[k].startBit % 8 == 0 && objs[k].bitLength == 8
    ensures HasCurrent(objs[k]) && objs[k].startBit / 8 < CMOS_MAX_BYTES
    ensures 0 <= CurVal(objs[k]) < 256 ==> after[objs[k].startBit / 8] as int == CurVal(objs[k])
  {
    hide FirstError, Packed, Disjoint, Holds, IndexOfId, ItemVal;
    WrittenByte(objs, before, after, k, 0);
    assert Pow2(8 * 0) == 1;
  }

  /** Objects that are no menus, and those with a reserved id, change nothing: not in CMOS
      RAM when writing, and not in themselves when reading. */
  lemma OthersLeftAlone(objs: seq<Obj>, before: Image, after: Image, readErr: nat -> int)
    requires forall k :: 0 <= k < |objs| ==> !objs[k].isMenu || objs[k].id < 5
    ensures FirstError(objs, WriteError, |objs|) == 0
    ensures Packed(objs, before, after) ==> after == before
    ensures forall k :: 0 <= k < |objs| ==>
              ReadError(after, readErr, objs[k]) == 0 && Restored(after, readErr, objs[k]) == objs[k]
  {
    NoErrorAtAll(objs, WriteError, |objs|);
  }
}
