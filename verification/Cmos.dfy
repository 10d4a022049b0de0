/** Menu settings, and writing them to CMOS RAM. */
module Cmos {
  import opened CmosBits

  const EXPOID_BASE_ID: nat := 5
  const INT_MAX: int := 0x7fff_ffff

  const ENOENT: int := -2
  const E2BIG: int := -7
  const EINVAL: int := -22

  // ----- Data model -----

  /** A menu item; the value INT_MAX stands for "my position in the menu". */
  datatype Item = Item(id: nat, value: Int32)

  datatype Obj = Obj(isMenu: bool, id: nat, startBit: nat, bitLength: nat, items: seq<Item>, curItem: nat) {
    /** Only menus with an ordinary id take part. */
    predicate Active() { isMenu && id >= EXPOID_BASE_ID }

    predicate Placed() { 0 < bitLength && startBit + bitLength <= CMOS_MAX_BITS }

    predicate Covers(bit: nat) { Active() && startBit <= bit < startBit + bitLength }
  }

  function ItemVal(items: seq<Item>, i: nat): int
    requires i < |items|
  {
    if items[i].value == INT_MAX then i else items[i].value
  }

  /** Position of the first item satisfying the search, `|items|` if none does. */
  function IndexOfId(items: seq<Item>, id: nat, n: nat): (i: nat)
    requires n <= |items|
    ensures n <= i <= |items| && forall j :: n <= j < i ==> items[j].id != id
    ensures i < |items| ==> items[i].id == id
    decreases |items| - n
  {
    if n == |items| || items[n].id == id then n else IndexOfId(items, id, n + 1)
  }

  function IndexOfVal(items: seq<Item>, val: int, n: nat): (i: nat)
    requires n <= |items|
    ensures n <= i <= |items| && forall j :: n <= j < i ==> ItemVal(items, j) != val
    ensures i < |items| ==> ItemVal(items, i) == val
    decreases |items| - n
  {
    if n == |items| || ItemVal(items, n) == val then n else IndexOfVal(items, val, n + 1)
  }

  predicate HasCurrent(o: Obj) { IndexOfId(o.items, o.curItem, 0) < |o.items| }

  function CurVal(o: Obj): int
    requires HasCurrent(o)
  {
    ItemVal(o.items, IndexOfId(o.items, o.curItem, 0))
  }

  /** `o` puts a one at CMOS bit `bit`. */
  predicate Sets(o: Obj, bit: nat) { o.Covers(bit) && HasCurrent(o) && BitOf(CurVal(o), bit - o.startBit) }

  predicate Touched(objs: seq<Obj>, offset: nat) {
    exists k, bit :: 0 <= k < |objs| && 8 * offset <= bit < 8 * offset + 8 && objs[k].Covers(bit)
  }

  /** Result of the first call that does not return 0. */
  function FirstError(objs: seq<Obj>, e: Obj -> int, n: nat): int
    requires n <= |objs|
  {
    if n == 0 then 0
    else if FirstError(objs, e, n - 1) != 0 then FirstError(objs, e, n - 1)
    else e(objs[n - 1])
  }

  lemma {:induction false} FirstErrorStays(objs: seq<Obj>, e: Obj -> int, m: nat, n: nat)
    requires m <= n <= |objs| && FirstError(objs, e, m) != 0
    ensures FirstError(objs, e, n) == FirstError(objs, e, m)
  {
    if m < n { FirstErrorStays(objs, e, m, n - 1); }
  }

  lemma {:induction false} NoErrorAtAll(objs: seq<Obj>, e: Obj -> int, n: nat)
    requires n <= |objs|
    ensures FirstError(objs, e, n) == 0 <==> forall k :: 0 <= k < n ==> e(objs[k]) == 0
  {
    if n > 0 { NoErrorAtAll(objs, e, n - 1); }
  }

  // ----- The device -----

  /** A byte-wide RTC. It may refuse an offset; the logs record what was done. */
  class Rtc {
    var bytes: Image
    const readErr: nat -> int
    const writeErr: nat -> int
    ghost var readLog: seq<nat>
    ghost var writeLog: seq<nat>

    constructor (bytes: Image, readErr: nat -> int, writeErr: nat -> int)
      ensures this.bytes == bytes && this.readErr == readErr && this.writeErr == writeErr
      ensures readLog == [] && writeLog == []
    {
      this.bytes, this.readErr, this.writeErr := bytes, readErr, writeErr;
      readLog, writeLog := [], [];
    }

    method Read8(offset: nat) returns (ret: int, b: bv8)
      requires offset < CMOS_MAX_BYTES
      modifies this`readLog
      ensures ret == readErr(offset)
      ensures ret >= 0 ==> b == bytes[offset]
      ensures readLog == old(readLog) + [offset]
    {
      ret := readErr(offset);
      b := bytes[offset];
      readLog := readLog + [offset];
    }

    method Write8(offset: nat, b: bv8) returns (ret: int)
      requires offset < CMOS_MAX_BYTES
      modifies this`bytes, this`writeLog
      ensures ret == writeErr(offset)
      ensures bytes == if ret == 0 then old(bytes)[offset := b] else old(bytes)
      ensures writeLog == old(writeLog) + [offset]
    {
      ret := writeErr(offset);
      if ret == 0 { bytes := bytes[offset := b]; }
      writeLog := writeLog + [offset];
    }
  }

  // ----- Writing -----

  method CurItemVal(menu: Obj) returns (ret: int, val: int)
    ensures ret == if HasCurrent(menu) then 0 else ENOENT
    ensures ret == 0 ==> val == CurVal(menu)
  {
    var seqno := 0;
    val := 0;
    while seqno < |menu.items|
      invariant 0 <= seqno <= |menu.items|
      invariant forall j :: 0 <= j < seqno ==> menu.items[j].id != menu.curItem
    {
      if menu.items[seqno].id == menu.curItem {
        val := if menu.items[seqno].value == INT_MAX then seqno else menu.items[seqno].value;
        return 0, val;
      }
      seqno := seqno + 1;
    }
    ret := ENOENT;
  }

  function WriteError(o: Obj): int {
    if !o.Active() then 0
    else if !HasCurrent(o) then ENOENT
    else if o.bitLength == 0 then EINVAL
    else if o.startBit + o.bitLength > CMOS_MAX_BITS then E2BIG
    else 0
  }

  /** `after` is `before` with the bits satisfying `p` switched on. */
  ghost predicate Joined(before: Image, after: Image, p: nat -> bool) {
    forall b :: 0 <= b < CMOS_MAX_BITS ==> (BitAt(after, b) <==> BitAt(before, b) || p(b))
  }

  method OrBit(a: array<bv8>, bit: nat)
    requires a.Length == CMOS_MAX_BYTES && bit < CMOS_MAX_BITS
    modifies a
    ensures Joined(old(a[..]), a[..], b => b == bit)
  {
    a[bit / 8] := a[bit / 8] | Mask(bit % 8);
    forall b | 0 <= b < CMOS_MAX_BITS
      ensures BitAt(a[..], b) <==> BitAt(old(a[..]), b) || b == bit
    {
      if b / 8 == bit / 8 { SetBit(old(a[bit / 8]), bit % 8, b % 8); }
    }
  }

  method WriteHandler(o: Obj, mask: array<bv8>, value: array<bv8>) returns (ret: int)
    requires mask.Length == value.Length == CMOS_MAX_BYTES && mask != value
    modifies mask, value
    ensures ret == WriteError(o)
    ensures ret == 0 ==> Joined(old(mask[..]), mask[..], (b: nat) => o.Covers(b))
    ensures ret == 0 ==> Joined(old(value[..]), value[..], (b: nat) => Sets(o, b))
  {
    hide BitAt;
    if !o.isMenu || o.id < EXPOID_BASE_ID { return 0; }
    var val;
    ret, val := CurItemVal(o);
    if ret < 0 { return ret; }
    if o.bitLength == 0 { return EINVAL; }
    if o.startBit + o.bitLength > CMOS_MAX_BITS { return E2BIG; }

    ghost var all := val;
    for i := 0 to o.bitLength
      invariant forall j :: 0 <= j ==> (BitOf(val, j) <==> BitOf(all, i + j))
      invariant Joined(old(mask[..]), mask[..], b => o.startBit <= b < o.startBit + i)
      invariant Joined(old(value[..]), value[..], b => o.startBit <= b < o.startBit + i && BitOf(all, b - o.startBit))
    {
      var bitnum := o.startBit + i;
      assert BitOf(val, 0) <==> BitOf(all, i + 0);
      OrBit(mask, bitnum);
      if val % 2 == 1 {
        OrBit(value, bitnum);
      }
      forall j | 0 <= j
        ensures BitOf(val / 2, j) <==> BitOf(all, i + 1 + j)
      {
        assert BitOf(val, j + 1) <==> BitOf(all, i + (j + 1));
      }
      val := val / 2;
    }
    ret := 0;
  }

  /** Bytes that hold a menu bit carry exactly the menus' bits, with zeros in
      between; the other bytes are as before. */
  ghost predicate Packed(objs: seq<Obj>, before: Image, after: Image) {
    forall i :: 0 <= i < CMOS_MAX_BYTES ==>
      if Touched(objs, i) then
        forall b :: 8 * i <= b < 8 * i + 8 ==>
          (BitAt(after, b) <==> exists k :: 0 <= k < |objs| && Sets(objs[k], b))
      else after[i] == before[i]
  }

  /** What the mask and value arrays hold after the first `n` objects. */
  ghost predicate Gathered(objs: seq<Obj>, n: nat, mask: Image, value: Image)
    requires n <= |objs|
  {
    forall b :: 0 <= b < CMOS_MAX_BITS ==>
      && (BitAt(mask, b) <==> exists k :: 0 <= k < n && objs[k].Covers(b))
      && (BitAt(value, b) <==> exists k :: 0 <= k < n && Sets(objs[k], b))
  }

  lemma GatherOne(objs: seq<Obj>, n: nat, mask: Image, value: Image, mask': Image, value': Image)
    requires n < |objs| && Gathered(objs, n, mask, value)
    requires Joined(mask, mask', (b: nat) => objs[n].Covers(b))
    requires Joined(value, value', (b: nat) => Sets(objs[n], b))
    ensures Gathered(objs, n + 1, mask', value')
  {
  }

  lemma MaskMarksTouched(objs: seq<Obj>, mask: Image, value: Image, i: nat)
    requires Gathered(objs, |objs|, mask, value) && i < CMOS_MAX_BYTES
    ensures mask[i] != 0 <==> Touched(objs, i)
  {
    NonZeroHasBit(mask[i]);
    hide BitAt, Has;
    if mask[i] != 0 {
      var j :| 0 <= j < 8 && Has(mask[i], j);
      BitInByte(mask, i, j);
      assert BitAt(mask, 8 * i + j);
    }
    if Touched(objs, i) {
      var k, bit :| 0 <= k < |objs| && 8 * i <= bit < 8 * i + 8 && objs[k].Covers(bit);
      assert BitAt(mask, bit);
      BitInByte(mask, i, bit - 8 * i);
    }
  }

  method GatherSettings(objs: seq<Obj>, mask: array<bv8>, value: array<bv8>) returns (ret: int)
    requires mask.Length == value.Length == CMOS_MAX_BYTES && mask != value
    requires forall i :: 0 <= i < CMOS_MAX_BYTES ==> mask[i] == 0 && value[i] == 0
    modifies mask, value
    ensures ret == FirstError(objs, WriteError, |objs|)
    ensures ret == 0 ==> Gathered(objs, |objs|, mask[..], value[..])
  {
    forall b | 0 <= b < 8 { ZeroHasNoBit(b); }
    for k := 0 to |objs|
      invariant FirstError(objs, WriteError, k) == 0
      invariant Gathered(objs, k, mask[..], value[..])
    {
      ghost var m, v := mask[..], value[..];
      ret := WriteHandler(objs[k], mask, value);
      if ret != 0 {
        FirstErrorStays(objs, WriteError, k + 1, |objs|);
        return;
      }
      GatherOne(objs, k, m, v, mask[..], value[..]);
    }
    ret := 0;
  }

  method Flush(mask: array<bv8>, value: array<bv8>, rtc: Rtc) returns (ret: int)
    requires mask.Length == value.Length == CMOS_MAX_BYTES
    modifies rtc`bytes, rtc`writeLog
    ensures ret == 0 <==> forall i :: 0 <= i < CMOS_MAX_BYTES && mask[i] != 0 ==> rtc.writeErr(i) == 0
    ensures ret == 0 ==> forall i :: 0 <= i < CMOS_MAX_BYTES ==>
              rtc.bytes[i] == if mask[i] != 0 then value[i] else old(rtc.bytes)[i]
    ensures |rtc.writeLog| >= |old(rtc.writeLog)|
    ensures forall j :: |old(rtc.writeLog)| <= j < |rtc.writeLog| ==>
              rtc.writeLog[j] < CMOS_MAX_BYTES && mask[rtc.writeLog[j]] != 0
  {
    for i := 0 to CMOS_MAX_BYTES
      invariant forall j :: 0 <= j < i && mask[j] != 0 ==> rtc.writeErr(j) == 0
      invariant forall j :: 0 <= j < CMOS_MAX_BYTES ==>
                  rtc.bytes[j] == if j < i && mask[j] != 0 then value[j] else old(rtc.bytes)[j]
      invariant |rtc.writeLog| >= |old(rtc.writeLog)|
      invariant forall j :: |old(rtc.writeLog)| <= j < |rtc.writeLog| ==>
                  rtc.writeLog[j] < CMOS_MAX_BYTES && mask[rtc.writeLog[j]] != 0
    {
      if mask[i] != 0 {
        ret := rtc.Write8(i, value[i]);
        if ret != 0 { return; }
      }
    }
    ret := 0;
  }

  lemma FlushPacks(objs: seq<Obj>, mask: Image, value: Image, before: Image, after: Image)
    requires Gathered(objs, |objs|, mask, value)
    requires forall i :: 0 <= i < CMOS_MAX_BYTES ==>
               after[i] == if mask[i] != 0 then value[i] else before[i]
    ensures Packed(objs, before, after)
  {
    forall i | 0 <= i < CMOS_MAX_BYTES
      ensures mask[i] != 0 <==> Touched(objs, i)
      ensures Touched(objs, i) ==> forall b :: 8 * i <= b < 8 * i + 8 ==>
                (BitAt(after, b) <==> exists k :: 0 <= k < |objs| && Sets(objs[k], b))
    {
      MaskMarksTouched(objs, mask, value, i);
      if Touched(objs, i) {
        forall b | 8 * i <= b < 8 * i + 8
          ensures BitAt(after, b) <==> exists k :: 0 <= k < |objs| && Sets(objs[k], b)
        {
          assert BitAt(after, b) <==> BitAt(value, b);
        }
      }
    }
  }

  method WriteSettings(objs: seq<Obj>, rtc: Rtc) returns (ret: int)
    modifies rtc`bytes, rtc`writeLog
    ensures FirstError(objs, WriteError, |objs|) != 0 ==>
              ret == FirstError(objs, WriteError, |objs|)
              && rtc.bytes == old(rtc.bytes) && rtc.writeLog == old(rtc.writeLog)
    ensures FirstError(objs, WriteError, |objs|) == 0 ==>
              (ret == 0 <==> forall i :: 0 <= i < CMOS_MAX_BYTES && Touched(objs, i) ==> rtc.writeErr(i) == 0)
    ensures ret == 0 ==> Packed(objs, old(rtc.bytes), rtc.bytes)
    ensures |rtc.writeLog| >= |old(rtc.writeLog)|
    ensures forall j :: |old(rtc.writeLog)| <= j < |rtc.writeLog| ==> Touched(objs, rtc.writeLog[j])
  {
    var mask := new bv8[CMOS_MAX_BYTES](_ => 0);
    var value := new bv8[CMOS_MAX_BYTES](_ => 0);
    ret := GatherSettings(objs, mask, value);
    if ret != 0 { return; }
    ghost var m, v := mask[..], value[..];
    forall i | 0 <= i < CMOS_MAX_BYTES
      ensures mask[i] != 0 <==> Touched(objs, i)
    {
      MaskMarksTouched(objs, m, v, i);
    }
    ret := Flush(mask, value, rtc);
    if ret == 0 { FlushPacks(objs, m, v, old(rtc.bytes), rtc.bytes); }
  }
}
