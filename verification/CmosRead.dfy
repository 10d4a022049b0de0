/** Reading menu settings back from CMOS RAM through a byte cache, and the
    round trip with the writer. */
module CmosRead {
  import opened CmosBits
  import opened Cmos

  /** What reading the byte of a bit returns. */
  function ErrAt(readErr: nat -> int, bit: nat): int { readErr(bit / 8) }

  /** First failing byte read among bits `start .. start + n`, 0 if none fails. */
  function ReadFail(readErr: nat -> int, start: nat, n: nat): int {
    if n == 0 then 0
    else if ReadFail(readErr, start, n - 1) < 0 then ReadFail(readErr, start, n - 1)
    else if ErrAt(readErr, start + n - 1) < 0 then ErrAt(readErr, start + n - 1)
    else 0
  }

  function ReadError(bytes: Image, readErr: nat -> int, o: Obj): int {
    if !o.Active() then 0
    else if o.bitLength == 0 then EINVAL
    else if o.startBit + o.bitLength > CMOS_MAX_BITS then E2BIG
    else if ReadFail(readErr, o.startBit, o.bitLength) < 0 then ReadFail(readErr, o.startBit, o.bitLength)
    else if IndexOfVal(o.items, Decode(bytes, o.startBit, o.bitLength), 0) == |o.items| then ENOENT
    else 0
  }

  function ReadErrors(bytes: Image, readErr: nat -> int): Obj -> int {
    o => ReadError(bytes, readErr, o)
  }

  /** The menu with the item chosen that the uncached CMOS contents call for. */
  function Restored(bytes: Image, readErr: nat -> int, o: Obj): Obj
    requires ReadError(bytes, readErr, o) == 0
  {
    if !o.Active() then o
    else o.(curItem := o.items[IndexOfVal(o.items, Decode(bytes, o.startBit, o.bitLength), 0)].id)
  }

  /** The C shift that builds a value is defined for these lengths. */
  predicate Shiftable(o: Obj) { o.bitLength <= 64 }

  ghost predicate NoDuplicates(s: seq<nat>) { forall i, j :: 0 <= i < j < |s| ==> s[i] != s[j] }

  /** The cache agrees with the device, marks exactly the bytes read since the
      log was `base` long, and no byte was read twice. */
  ghost predicate CacheOk(rtc: Rtc, mask: array<bv8>, value: array<bv8>, base: nat)
    reads rtc, mask, value
  {
    && mask != value && mask.Length == value.Length == CMOS_MAX_BYTES
    && base <= |rtc.readLog|
    && NoDuplicates(rtc.readLog[base..])
    && forall i :: 0 <= i < CMOS_MAX_BYTES ==>
         && (mask[i] != 0 <==> i in rtc.readLog[base..])
         && (mask[i] != 0 ==> value[i] == rtc.bytes[i] && rtc.readErr(i) >= 0)
  }

  /** Nothing before `base` in the log changed, and nothing after it repeats. */
  ghost predicate LogOk(was: seq<nat>, log: seq<nat>, base: nat) {
    base <= |was| && base <= |log| && log[..base] == was[..base] && NoDuplicates(log[base..])
  }

  lemma {:induction false} ReadFailStays(readErr: nat -> int, start: nat, m: nat, n: nat)
    requires m <= n && ReadFail(readErr, start, m) < 0
    ensures ReadFail(readErr, start, n) == ReadFail(readErr, start, m)
  {
    if m < n { ReadFailStays(readErr, start, m, n - 1); }
  }

  lemma NothingRead(bytes: Image, readErr: nat -> int, start: nat)
    requires start <= CMOS_MAX_BITS
    ensures ReadFail(readErr, start, 0) == 0 && Decode(bytes, start, 0) == 0
  {
  }

  /** What one more bit does to the result and to the value. */
  lemma BitRead(bytes: Image, readErr: nat -> int, start: nat, i: nat)
    requires start + i < CMOS_MAX_BITS && ReadFail(readErr, start, i) == 0
    ensures ReadFail(readErr, start, i + 1) == if ErrAt(readErr, start + i) < 0 then ErrAt(readErr, start + i) else 0
    ensures Decode(bytes, start, i + 1) == Decode(bytes, start, i) + if BitAt(bytes, start + i) then IntBit(i) else 0
  {
    hide BitAt, IntBit, ErrAt;
    assert start + (i + 1) - 1 == start + i;
  }

  lemma CacheLog(rtc: Rtc, mask: array<bv8>, value: array<bv8>, base: nat)
    requires CacheOk(rtc, mask, value, base)
    ensures mask != value && mask.Length == value.Length == CMOS_MAX_BYTES
    ensures LogOk(rtc.readLog, rtc.readLog, base)
  {
  }

  lemma LogThen(was: seq<nat>, mid: seq<nat>, log: seq<nat>, base: nat)
    requires LogOk(was, mid, base) && LogOk(mid, log, base)
    ensures LogOk(was, log, base)
  {
  }

  /** Read the byte at `offset` unless it was read before. */
  method Fetch(rtc: Rtc, offset: nat, mask: array<bv8>, value: array<bv8>, ghost base: nat) returns (ret: int)
    requires CacheOk(rtc, mask, value, base) && offset < CMOS_MAX_BYTES
    modifies rtc`readLog, mask, value
    ensures LogOk(old(rtc.readLog), rtc.readLog, base)
    ensures if rtc.readErr(offset) < 0 then ret == rtc.readErr(offset)
            else ret >= 0 && CacheOk(rtc, mask, value, base) && value[offset] == rtc.bytes[offset]
  {
    ret := 0;
    if mask[offset] == 0 {
      var b;
      ghost var log := rtc.readLog[base..];
      ret, b := rtc.Read8(offset);
      assert rtc.readLog[base..] == log + [offset];
      if ret < 0 { return; }
      value[offset] := b;
      mask[offset] := 0xff;
    }
  }

  /** One bit of the device, through the cache. */
  method ReadBit(rtc: Rtc, bitnum: nat, mask: array<bv8>, value: array<bv8>, ghost base: nat, ghost was: seq<nat>)
    returns (ret: int, on: bool)
    requires CacheOk(rtc, mask, value, base) && LogOk(was, rtc.readLog, base) && bitnum < CMOS_MAX_BITS
    modifies rtc`readLog, mask, value
    ensures LogOk(was, rtc.readLog, base)
    ensures if ErrAt(rtc.readErr, bitnum) < 0 then ret == ErrAt(rtc.readErr, bitnum)
            else ret >= 0 && CacheOk(rtc, mask, value, base) && on == BitAt(rtc.bytes, bitnum)
  {
    CacheLog(rtc, mask, value, base);
    hide CacheOk, LogOk, Has;
    var offset := bitnum / 8;
    ghost var log := rtc.readLog;
    ret := Fetch(rtc, offset, mask, value, base);
    LogThen(was, log, rtc.readLog, base);
    on := Has(value[offset], bitnum % 8);
  }

  method ReadBits(o: Obj, rtc: Rtc, mask: array<bv8>, value: array<bv8>, ghost base: nat)
    returns (ret: int, val: int)
    requires o.Placed() && CacheOk(rtc, mask, value, base)
    modifies rtc`readLog, mask, value
    ensures LogOk(old(rtc.readLog), rtc.readLog, base)
    ensures ret == ReadFail(rtc.readErr, o.startBit, o.bitLength) <= 0
    ensures ret == 0 ==> val == Decode(rtc.bytes, o.startBit, o.bitLength) && CacheOk(rtc, mask, value, base)
  {
    CacheLog(rtc, mask, value, base);
    hide CacheOk, LogOk, ReadFail, Decode, BitAt, IntBit, ErrAt;
    NothingRead(rtc.bytes, rtc.readErr, o.startBit);
    val := 0;
    for i := 0 to o.bitLength
      invariant LogOk(old(rtc.readLog), rtc.readLog, base)
      invariant CacheOk(rtc, mask, value, base)
      invariant ReadFail(rtc.readErr, o.startBit, i) == 0
      invariant val == Decode(rtc.bytes, o.startBit, i)
    {
      BitRead(rtc.bytes, rtc.readErr, o.startBit, i);
      var on;
      ret, on := ReadBit(rtc, o.startBit + i, mask, value, base, old(rtc.readLog));
      if ret < 0 {
        ReadFailStays(rtc.readErr, o.startBit, i + 1, o.bitLength);
        return;
      }
      if on { val := val + IntBit(i); }
    }
    ret := 0;
  }

  method FindVal(items: seq<Item>, val: int) returns (mi: nat)
    ensures mi == IndexOfVal(items, val, 0)
  {
    mi := 0;
    while mi < |items| && !(if items[mi].value == INT_MAX then val == mi else items[mi].value == val)
      invariant 0 <= mi <= |items|
      invariant IndexOfVal(items, val, 0) == IndexOfVal(items, val, mi)
    {
      mi := mi + 1;
    }
  }

  method ReadHandler(o: Obj, rtc: Rtc, mask: array<bv8>, value: array<bv8>, ghost base: nat)
    returns (ret: int, o': Obj)
    requires Shiftable(o) && CacheOk(rtc, mask, value, base)
    modifies rtc`readLog, mask, value
    ensures LogOk(old(rtc.readLog), rtc.readLog, base)
    ensures ret == ReadError(rtc.bytes, rtc.readErr, o)
    ensures o' == if ret == 0 then Restored(rtc.bytes, rtc.readErr, o) else o
    ensures ret == 0 ==> CacheOk(rtc, mask, value, base)
  {
    if !o.isMenu || o.id < EXPOID_BASE_ID { return 0, o; }
    if o.bitLength == 0 { return EINVAL, o; }
    if o.startBit + o.bitLength > CMOS_MAX_BITS { return E2BIG, o; }
    var val;
    ret, val := ReadBits(o, rtc, mask, value, base);
    if ret < 0 { return ret, o; }
    var mi := FindVal(o.items, val);
    if mi == |o.items| { return ENOENT, o; }
    ret, o' := 0, o.(curItem := o.items[mi].id);
  }

  /** Menu `k` is restored unless it or an earlier one cannot be read. */
  function RestoredAt(bytes: Image, readErr: nat -> int, objs: seq<Obj>, k: nat): Obj
    requires k < |objs|
  {
    if FirstError(objs, ReadErrors(bytes, readErr), k + 1) == 0 then Restored(bytes, readErr, objs[k])
    else objs[k]
  }

  /** Menus are restored in order, up to the first one that cannot be. */
  method ReadSettings(objs: seq<Obj>, rtc: Rtc) returns (ret: int, objs': seq<Obj>)
    requires forall k :: 0 <= k < |objs| ==> Shiftable(objs[k])
    modifies rtc`readLog
    ensures ret == FirstError(objs, ReadErrors(rtc.bytes, rtc.readErr), |objs|)
    ensures |objs'| == |objs|
    ensures forall k :: 0 <= k < |objs| ==>
              objs'[k] == RestoredAt(rtc.bytes, rtc.readErr, objs, k)
    ensures LogOk(old(rtc.readLog), rtc.readLog, |old(rtc.readLog)|)
  {
    hide ReadError;
    var mask := new bv8[CMOS_MAX_BYTES](_ => 0);
    var value := new bv8[CMOS_MAX_BYTES](_ => 0);
    ghost var base := |rtc.readLog|;
    ghost var e := ReadErrors(rtc.bytes, rtc.readErr);
    objs' := objs;
    for k := 0 to |objs|
      invariant LogOk(old(rtc.readLog), rtc.readLog, base)
      invariant CacheOk(rtc, mask, value, base)
      invariant |objs'| == |objs|
      invariant FirstError(objs, e, k) == 0
      invariant forall j :: k <= j < |objs| ==> objs'[j] == objs[j]
      invariant forall j :: 0 <= j < k ==>
                  objs'[j] == RestoredAt(rtc.bytes, rtc.readErr, objs, j)
    {
      var o';
      ret, o' := ReadHandler(objs[k], rtc, mask, value, base);
      objs' := objs'[k := o'];
      if ret != 0 {
        forall j | k <= j < |objs|
          ensures RestoredAt(rtc.bytes, rtc.readErr, objs, j) == objs[j]
        {
          FirstErrorStays(objs, e, k + 1, j + 1);
        }
        FirstErrorStays(objs, e, k + 1, |objs|);
        return;
      }
    }
    ret := 0;
  }

  // ----- Round trip -----

  ghost predicate Disjoint(objs: seq<Obj>) {
    forall j, k, b :: 0 <= j < |objs| && 0 <= k < |objs| && objs[j].Covers(b) && objs[k].Covers(b) ==> j == k
  }

  /** Ids and values each tell the items of a menu apart. */
  ghost predicate Distinct(items: seq<Item>) {
    forall i, j :: 0 <= i < j < |items| ==>
      items[i].id != items[j].id && ItemVal(items, i) != ItemVal(items, j)
  }

  lemma PackedHolds(objs: seq<Obj>, before: Image, after: Image, k: nat)
    requires FirstError(objs, WriteError, |objs|) == 0 && Packed(objs, before, after) && Disjoint(objs)
    requires k < |objs| && objs[k].Active()
    ensures HasCurrent(objs[k]) && objs[k].Placed()
    ensures Holds(after, objs[k].startBit, objs[k].bitLength, CurVal(objs[k]))
  {
    NoErrorAtAll(objs, WriteError, |objs|);
    assert WriteError(objs[k]) == 0;
    hide Packed, Disjoint, BitAt, BitOf, FirstError;
    var o := objs[k];
    forall i | 0 <= i < o.bitLength
      ensures BitAt(after, o.startBit + i) <==> BitOf(CurVal(o), i)
    {
      PackedBit(objs, before, after, k, o.startBit + i);
    }
  }

  lemma PackedBit(objs: seq<Obj>, before: Image, after: Image, k: nat, b: nat)
    requires Packed(objs, before, after) && Disjoint(objs)
    requires k < |objs| && objs[k].Covers(b) && b < CMOS_MAX_BITS
    ensures BitAt(after, b) <==> Sets(objs[k], b)
  {
    var i := b / 8;
    assert Touched(objs, i);
    if j :| 0 <= j < |objs| && Sets(objs[j], b) { assert objs[j].Covers(b); }
  }

  /** A written value is read back exactly when it fits its bit field. */
  lemma ReadBackExactIff(objs: seq<Obj>, before: Image, after: Image, k: nat)
    requires FirstError(objs, WriteError, |objs|) == 0 && Packed(objs, before, after) && Disjoint(objs)
    requires k < |objs| && objs[k].Active() && |objs[k].items| <= INT_MAX
    ensures HasCurrent(objs[k]) && objs[k].Placed()
    ensures Decode(after, objs[k].startBit, objs[k].bitLength) == CurVal(objs[k])
            <==> Fits(CurVal(objs[k]), objs[k].bitLength)
  {
    PackedHolds(objs, before, after, k);
    DecodeExactIff(after, objs[k].startBit, objs[k].bitLength, CurVal(objs[k]));
  }

  /** Writing the settings and reading them back leaves every menu as it was. */
  lemma WriteThenReadRestores(objs: seq<Obj>, before: Image, after: Image, readErr: nat -> int, k: nat)
    requires FirstError(objs, WriteError, |objs|) == 0 && Packed(objs, before, after) && Disjoint(objs)
    requires k < |objs| && |objs[k].items| <= INT_MAX && Distinct(objs[k].items)
    requires forall i :: readErr(i) >= 0
    requires objs[k].Active() ==> HasCurrent(objs[k]) && Fits(CurVal(objs[k]), objs[k].bitLength)
    ensures ReadError(after, readErr, objs[k]) == 0
    ensures Restored(after, readErr, objs[k]) == objs[k]
  {
    var o := objs[k];
    if o.Active() {
      ReadBackExactIff(objs, before, after, k);
      NoReadFails(readErr, o.startBit, o.bitLength);
      var i := IndexOfId(o.items, o.curItem, 0);
      assert ItemVal(o.items, i) == CurVal(o);
    }
  }

  lemma {:induction false} NoReadFails(readErr: nat -> int, start: nat, n: nat)
    requires forall i :: readErr(i) >= 0
    ensures ReadFail(readErr, start, n) == 0
  {
    if n > 0 { NoReadFails(readErr, start, n - 1); }
  }
}
