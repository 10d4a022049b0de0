/** What the order of the bootmeths holds, and where. */
module BootMethodsLaws {
  import opened Wrappers
  import opened BootScan
  import opened BootMethods

  /** Sequence number `i` belongs to a bootmeth, a global one or an ordinary one. */
  predicate IsKind(sys: System, glob: bool, i: nat) {
    sys.bySeq(i).Some? && sys.bySeq(i).value.isGlobal == glob
  }

  /** How many sequence numbers below `n` belong to such a bootmeth. */
  function CountBelow(sys: System, glob: bool, n: nat): nat {
    if n == 0 then 0 else CountBelow(sys, glob, n - 1) + if IsKind(sys, glob, n - 1) then 1 else 0
  }

  lemma {:induction false} PickCounts(sys: System, glob: bool, n: nat)
    ensures |Pick(sys, glob, n)| == CountBelow(sys, glob, n)
  {
    if n > 0 { PickCounts(sys, glob, n - 1); }
  }

  /** A bootmeth stands behind as many as have a lower sequence number. */
  lemma {:induction false} PickAt(sys: System, glob: bool, n: nat, i: nat)
    requires i < n && IsKind(sys, glob, i)
    ensures var k := CountBelow(sys, glob, i);
            k < |Pick(sys, glob, n)| && Pick(sys, glob, n)[k] == sys.bySeq(i).value
    decreases n
  {
    if i < n - 1 { PickAt(sys, glob, n - 1, i); } else { PickCounts(sys, glob, i); }
  }

  lemma {:induction false} CountSome(sys: System, glob: bool, n: nat)
    ensures CountBelow(sys, glob, n) > 0 <==> exists i :: 0 <= i < n && IsKind(sys, glob, i)
  {
    if n > 0 { CountSome(sys, glob, n - 1); }
  }

  /** How many sequence numbers are looked at. */
  function Numbers(sys: System): nat { 20 + sys.total * 2 }

  /** How many bootmeths a scan finds. */
  function Wanted(sys: System, includeGlobal: bool): nat {
    CountBelow(sys, false, Numbers(sys)) + if includeGlobal then CountBelow(sys, true, Numbers(sys)) else 0
  }

  /** Without a user's order, setting up fails exactly when there is no bootmeth, or
      when there are more than 32. */
  lemma DefaultOrderFails(sys: System, includeGlobal: bool)
    requires sys.user == []
    ensures var o := OrderFor(sys, includeGlobal);
            var n := Wanted(sys, includeGlobal);
            && (o == Failed(ENOENT) <==> sys.total == 0 || n == 0)
            && (o == Failed(ENOSPC) <==> sys.total > 0 && n > 32)
            && (o.Ordered? <==> sys.total > 0 && 1 <= n <= 32)
  {
    hide Pick;
    PickCounts(sys, false, sys.Limit());
    PickCounts(sys, true, sys.Limit());
  }

  /** Without a user's order, every bootmeth with a sequence number that is looked at
      has its place in the order: the ordinary ones first and then, if they are wanted,
      the global ones, either by sequence number. There are no others. */
  lemma DefaultOrderIs(sys: System, includeGlobal: bool, i: nat)
    requires sys.user == [] && OrderFor(sys, includeGlobal).Ordered?
    ensures var o := OrderFor(sys, includeGlobal);
            var normal := CountBelow(sys, false, Numbers(sys));
            && |o.methods| == Wanted(sys, includeGlobal)
            && (forall k :: 0 <= k < |o.methods| ==> (o.methods[k].isGlobal <==> k >= normal))
            && (i < Numbers(sys) && IsKind(sys, false, i) ==>
                  CountBelow(sys, false, i) < normal && o.methods[CountBelow(sys, false, i)] == sys.bySeq(i).value)
            && (i < Numbers(sys) && IsKind(sys, true, i) && includeGlobal ==>
                  && normal + CountBelow(sys, true, i) < |o.methods|
                  && o.methods[normal + CountBelow(sys, true, i)] == sys.bySeq(i).value)
            && o.firstGlob == (if includeGlobal then normal else -1)
            && (o.haveGlobal <==> includeGlobal && exists g :: 0 <= g < Numbers(sys) && IsKind(sys, true, g))
  {
    hide Pick, CountBelow;
    var n := sys.Limit();
    PickCounts(sys, false, n);
    PickCounts(sys, true, n);
    CountSome(sys, true, n);
    if i < n && IsKind(sys, false, i) { PickAt(sys, false, n, i); }
    if i < n && IsKind(sys, true, i) { PickAt(sys, true, n, i); }
  }

  /** Bootmeth `h` of a user's order is the first one that is global, or -1 for none,
      and all before it probe. */
  predicate FirstGlobal(user: seq<Listed>, h: int) {
    && -1 <= h < |user|
    && (forall k :: 0 <= k < |user| && (h == -1 || k < h) ==> user[k].probe == 0 && !user[k].meth.isGlobal)
    && (h >= 0 ==> user[h].meth.isGlobal && user[h].probe == 0)
  }

  /** Bootmeth `h` of a user's order does not probe, and no global one comes before. */
  predicate FirstBroken(user: seq<Listed>, h: nat) {
    && h < |user| && user[h].probe != 0
    && forall k :: 0 <= k < h ==> user[k].probe == 0 && !user[k].meth.isGlobal
  }

  /** A user's order is used as it is, unless global bootmeths are not wanted, one up
      to the first global one does not probe, or there are more than 32. */
  lemma UserOrderIs(sys: System, includeGlobal: bool, h: int)
    requires sys.user != []
    ensures var o := OrderFor(sys, includeGlobal);
            && (!includeGlobal ==> o == Failed(EPERM))
            && (includeGlobal && h >= 0 && FirstBroken(sys.user, h) ==> o == Failed(sys.user[h].probe))
            && (includeGlobal && FirstGlobal(sys.user, h) ==>
                  if |sys.user| > 32 then o == Failed(ENOSPC)
                  else
                    && o.Ordered? && |o.methods| == |sys.user| && o.firstGlob == h && (o.haveGlobal <==> h != -1)
                    && forall k :: 0 <= k < |sys.user| ==> o.methods[k] == sys.user[k].meth)
  {
  }

  /** One of the two always is the case. */
  lemma BrokenOrNot(user: seq<Listed>) returns (h: int)
    ensures FirstGlobal(user, h) || (h >= 0 && FirstBroken(user, h))
  {
    h := Halt(user, 0);
    if h == |user| { h := -1; }
  }
}
