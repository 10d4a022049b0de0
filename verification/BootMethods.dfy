/** The order in which a scan uses its bootmeths: ordinary ones first, then the
    global ones, unless the user gave an order. */
module BootMethods {
  import opened Wrappers
  import opened BootScan

  const EPERM: int := -1
  const ENOSPC: int := -28

  /** A bootmeth of a user's order, and what probing it returns. */
  datatype Listed = Listed(meth: Method, probe: int)

  /** The bootmeths of a system: by sequence number (with gaps, and with those
      that do not probe left out), how many there are, and the user's order, empty
      if there is none. */
  datatype System = System(bySeq: nat -> Option<Method>, total: nat, user: seq<Listed>) {
    /** How far sequence numbers are looked at. */
    function Limit(): nat { 20 + total * 2 }

    /** There are no more bootmeths to find than there are bootmeths. */
    predicate Valid() { |Pick(this, false, Limit())| + |Pick(this, true, Limit())| <= total }
  }

  /** Global or ordinary bootmeths with a sequence number below `n`, in that order. */
  function Pick(sys: System, glob: bool, n: nat): (r: seq<Method>)
    ensures |r| <= n && forall m :: m in r ==> m.isGlobal == glob
  {
    if n == 0 then []
    else
      var m := sys.bySeq(n - 1);
      Pick(sys, glob, n - 1) + if m.Some? && m.value.isGlobal == glob then [m.value] else []
  }

  lemma {:induction false} PickGrows(sys: System, glob: bool, n: nat, m: nat)
    requires n <= m
    ensures |Pick(sys, glob, n)| <= |Pick(sys, glob, m)|
    ensures |Pick(sys, glob, n)| == |Pick(sys, glob, m)| ==> Pick(sys, glob, n) == Pick(sys, glob, m)
    decreases m
  {
    if n < m { PickGrows(sys, glob, n, m - 1); }
  }

  lemma PickNone(sys: System, glob: bool)
    ensures Pick(sys, glob, 0) == []
  {
  }

  lemma PickNext(sys: System, glob: bool, n: nat)
    ensures var m := sys.bySeq(n);
            Pick(sys, glob, n + 1)
            == if m.Some? && m.value.isGlobal == glob then Pick(sys, glob, n) + [m.value] else Pick(sys, glob, n)
  {
  }

  /** Every bootmeth whose sequence number is below the limit is in the order. */
  lemma {:induction false} PickComplete(sys: System, n: nat, i: nat)
    requires i < n && sys.bySeq(i).Some?
    ensures sys.bySeq(i).value in Pick(sys, sys.bySeq(i).value.isGlobal, n)
    decreases n
  {
    if i < n - 1 { PickComplete(sys, n - 1, i); }
  }

  datatype Order = Failed(ret: int) | Ordered(methods: seq<Method>, firstGlob: int, haveGlobal: bool)

  function Methods(user: seq<Listed>): (r: seq<Method>)
    ensures |r| == |user| && forall i :: 0 <= i < |r| ==> r[i] == user[i].meth
  {
    seq(|user|, i requires 0 <= i < |user| => user[i].meth)
  }

  /** First global bootmeth of a user's order, or the first that does not probe. */
  function Halt(user: seq<Listed>, i: nat): (j: nat)
    requires i <= |user|
    ensures i <= j <= |user| && forall k :: i <= k < j ==> user[k].probe == 0 && !user[k].meth.isGlobal
    ensures j < |user| ==> user[j].probe != 0 || user[j].meth.isGlobal
    decreases |user| - i
  {
    if i == |user| || user[i].probe != 0 || user[i].meth.isGlobal then i else Halt(user, i + 1)
  }

  /** The last steps, whichever way the order was made. */
  function Finish(methods: seq<Method>, firstGlob: int, includeGlobal: bool): Order {
    if methods == [] then Failed(ENOENT)
    else if |methods| > BOOTMETH_MAX_COUNT then Failed(ENOSPC)
    else
      Ordered(methods, firstGlob, includeGlobal && firstGlob != -1 && firstGlob != |methods|)
  }

  function OrderFor(sys: System, includeGlobal: bool): Order {
    if sys.user == [] && sys.total == 0 then Failed(ENOENT)
    else if sys.user != [] then
      var h := Halt(sys.user, 0);
      if !includeGlobal then Failed(EPERM)
      else if h < |sys.user| && sys.user[h].probe != 0 then Failed(sys.user[h].probe)
      else Finish(Methods(sys.user), if h < |sys.user| then h else -1, includeGlobal)
    else
      var normal := Pick(sys, false, sys.Limit());
      if includeGlobal then Finish(normal + Pick(sys, true, sys.Limit()), |normal|, true)
      else Finish(normal, -1, false)
  }

  // ----- Setting it up -----

  method Place(order: array<Method>, at: nat, m: Method)
    requires at < order.Length
    modifies order
    ensures order[..at + 1] == old(order[..at]) + [m]
  {
    order[at] := m;
  }

  /** One pass over the sequence numbers, filling the array from `start`. */
  method FillPass(sys: System, glob: bool, order: array<Method>, start: nat, limit: nat) returns (upto: nat)
    requires start + |Pick(sys, glob, limit)| <= order.Length
    modifies order
    ensures upto == start + |Pick(sys, glob, limit)|
    ensures order[..upto] == old(order[..start]) + Pick(sys, glob, limit)
  {
    PickNone(sys, glob);
    hide Pick;
    ghost var was, found := order[..start], [];
    upto := start;
    var i := 0;
    while upto < order.Length && i < limit
      invariant i <= limit && found == Pick(sys, glob, i) && upto == start + |found| <= order.Length
      invariant order[..upto] == was + found
    {
      PickNext(sys, glob, i);
      PickGrows(sys, glob, i + 1, limit);
      var dev := sys.bySeq(i);
      if dev.Some? && dev.value.isGlobal == glob {
        found := found + [dev.value];
        Place(order, upto, dev.value);
        upto := upto + 1;
      }
      i := i + 1;
    }
    PickGrows(sys, glob, i, limit);
  }

  method FindFirstGlobal(user: seq<Listed>) returns (ret: int, firstGlob: int)
    ensures var h := Halt(user, 0);
            && ret == (if h < |user| then user[h].probe else 0)
            && (ret == 0 ==> firstGlob == if h < |user| then h else -1)
  {
    ret, firstGlob := 0, -1;
    var i := 0;
    while i < |user|
      invariant i <= |user| && Halt(user, 0) == Halt(user, i)
    {
      ret := user[i].probe;
      if ret != 0 { return; }
      if user[i].meth.isGlobal { return 0, i; }
      i := i + 1;
    }
    ret := 0;
  }

  /** Ordinary bootmeths in one pass, and global ones in another if they are wanted. */
  method TwoPasses(sys: System, includeGlobal: bool) returns (methods: seq<Method>, firstGlob: int)
    requires sys.Valid()
    ensures var normal := Pick(sys, false, sys.Limit());
            && methods == normal + (if includeGlobal then Pick(sys, true, sys.Limit()) else [])
            && firstGlob == if includeGlobal then |normal| else -1
  {
    hide Pick;
    var order := new Method[sys.total];
    var limit := 20 + sys.total * 2;
    firstGlob := -1;
    var upto := FillPass(sys, false, order, 0, limit);
    if includeGlobal {
      firstGlob := upto;
      upto := FillPass(sys, true, order, upto, limit);
    }
    methods := order[..upto];
  }

  method SetupIterOrder(sys: System, includeGlobal: bool) returns (r: Order)
    requires sys.Valid()
    ensures r == OrderFor(sys, includeGlobal)
  {
    hide Pick, Halt;
    var count := if |sys.user| != 0 then |sys.user| else sys.total;
    if count == 0 { return Failed(ENOENT); }
    var ret, methods, firstGlob;
    if |sys.user| != 0 {
      if !includeGlobal { return Failed(EPERM); }
      methods := Methods(sys.user);
      ret, firstGlob := FindFirstGlobal(sys.user);
      if ret != 0 { return Failed(ret); }
    } else {
      methods, firstGlob := TwoPasses(sys, includeGlobal);
    }
    if |methods| == 0 { return Failed(ENOENT); }
    if |methods| > BOOTMETH_MAX_COUNT { return Failed(ENOSPC); }
    r := Ordered(methods, firstGlob, includeGlobal && firstGlob != -1 && firstGlob != |methods|);
  }

  // ----- What the scan relies on -----

  /** An environment that uses the order. */
  function Using(env: Env, o: Order): Env
    requires o.Ordered?
  {
    env.(order := o.methods, firstGlob := o.firstGlob, haveGlobal := o.haveGlobal)
  }

  predicate InRange(methods: seq<Method>) { forall m :: m in methods ==> m.globPrio <= BOOTDEVP_COUNT }

  /** Without a user's order the scan can rely on what it is given exactly when
      there is an ordinary bootmeth. */
  lemma DefaultOrderFits(sys: System, env: Env, includeGlobal: bool)
    requires sys.user == [] && OrderFor(sys, includeGlobal).Ordered?
    requires InRange(OrderFor(sys, includeGlobal).methods)
    ensures Using(env, OrderFor(sys, includeGlobal)).Valid() <==> Pick(sys, false, sys.Limit()) != []
  {
  }

  /** A user's order is fit for the scan exactly when it starts with an ordinary
      bootmeth and has none after a global one. */
  lemma UserOrderFits(sys: System, env: Env)
    requires sys.user != [] && OrderFor(sys, true).Ordered? && InRange(OrderFor(sys, true).methods)
    ensures Using(env, OrderFor(sys, true)).Valid() <==>
              && !sys.user[0].meth.isGlobal
              && forall i, j :: 0 <= i < j < |sys.user| && sys.user[i].meth.isGlobal ==> sys.user[j].meth.isGlobal
  {
  }
}
