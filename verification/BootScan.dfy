/** The bootflow scan: which bootdev, partition, bootmeth and entry to try next.
    The environment (devices, hunters, labels, what each attempt returns) is a
    value; one iteration of the scan loop is a function on the iterator's state. */
module BootScan {
  import opened Wrappers

  // ----- Constants -----

  const BOOTDEVP_COUNT: nat := 8
  const BOOTDEVP_PRE_SCAN: nat := 1
  const MAX_PART_PER_BOOTDEV: nat := 30
  const BOOTMETH_MAX_COUNT: nat := 32

  const ENOENT: int := -2
  const ENODEV: int := -19
  const EINVAL: int := -22
  const ENOSYS: int := -38
  const EOPNOTSUPP: int := -95
  const EPFNOSUPPORT: int := -96
  const ESHUTDOWN: int := -108

  const BF_NO_MORE_PARTS: int := ESHUTDOWN
  const BF_NO_MORE_DEVICES: int := ENODEV

  // ----- Environment -----

  datatype Method = Method(isGlobal: bool, multi: bool, anyPart: bool, globPrio: nat)

  /** A bootdev: its name and number, its priority, its media device and that
      device's uclass and sequence number, and what probing it returns. */
  datatype Dev = Dev(name: string, num: int, prio: nat, media: nat, uclass: nat, seqno: int, probe: int)

  /** A hunter: what running it returns and which bootdevs it binds if that is 0. */
  datatype Hunter = Hunter(prio: nat, result: int, finds: seq<Dev>)

  /** Method flags: special network handling, whether a label names a whole uclass,
      and whether a bootdev was named by its own number. */
  datatype MethFlags = MethFlags(special: nat, singleUclass: bool, singleDev: bool)

  const NoFlags := MethFlags(0, false, false)

  /** What the second and later bootdevs of a label's uclass are used with. */
  const UclassFlags := MethFlags(0, true, false)

  /** A label of the boot order, already split into a uclass and a sequence
      number (-1 if there is none), with the hunters its name matches. */
  datatype Label = Label(known: bool, uclass: nat, seqno: int, special: nat, hunters: set<nat>)

  /** The raw results behind one check: for a block device the bootmeth's own
      check, the partition lookup and the rest; otherwise only the last. */
  datatype Raw = Raw(blk: bool, check: int, partInfo: int, body: int)

  datatype Env = Env(order: seq<Method>, firstGlob: int, haveGlobal: bool,
                     hunters: seq<Hunter>, labels: Option<seq<Label>>, raw: nat -> Raw) {
    /** Number of ordinary bootmeths, which come first in the order. */
    function Normal(): int { if haveGlobal then firstGlob else |order| }

    /** The order the iterator relies on: at least one ordinary bootmeth, then
        the global ones. */
    predicate Valid() {
      && 0 < Normal() <= |order|
      && (haveGlobal ==> firstGlob < |order|)
      && (forall i :: 0 <= i < |order| ==> (order[i].isGlobal <==> Normal() <= i))
      && (forall i :: 0 <= i < |order| ==> order[i].globPrio <= BOOTDEVP_COUNT)
    }
  }

  // ----- Iterator state -----

  datatype Flags = Flags(all: bool, hunt: bool, singleDev: bool, singleUclass: bool,
                         singleMedia: bool, singlePartition: bool) {
    predicate Single() { singleDev || singleUclass || singleMedia || singlePartition }
  }

  /** A pre-empted bootdev, to be used when the global bootmeths are done. */
  datatype Pending = Pending(dev: nat, flags: MethFlags)

  /** One check, as it was made. For a global bootmeth `dev` is -1. */
  datatype Attempt = Attempt(glob: bool, prio: nat, dev: int, part: nat, meth: nat, entry: nat,
                             flags: MethFlags, pending: Option<Pending>)

  /** A bootdev put to use, and the flags it is used with. */
  datatype Visit = Visit(dev: nat, flags: MethFlags)

  datatype Iter = Iter(
    flags: Flags, dev: Option<nat>, part: nat, entry: nat, maxPart: nat, err: int,
    labelled: bool, curLabel: int, curMethod: nat, curPrio: nat, doingGlobal: bool,
    methodFlags: MethFlags, done: set<nat>, pending: Option<Pending>,
    devs: seq<Dev>, hunted: set<nat>, visits: seq<Visit>, log: seq<Attempt>)

  // ----- Hunting -----

  /** Run hunter `h` unless it was used before. */
  function HuntOne(env: Env, it: Iter, h: nat): (r: (Iter, int))
    requires h < |env.hunters|
    ensures r.0 == it.(devs := r.0.devs, hunted := r.0.hunted) && it.devs <= r.0.devs && it.hunted <= r.0.hunted
  {
    if h in it.hunted then (it, 0)
    else
      var ret := env.hunters[h].result;
      if ret != 0 && ret != ENOENT then (it, ret)
      else if ret == 0 then (it.(devs := it.devs + env.hunters[h].finds, hunted := it.hunted + {h}), 0)
      else (it.(hunted := it.hunted + {h}), 0)
  }

  /** Run, in order, the hunters from `h` on that satisfy `p`; the result is that
      of the last one to fail. */
  function HuntFrom(env: Env, it: Iter, p: nat -> bool, h: nat, result: int): (r: (Iter, int))
    requires h <= |env.hunters|
    ensures r.0 == it.(devs := r.0.devs, hunted := r.0.hunted) && it.devs <= r.0.devs && it.hunted <= r.0.hunted
    decreases |env.hunters| - h
  {
    if h == |env.hunters| then (it, result)
    else if !p(h) then HuntFrom(env, it, p, h + 1, result)
    else
      var (it1, ret) := HuntOne(env, it, h);
      HuntFrom(env, it1, p, h + 1, if ret != 0 then ret else result)
  }

  function AtPrio(env: Env, prio: nat): nat -> bool {
    (h: nat) => h < |env.hunters| && env.hunters[h].prio == prio
  }

  function HuntPrio(env: Env, it: Iter, prio: nat): (r: (Iter, int))
    ensures r.0 == it.(devs := r.0.devs, hunted := r.0.hunted) && it.devs <= r.0.devs && it.hunted <= r.0.hunted
  {
    HuntFrom(env, it, AtPrio(env, prio), 0, 0)
  }

  /** The pre-scan hunt, if there is one. */
  function Prescan(env: Env, it: Iter): (r: (Iter, int))
    ensures r.0 == it.(devs := r.0.devs, hunted := r.0.hunted) && it.devs <= r.0.devs && it.hunted <= r.0.hunted
  {
    if it.flags.hunt then HuntPrio(env, it, BOOTDEVP_PRE_SCAN) else (it, 0)
  }

  // ----- Choosing a bootdev -----

  /** A choice that may fail: the new state, 0 or an error, and the bootdev. */
  datatype Choice = Choice(it: Iter, ret: int, dev: nat, flags: MethFlags)

  /** First bootdev of priority `prio` at or after position `i`. */
  function DevAtPrio(devs: seq<Dev>, prio: nat, i: nat): (j: nat)
    requires i <= |devs|
    ensures i <= j <= |devs|
    ensures j < |devs| ==> devs[j].prio == prio
    ensures forall k :: i <= k < j ==> devs[k].prio != prio
    decreases |devs| - i
  {
    if i == |devs| || devs[i].prio == prio then i else DevAtPrio(devs, prio, i + 1)
  }

  /** Go down one priority and hunt for bootdevs there. */
  function LowerPrio(env: Env, it: Iter): (it2: Iter)
    ensures it2 == it.(curPrio := it.curPrio + 1, devs := it2.devs, hunted := it2.hunted)
    ensures it.devs <= it2.devs && it.hunted <= it2.hunted
  {
    var it1 := it.(curPrio := it.curPrio + 1);
    if it1.curPrio < BOOTDEVP_COUNT && it1.flags.hunt then HuntPrio(env, it1, it1.curPrio).0 else it1
  }

  /** Walk on from list position `from`, then through the lower priorities,
      hunting at each, to a bootdev that probes. */
  function NextPrio(env: Env, it: Iter, from: nat): (c: Choice)
    requires it.curPrio < BOOTDEVP_COUNT && from <= |it.devs|
    ensures c.it == it.(curPrio := c.it.curPrio, devs := c.it.devs, hunted := c.it.hunted)
    ensures it.devs <= c.it.devs && it.hunted <= c.it.hunted && it.curPrio <= c.it.curPrio
    ensures c.ret == 0 ==>
              c.dev < |c.it.devs| && c.it.devs[c.dev].prio == c.it.curPrio < BOOTDEVP_COUNT
              && c.it.devs[c.dev].probe == 0 && c.flags == NoFlags
              && (c.it.curPrio == it.curPrio ==> from <= c.dev)
    ensures c.ret != 0 ==> c.it.curPrio == BOOTDEVP_COUNT
    ensures c.it.curPrio == it.curPrio ==> c.it == it
    decreases BOOTDEVP_COUNT - it.curPrio, |it.devs| - from
  {
    var j := DevAtPrio(it.devs, it.curPrio, from);
    if j < |it.devs| then
      if it.devs[j].probe == 0 then Choice(it, 0, j, NoFlags) else NextPrio(env, it, j + 1)
    else
      var it1 := LowerPrio(env, it);
      if it1.curPrio == BOOTDEVP_COUNT then Choice(it1, ENODEV, 0, NoFlags) else NextPrio(env, it1, 0)
  }

  predicate Fits(d: Dev, l: Label) { d.uclass == l.uclass && (l.seqno == -1 || d.seqno == l.seqno) }

  /** First bootdev at or after `i` that a label names. */
  function DevForLabel(devs: seq<Dev>, l: Label, i: nat): (j: nat)
    requires i <= |devs|
    ensures i <= j <= |devs|
    ensures j < |devs| ==> Fits(devs[j], l)
    ensures forall k :: i <= k < j ==> !Fits(devs[k], l)
    decreases |devs| - i
  {
    if i == |devs| || Fits(devs[i], l) then i else DevForLabel(devs, l, i + 1)
  }

  function Matching(l: Label): nat -> bool { (h: nat) => h in l.hunters }

  function LabelFlags(l: Label): MethFlags { MethFlags(l.special, l.seqno == -1, false) }

  /** Go on to the next label that names a bootdev. */
  function NextLabel(env: Env, it: Iter): (c: Choice)
    requires env.labels.Some? && -1 <= it.curLabel <= |env.labels.value|
    ensures c.it == it.(curLabel := c.it.curLabel, devs := c.it.devs, hunted := c.it.hunted)
    ensures it.devs <= c.it.devs && it.hunted <= c.it.hunted && it.curLabel <= c.it.curLabel <= |env.labels.value|
    ensures c.ret == 0 ==>
              it.curLabel < c.it.curLabel < |env.labels.value| && c.dev < |c.it.devs|
    decreases |env.labels.value| - it.curLabel
  {
    var labels := env.labels.value;
    if it.curLabel == |labels| then Choice(it, ENODEV, 0, NoFlags)
    else
      var it1 := it.(curLabel := it.curLabel + 1);
      if it1.curLabel == |labels| then Choice(it1, ENODEV, 0, NoFlags)
      else
        var l := labels[it1.curLabel];
        var (it2, ret) := HuntFrom(env, it1, Matching(l), 0, 0);
        var j := DevForLabel(it2.devs, l, 0);
        if ret != 0 || !l.known || j == |it2.devs| then NextLabel(env, it2)
        else Choice(it2, 0, j, LabelFlags(l))
  }

  /** First bootdev after `i` that satisfies `p`. */
  function NextSuch(devs: seq<Dev>, p: Dev -> bool, i: nat): (j: nat)
    requires i <= |devs|
    ensures i <= j <= |devs|
    ensures j < |devs| ==> p(devs[j])
    ensures forall k :: i <= k < j ==> !p(devs[k])
    decreases |devs| - i
  {
    if i == |devs| || p(devs[i]) then i else NextSuch(devs, p, i + 1)
  }

  function SameUclass(d: Dev): Dev -> bool { (e: Dev) => e.uclass == d.uclass }

  function SameMedia(d: Dev): Dev -> bool { (e: Dev) => e.media == d.media }

  /** First bootdev of the label list if there is one, else of the highest priority. */
  function FirstChoice(env: Env, it: Iter): (c: Choice)
    requires it.curPrio < BOOTDEVP_COUNT
    ensures c.it == it.(curPrio := c.it.curPrio, labelled := c.it.labelled, curLabel := c.it.curLabel,
                        devs := c.it.devs, hunted := c.it.hunted)
    ensures it.devs <= c.it.devs && it.hunted <= c.it.hunted && it.curPrio <= c.it.curPrio
    ensures if env.labels.Some? then
              && c.it.labelled && -1 <= c.it.curLabel <= |env.labels.value| && c.it.curPrio == it.curPrio
              && (c.ret == 0 ==> 0 <= c.it.curLabel < |env.labels.value| && c.dev < |c.it.devs|)
            else
              && c.it.labelled == it.labelled && c.it.curLabel == it.curLabel
              && (c.ret == 0 ==> c.dev < |c.it.devs| && c.it.curPrio < BOOTDEVP_COUNT
                                 && c.it.devs[c.dev].prio == c.it.curPrio && c.it.devs[c.dev].probe == 0)
  {
    if env.labels.Some? then NextLabel(env, it.(labelled := true, curLabel := -1)) else NextPrio(env, it, 0)
  }

  /** Start the walk over bootdevs: pre-scan hunters, then the first bootdev. */
  function SetupIter(env: Env, it: Iter): (c: Choice)
    requires it.curPrio < BOOTDEVP_COUNT
    ensures c.it == it.(curPrio := c.it.curPrio, labelled := c.it.labelled, curLabel := c.it.curLabel,
                        devs := c.it.devs, hunted := c.it.hunted)
    ensures it.devs <= c.it.devs && it.hunted <= c.it.hunted && it.curPrio <= c.it.curPrio
    ensures c.it.labelled && !it.labelled ==> env.labels.Some? && -1 <= c.it.curLabel <= |env.labels.value|
    ensures c.ret == 0 ==> c.dev < |c.it.devs| && c.it.curPrio < BOOTDEVP_COUNT && c.it.devs[c.dev].probe == 0
    ensures c.ret == 0 ==>
              if env.labels.Some? then
                c.it.labelled && 0 <= c.it.curLabel < |env.labels.value| && c.it.curPrio == it.curPrio
              else c.it.labelled == it.labelled && c.it.devs[c.dev].prio == c.it.curPrio
  {
    var (it1, ret) := Prescan(env, it);
    if ret != 0 then Choice(it1, ret, 0, NoFlags)
    else
      var c := FirstChoice(env, it1);
      if c.ret != 0 then c.(ret := ENOENT)
      else if c.it.devs[c.dev].probe != 0 then c.(ret := c.it.devs[c.dev].probe)
      else c
  }

  // ----- Global bootmeths -----

  /** Not used yet, and its priority has been reached. */
  predicate GlobAllowed(env: Env, it: Iter, i: nat)
    requires i < |env.order|
  {
    i !in it.done && env.order[i].globPrio <= it.curPrio
  }

  function FirstAllowed(env: Env, it: Iter, i: nat): (j: nat)
    requires i <= |env.order|
    ensures i <= j <= |env.order|
    ensures j < |env.order| ==> GlobAllowed(env, it, j)
    ensures forall k :: i <= k < j ==> k in it.done || env.order[k].globPrio > it.curPrio
    decreases |env.order| - i
  {
    if i == |env.order| || GlobAllowed(env, it, i) then i else FirstAllowed(env, it, i + 1)
  }

  /** The first global bootmeth to use now, `|order|` if there is none. */
  function NextGlob(env: Env, it: Iter): (j: nat)
    requires env.Valid()
    ensures j <= |env.order|
  {
    if env.haveGlobal then FirstAllowed(env, it, env.firstGlob) else |env.order|
  }

  function DoGlob(it: Iter, j: nat): Iter { it.(curMethod := j, doingGlobal := true, dev := None) }

  // ----- One increment -----

  function SetDev(it: Iter, d: Option<nat>, flags: MethFlags): Iter {
    it.(dev := d, methodFlags := flags,
        visits := if d.Some? then it.visits + [Visit(d.value, flags)] else it.visits)
  }

  /** Use a bootdev, unless a global bootmeth is due first. */
  function PrepareBootdev(env: Env, it: Iter, dev: nat, flags: MethFlags, checkGlobal: bool): (Iter, int)
    requires env.Valid() && dev < |it.devs|
  {
    var j := NextGlob(env, it);
    if checkGlobal && j < |env.order| then (DoGlob(it, j).(pending := Some(Pending(dev, flags))), 0)
    else if it.devs[dev].probe != 0 then (it, it.devs[dev].probe)
    else (SetDev(it, Some(dev), flags), 0)
  }

  /** The bootdev after the current one. */
  function SelectDev(env: Env, it: Iter, incDev: bool): (c: Choice)
    requires env.Valid() && it.curPrio < BOOTDEVP_COUNT
    requires incDev ==> it.dev.Some? && it.dev.value < |it.devs|
    requires it.labelled ==> env.labels.Some? && -1 <= it.curLabel <= |env.labels.value|
    ensures c.it == it.(curPrio := c.it.curPrio, labelled := c.it.labelled, curLabel := c.it.curLabel,
                        devs := c.it.devs, hunted := c.it.hunted)
    ensures it.devs <= c.it.devs && it.hunted <= c.it.hunted && it.curPrio <= c.it.curPrio
    ensures c.it.labelled && (incDev || !it.labelled) ==>
              env.labels.Some? && -1 <= c.it.curLabel <= |env.labels.value|
    ensures c.ret == 0 ==> c.dev < |c.it.devs| && c.it.curPrio < BOOTDEVP_COUNT
  {
    if !incDev then SetupIter(env, it)
    else
      var d := it.dev.value;
      var uclass := NextSuch(it.devs, SameUclass(it.devs[d]), d + 1);
      var media := NextSuch(it.devs, SameMedia(it.devs[d]), d + 1);
      if it.flags.singleUclass then Choice(it, if uclass < |it.devs| then 0 else ENODEV, uclass, NoFlags)
      else if it.flags.singleMedia then Choice(it, if media < |it.devs| then 0 else ENODEV, media, NoFlags)
      else if it.labelled then
        if it.methodFlags.singleUclass && uclass < |it.devs| then Choice(it, 0, uclass, UclassFlags)
        else NextLabel(env, it)
      else NextPrio(env, it, d + 1)
  }

  /** Use the bootdev that was chosen, if one was. */
  function UseChoice(env: Env, c: Choice): (r: (Iter, int))
    requires env.Valid() && (c.ret == 0 ==> c.dev < |c.it.devs|)
    ensures r.1 == 0 ==> r.0.curMethod == c.it.curMethod || r.0.curMethod < |env.order|
  {
    if c.ret != 0 then (SetDev(c.it, None, NoFlags), c.ret) else PrepareBootdev(env, c.it, c.dev, c.flags, true)
  }

  /** There is no further bootdev: global bootmeths of any priority may run now. */
  function LastGlobals(env: Env, it: Iter): (r: (Iter, int))
    requires env.Valid()
    ensures r.1 == 0 ==> r.0.curMethod < |env.order|
  {
    var it1 := it.(curPrio := BOOTDEVP_COUNT);
    var j := NextGlob(env, it1);
    if j < |env.order| then (DoGlob(it1, j), 0) else (it1, BF_NO_MORE_DEVICES)
  }

  /** Move to another bootdev, or to the last global bootmeths if there is none. */
  function NextDevice(env: Env, it: Iter, incDev: bool): (r: (Iter, int))
    requires it.curMethod == 0
    requires env.Valid() && it.curPrio < BOOTDEVP_COUNT
    requires incDev ==> it.dev.Some? && it.dev.value < |it.devs|
    requires it.labelled ==> env.labels.Some? && -1 <= it.curLabel <= |env.labels.value|
    ensures r.1 == 0 ==> r.0.curMethod < |env.order|
  {
    var (it1, ret) := if it.flags.singleDev then (it, ENOENT) else UseChoice(env, SelectDev(env, it, incDev));
    if ret == 0 then (it1, 0) else LastGlobals(env, it1)
  }

  /** All bootmeths tried here: next partition, else next bootdev. */
  function EndOfMethods(env: Env, it: Iter, incDev: bool): (r: (Iter, int))
    requires env.Valid() && it.curPrio < BOOTDEVP_COUNT
    requires incDev ==> it.dev.Some? && it.dev.value < |it.devs|
    requires it.labelled ==> env.labels.Some? && -1 <= it.curLabel <= |env.labels.value|
    ensures r.1 == 0 ==> r.0.curMethod < |env.order|
  {
    if it.flags.singlePartition then (it, BF_NO_MORE_DEVICES)
    else if it.err != BF_NO_MORE_PARTS && it.part + 1 <= it.maxPart then
      (it.(curMethod := 0, part := it.part + 1), 0)
    else NextDevice(env, it.(curMethod := 0, part := 0, maxPart := 0), incDev)
  }

  /** No more global bootmeths for now. */
  function EndOfGlobals(env: Env, it: Iter): (r: (Iter, int))
    requires env.Valid() && it.curPrio <= BOOTDEVP_COUNT
    requires it.pending.Some? ==> it.pending.value.dev < |it.devs|
    requires it.labelled ==> env.labels.Some? && -1 <= it.curLabel <= |env.labels.value|
    ensures r.1 == 0 ==> r.0.curMethod < |env.order|
  {
    var it1 := it.(doingGlobal := false);
    if it1.pending.Some? then
      var p := it1.pending.value;
      var (it2, ret) := PrepareBootdev(env, it1.(pending := None), p.dev, p.flags, false);
      if ret != 0 then (it2, ret) else (it2.(curMethod := 0), 0)
    else if it1.curPrio == BOOTDEVP_COUNT then (it1, BF_NO_MORE_DEVICES)
    else EndOfMethods(env, it1, false)
  }

  /** What every increment may rely on. */
  predicate Ready(env: Env, it: Iter) {
    && env.Valid()
    && it.curMethod < |env.order| && it.curPrio <= BOOTDEVP_COUNT
    && (it.pending.Some? ==> it.pending.value.dev < |it.devs|)
    && (it.labelled ==> env.labels.Some? && -1 <= it.curLabel <= |env.labels.value|)
    && (!it.doingGlobal ==> it.curPrio < BOOTDEVP_COUNT && it.dev.Some? && it.dev.value < |it.devs|)
  }

  /** Move to the next thing to try. */
  function IterIncr(env: Env, it: Iter): (r: (Iter, int))
    requires Ready(env, it)
    ensures r.1 == 0 ==> r.0.curMethod < |env.order|
  {
    if it.err == BF_NO_MORE_DEVICES then (it, BF_NO_MORE_DEVICES)
    else if it.err == 0 && env.order[it.curMethod].multi then (it.(entry := it.entry + 1), 0)
    else
      var it1 := it.(entry := 0);
      if it.doingGlobal then
        var j := FirstAllowed(env, it1, it1.curMethod + 1);
        if j < |env.order| then (it1.(curMethod := j), 0)
        else EndOfGlobals(env, it1.(curMethod := j))
      else if it1.curMethod + 1 < env.Normal() then (it1.(curMethod := it1.curMethod + 1), 0)
      else EndOfMethods(env, it1.(curMethod := it1.curMethod + 1), true)
  }

  // ----- One check -----

  /** A block device's answer, and the partition limit it leaves behind. */
  function FindInBlk(part: nat, maxPart: nat, anyPart: bool, raw: Raw): (int, nat) {
    if part >= MAX_PART_PER_BOOTDEV then (ESHUTDOWN, maxPart)
    else if raw.check != 0 then (raw.check, maxPart)
    else
      var ret := if part == 0 && raw.partInfo == ENOENT then 0
                 else if raw.partInfo == EOPNOTSUPP then ESHUTDOWN else raw.partInfo;
      if ret != 0 && !anyPart then
        if part == 1 then (ENOENT, 3) else (ret, maxPart)
      else (raw.body, MAX_PART_PER_BOOTDEV)
  }

  function GetBootflow(part: nat, maxPart: nat, anyPart: bool, raw: Raw): (int, nat) {
    if raw.blk then FindInBlk(part, maxPart, anyPart, raw) else (raw.body, maxPart)
  }

  /** The attempt the state stands for. */
  function Now(it: Iter): Attempt {
    if it.doingGlobal then Attempt(true, it.curPrio, -1, 0, it.curMethod, it.entry, NoFlags, it.pending)
    else
      Attempt(false, it.curPrio, if it.dev.Some? then it.dev.value else -1, it.part, it.curMethod, it.entry,
              it.methodFlags, None)
  }

  /** Mark the bootmeth as used and ask it (or the bootdev) for a bootflow. */
  function Check(env: Env, it: Iter): (Iter, int)
    requires it.curMethod < |env.order|
  {
    var it1 := it.(done := it.done + {it.curMethod});
    var raw := env.raw(|it.log|);
    if it1.doingGlobal then
      var it2 := SetDev(it1, None, NoFlags);
      (it2.(log := it2.log + [Now(it2)]), raw.body)
    else
      var (ret, maxPart) := GetBootflow(it1.part, it1.maxPart, env.order[it1.curMethod].anyPart, raw);
      (it1.(log := it1.log + [Now(it1)], maxPart := maxPart), ret)
  }

  // ----- One pass through the scan loop -----

  /** What happens after a pass: a bootflow or an error is returned to the
      caller, the scan is over, or the loop goes on. */
  datatype Outcome = Found | Reported(ret: int) | Ended | Going

  function Judge(it: Iter, ret: int): (Iter, Outcome) {
    var it1 := it.(err := ret);
    if ret == 0 then (it1, Found)
    else if ret != BF_NO_MORE_PARTS && ret != ENOSYS && it.flags.all then (it1, Reported(ret))
    else (it1, Going)
  }

  /** Try what the state stands for. */
  function Try(env: Env, it: Iter): (Iter, Outcome)
    requires it.curMethod < |env.order|
  {
    var (it1, ret) := Check(env, it);
    Judge(it1, ret)
  }

  function Step(env: Env, it: Iter): (Iter, Outcome)
    requires Ready(env, it)
  {
    var (it1, ret) := IterIncr(env, it);
    if ret == BF_NO_MORE_DEVICES then (it1, Ended)
    else if ret != 0 then (it1.(err := ret), Going)
    else Try(env, it1)
  }
}
