/** Runs of the bootflow scan: how they start, and what holds at every state
    they reach. */
module BootScanRuns {
  import opened Wrappers
  import opened BootScan

  // ----- Starting a scan -----

  /** What follows the bootdev in what the caller asks for. */
  datatype Part = WholeDev | BadPart | OnePart(num: nat)

  /** A bootdev named by the caller: a number, or else a name that may also be a
      label; and perhaps a partition. */
  datatype Selector = Selector(number: Option<int>, name: string, asLabel: Label, part: Part)

  /** What a scan is started with. */
  datatype Setup = Setup(flags: Flags, devs: seq<Dev>, hunted: set<nat>, sel: Option<Selector>) {
    /** Selection flags are the iterator's own business, and a selection skips
        the global bootmeths. */
    predicate Valid(env: Env) { env.Valid() && !flags.Single() && (sel.Some? ==> !env.haveGlobal) }
  }

  function Fresh(env: Env, s: Setup): Iter
    requires env.Valid()
  {
    Iter(s.flags, None, 0, 0, 0, 0, false, 0, if env.haveGlobal then env.firstGlob else 0, 0, env.haveGlobal,
         NoFlags, {}, None, s.devs, s.hunted, [], [])
  }

  function WithNumber(n: int): Dev -> bool { (e: Dev) => e.num == n }

  function WithName(name: string): Dev -> bool { (e: Dev) => e.name == name }

  /** Find a bootdev by its number, its name or a label; the result is that of
      probing it, or that there is none. */
  function FindByAny(it: Iter, x: Selector): (c: Choice)
    ensures c.it == it && (c.ret == 0 ==> c.dev < |it.devs| && it.devs[c.dev].probe == 0)
  {
    if x.number.Some? then
      var j := NextSuch(it.devs, WithNumber(x.number.value), 0);
      Choice(it, if j < |it.devs| then it.devs[j].probe else ENODEV, j, MethFlags(0, false, true))
    else
      var j := NextSuch(it.devs, WithName(x.name), 0);
      var k := DevForLabel(it.devs, x.asLabel, 0);
      if j < |it.devs| && it.devs[j].probe != ENODEV then Choice(it, it.devs[j].probe, j, NoFlags)
      else if !x.asLabel.known then Choice(it, EPFNOSUPPORT, 0, NoFlags)
      else if k == |it.devs| then Choice(it, ENOENT, 0, NoFlags)
      else Choice(it, it.devs[k].probe, k, LabelFlags(x.asLabel))
  }

  /** The partition the caller asks for. */
  function AtPart(it: Iter, part: Part): Iter {
    if part.OnePart? then it.(flags := it.flags.(singlePartition := true), part := part.num) else it
  }

  /** How far a selection reaches: a uclass, one bootdev, or its media device. */
  function Restrict(flags: Flags, mf: MethFlags): Flags {
    if mf.singleUclass then flags.(singleUclass := true)
    else if mf.singleDev then flags.(singleDev := true)
    else flags.(singleMedia := true)
  }

  /** Pre-scan hunters, hunters for the name, then the bootdev that is named. */
  function SelectNamed(env: Env, it: Iter, x: Selector): (c: Choice)
    ensures c.it == it.(flags := c.it.flags, part := c.it.part, devs := c.it.devs, hunted := c.it.hunted)
    ensures c.ret == 0 ==> c.dev < |c.it.devs| && c.it.devs[c.dev].probe == 0 && c.it.flags.Single()
    ensures c.ret == 0 ==> c.it.part == it.part || c.it.flags.singlePartition
  {
    if x.part.BadPart? then Choice(it, EINVAL, 0, NoFlags)
    else
      var it0 := AtPart(it, x.part);
      var (it1, ret1) := Prescan(env, it0);
      var (it2, ret2) := if it1.flags.hunt && ret1 == 0 then HuntFrom(env, it1, Matching(x.asLabel), 0, 0)
                         else (it1, ret1);
      var c := FindByAny(it2, x);
      if ret2 != 0 then Choice(it2, ret2, 0, NoFlags)
      else if c.ret != 0 then c
      else c.(it := it2.(flags := Restrict(it2.flags, c.flags)))
  }

  function FirstDev(env: Env, it: Iter, sel: Option<Selector>): (c: Choice)
    requires it.curPrio < BOOTDEVP_COUNT
    ensures c.ret == 0 ==> c.dev < |c.it.devs| && c.it.curMethod == it.curMethod
  {
    if sel.Some? then SelectNamed(env, it, sel.value) else SetupIter(env, it)
  }

  /** The first check of a scan. */
  function Start(env: Env, s: Setup): (Iter, Outcome)
    requires s.Valid(env)
  {
    var it := Fresh(env, s);
    if env.haveGlobal then
      Try(env, it)
    else
      var c := FirstDev(env, it, s.sel);
      if c.ret != 0 then (c.it, Ended)
      else
        Try(env, SetDev(c.it, Some(c.dev), c.flags))
  }

  // ----- Hunting -----

  /** A hunter that finds something, or nothing, without failing. */
  predicate Works(h: Hunter) { h.result == 0 || h.result == ENOENT }

  /** Hunting only looks at the devices and the hunters used so far. */
  lemma {:induction false} HuntSame(env: Env, it: Iter, it': Iter, p: nat -> bool, h: nat, result: int)
    requires h <= |env.hunters| && it'.devs == it.devs && it'.hunted == it.hunted
    ensures var (r, r') := (HuntFrom(env, it, p, h, result), HuntFrom(env, it', p, h, result));
            r.0.devs == r'.0.devs && r.0.hunted == r'.0.hunted && r.1 == r'.1
    decreases |env.hunters| - h
  {
    if h < |env.hunters| {
      if p(h) {
        var (r, r') := (HuntOne(env, it, h), HuntOne(env, it', h));
        HuntSame(env, r.0, r'.0, p, h + 1, if r.1 != 0 then r.1 else result);
      } else {
        HuntSame(env, it, it', p, h + 1, result);
      }
    }
  }

  lemma SamePrescan(env: Env, it: Iter, it': Iter)
    requires it'.flags == it.flags && it'.devs == it.devs && it'.hunted == it.hunted
    ensures Prescan(env, it').0.devs == Prescan(env, it).0.devs
    ensures Prescan(env, it').0.hunted == Prescan(env, it).0.hunted
    ensures Prescan(env, it').1 == Prescan(env, it).1
  {
    HuntSame(env, it, it', AtPrio(env, BOOTDEVP_PRE_SCAN), 0, 0);
  }

  // ----- The invariant -----

  /** The walk goes by priority, not by label and not within a selection. */
  predicate PrioWalk(env: Env, it: Iter) { env.labels.None? && !it.flags.Single() }

  /** No global bootmeth up to `n` is due. */
  predicate NoneDue(env: Env, done: set<nat>, prio: nat, n: int)
    requires n <= |env.order|
  {
    forall i :: 0 <= env.Normal() <= i < n ==> i in done || env.order[i].globPrio > prio
  }

  /** Working on a global bootmeth: no bootdev is in hand, except perhaps one set
      aside, and that one belongs to the priority just reached. */
  predicate GlobalState(env: Env, it: Iter)
    requires env.Valid()
  {
    && env.haveGlobal && env.Normal() <= it.curMethod < |env.order|
    && it.dev.None? && it.part == 0 && it.maxPart == 0
    && (it.pending.Some? ==>
          && env.labels.None? && it.pending.value.dev < |it.devs| && it.curPrio < BOOTDEVP_COUNT
          && it.devs[it.pending.value.dev].prio == it.curPrio
          && it.devs[it.pending.value.dev].probe == 0)
    && (it.pending.None? ==> it.curPrio == 0 || it.curPrio == BOOTDEVP_COUNT)
    && (it.pending.None? && it.curPrio == 0 ==> it.visits == [] && !it.labelled)
  }

  /** Working on a bootdev. */
  predicate DeviceState(env: Env, it: Iter)
    requires Ready(env, it) && !it.doingGlobal
  {
    && it.curMethod < env.Normal() && it.pending.None?
    && NoneDue(env, it.done, it.curPrio, |env.order|)
    && (PrioWalk(env, it) ==>
          it.devs[it.dev.value].prio == it.curPrio && it.devs[it.dev.value].probe == 0)
    && (env.labels.Some? && !it.flags.Single() ==> it.labelled && 0 <= it.curLabel < |env.labels.value|)
  }

  /** Holds when the next thing to try has been chosen and not yet tried. */
  predicate Poised(env: Env, it: Iter) {
    && Ready(env, it)
    && (forall i :: i in it.done ==> i < |env.order|)
    && it.maxPart <= MAX_PART_PER_BOOTDEV && (it.part <= it.maxPart || it.flags.singlePartition)
    && (env.haveGlobal ==> !it.flags.Single())
    && (it.labelled ==> env.labels.Some?)
    && if it.doingGlobal then GlobalState(env, it) && NoneDue(env, it.done, it.curPrio, it.curMethod)
       else DeviceState(env, it)
  }

  /** Holds after every check. */
  predicate Ok(env: Env, it: Iter) {
    && Poised(env, it)
    && it.curMethod in it.done
    && it.log != [] && it.log[|it.log| - 1] == Now(it)
  }

  /** What a check changes. */
  lemma TryFrame(env: Env, it: Iter)
    requires it.curMethod < |env.order|
    ensures var it' := Try(env, it).0;
            && it' == it.(done := it.done + {it.curMethod}, log := it.log + [Now(it)], err := it'.err,
                          maxPart := it'.maxPart, dev := it'.dev, methodFlags := it'.methodFlags)
            && (if it.doingGlobal then it'.dev.None? && it'.maxPart == it.maxPart && it'.methodFlags == NoFlags
                else it'.dev == it.dev && it'.methodFlags == it.methodFlags)
            && (it.maxPart <= MAX_PART_PER_BOOTDEV ==> it'.maxPart <= MAX_PART_PER_BOOTDEV)
            && (it.part <= it.maxPart <= MAX_PART_PER_BOOTDEV ==> it.part <= it'.maxPart)
    ensures !Try(env, it).1.Ended?
  {
  }

  lemma TryKeepsOk(env: Env, it: Iter)
    requires Poised(env, it)
    ensures Ok(env, Try(env, it).0)
    ensures Now(Try(env, it).0) == Now(it)
  {
    hide Try;
    TryFrame(env, it);
  }

  // ----- An increment keeps it -----

  /** Between bootdevs: everything at the current place has been tried. */
  predicate BetweenDevices(env: Env, it: Iter, incDev: bool) {
    && env.Valid() && it.curMethod == 0 && it.part == 0 && it.maxPart == 0 && !it.flags.singlePartition
    && it.pending.None? && !it.doingGlobal && it.curPrio < BOOTDEVP_COUNT
    && (forall i :: i in it.done ==> i < |env.order|)
    && NoneDue(env, it.done, it.curPrio, |env.order|)
    && (env.haveGlobal ==> !it.flags.Single())
    && (it.labelled ==> env.labels.Some? && -1 <= it.curLabel <= |env.labels.value|)
    && (if incDev then
          && it.dev.Some? && it.dev.value < |it.devs|
          && (env.labels.Some? && !it.flags.Single() ==> it.labelled && 0 <= it.curLabel < |env.labels.value|)
        else !it.flags.Single() && !it.labelled && it.dev.None?)
  }

  /** What the choice of a bootdev gives, whichever way it is made. */
  lemma SelectedDev(env: Env, it: Iter, incDev: bool)
    requires BetweenDevices(env, it, incDev) && !it.flags.singleDev
    requires SelectDev(env, it, incDev).ret == 0
    ensures var c := SelectDev(env, it, incDev);
            && c.dev < |c.it.devs| && c.it.curPrio < BOOTDEVP_COUNT
            && (PrioWalk(env, it) ==> c.it.devs[c.dev].prio == c.it.curPrio && c.it.devs[c.dev].probe == 0)
            && (!PrioWalk(env, it) ==> c.it.curPrio == it.curPrio)
            && (c.it.labelled ==> env.labels.Some? && -1 <= c.it.curLabel <= |env.labels.value|)
            && (env.labels.Some? && !it.flags.Single() ==>
                  c.it.labelled && 0 <= c.it.curLabel < |env.labels.value|)
  {
  }

  /** A chosen bootdev is used, or set aside for a global bootmeth that is due. */
  lemma PreparedPoised(env: Env, it: Iter, dev: nat, flags: MethFlags)
    requires env.Valid() && it.curMethod == 0 && it.part == 0 && it.maxPart == 0
    requires it.pending.None? && !it.doingGlobal && it.curPrio < BOOTDEVP_COUNT && dev < |it.devs|
    requires forall i :: i in it.done ==> i < |env.order|
    requires env.haveGlobal ==> !it.flags.Single()
    requires it.labelled ==> env.labels.Some? && -1 <= it.curLabel <= |env.labels.value|
    requires PrioWalk(env, it) ==> it.devs[dev].prio == it.curPrio && it.devs[dev].probe == 0
    requires !PrioWalk(env, it) ==> NoneDue(env, it.done, it.curPrio, |env.order|)
    requires env.labels.Some? && !it.flags.Single() ==> it.labelled && 0 <= it.curLabel < |env.labels.value|
    requires PrepareBootdev(env, it, dev, flags, true).1 == 0
    ensures Poised(env, PrepareBootdev(env, it, dev, flags, true).0)
  {
  }

  lemma NextDevicePoised(env: Env, it: Iter, incDev: bool)
    requires BetweenDevices(env, it, incDev)
    requires NextDevice(env, it, incDev).1 == 0
    ensures Poised(env, NextDevice(env, it, incDev).0)
  {
    hide SelectDev;
    if !it.flags.singleDev && SelectDev(env, it, incDev).ret == 0 {
      SelectedDev(env, it, incDev);
      var c := SelectDev(env, it, incDev);
      if PrepareBootdev(env, c.it, c.dev, c.flags, true).1 == 0 {
        PreparedPoised(env, c.it, c.dev, c.flags);
      }
    }
  }

  lemma GlobalsEndPoised(env: Env, it: Iter)
    requires env.Valid() && it.doingGlobal && it.curMethod == |env.order|
    requires NoneDue(env, it.done, it.curPrio, |env.order|)
    requires env.haveGlobal && !it.flags.Single()
    requires forall i :: i in it.done ==> i < |env.order|
    requires it.labelled ==> env.labels.Some? && -1 <= it.curLabel <= |env.labels.value|
    requires GlobalState(env, it.(curMethod := env.firstGlob)) && it.curPrio <= BOOTDEVP_COUNT
    requires EndOfGlobals(env, it).1 == 0
    ensures Poised(env, EndOfGlobals(env, it).0)
  {
    hide NextDevice;
    if it.pending.None? && it.curPrio < BOOTDEVP_COUNT {
      NextDevicePoised(env, it.(doingGlobal := false, curMethod := 0, part := 0, maxPart := 0), false);
    }
  }

  lemma MethodsEndPoised(env: Env, it: Iter)
    requires Poised(env, it.(curMethod := 0)) && !it.doingGlobal
    requires EndOfMethods(env, it, true).1 == 0
    ensures Poised(env, EndOfMethods(env, it, true).0)
  {
    hide NextDevice;
    if !(it.err != BF_NO_MORE_PARTS && it.part + 1 <= it.maxPart) {
      NextDevicePoised(env, it.(curMethod := 0, part := 0, maxPart := 0), true);
    }
  }

  lemma NextGlobalPoised(env: Env, it: Iter)
    requires Poised(env, it) && it.doingGlobal && it.curMethod in it.done
    ensures var j := FirstAllowed(env, it, it.curMethod + 1);
            if j < |env.order| then Poised(env, it.(curMethod := j))
            else NoneDue(env, it.done, it.curPrio, |env.order|)
  {
  }

  /** Whatever comes next is ready to be tried. */
  lemma IncrementPoised(env: Env, it: Iter)
    requires Ok(env, it) && IterIncr(env, it).1 == 0
    ensures Poised(env, IterIncr(env, it).0)
  {
    hide EndOfMethods, EndOfGlobals;
    var it1 := it.(entry := 0);
    assert Poised(env, it1);
    if it.err == 0 && env.order[it.curMethod].multi {
      assert Poised(env, it.(entry := it.entry + 1));
    } else if it.doingGlobal {
      NextGlobalPoised(env, it1);
      var j := FirstAllowed(env, it1, it1.curMethod + 1);
      if j == |env.order| { GlobalsEndPoised(env, it1.(curMethod := j)); }
    } else if it1.curMethod + 1 < env.Normal() {
      assert Poised(env, it1.(curMethod := it1.curMethod + 1));
    } else {
      MethodsEndPoised(env, it1.(curMethod := it1.curMethod + 1));
    }
  }

  lemma StepKeepsOk(env: Env, it: Iter)
    requires Ok(env, it) && !Step(env, it).1.Ended?
    ensures Ok(env, Step(env, it).0)
  {
    hide IterIncr, Try;
    var (it1, ret) := IterIncr(env, it);
    NeverStuck(env, it);
    IncrementPoised(env, it);
    TryKeepsOk(env, it1);
  }

  /** An increment finds something to try or ends the scan: the probe of a bootdev
      that was set aside does not fail. */
  lemma NeverStuck(env: Env, it: Iter)
    requires Ok(env, it)
    ensures IterIncr(env, it).1 == 0 || IterIncr(env, it).1 == BF_NO_MORE_DEVICES
  {
    hide SelectDev;
  }

  // ----- Runs -----

  lemma StartOk(env: Env, s: Setup)
    requires s.Valid(env) && !Start(env, s).1.Ended?
    ensures Ok(env, Start(env, s).0)
  {
    hide Try, SetupIter;
    var it := Fresh(env, s);
    if env.haveGlobal {
      TryKeepsOk(env, it);
    } else {
      var c := FirstDev(env, it, s.sel);
      TryKeepsOk(env, SetDev(c.it, Some(c.dev), c.flags));
    }
  }

  /** The scan after its first check and `n` further passes of the loop, across
      any number of calls; an ended scan stays as it is. */
  function Run(env: Env, s: Setup, n: nat): (r: (Iter, Outcome))
    requires s.Valid(env)
    ensures !r.1.Ended? ==> Ok(env, r.0)
  {
    if n == 0 then
      if !Start(env, s).1.Ended? then StartOk(env, s); Start(env, s) else Start(env, s)
    else
      var (it, o) := Run(env, s, n - 1);
      if o.Ended? then (it, o)
      else if !Step(env, it).1.Ended? then StepKeepsOk(env, it); Step(env, it)
      else Step(env, it)
  }

  /** The scan has ended, and not because a check returned -ENODEV. */
  predicate Complete(env: Env, s: Setup, n: nat)
    requires s.Valid(env)
  {
    Run(env, s, n).1.Ended? && Run(env, s, n).0.err != BF_NO_MORE_DEVICES
  }

  /** A pass from `it` does not lose `p`. */
  predicate StepKeeps(env: Env, it: Iter, p: Iter -> bool) { Ok(env, it) && p(it) ==> p(Step(env, it).0) }

  /** What the first check establishes and every pass keeps holds in every run. */
  lemma {:induction false} RunInvariant(env: Env, s: Setup, n: nat, p: Iter -> bool)
    requires s.Valid(env) && p(Start(env, s).0)
    requires forall it :: StepKeeps(env, it, p)
    ensures p(Run(env, s, n).0)
  {
    hide Step, Start, Ok;
    if n > 0 {
      RunInvariant(env, s, n - 1, p);
      var it := Run(env, s, n - 1).0;
      assert StepKeeps(env, it, p);
    }
  }
}
