/** The walk by priority reaches every bootdev. */
module BootScanCover {
  import opened Wrappers
  import opened BootScan
  import opened BootScanRuns
  import opened BootScanOrder
  import opened BootScanGlobals
  import opened BootScanWalk

  /** What a hunter binds, and probes, is not of a higher priority than its own. */
  predicate InTime(h: Hunter) {
    h.result == 0 ==> forall k :: 0 <= k < |h.finds| && h.finds[k].probe == 0 ==> h.finds[k].prio >= h.prio
  }

  /** Hunters from priority `lo` on that are still to run are in time. */
  predicate HuntFine(env: Env, it: Iter, lo: nat) {
    it.flags.hunt ==>
      forall h: nat :: h < |env.hunters| && h !in it.hunted && lo <= env.hunters[h].prio < BOOTDEVP_COUNT ==>
        InTime(env.hunters[h])
  }

  /** No pre-scan hunter that is still to run fails. */
  predicate PrescanWorks(env: Env, it: Iter) {
    it.flags.hunt ==>
      forall h: nat :: h < |env.hunters| && h !in it.hunted && env.hunters[h].prio == BOOTDEVP_PRE_SCAN ==>
        Works(env.hunters[h])
  }

  predicate Prescanned(env: Env, it: Iter) {
    it.flags.hunt ==>
      forall h: nat :: h < |env.hunters| && env.hunters[h].prio == BOOTDEVP_PRE_SCAN ==> h in it.hunted
  }

  /** Only globals so far: the walk over bootdevs has not begun. */
  predicate NotBegun(it: Iter) { it.doingGlobal && it.pending.None? && it.curPrio == 0 }

  /** Hunting is in order: the pre-scan works, or is over, and later hunters are in time. */
  predicate HuntsFine(env: Env, it: Iter) {
    HuntFine(env, it, BOOTDEVP_PRE_SCAN + 1) && if NotBegun(it) then PrescanWorks(env, it) else Prescanned(env, it)
  }

  /** A bootdev of priority `prio` at position `d` comes before position `bound` of
      priority `p` in the walk. */
  predicate Before(prio: nat, d: nat, p: nat, bound: nat) { prio < p || (prio == p && d < bound) }

  /** The bootdevs found since the list was `was` that probe are of priority `prio`
      or a lower one. */
  predicate FoundAt(was: seq<Dev>, devs: seq<Dev>, prio: nat) {
    forall d :: |was| <= d < |devs| && devs[d].probe == 0 ==> devs[d].prio >= prio
  }

  lemma {:induction false} HuntFinds(env: Env, it: Iter, prio: nat, h: nat, result: int)
    requires it.flags.hunt && HuntFine(env, it, prio) && prio < BOOTDEVP_COUNT && h <= |env.hunters|
    ensures FoundAt(it.devs, HuntFrom(env, it, AtPrio(env, prio), h, result).0.devs, prio)
    decreases |env.hunters| - h
  {
    if h < |env.hunters| {
      if AtPrio(env, prio)(h) {
        var (it1, ret) := HuntOne(env, it, h);
        HuntOneFinds(env, it, h);
        HuntFinds(env, it1, prio, h + 1, if ret != 0 then ret else result);
      } else {
        HuntFinds(env, it, prio, h + 1, result);
      }
    }
  }

  lemma HuntOneFinds(env: Env, it: Iter, h: nat)
    requires it.flags.hunt && h < |env.hunters| && HuntFine(env, it, env.hunters[h].prio)
    requires env.hunters[h].prio < BOOTDEVP_COUNT
    ensures FoundAt(it.devs, HuntOne(env, it, h).0.devs, env.hunters[h].prio)
  {
  }

  lemma {:induction false} PrescanDone(env: Env, it: Iter, h: nat)
    requires it.flags.hunt && PrescanWorks(env, it) && h <= |env.hunters|
    ensures var r := HuntFrom(env, it, AtPrio(env, BOOTDEVP_PRE_SCAN), h, 0);
            && r.1 == 0
            && forall g: nat :: h <= g < |env.hunters| && env.hunters[g].prio == BOOTDEVP_PRE_SCAN ==> g in r.0.hunted
    decreases |env.hunters| - h
  {
    if h < |env.hunters| {
      if AtPrio(env, BOOTDEVP_PRE_SCAN)(h) {
        PrescanDone(env, HuntOne(env, it, h).0, h + 1);
      } else {
        PrescanDone(env, it, h + 1);
      }
    }
  }

  lemma PrescanEnds(env: Env, it: Iter)
    requires PrescanWorks(env, it)
    ensures Prescanned(env, Prescan(env, it).0) && Prescan(env, it).1 == 0
  {
    if it.flags.hunt { PrescanDone(env, it, 0); }
  }

  lemma AfterPrescan(env: Env, it: Iter)
    requires PrescanWorks(env, it) && HuntFine(env, it, BOOTDEVP_PRE_SCAN + 1)
    ensures Prescanned(env, Prescan(env, it).0) && HuntFine(env, Prescan(env, it).0, BOOTDEVP_PRE_SCAN)
    ensures Prescan(env, it).1 == 0
  {
    hide Prescan, InTime;
    PrescanEnds(env, it);
  }

  lemma LowerPrioFinds(env: Env, it: Iter)
    requires HuntFine(env, it, BOOTDEVP_PRE_SCAN)
    ensures FoundAt(it.devs, LowerPrio(env, it).devs, it.curPrio + 1)
  {
    var it0 := it.(curPrio := it.curPrio + 1);
    if it0.curPrio < BOOTDEVP_COUNT && it.flags.hunt {
      assert HuntFine(env, it0, it0.curPrio);
      HuntFinds(env, it0, it0.curPrio, 0, 0);
      assert LowerPrio(env, it) == HuntFrom(env, it0, AtPrio(env, it0.curPrio), 0, 0).0;
    }
  }

  lemma NextPrioCases(env: Env, it: Iter, from: nat)
    requires it.curPrio < BOOTDEVP_COUNT && from <= |it.devs|
    ensures var j := DevAtPrio(it.devs, it.curPrio, from);
            NextPrio(env, it, from) ==
            if j < |it.devs| then
              if it.devs[j].probe == 0 then Choice(it, 0, j, NoFlags) else NextPrio(env, it, j + 1)
            else
              var it1 := LowerPrio(env, it);
              if it1.curPrio == BOOTDEVP_COUNT then Choice(it1, ENODEV, 0, NoFlags) else NextPrio(env, it1, 0)
  {
    hide LowerPrio, DevAtPrio;
  }

  /** Walking on by priority skips only bootdevs that do not probe. */
  lemma {:induction false} NextPrioSkips(env: Env, it: Iter, from: nat, c: Choice, d: nat)
    requires HuntFine(env, it, BOOTDEVP_PRE_SCAN) && it.curPrio < BOOTDEVP_COUNT && from <= |it.devs|
    requires c == NextPrio(env, it, from)
    requires d < |c.it.devs| && c.it.devs[d].probe == 0
    requires Before(c.it.devs[d].prio, d, c.it.curPrio, if c.ret == 0 then c.dev else 0)
    ensures d < |it.devs| && it.devs[d] == c.it.devs[d] && Before(it.devs[d].prio, d, it.curPrio, from)
    decreases BOOTDEVP_COUNT - it.curPrio, |it.devs| - from
  {
    hide LowerPrio, NextPrio, DevAtPrio, InTime;
    NextPrioCases(env, it, from);
    var j := DevAtPrio(it.devs, it.curPrio, from);
    if j < |it.devs| {
      if it.devs[j].probe != 0 { NextPrioSkips(env, it, j + 1, c, d); }
    } else {
      var it1 := LowerPrio(env, it);
      LowerPrioFinds(env, it);
      if it1.curPrio < BOOTDEVP_COUNT { NextPrioSkips(env, it1, 0, c, d); }
    }
  }

  // ----- What the walk has behind it -----

  /** The first attempt on bootdev `d`. */
  predicate IsStart(a: Attempt, d: nat) { !a.glob && a.dev == d && a.part == 0 && a.meth == 0 && a.entry == 0 }

  predicate Tried(log: seq<Attempt>, d: nat) { exists i :: 0 <= i < |log| && IsStart(log[i], d) }

  /** List position up to which bootdevs of the current priority were reached. */
  function Bound(it: Iter): nat {
    if it.doingGlobal then if it.pending.Some? then it.pending.value.dev else 0
    else if it.dev.Some? then it.dev.value + 1 else 0
  }

  predicate Behind(it: Iter, d: nat) {
    d < |it.devs| && it.devs[d].probe == 0 && Before(it.devs[d].prio, d, it.curPrio, Bound(it))
  }

  /** Every bootdev that the walk has behind it and that probes was tried. */
  ghost predicate Covered(it: Iter) { forall d :: Behind(it, d) ==> Tried(it.log, d) }

  /** What a choice of the next bootdev needs of the hunters. */
  predicate HuntsReady(env: Env, it: Iter, incDev: bool) {
    if incDev then HuntFine(env, it, BOOTDEVP_PRE_SCAN)
    else it.curPrio == 0 && HuntFine(env, it, BOOTDEVP_PRE_SCAN + 1) && PrescanWorks(env, it)
  }

  lemma SelectDevSkips(env: Env, it: Iter, incDev: bool, c: Choice, d: nat)
    requires BetweenDevices(env, it, incDev) && PrioWalk(env, it) && HuntsReady(env, it, incDev)
    requires c == SelectDev(env, it, incDev) && d < |c.it.devs| && c.it.devs[d].probe == 0
    requires Before(c.it.devs[d].prio, d, c.it.curPrio, if c.ret == 0 then c.dev else 0)
    ensures incDev && d < |it.devs| && it.devs[d] == c.it.devs[d]
            && Before(it.devs[d].prio, d, it.curPrio, it.dev.value + 1)
  {
    hide Prescan, NextPrio, HuntFine, PrescanWorks, Prescanned;
    if incDev {
      NextPrioSkips(env, it, it.dev.value + 1, c, d);
    } else {
      AfterPrescan(env, it);
      NextPrioSkips(env, Prescan(env, it).0, 0, NextPrio(env, Prescan(env, it).0, 0), d);
    }
  }

  lemma SelectDevEnds(env: Env, it: Iter, incDev: bool)
    requires BetweenDevices(env, it, incDev) && PrioWalk(env, it) && (!incDev ==> PrescanWorks(env, it))
    ensures var c := SelectDev(env, it, incDev);
            if c.ret == 0 then c.dev < |c.it.devs| && c.it.devs[c.dev].probe == 0
            else c.it.curPrio == BOOTDEVP_COUNT
  {
    hide Prescan, NextPrio, PrescanWorks, Prescanned;
    if !incDev { PrescanEnds(env, it); }
  }

  /** Moving on leaves behind only what was behind already, or the bootdev it
      moves to. */
  lemma NextDeviceCovers(env: Env, it: Iter, incDev: bool, d: nat)
    requires BetweenDevices(env, it, incDev) && PrioWalk(env, it) && HuntsReady(env, it, incDev)
    requires Behind(NextDevice(env, it, incDev).0, d)
    ensures var (it1, ret) := NextDevice(env, it, incDev);
            || (incDev && Behind(it, d))
            || (ret == 0 && !it1.doingGlobal && it1.dev == Some(d))
  {
    hide SelectDev, HuntFine, PrescanWorks, FirstAllowed;
    var c := SelectDev(env, it, incDev);
    SelectDevEnds(env, it, incDev);
    if Before(c.it.devs[d].prio, d, c.it.curPrio, if c.ret == 0 then c.dev else 0) {
      SelectDevSkips(env, it, incDev, c, d);
    }
  }

  lemma IncrementCovers(env: Env, it: Iter, d: nat)
    requires Ok(env, it) && PrioWalk(env, it) && HuntsFine(env, it) && it.err != BF_NO_MORE_DEVICES
    requires Behind(IterIncr(env, it).0, d)
    ensures var (it1, ret) := IterIncr(env, it);
            Behind(it, d) || (ret == 0 && IsStart(Now(it1), d))
  {
    hide NextDevice, HuntFine, PrescanWorks, Prescanned;
    var it1 := it.(entry := 0);
    if it.err == 0 && env.order[it.curMethod].multi {
    } else if it.doingGlobal {
      NextGlobalPoised(env, it1);
      if it.pending.None? && it.curPrio < BOOTDEVP_COUNT
         && FirstAllowed(env, it1, it1.curMethod + 1) == |env.order| {
        var it2 := it1.(doingGlobal := false, curMethod := 0);
        SameHunts(env, it, it2);
        NextDeviceStarts(env, it2, false);
        NextDeviceCovers(env, it2, false, d);
      }
    } else if it1.curMethod + 1 >= env.Normal()
              && !(it.err != BF_NO_MORE_PARTS && it.part + 1 <= it.maxPart) {
      var it2 := it1.(curMethod := 0, part := 0, maxPart := 0);
      SameHunts(env, it, it2);
      NextDeviceStarts(env, it2, true);
      NextDeviceCovers(env, it2, true, d);
    }
  }

  /** Hunting more leaves less to go wrong. */
  lemma SameHunts(env: Env, it: Iter, it1: Iter)
    requires it1.flags == it.flags && it.hunted <= it1.hunted
    ensures HuntFine(env, it, BOOTDEVP_PRE_SCAN + 1) ==> HuntFine(env, it1, BOOTDEVP_PRE_SCAN + 1)
    ensures HuntFine(env, it, BOOTDEVP_PRE_SCAN + 1) && Prescanned(env, it) ==> HuntFine(env, it1, BOOTDEVP_PRE_SCAN)
    ensures PrescanWorks(env, it) ==> PrescanWorks(env, it1)
    ensures Prescanned(env, it) ==> Prescanned(env, it1) && PrescanWorks(env, it1)
  {
  }

  lemma NextDevicePrescans(env: Env, it: Iter)
    requires BetweenDevices(env, it, false) && PrioWalk(env, it) && HuntsReady(env, it, false)
    ensures Prescanned(env, NextDevice(env, it, false).0)
  {
    hide Prescan, NextPrio, HuntFine, PrescanWorks, Prescanned, FirstAllowed;
    AfterPrescan(env, it);
    SameHunts(env, Prescan(env, it).0, NextDevice(env, it, false).0);
  }

  lemma IncrementHuntsFine(env: Env, it: Iter)
    requires Ok(env, it) && PrioWalk(env, it) && HuntsFine(env, it)
    ensures HuntsFine(env, IterIncr(env, it).0)
  {
    hide NextDevice, HuntFine, PrescanWorks, Prescanned;
    IncrementFrame(env, it);
    SameHunts(env, it, IterIncr(env, it).0);
    var it1 := it.(entry := 0);
    if NotBegun(it) && it.err != BF_NO_MORE_DEVICES && !Again(env, it) {
      NextGlobalPoised(env, it1);
      if FirstAllowed(env, it1, it1.curMethod + 1) == |env.order| {
        var it2 := it1.(doingGlobal := false, curMethod := 0);
        SameHunts(env, it, it2);
        NextDevicePrescans(env, it2);
      }
    }
  }

  /** Covered so far, unless the last check is about to stop the scan. */
  ghost predicate CoveredWalk(it: Iter) { !it.flags.Single() && (it.err != BF_NO_MORE_DEVICES ==> Covered(it)) }

  lemma StillTried(log: seq<Attempt>, a: Attempt, d: nat)
    ensures Tried(log, d) ==> Tried(log + [a], d)
    ensures IsStart(a, d) ==> Tried(log + [a], d)
  {
    if Tried(log, d) {
      var i :| 0 <= i < |log| && IsStart(log[i], d);
      assert (log + [a])[i] == log[i];
    }
    assert (log + [a])[|log|] == a;
  }

  lemma TryCovers(env: Env, it: Iter)
    requires Poised(env, it) && !it.flags.Single()
    requires forall d :: Behind(it, d) ==> Tried(it.log, d) || IsStart(Now(it), d)
    ensures CoveredWalk(Try(env, it).0)
  {
    hide Try, IsStart, Tried;
    TryFrame(env, it);
    var it' := Try(env, it).0;
    forall d | Behind(it', d)
      ensures Tried(it'.log, d)
    {
      assert Behind(it, d);
      StillTried(it.log, Now(it), d);
    }
  }

  lemma StepCovers(env: Env, it: Iter)
    requires Ok(env, it) && env.labels.None? && HuntsFine(env, it) && CoveredWalk(it)
    ensures CoveredWalk(Step(env, it).0)
  {
    hide IterIncr, Try, HuntsFine, IsStart, Tried, Behind;
    NeverStuck(env, it);
    IncrementFrame(env, it);
    var (it1, ret) := IterIncr(env, it);
    if it.err != BF_NO_MORE_DEVICES {
      forall d | Behind(it1, d)
        ensures Tried(it.log, d) || (ret == 0 && IsStart(Now(it1), d))
      {
        IncrementCovers(env, it, d);
      }
      if ret == 0 {
        IncrementPoised(env, it);
        TryCovers(env, it1);
      }
    } else {
      StoppedStays(env, it);
    }
  }

  lemma StepHuntsFine(env: Env, it: Iter)
    requires Ok(env, it) && env.labels.None? && !it.flags.Single() && HuntsFine(env, it)
    ensures HuntsFine(env, Step(env, it).0)
  {
    hide IterIncr, Try, HuntFine, PrescanWorks, Prescanned;
    NeverStuck(env, it);
    IncrementHuntsFine(env, it);
    var (it1, ret) := IterIncr(env, it);
    if ret == 0 {
      TryFrame(env, it1);
      SameHunts(env, it1, Try(env, it1).0);
    }
  }

  lemma StoppedStays(env: Env, it: Iter)
    requires Ok(env, it) && it.err == BF_NO_MORE_DEVICES
    ensures Step(env, it) == (it, Ended)
  {
    hide EndOfGlobals, EndOfMethods;
  }

  /** A scan by priority, of all bootdevs. */
  predicate ByPriority(env: Env, s: Setup) { s.Valid(env) && s.sel.None? && env.labels.None? }

  /** A scan by priority, of all bootdevs, whose pre-scan hunt works. */
  predicate PlainScan(env: Env, s: Setup) { ByPriority(env, s) && PrescanWorks(env, Fresh(env, s)) }

  /** The hunters that a scan will run, after the pre-scan ones, are in time. */
  predicate AllInTime(env: Env, s: Setup)
    requires s.Valid(env)
  {
    HuntFine(env, Fresh(env, s), BOOTDEVP_PRE_SCAN + 1)
  }

  lemma StartCovers(env: Env, s: Setup)
    requires PlainScan(env, s) && AllInTime(env, s)
    ensures CoveredWalk(Start(env, s).0)
  {
    hide Try, SetupIter, NextPrio, Prescan, Tried, PrescanWorks, HuntFine;
    var it := Fresh(env, s);
    if env.haveGlobal {
      TryCovers(env, it);
    } else {
      var c := SetupIter(env, it);
      SelectDevEnds(env, it, false);
      forall d: nat | d < |c.it.devs| && c.it.devs[d].probe == 0
        ensures !Before(c.it.devs[d].prio, d, c.it.curPrio, if c.ret == 0 then c.dev else 0)
      {
        if Before(c.it.devs[d].prio, d, c.it.curPrio, if c.ret == 0 then c.dev else 0) {
          SelectDevSkips(env, it, false, c, d);
        }
      }
      if c.ret == 0 { TryCovers(env, SetDev(c.it, Some(c.dev), c.flags)); }
    }
  }

  lemma StartHuntsFine(env: Env, s: Setup)
    requires PlainScan(env, s) && AllInTime(env, s)
    ensures HuntsFine(env, Start(env, s).0)
  {
    hide Try, NextPrio, Prescan, PrescanWorks, Prescanned, HuntFine;
    var it := Fresh(env, s);
    if env.haveGlobal {
      TryFrame(env, it);
      SameHunts(env, it, Try(env, it).0);
    } else {
      var c := SetupIter(env, it);
      AfterPrescan(env, it);
      SameHunts(env, it, c.it);
      SameHunts(env, Prescan(env, it).0, c.it);
      if c.ret == 0 {
        var it1 := SetDev(c.it, Some(c.dev), c.flags);
        TryFrame(env, it1);
        SameHunts(env, c.it, Try(env, it1).0);
      }
    }
  }

  lemma RunCovers(env: Env, s: Setup, n: nat)
    requires PlainScan(env, s) && AllInTime(env, s)
    ensures CoveredWalk(Run(env, s, n).0)
  {
    hide Step, Start, Run, Ok, HuntsFine, Covered;
    var p := (it: Iter) => CoveredWalk(it) && HuntsFine(env, it);
    StartCovers(env, s);
    StartHuntsFine(env, s);
    forall it
      ensures StepKeeps(env, it, p)
    {
      if Ok(env, it) && p(it) {
        StepCovers(env, it);
        StepHuntsFine(env, it);
      }
    }
    RunInvariant(env, s, n, p);
  }

  // ----- The end of the walk -----

  lemma IncrementEnds(env: Env, it: Iter)
    requires Ok(env, it) && PrioWalk(env, it) && it.err != BF_NO_MORE_DEVICES && IterIncr(env, it).1 != 0
    ensures IterIncr(env, it).0.curPrio == BOOTDEVP_COUNT
  {
    hide SelectDev;
  }

  lemma EndsAtCount(env: Env, s: Setup, n: nat)
    requires PlainScan(env, s) && Complete(env, s, n)
    ensures Run(env, s, n).0.curPrio == BOOTDEVP_COUNT
  {
    hide Step, Start, Ok, IterIncr, Run, PrescanWorks;
    if Start(env, s).1.Ended? {
      EndedStartIs(env, s, n);
      StartEndsAtCount(env, s);
    } else {
      var m := LastPass(env, s, n);
      var it := Run(env, s, m).0;
      RunOk(env, s, m);
      RunWalks(env, s, m);
      StepEnds(env, it);
      IncrementFrame(env, it);
      IncrementEnds(env, it);
    }
  }

  lemma StartEndsAtCount(env: Env, s: Setup)
    requires PlainScan(env, s) && Start(env, s).1.Ended?
    ensures Start(env, s).0.curPrio == BOOTDEVP_COUNT
  {
    hide Try, NextPrio, Prescan;
    var it := Fresh(env, s);
    if env.haveGlobal {
      TryFrame(env, it);
    } else {
      PrescanEnds(env, it);
      var c := SetupIter(env, it);
      if c.ret == 0 { TryFrame(env, SetDev(c.it, Some(c.dev), c.flags)); }
    }
  }

  /** A bootdev that the walk by priority should come to. */
  predicate Due(it: Iter, d: nat) {
    d < |it.devs| && it.devs[d].probe == 0 && it.devs[d].prio < BOOTDEVP_COUNT
  }

  /** If the hunters are in time, a complete scan by priority tries every bootdev
      that probes, including those the hunters find on the way. */
  lemma EveryDeviceTried(env: Env, s: Setup, n: nat, d: nat)
    requires PlainScan(env, s) && AllInTime(env, s) && Complete(env, s, n) && Due(Run(env, s, n).0, d)
    ensures Tried(Run(env, s, n).0.log, d)
  {
    hide Step, Start, Run, Ok, IterIncr, PrescanWorks, HuntFine;
    RunCovers(env, s, n);
    EndsAtCount(env, s, n);
  }
}
