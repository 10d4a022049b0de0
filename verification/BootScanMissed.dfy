/** Exactly when a scan by priority reaches every bootdev: a hunter that binds one
    of a higher priority than its own binds it behind the walk. */
module BootScanMissed {
  import opened Wrappers
  import opened BootScan
  import opened BootScanRuns
  import opened BootScanOrder
  import opened BootScanGlobals
  import opened BootScanWalk
  import opened BootScanCover

  /** Hunter `h`, still to run after the pre-scan, binds its `k`-th bootdev, which
      probes, too late. */
  predicate Late(env: Env, h: nat, k: nat) {
    && h < |env.hunters| && env.hunters[h].result == 0
    && BOOTDEVP_PRE_SCAN < env.hunters[h].prio < BOOTDEVP_COUNT
    && k < |env.hunters[h].finds| && env.hunters[h].finds[k].probe == 0
    && env.hunters[h].finds[k].prio < env.hunters[h].prio
  }

  predicate Found(was: seq<Dev>, devs: seq<Dev>, x: Dev) { exists d :: |was| <= d < |devs| && devs[d] == x }

  // ----- When the hunter runs -----

  /** Going from `it` to `it1`, hunter `h` ran by the time its priority was reached,
      and then bound its bootdevs. */
  predicate HuntedInTurn(env: Env, it: Iter, it1: Iter, h: nat, k: nat)
    requires Late(env, h, k)
  {
    && (h !in it1.hunted ==> it1.curPrio < env.hunters[h].prio)
    && (h in it1.hunted && h !in it.hunted ==>
          it1.curPrio >= env.hunters[h].prio && Found(it.devs, it1.devs, env.hunters[h].finds[k]))
  }

  lemma {:induction false} HuntBinds(env: Env, it: Iter, prio: nat, g: nat, result: int, h: nat, k: nat)
    requires Late(env, h, k) && g <= |env.hunters| && h !in it.hunted
    ensures var it1 := HuntFrom(env, it, AtPrio(env, prio), g, result).0;
            && (h in it1.hunted ==>
                  env.hunters[h].prio == prio && Found(it.devs, it1.devs, env.hunters[h].finds[k]))
            && (env.hunters[h].prio == prio && g <= h ==> h in it1.hunted)
    decreases |env.hunters| - g
  {
    if g < |env.hunters| {
      if AtPrio(env, prio)(g) {
        var (it1, ret) := HuntOne(env, it, g);
        var result1 := if ret != 0 then ret else result;
        if g == h {
          HuntedStays(env, it, it1, prio, g + 1, result1, h, k);
        } else {
          HuntBinds(env, it1, prio, g + 1, result1, h, k);
        }
      } else {
        HuntBinds(env, it, prio, g + 1, result, h, k);
      }
    }
  }

  /** What hunter `h` has just bound is in the list from then on. */
  lemma HuntedStays(env: Env, it: Iter, it1: Iter, prio: nat, g: nat, result: int, h: nat, k: nat)
    requires Late(env, h, k) && g <= |env.hunters| && h !in it.hunted && it1 == HuntOne(env, it, h).0
    ensures var it2 := HuntFrom(env, it1, AtPrio(env, prio), g, result).0;
            h in it2.hunted && Found(it.devs, it2.devs, env.hunters[h].finds[k])
  {
    var it2 := HuntFrom(env, it1, AtPrio(env, prio), g, result).0;
    var d := |it.devs| + k;
    assert it2.devs[d] == it1.devs[d] == env.hunters[h].finds[k];
  }

  lemma LowerPrioBinds(env: Env, it: Iter, h: nat, k: nat)
    requires Late(env, h, k) && it.flags.hunt && (h !in it.hunted ==> it.curPrio < env.hunters[h].prio)
    ensures HuntedInTurn(env, it, LowerPrio(env, it), h, k)
  {
    var it0 := it.(curPrio := it.curPrio + 1);
    if it0.curPrio < BOOTDEVP_COUNT && h !in it.hunted { HuntBinds(env, it0, it0.curPrio, 0, 0, h, k); }
  }

  lemma {:induction false} NextPrioBinds(env: Env, it: Iter, from: nat, h: nat, k: nat)
    requires Late(env, h, k) && it.flags.hunt && (h !in it.hunted ==> it.curPrio < env.hunters[h].prio)
    requires it.curPrio < BOOTDEVP_COUNT && from <= |it.devs|
    ensures HuntedInTurn(env, it, NextPrio(env, it, from).it, h, k)
    decreases BOOTDEVP_COUNT - it.curPrio, |it.devs| - from
  {
    hide LowerPrio, NextPrio, DevAtPrio, Late;
    NextPrioCases(env, it, from);
    var j := DevAtPrio(it.devs, it.curPrio, from);
    if j < |it.devs| {
      if it.devs[j].probe != 0 { NextPrioBinds(env, it, j + 1, h, k); }
    } else {
      var it1 := LowerPrio(env, it);
      LowerPrioBinds(env, it, h, k);
      if it1.curPrio < BOOTDEVP_COUNT {
        NextPrioBinds(env, it1, 0, h, k);
        ThenStays(env, it, it1, NextPrio(env, it1, 0).it, h, k);
      }
    }
  }

  lemma ThenStays(env: Env, it: Iter, it1: Iter, it2: Iter, h: nat, k: nat)
    requires Late(env, h, k) && HuntedInTurn(env, it, it1, h, k) && HuntedInTurn(env, it1, it2, h, k)
    requires it.devs <= it1.devs <= it2.devs && it1.hunted <= it2.hunted && it1.curPrio <= it2.curPrio
    ensures HuntedInTurn(env, it, it2, h, k)
  {
    var x := env.hunters[h].finds[k];
    if h in it1.hunted && h !in it.hunted {
      var d :| |it.devs| <= d < |it1.devs| && it1.devs[d] == x;
      assert it2.devs[d] == x;
    } else if h in it2.hunted && h !in it1.hunted {
      var d :| |it1.devs| <= d < |it2.devs| && it2.devs[d] == x;
    }
  }

  lemma SelectDevBinds(env: Env, it: Iter, incDev: bool, h: nat, k: nat)
    requires BetweenDevices(env, it, incDev) && PrioWalk(env, it) && it.flags.hunt
    requires Late(env, h, k) && (h !in it.hunted ==> it.curPrio < env.hunters[h].prio)
    ensures HuntedInTurn(env, it, SelectDev(env, it, incDev).it, h, k)
  {
    hide HuntPrio, NextPrio;
    if incDev {
      NextPrioBinds(env, it, it.dev.value + 1, h, k);
    } else {
      var (it1, ret) := HuntPrio(env, it, BOOTDEVP_PRE_SCAN);
      PrescanPasses(env, it, h, k);
      if ret == 0 {
        NextPrioBinds(env, it1, 0, h, k);
        ThenStays(env, it, it1, NextPrio(env, it1, 0).it, h, k);
      }
    }
  }

  lemma PrescanPasses(env: Env, it: Iter, h: nat, k: nat)
    requires Late(env, h, k) && (h !in it.hunted ==> it.curPrio < env.hunters[h].prio)
    ensures HuntedInTurn(env, it, HuntPrio(env, it, BOOTDEVP_PRE_SCAN).0, h, k)
    ensures h in HuntPrio(env, it, BOOTDEVP_PRE_SCAN).0.hunted <==> h in it.hunted
  {
    if h !in it.hunted { HuntBinds(env, it, BOOTDEVP_PRE_SCAN, 0, 0, h, k); }
  }

  lemma NextDeviceBinds(env: Env, it: Iter, incDev: bool, h: nat, k: nat)
    requires BetweenDevices(env, it, incDev) && PrioWalk(env, it) && it.flags.hunt
    requires !incDev ==> PrescanWorks(env, it)
    requires Late(env, h, k) && (h !in it.hunted ==> it.curPrio < env.hunters[h].prio)
    ensures HuntedInTurn(env, it, NextDevice(env, it, incDev).0, h, k)
  {
    hide SelectDev, PrescanWorks, FirstAllowed;
    SelectDevEnds(env, it, incDev);
    SelectDevBinds(env, it, incDev, h, k);
  }

  lemma IncrementBinds(env: Env, it: Iter, h: nat, k: nat)
    requires Ok(env, it) && PrioWalk(env, it) && it.flags.hunt && PrescanWorks(env, it)
    requires Late(env, h, k) && (h !in it.hunted ==> it.curPrio < env.hunters[h].prio)
    ensures HuntedInTurn(env, it, IterIncr(env, it).0, h, k)
  {
    hide NextDevice, PrescanWorks, Late, Found;
    var it1 := it.(entry := 0);
    if it.err == BF_NO_MORE_DEVICES || Again(env, it) {
    } else if it.doingGlobal {
      NextGlobalPoised(env, it1);
      if it.pending.None? && it.curPrio < BOOTDEVP_COUNT
         && FirstAllowed(env, it1, it1.curMethod + 1) == |env.order| {
        var it2 := it1.(doingGlobal := false, curMethod := 0);
        SameHunts(env, it, it2);
        NextDeviceBinds(env, it2, false, h, k);
      }
    } else if it1.curMethod + 1 >= env.Normal()
              && !(it.err != BF_NO_MORE_PARTS && it.part + 1 <= it.maxPart) {
      NextDeviceBinds(env, it1.(curMethod := 0, part := 0, maxPart := 0), true, h, k);
    }
  }

  // ----- What it bound stays behind -----

  /** No attempt was made on bootdev `d`. */
  predicate Untouched(log: seq<Attempt>, d: nat) { forall i :: 0 <= i < |log| && !log[i].glob ==> log[i].dev != d }

  /** Bootdev `d` is `x`, of a priority already left, and was not tried. */
  predicate LostAt(it: Iter, d: nat, x: Dev) {
    d < |it.devs| && it.devs[d] == x && x.prio < it.curPrio && Untouched(it.log, d)
  }

  ghost predicate Lost(it: Iter, x: Dev) { exists d :: LostAt(it, d, x) }

  /** What a run with a late hunter keeps. */
  ghost predicate Losing(env: Env, it: Iter, h: nat, k: nat)
    requires Late(env, h, k)
  {
    && WalkLog(it) && it.flags.hunt && PrescanWorks(env, it)
    && if h in it.hunted then Lost(it, env.hunters[h].finds[k]) else it.curPrio < env.hunters[h].prio
  }

  /** A bootdev bound behind the walk is lost. */
  lemma LostWhenBound(it: Iter, it1: Iter, x: Dev)
    requires OnDevices(it) && it1.log == it.log && Found(it.devs, it1.devs, x) && x.prio < it1.curPrio
    ensures Lost(it1, x)
  {
    var d :| |it.devs| <= d < |it1.devs| && it1.devs[d] == x;
    assert LostAt(it1, d, x);
  }

  lemma StillLost(it: Iter, it1: Iter, x: Dev)
    requires Lost(it, x) && it1.log == it.log && it.devs <= it1.devs && it.curPrio <= it1.curPrio
    ensures Lost(it1, x)
  {
    var d :| LostAt(it, d, x);
    assert LostAt(it1, d, x);
  }

  /** Later attempts are made on bootdevs of later priorities. */
  lemma TryStillLost(env: Env, it: Iter, x: Dev)
    requires Poised(env, it) && PrioWalk(env, it) && Lost(it, x)
    ensures Lost(Try(env, it).0, x)
  {
    hide Try;
    TryFrame(env, it);
    var d :| LostAt(it, d, x);
    assert LostAt(Try(env, it).0, d, x);
  }

  /** An increment does not go back to an earlier priority. */
  lemma PrioGrows(env: Env, it: Iter)
    requires Ok(env, it) && PrioWalk(env, it)
    ensures it.curPrio <= IterIncr(env, it).0.curPrio
  {
    hide IterIncr;
    NeverStuck(env, it);
    if IterIncr(env, it).1 == 0 {
      IncrementAdvances(env, it);
    } else if it.err != BF_NO_MORE_DEVICES {
      IncrementEnds(env, it);
    } else {
      StoppedStays(env, it);
      StepEnds(env, it);
    }
  }

  lemma IncrementLoses(env: Env, it: Iter, h: nat, k: nat)
    requires Ok(env, it) && env.labels.None? && Late(env, h, k) && Losing(env, it, h, k)
    ensures var it1 := IterIncr(env, it).0;
            if h in it1.hunted then Lost(it1, env.hunters[h].finds[k]) else it1.curPrio < env.hunters[h].prio
  {
    hide IterIncr, PrescanWorks, Found, Lost, Ordered;
    IncrementFrame(env, it);
    IncrementBinds(env, it, h, k);
    PrioGrows(env, it);
    var it1, x := IterIncr(env, it).0, env.hunters[h].finds[k];
    if h in it.hunted {
      StillLost(it, it1, x);
    } else if h in it1.hunted {
      LostWhenBound(it, it1, x);
    }
  }

  lemma StepLoses(env: Env, it: Iter, h: nat, k: nat)
    requires Ok(env, it) && env.labels.None? && Late(env, h, k) && Losing(env, it, h, k)
    ensures Losing(env, Step(env, it).0, h, k)
  {
    hide IterIncr, Try, PrescanWorks, Lost, WalkLog;
    var (it1, ret) := IterIncr(env, it);
    NeverStuck(env, it);
    WalkIsPlain(it);
    StepWalks(env, it);
    IncrementFrame(env, it);
    IncrementLoses(env, it, h, k);
    SameHunts(env, it, it1);
    if ret == 0 {
      IncrementPoised(env, it);
      TryFrame(env, it1);
      SameHunts(env, it1, Try(env, it1).0);
      if h in it1.hunted { TryStillLost(env, it1, env.hunters[h].finds[k]); }
    }
  }

  lemma WalkIsPlain(it: Iter)
    requires WalkLog(it)
    ensures !it.flags.Single() && OnDevices(it)
  {
  }

  lemma StartLoses(env: Env, s: Setup, h: nat, k: nat)
    requires PlainScan(env, s) && s.flags.hunt && Late(env, h, k) && h !in s.hunted
    ensures Losing(env, Start(env, s).0, h, k)
  {
    hide Try, SelectDev, SetupIter, PrescanWorks, Lost, WalkLog;
    StartWalks(env, s);
    var it := Fresh(env, s);
    if env.haveGlobal {
      TryFrame(env, it);
      SameHunts(env, it, Try(env, it).0);
    } else {
      var c := SetupIter(env, it);
      FreshBinds(env, s, h, k);
      SameHunts(env, it, c.it);
      if h in c.it.hunted { LostWhenBound(it, c.it, env.hunters[h].finds[k]); }
      if c.ret == 0 {
        var it1 := SetDev(c.it, Some(c.dev), c.flags);
        if h in c.it.hunted { StillLost(c.it, it1, env.hunters[h].finds[k]); }
        FirstPoised(env, s);
        TryFrame(env, it1);
        SameHunts(env, c.it, Try(env, it1).0);
        if h in c.it.hunted { TryStillLost(env, it1, env.hunters[h].finds[k]); }
      }
    }
  }

  lemma FreshBinds(env: Env, s: Setup, h: nat, k: nat)
    requires PlainScan(env, s) && !env.haveGlobal && s.flags.hunt && Late(env, h, k) && h !in s.hunted
    ensures HuntedInTurn(env, Fresh(env, s), SetupIter(env, Fresh(env, s)).it, h, k)
  {
    hide SetupIter;
    SelectDevBinds(env, Fresh(env, s), false, h, k);
  }

  lemma FirstPoised(env: Env, s: Setup)
    requires PlainScan(env, s) && !env.haveGlobal && SetupIter(env, Fresh(env, s)).ret == 0
    ensures var c := SetupIter(env, Fresh(env, s));
            Poised(env, SetDev(c.it, Some(c.dev), c.flags))
  {
    hide SetupIter;
  }

  lemma RunLoses(env: Env, s: Setup, n: nat, h: nat, k: nat)
    requires PlainScan(env, s) && s.flags.hunt && Late(env, h, k) && h !in s.hunted
    ensures Losing(env, Run(env, s, n).0, h, k)
  {
    hide Step, Start, Run, Ok, Losing, Late, PrescanWorks;
    var p := (it: Iter) => Losing(env, it, h, k);
    StartLoses(env, s, h, k);
    forall it
      ensures StepKeeps(env, it, p)
    {
      if Ok(env, it) && p(it) { StepLoses(env, it, h, k); }
    }
    RunInvariant(env, s, n, p);
  }

  lemma LateHunterLoses(env: Env, s: Setup, n: nat, h: nat, k: nat)
    requires PlainScan(env, s) && s.flags.hunt && Late(env, h, k) && h !in s.hunted && Complete(env, s, n)
    ensures exists d :: Due(Run(env, s, n).0, d) && !Tried(Run(env, s, n).0.log, d)
  {
    hide Run, PrescanWorks, WalkLog;
    RunLoses(env, s, n, h, k);
    EndsAtCount(env, s, n);
    var it := Run(env, s, n).0;
    var d :| LostAt(it, d, env.hunters[h].finds[k]);
    assert Due(it, d) && !Tried(it.log, d);
  }

  // ----- When the pre-scan hunt fails -----

  lemma {:induction false} HuntFails(env: Env, it: Iter, prio: nat, g: nat, result: int, h: nat)
    requires g <= |env.hunters|
    requires || result != 0
             || (g <= h < |env.hunters| && h !in it.hunted
                 && env.hunters[h].prio == prio && !Works(env.hunters[h]))
    ensures HuntFrom(env, it, AtPrio(env, prio), g, result).1 != 0
    decreases |env.hunters| - g
  {
    if g < |env.hunters| {
      if AtPrio(env, prio)(g) {
        var (it1, ret) := HuntOne(env, it, g);
        HuntFails(env, it1, prio, g + 1, if ret != 0 then ret else result, h);
      } else {
        HuntFails(env, it, prio, g + 1, result, h);
      }
    }
  }

  lemma PrescanFails(env: Env, it: Iter)
    requires !PrescanWorks(env, it)
    ensures Prescan(env, it).1 != 0
  {
    var h: nat :| h < |env.hunters| && h !in it.hunted && env.hunters[h].prio == BOOTDEVP_PRE_SCAN
                  && !Works(env.hunters[h]);
    HuntFails(env, it, BOOTDEVP_PRE_SCAN, 0, 0, h);
  }

  /** The bootdevs known once the pre-scan hunt is over. */
  function PrescanDevs(env: Env, s: Setup): seq<Dev>
    requires env.Valid()
  {
    Prescan(env, Fresh(env, s)).0.devs
  }

  predicate OnlyGlobals(log: seq<Attempt>) { forall i :: 0 <= i < |log| ==> log[i].glob }

  /** What a run whose pre-scan hunt fails keeps: no bootdev is ever in hand. */
  predicate Blocked(env: Env, s: Setup, it: Iter)
    requires env.Valid()
  {
    && !it.flags.Single() && it.flags == s.flags && OnlyGlobals(it.log)
    && if NotBegun(it) then it.devs == s.devs && it.hunted == s.hunted
       else it.devs == PrescanDevs(env, s) && (it.curPrio == BOOTDEVP_COUNT || (!it.doingGlobal && it.dev.None?))
  }

  lemma NextDeviceBlocked(env: Env, s: Setup, it: Iter)
    requires ByPriority(env, s) && BetweenDevices(env, it, false)
    requires it.flags == s.flags && it.devs == s.devs && it.hunted == s.hunted
    requires Prescan(env, Fresh(env, s)).1 != 0
    ensures var it1 := NextDevice(env, it, false).0;
            it1.devs == PrescanDevs(env, s) && it1.curPrio == BOOTDEVP_COUNT
  {
    hide Prescan, FirstAllowed;
    SamePrescan(env, Fresh(env, s), it);
  }

  lemma IncrementBlocked(env: Env, s: Setup, it: Iter)
    requires ByPriority(env, s) && Ok(env, it) && Blocked(env, s, it) && Prescan(env, Fresh(env, s)).1 != 0
    ensures Blocked(env, s, IterIncr(env, it).0)
    ensures IterIncr(env, it).1 == 0 ==> IterIncr(env, it).0.doingGlobal
    ensures IterIncr(env, it).1 != 0 && it.err != BF_NO_MORE_DEVICES ==> !NotBegun(IterIncr(env, it).0)
  {
    hide NextDevice, PrescanDevs;
    assert it.doingGlobal;
    IncrementFrame(env, it);
    var it1 := it.(entry := 0);
    if it.err != BF_NO_MORE_DEVICES && !Again(env, it) {
      NextGlobalPoised(env, it1);
      if FirstAllowed(env, it1, it1.curMethod + 1) == |env.order| && it.curPrio < BOOTDEVP_COUNT {
        var it2 := it1.(doingGlobal := false, curMethod := 0);
        NextDeviceBlocked(env, s, it2);
        BlockedIsGlobal(env, it2);
      }
    }
  }

  /** Past the last priority only a global bootmeth can be next. */
  lemma BlockedIsGlobal(env: Env, it: Iter)
    requires BetweenDevices(env, it, false)
    ensures var (it1, ret) := NextDevice(env, it, false);
            it1.curPrio == BOOTDEVP_COUNT && ret == 0 ==> it1.doingGlobal
  {
    hide SelectDev;
  }

  lemma StepBlocked(env: Env, s: Setup, it: Iter)
    requires ByPriority(env, s) && Ok(env, it) && Blocked(env, s, it) && Prescan(env, Fresh(env, s)).1 != 0
    ensures Blocked(env, s, Step(env, it).0)
  {
    hide IterIncr, Try, PrescanDevs, Prescan;
    NeverStuck(env, it);
    IncrementBlocked(env, s, it);
    if IterIncr(env, it).1 == 0 { TryFrame(env, IterIncr(env, it).0); }
  }

  lemma StartBlocked(env: Env, s: Setup)
    requires ByPriority(env, s) && Prescan(env, Fresh(env, s)).1 != 0
    ensures Blocked(env, s, Start(env, s).0)
    ensures Start(env, s).1.Ended? ==> !NotBegun(Start(env, s).0)
  {
    hide Try, Prescan;
    if env.haveGlobal { TryFrame(env, Fresh(env, s)); }
  }

  lemma RunBlocked(env: Env, s: Setup, n: nat)
    requires ByPriority(env, s) && Prescan(env, Fresh(env, s)).1 != 0
    ensures Blocked(env, s, Run(env, s, n).0)
  {
    hide Step, Start, Run, Ok, Blocked, Prescan;
    var p := (it: Iter) => Blocked(env, s, it);
    StartBlocked(env, s);
    forall it
      ensures StepKeeps(env, it, p)
    {
      if Ok(env, it) && p(it) { StepBlocked(env, s, it); }
    }
    RunInvariant(env, s, n, p);
  }

  /** If a pre-scan hunter fails, no run makes an ordinary attempt, and a complete
      one knows the bootdevs that the pre-scan hunt left. */
  lemma PrescanFailureStops(env: Env, s: Setup, n: nat)
    requires ByPriority(env, s) && !PrescanWorks(env, Fresh(env, s))
    ensures OnlyGlobals(Run(env, s, n).0.log)
    ensures Complete(env, s, n) ==> Run(env, s, n).0.devs == PrescanDevs(env, s)
  {
    hide Step, Start, Run, Ok, IterIncr, PrescanWorks, Prescan, PrescanDevs;
    PrescanFails(env, Fresh(env, s));
    RunBlocked(env, s, n);
    if Complete(env, s, n) {
      StartBlocked(env, s);
      if Start(env, s).1.Ended? {
        EndedStartIs(env, s, n);
      } else {
        var m := LastPass(env, s, n);
        var it := Run(env, s, m).0;
        RunOk(env, s, m);
        RunBlocked(env, s, m);
        StepEnds(env, it);
        IncrementFrame(env, it);
        IncrementBlocked(env, s, it);
      }
    }
  }

  /** Nothing in the list is for a walk by priority. */
  predicate NothingDue(devs: seq<Dev>) {
    forall d :: 0 <= d < |devs| ==> devs[d].probe != 0 || devs[d].prio >= BOOTDEVP_COUNT
  }

  // ----- Exactly when every bootdev is tried -----

  /** A complete scan by priority tries every bootdev that probes if and only if
      each hunter still to run after the pre-scan binds bootdevs of its own
      priority or a lower one; or, if a pre-scan hunter fails, if and only if no
      bootdev is due. */
  lemma EveryDeviceTriedIff(env: Env, s: Setup, n: nat)
    requires ByPriority(env, s) && Complete(env, s, n)
    ensures (forall d :: Due(Run(env, s, n).0, d) ==> Tried(Run(env, s, n).0.log, d))
            <==> if PrescanWorks(env, Fresh(env, s)) then AllInTime(env, s) else NothingDue(PrescanDevs(env, s))
  {
    hide Run, PrescanWorks, PrescanDevs, Tried;
    if !PrescanWorks(env, Fresh(env, s)) {
      PrescanFailureStops(env, s, n);
      NoneTried(env, s, Run(env, s, n).0);
    } else if AllInTime(env, s) {
      forall d | Due(Run(env, s, n).0, d)
        ensures Tried(Run(env, s, n).0.log, d)
      {
        EveryDeviceTried(env, s, n, d);
      }
    } else {
      var h: nat :| h < |env.hunters| && h !in s.hunted
                    && BOOTDEVP_PRE_SCAN + 1 <= env.hunters[h].prio < BOOTDEVP_COUNT && !InTime(env.hunters[h]);
      var k :| 0 <= k < |env.hunters[h].finds| && env.hunters[h].finds[k].probe == 0
               && env.hunters[h].finds[k].prio < env.hunters[h].prio;
      LateHunterLoses(env, s, n, h, k);
    }
  }

  lemma NoneTried(env: Env, s: Setup, it: Iter)
    requires env.Valid() && OnlyGlobals(it.log) && it.devs == PrescanDevs(env, s)
    ensures (forall d :: Due(it, d) ==> Tried(it.log, d)) <==> NothingDue(PrescanDevs(env, s))
  {
    hide PrescanDevs;
    assert forall d: nat :: !Tried(it.log, d);
    if d: nat :| d < |it.devs| && it.devs[d].probe == 0 && it.devs[d].prio < BOOTDEVP_COUNT { assert Due(it, d); }
    if d: nat :| Due(it, d) { assert it.devs[d].probe == 0; }
  }
}
