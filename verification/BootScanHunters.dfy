/** Hunters: which ones a hunt runs and uses up, and that over a whole run each binds
    its bootdevs at most once, at the end of the list. */
module BootScanHunters {
  import opened Wrappers
  import opened BootScan
  import opened BootScanRuns
  import opened BootScanOrder
  import opened BootScanGlobals

  // ----- One hunt -----

  /** Hunter `g` is asked for, was not used before, and fails. */
  predicate Breaks(env: Env, it: Iter, p: nat -> bool, g: nat) {
    g < |env.hunters| && p(g) && g !in it.hunted && !Works(env.hunters[g])
  }

  /** The result of a hunt that starts at hunter `h` with `result`: that of the last hunter
      to fail. */
  ghost predicate LastFailure(env: Env, it: Iter, p: nat -> bool, h: nat, result: int, ret: int) {
    if exists g: nat :: h <= g && Breaks(env, it, p, g) then
      exists g: nat :: h <= g < |env.hunters| && Breaks(env, it, p, g) && ret == env.hunters[g].result
                       && forall k: nat :: g < k ==> !Breaks(env, it, p, k)
    else ret == result
  }

  /** From hunter `h` on: exactly the hunters that are asked for and do not fail get used
      up, and the last failure is returned. */
  lemma {:induction false} HuntUses(env: Env, it: Iter, p: nat -> bool, h: nat, result: int, g: nat)
    requires h <= |env.hunters|
    ensures var it1 := HuntFrom(env, it, p, h, result).0;
            g in it1.hunted <==> g in it.hunted || (h <= g < |env.hunters| && p(g) && Works(env.hunters[g]))
    decreases |env.hunters| - h
  {
    if h < |env.hunters| {
      if p(h) {
        var (it1, ret) := HuntOne(env, it, h);
        HuntUses(env, it1, p, h + 1, if ret != 0 then ret else result, g);
      } else {
        HuntUses(env, it, p, h + 1, result, g);
      }
    }
  }

  lemma BreaksLater(env: Env, it: Iter, p: nat -> bool, h: nat)
    requires h < |env.hunters|
    ensures forall g: nat :: h < g ==> (Breaks(env, HuntOne(env, it, h).0, p, g) <==> Breaks(env, it, p, g))
  {
  }

  lemma {:induction false} HuntReturns(env: Env, it: Iter, p: nat -> bool, h: nat, result: int)
    requires h <= |env.hunters|
    ensures LastFailure(env, it, p, h, result, HuntFrom(env, it, p, h, result).1)
    decreases |env.hunters| - h
  {
    if h < |env.hunters| {
      if p(h) {
        var (it1, ret) := HuntOne(env, it, h);
        var result1 := if ret != 0 then ret else result;
        HuntReturns(env, it1, p, h + 1, result1);
        BreaksLater(env, it, p, h);
        OneFailure(env, it, p, h);
        hide HuntFrom, HuntOne, Breaks;
        FailureNext(env, it, it1, p, h, result, result1, HuntFrom(env, it1, p, h + 1, result1).1);
      } else {
        HuntReturns(env, it, p, h + 1, result);
        hide HuntFrom;
        FailureNext(env, it, it, p, h, result, result, HuntFrom(env, it, p, h + 1, result).1);
      }
    }
  }

  lemma OneFailure(env: Env, it: Iter, p: nat -> bool, h: nat)
    requires h < |env.hunters| && p(h)
    ensures HuntOne(env, it, h).1 == if Breaks(env, it, p, h) then env.hunters[h].result else 0
    ensures Breaks(env, it, p, h) ==> env.hunters[h].result != 0
  {
  }

  lemma FailureNext(env: Env, it: Iter, it1: Iter, p: nat -> bool, h: nat, result: int, result1: int, ret: int)
    requires h < |env.hunters|
    requires result1 == if Breaks(env, it, p, h) then env.hunters[h].result else result
    requires forall g: nat :: h < g ==> (Breaks(env, it1, p, g) <==> Breaks(env, it, p, g))
    requires LastFailure(env, it1, p, h + 1, result1, ret)
    ensures LastFailure(env, it, p, h, result, ret)
  {
    hide Breaks;
    if g: nat :| h + 1 <= g && Breaks(env, it1, p, g) {
      var k: nat :| h + 1 <= k < |env.hunters| && Breaks(env, it1, p, k) && ret == env.hunters[k].result
                    && forall j: nat :: k < j ==> !Breaks(env, it1, p, j);
      assert Breaks(env, it, p, k);
    } else if Breaks(env, it, p, h) {
      assert forall j: nat :: h < j ==> !Breaks(env, it, p, j);
    }
  }

  /** The hunt for a label runs the label's hunters and no others. */
  lemma LabelHunt(env: Env, it: Iter, l: Label, g: nat)
    ensures var (it1, ret) := HuntFrom(env, it, Matching(l), 0, 0);
            && (g in it1.hunted <==>
                  g in it.hunted || (g < |env.hunters| && g in l.hunters && Works(env.hunters[g])))
            && (ret == 0 <==>
                  forall k: nat :: k < |env.hunters| && k in l.hunters && k !in it.hunted ==> Works(env.hunters[k]))
  {
    HuntUses(env, it, Matching(l), 0, 0, g);
    HuntReturns(env, it, Matching(l), 0, 0);
    HuntZero(env, it, Matching(l), HuntFrom(env, it, Matching(l), 0, 0).1);
    hide HuntFrom;
    assert forall k: nat :: k < |env.hunters| && k in l.hunters && k !in it.hunted && !Works(env.hunters[k])
                            <==> Breaks(env, it, Matching(l), k);
  }

  /** The hunt at a priority runs the hunters of that priority and no others. */
  lemma PrioHunt(env: Env, it: Iter, prio: nat, g: nat)
    ensures var (it1, ret) := HuntPrio(env, it, prio);
            && (g in it1.hunted <==>
                  g in it.hunted || (g < |env.hunters| && env.hunters[g].prio == prio && Works(env.hunters[g])))
            && (ret == 0 <==>
                  forall k: nat :: k < |env.hunters| && env.hunters[k].prio == prio && k !in it.hunted ==>
                    Works(env.hunters[k]))
  {
    HuntUses(env, it, AtPrio(env, prio), 0, 0, g);
    HuntReturns(env, it, AtPrio(env, prio), 0, 0);
    HuntZero(env, it, AtPrio(env, prio), HuntFrom(env, it, AtPrio(env, prio), 0, 0).1);
    hide HuntFrom;
    assert forall k: nat :: k < |env.hunters| && env.hunters[k].prio == prio && k !in it.hunted
                            && !Works(env.hunters[k])
                            <==> Breaks(env, it, AtPrio(env, prio), k);
  }

  lemma HuntZero(env: Env, it: Iter, p: nat -> bool, ret: int)
    requires LastFailure(env, it, p, 0, 0, ret)
    ensures ret == 0 <==> forall k: nat :: !Breaks(env, it, p, k)
  {
  }

  // ----- Whole runs -----

  /** The bootdevs of some hunters, one hunter after the other. */
  function Finds(env: Env, hs: seq<nat>): seq<Dev>
    requires forall i :: 0 <= i < |hs| ==> hs[i] < |env.hunters|
  {
    if hs == [] then []
    else
      var h := hs[|hs| - 1];
      Finds(env, hs[..|hs| - 1]) + if env.hunters[h].result == 0 then env.hunters[h].finds else []
  }

  /** Different hunters, none used before, none of which fails. */
  predicate NewHunters(env: Env, hunted: set<nat>, hs: seq<nat>) {
    && (forall i :: 0 <= i < |hs| ==> hs[i] < |env.hunters| && hs[i] !in hunted && Works(env.hunters[hs[i]]))
    && (forall i, j :: 0 <= i < j < |hs| ==> hs[i] != hs[j])
  }

  /** The hunters `hs` account for all that is new. */
  predicate Accounts(env: Env, devs: seq<Dev>, hunted: set<nat>, hs: seq<nat>, devs': seq<Dev>, hunted': set<nat>) {
    && NewHunters(env, hunted, hs)
    && devs' == devs + Finds(env, hs)
    && hunted' == hunted + set h | h in hs
  }

  ghost predicate Grown(env: Env, it: Iter, it1: Iter) {
    exists hs :: Accounts(env, it.devs, it.hunted, hs, it1.devs, it1.hunted)
  }

  lemma GrownNot(env: Env, it: Iter, it1: Iter)
    requires it1.devs == it.devs && it1.hunted == it.hunted
    ensures Grown(env, it, it1)
  {
    assert Accounts(env, it.devs, it.hunted, [], it1.devs, it1.hunted);
  }

  lemma {:induction false} FindsThen(env: Env, hs: seq<nat>, gs: seq<nat>)
    requires forall i :: 0 <= i < |hs| ==> hs[i] < |env.hunters|
    requires forall i :: 0 <= i < |gs| ==> gs[i] < |env.hunters|
    ensures forall i :: 0 <= i < |hs + gs| ==> (hs + gs)[i] < |env.hunters|
    ensures Finds(env, hs + gs) == Finds(env, hs) + Finds(env, gs)
  {
    var all := hs + gs;
    if gs == [] {
      assert all == hs;
    } else {
      FindsThen(env, hs, gs[..|gs| - 1]);
      assert all[..|all| - 1] == hs + gs[..|gs| - 1];
    }
  }

  lemma AccountsThen(env: Env, d0: seq<Dev>, h0: set<nat>, hs: seq<nat>, d1: seq<Dev>, h1: set<nat>,
                     gs: seq<nat>, d2: seq<Dev>, h2: set<nat>)
    requires Accounts(env, d0, h0, hs, d1, h1) && Accounts(env, d1, h1, gs, d2, h2)
    ensures Accounts(env, d0, h0, hs + gs, d2, h2)
  {
    FindsThen(env, hs, gs);
    NewThen(env, h0, hs, h1, gs);
    hide Finds, NewHunters;
    DevsThen(d0, Finds(env, hs), Finds(env, gs));
  }

  lemma DevsThen(d0: seq<Dev>, a: seq<Dev>, b: seq<Dev>)
    ensures (d0 + a) + b == d0 + (a + b)
  {
  }

  lemma NewThen(env: Env, h0: set<nat>, hs: seq<nat>, h1: set<nat>, gs: seq<nat>)
    requires NewHunters(env, h0, hs) && h1 == (h0 + set h | h in hs) && NewHunters(env, h1, gs)
    ensures NewHunters(env, h0, hs + gs)
    ensures (h1 + set h | h in gs) == (h0 + set h | h in hs + gs)
  {
  }

  lemma GrownThen(env: Env, it: Iter, it1: Iter, it2: Iter)
    requires Grown(env, it, it1) && Grown(env, it1, it2)
    ensures Grown(env, it, it2)
  {
    hide Accounts;
    var hs :| Accounts(env, it.devs, it.hunted, hs, it1.devs, it1.hunted);
    var gs :| Accounts(env, it1.devs, it1.hunted, gs, it2.devs, it2.hunted);
    AccountsThen(env, it.devs, it.hunted, hs, it1.devs, it1.hunted, gs, it2.devs, it2.hunted);
  }

  lemma HuntOneGrows(env: Env, it: Iter, h: nat)
    requires h < |env.hunters|
    ensures Grown(env, it, HuntOne(env, it, h).0)
  {
    var it1 := HuntOne(env, it, h).0;
    if h !in it.hunted && Works(env.hunters[h]) {
      assert [h][..0] == [];
      assert Finds(env, [h]) == if env.hunters[h].result == 0 then env.hunters[h].finds else [];
      assert Accounts(env, it.devs, it.hunted, [h], it1.devs, it1.hunted);
    } else {
      GrownNot(env, it, it1);
    }
  }

  lemma {:induction false} HuntGrows(env: Env, it: Iter, p: nat -> bool, h: nat, result: int)
    requires h <= |env.hunters|
    ensures Grown(env, it, HuntFrom(env, it, p, h, result).0)
    decreases |env.hunters| - h
  {
    hide Grown, HuntOne;
    if h == |env.hunters| {
      GrownNot(env, it, it);
    } else if p(h) {
      var (it1, ret) := HuntOne(env, it, h);
      var result1 := if ret != 0 then ret else result;
      HuntOneGrows(env, it, h);
      HuntGrows(env, it1, p, h + 1, result1);
      GrownThen(env, it, it1, HuntFrom(env, it1, p, h + 1, result1).0);
    } else {
      HuntGrows(env, it, p, h + 1, result);
    }
  }

  lemma LowerPrioGrows(env: Env, it: Iter)
    ensures Grown(env, it, LowerPrio(env, it))
  {
    hide Grown, HuntFrom;
    var it1 := it.(curPrio := it.curPrio + 1);
    GrownNot(env, it, it1);
    HuntGrows(env, it1, AtPrio(env, it1.curPrio), 0, 0);
    GrownThen(env, it, it1, HuntPrio(env, it1, it1.curPrio).0);
  }

  lemma {:induction false} NextPrioGrows(env: Env, it: Iter, from: nat)
    requires it.curPrio < BOOTDEVP_COUNT && from <= |it.devs|
    ensures Grown(env, it, NextPrio(env, it, from).it)
    decreases BOOTDEVP_COUNT - it.curPrio, |it.devs| - from
  {
    hide Grown, LowerPrio, DevAtPrio;
    var j := DevAtPrio(it.devs, it.curPrio, from);
    GrownNot(env, it, it);
    if j < |it.devs| {
      if it.devs[j].probe != 0 { NextPrioGrows(env, it, j + 1); }
    } else {
      var it1 := LowerPrio(env, it);
      LowerPrioGrows(env, it);
      if it1.curPrio < BOOTDEVP_COUNT {
        NextPrioGrows(env, it1, 0);
        GrownThen(env, it, it1, NextPrio(env, it1, 0).it);
      }
    }
  }

  lemma {:induction false} NextLabelGrows(env: Env, it: Iter)
    requires env.labels.Some? && -1 <= it.curLabel <= |env.labels.value|
    ensures Grown(env, it, NextLabel(env, it).it)
    decreases |env.labels.value| - it.curLabel
  {
    hide Grown, HuntFrom, DevForLabel;
    GrownNot(env, it, it);
    if it.curLabel < |env.labels.value| {
      var it1 := it.(curLabel := it.curLabel + 1);
      GrownNot(env, it, it1);
      if it1.curLabel < |env.labels.value| {
        var l := env.labels.value[it1.curLabel];
        var it2 := HuntFrom(env, it1, Matching(l), 0, 0).0;
        HuntGrows(env, it1, Matching(l), 0, 0);
        GrownThen(env, it, it1, it2);
        NextLabelGrows(env, it2);
        GrownThen(env, it, it2, NextLabel(env, it2).it);
      }
    }
  }

  lemma SetupIterGrows(env: Env, it: Iter)
    requires it.curPrio < BOOTDEVP_COUNT
    ensures Grown(env, it, SetupIter(env, it).it)
  {
    hide Grown, HuntFrom, NextPrio, NextLabel;
    var it1 := Prescan(env, it).0;
    GrownNot(env, it, it);
    HuntGrows(env, it, AtPrio(env, BOOTDEVP_PRE_SCAN), 0, 0);
    assert Grown(env, it, it1);
    if env.labels.Some? {
      var it2 := it1.(labelled := true, curLabel := -1);
      GrownNot(env, it1, it2);
      NextLabelGrows(env, it2);
      GrownThen(env, it1, it2, NextLabel(env, it2).it);
    } else {
      NextPrioGrows(env, it1, 0);
    }
    GrownThen(env, it, it1, FirstChoice(env, it1).it);
  }

  lemma SelectDevGrows(env: Env, it: Iter, incDev: bool)
    requires BetweenDevices(env, it, incDev)
    ensures Grown(env, it, SelectDev(env, it, incDev).it)
  {
    hide Grown, NextPrio, NextLabel, SetupIter;
    GrownNot(env, it, it);
    if !incDev {
      SetupIterGrows(env, it);
    } else {
      if it.labelled { NextLabelGrows(env, it); }
      NextPrioGrows(env, it, it.dev.value + 1);
    }
  }

  lemma NextDeviceGrows(env: Env, it: Iter, incDev: bool)
    requires BetweenDevices(env, it, incDev)
    ensures Grown(env, it, NextDevice(env, it, incDev).0)
  {
    hide Grown, SelectDev;
    GrownNot(env, it, it);
    SelectDevGrows(env, it, incDev);
    var it1 := SelectDev(env, it, incDev).it;
    var it2 := NextDevice(env, it, incDev).0;
    if it.flags.singleDev { GrownNot(env, it, it2); } else {
      GrownNot(env, it1, it2);
      GrownThen(env, it, it1, it2);
    }
  }

  lemma IncrementGrows(env: Env, it: Iter)
    requires Ok(env, it)
    ensures Grown(env, it, IterIncr(env, it).0)
  {
    hide NextDevice, Grown;
    var it1 := it.(entry := 0);
    var it' := IterIncr(env, it).0;
    if it.err == BF_NO_MORE_DEVICES || Again(env, it) {
      GrownNot(env, it, it');
    } else if it.doingGlobal {
      NextGlobalPoised(env, it1);
      if it.pending.None? && it.curPrio < BOOTDEVP_COUNT
         && FirstAllowed(env, it1, it1.curMethod + 1) == |env.order| {
        var it2 := it1.(doingGlobal := false, curMethod := 0);
        GrownNot(env, it, it2);
        NextDeviceGrows(env, it2, false);
        GrownThen(env, it, it2, it');
      } else {
        GrownNot(env, it, it');
      }
    } else if it1.curMethod + 1 >= env.Normal() && !it.flags.singlePartition
              && !(it.err != BF_NO_MORE_PARTS && it.part + 1 <= it.maxPart) {
      var it2 := it1.(curMethod := 0, part := 0, maxPart := 0);
      GrownNot(env, it, it2);
      NextDeviceGrows(env, it2, true);
      GrownThen(env, it, it2, it');
    } else {
      GrownNot(env, it, it');
    }
  }

  lemma StepGrows(env: Env, it: Iter)
    requires Ok(env, it)
    ensures Grown(env, it, Step(env, it).0)
  {
    hide IterIncr, Try, Grown;
    NeverStuck(env, it);
    IncrementGrows(env, it);
    var it1 := IterIncr(env, it).0;
    if IterIncr(env, it).1 == 0 {
      TryFrame(env, it1);
      GrownNot(env, it1, Try(env, it1).0);
      GrownThen(env, it, it1, Try(env, it1).0);
    }
  }

  lemma StepKeepsGrown(env: Env, it0: Iter, it: Iter)
    requires Ok(env, it) && Grown(env, it0, it)
    ensures Grown(env, it0, Step(env, it).0)
  {
    hide Step, Grown;
    StepGrows(env, it);
    GrownThen(env, it0, it, Step(env, it).0);
  }

  lemma SelectNamedGrows(env: Env, it: Iter, x: Selector)
    ensures Grown(env, it, SelectNamed(env, it, x).it)
  {
    hide Grown, HuntFrom, FindByAny;
    GrownNot(env, it, it);
    var it0 := AtPart(it, x.part);
    var it1 := Prescan(env, it0).0;
    GrownNot(env, it, it0);
    GrownNot(env, it0, it0);
    HuntGrows(env, it0, AtPrio(env, BOOTDEVP_PRE_SCAN), 0, 0);
    assert Grown(env, it0, it1);
    GrownThen(env, it, it0, it1);
    HuntGrows(env, it1, Matching(x.asLabel), 0, 0);
    var it2 := HuntFrom(env, it1, Matching(x.asLabel), 0, 0).0;
    GrownThen(env, it, it1, it2);
    var it3 := SelectNamed(env, it, x).it;
    if it3.devs == it2.devs && it3.hunted == it2.hunted {
      GrownNot(env, it2, it3);
      GrownThen(env, it, it2, it3);
    } else if it3.devs == it1.devs && it3.hunted == it1.hunted {
      GrownNot(env, it1, it3);
      GrownThen(env, it, it1, it3);
    }
  }

  lemma StartGrows(env: Env, s: Setup)
    requires s.Valid(env)
    ensures Grown(env, Fresh(env, s), Start(env, s).0)
  {
    hide Grown, Try, SetupIter, SelectNamed;
    var it := Fresh(env, s);
    if env.haveGlobal {
      TryFrame(env, it);
      GrownNot(env, it, Try(env, it).0);
    } else {
      var c := FirstDev(env, it, s.sel);
      if s.sel.Some? { SelectNamedGrows(env, it, s.sel.value); } else { SetupIterGrows(env, it); }
      if c.ret == 0 {
        var it1 := SetDev(c.it, Some(c.dev), c.flags);
        TryFrame(env, it1);
        GrownNot(env, c.it, Try(env, it1).0);
        GrownThen(env, it, c.it, Try(env, it1).0);
      }
    }
  }

  /** In every run the bootdevs are those of the start followed by what some hunters
      found, one after the other: different hunters, none of them used before the scan
      and none that fails. Exactly these are used up. */
  lemma HuntersAccount(env: Env, s: Setup, n: nat) returns (hs: seq<nat>)
    requires s.Valid(env)
    ensures var it := Run(env, s, n).0;
            && NewHunters(env, s.hunted, hs)
            && it.devs == s.devs + Finds(env, hs)
            && it.hunted == s.hunted + set h | h in hs
  {
    hide Step, Start, Run, Ok, Grown;
    var it0 := Fresh(env, s);
    var p := (it: Iter) => Grown(env, it0, it);
    StartGrows(env, s);
    forall it
      ensures StepKeeps(env, it, p)
    {
      if Ok(env, it) && p(it) { StepKeepsGrown(env, it0, it); }
    }
    RunInvariant(env, s, n, p);
    hs := Witness(env, s, Run(env, s, n).0);
  }

  lemma Witness(env: Env, s: Setup, it: Iter) returns (hs: seq<nat>)
    requires s.Valid(env) && Grown(env, Fresh(env, s), it)
    ensures Accounts(env, s.devs, s.hunted, hs, it.devs, it.hunted)
  {
    hs :| Accounts(env, s.devs, s.hunted, hs, it.devs, it.hunted);
  }
}
