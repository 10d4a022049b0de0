/** Global bootmeths: each is taken up exactly once in a complete scan, whenever
    its turn comes. */
module BootScanGlobals {
  import opened Wrappers
  import opened BootScan
  import opened BootScanRuns
  import opened BootScanOrder

  /** Global bootmeth `g` is taken up: a later entry of it, which only follows its
      own success, does not count. */
  predicate TakesUp(a: Attempt, g: nat) { a.glob && a.meth == g && a.entry == 0 }

  /** How often global bootmeth `g` was taken up. */
  function Tries(log: seq<Attempt>, g: nat): nat {
    if log == [] then 0
    else Tries(log[..|log| - 1], g) + if TakesUp(log[|log| - 1], g) then 1 else 0
  }

  /** The `done` bits record exactly which global bootmeths were taken up, and none
      was taken up twice. */
  predicate TriedOnce(env: Env, it: Iter) {
    forall g :: 0 <= env.Normal() <= g < |env.order| ==> Tries(it.log, g) == if g in it.done then 1 else 0
  }

  lemma TriesMore(log: seq<Attempt>, a: Attempt, g: nat)
    ensures Tries(log + [a], g) == Tries(log, g) + if TakesUp(a, g) then 1 else 0
  {
    assert (log + [a])[..|log|] == log;
  }

  /** A global bootmeth that comes between, or at the end, is a new one. */
  lemma DueGlobalIsNew(env: Env, c: Choice, it: Iter)
    requires env.Valid() && (c.ret == 0 ==> c.dev < |c.it.devs|) && !c.it.doingGlobal && !it.doingGlobal
    ensures var (it1, ret) := UseChoice(env, c);
            && it1.done == c.it.done && it1.entry == c.it.entry
            && (it1.doingGlobal ==> ret == 0 && it1.curMethod !in c.it.done)
    ensures var it1 := LastGlobals(env, it).0;
            it1.done == it.done && it1.entry == it.entry && (it1.doingGlobal ==> it1.curMethod !in it.done)
  {
  }

  lemma NextDeviceGlobal(env: Env, it: Iter, incDev: bool)
    requires BetweenDevices(env, it, incDev)
    ensures var (it1, ret) := NextDevice(env, it, incDev);
            && it1.done == it.done
            && (ret == 0 && it1.doingGlobal ==> it1.curMethod !in it.done && it1.entry == it.entry)
  {
    hide SelectDev, UseChoice, LastGlobals;
    var c := SelectDev(env, it, incDev);
    var it1 := if it.flags.singleDev then it else UseChoice(env, c).0;
    DueGlobalIsNew(env, c, it);
    if !it1.doingGlobal { DueGlobalIsNew(env, c, it1); }
  }

  /** The last check succeeded and its bootmeth may have more to offer. */
  predicate Again(env: Env, it: Iter)
    requires it.curMethod < |env.order|
  {
    it.err == 0 && env.order[it.curMethod].multi
  }

  /** A global bootmeth chosen by an increment was not tried before. */
  lemma ChosenGlobalIsNew(env: Env, it: Iter)
    requires Ok(env, it)
    ensures var (it1, ret) := IterIncr(env, it);
            && it1.done == it.done
            && (ret == 0 && it1.doingGlobal && !Again(env, it) ==> it1.curMethod !in it.done && it1.entry == 0)
  {
    hide NextDevice;
    var it1 := it.(entry := 0);
    if it.err == BF_NO_MORE_DEVICES || (it.err == 0 && env.order[it.curMethod].multi) {
    } else if it.doingGlobal {
      NextGlobalPoised(env, it1);
      if it.pending.None? && it.curPrio < BOOTDEVP_COUNT
         && FirstAllowed(env, it1, it1.curMethod + 1) == |env.order| {
        NextDeviceGlobal(env, it1.(doingGlobal := false, curMethod := 0), false);
      }
    } else if it1.curMethod + 1 >= env.Normal() && !it.flags.singlePartition {
      NextDeviceGlobal(env, it1.(curMethod := 0, part := 0, maxPart := 0), true);
    }
  }

  lemma AgainIsSame(env: Env, it: Iter)
    requires Ok(env, it) && Again(env, it)
    ensures IterIncr(env, it) == (it.(entry := it.entry + 1), 0)
  {
    hide EndOfGlobals, EndOfMethods;
  }

  lemma OnceMore(env: Env, log: seq<Attempt>, done: set<nat>, a: Attempt)
    requires forall g :: 0 <= env.Normal() <= g < |env.order| ==> Tries(log, g) == if g in done then 1 else 0
    requires a.glob ==> (a.meth in done <==> a.entry > 0)
    requires !a.glob ==> a.meth < env.Normal()
    ensures forall g :: 0 <= env.Normal() <= g < |env.order| ==>
              Tries(log + [a], g) == if g in done + {a.meth} then 1 else 0
  {
    forall g | 0 <= env.Normal() <= g < |env.order|
      ensures Tries(log + [a], g) == if g in done + {a.meth} then 1 else 0
    {
      TriesMore(log, a, g);
    }
  }

  lemma TryOnce(env: Env, it: Iter)
    requires Poised(env, it) && TriedOnce(env, it)
    requires it.doingGlobal ==> (it.curMethod in it.done <==> it.entry > 0)
    ensures TriedOnce(env, Try(env, it).0)
  {
    hide Try, Tries;
    TryFrame(env, it);
    OnceMore(env, it.log, it.done, Now(it));
  }

  lemma StepTriesOnce(env: Env, it: Iter)
    requires Ok(env, it) && TriedOnce(env, it)
    ensures TriedOnce(env, Step(env, it).0)
  {
    hide IterIncr, Try;
    NeverStuck(env, it);
    IncrementFollows(env, it);
    ChosenGlobalIsNew(env, it);
    if Again(env, it) { AgainIsSame(env, it); }
    var (it1, ret) := IterIncr(env, it);
    if ret == 0 {
      IncrementPoised(env, it);
      TryOnce(env, it1);
    }
  }

  lemma StartTriesOnce(env: Env, s: Setup)
    requires s.Valid(env)
    ensures TriedOnce(env, Start(env, s).0)
  {
    hide Try, SetupIter;
    var it := Fresh(env, s);
    if env.haveGlobal { TryOnce(env, it); }
  }

  /** No run takes up a global bootmeth twice, whatever the order in which the
      initial, the priority-triggered and the final ones come. */
  lemma AtMostOnce(env: Env, s: Setup, n: nat)
    requires s.Valid(env)
    ensures TriedOnce(env, Run(env, s, n).0)
  {
    hide Step, Start, Run, Ok, TriedOnce;
    var p := (it: Iter) => TriedOnce(env, it);
    StartTriesOnce(env, s);
    forall it
      ensures StepKeeps(env, it, p)
    {
      if Ok(env, it) && p(it) { StepTriesOnce(env, it); }
    }
    RunInvariant(env, s, n, p);
  }

  // ----- The end of a run -----

  /** The pass that ended a scan, and the state it started from. */
  lemma {:induction false} LastPass(env: Env, s: Setup, n: nat) returns (m: nat)
    requires s.Valid(env) && Run(env, s, n).1.Ended? && !Start(env, s).1.Ended?
    ensures m < n && !Run(env, s, m).1.Ended? && Run(env, s, n) == Step(env, Run(env, s, m).0)
  {
    hide Step, Start, Ok;
    if Run(env, s, n - 1).1.Ended? { m := LastPass(env, s, n - 1); } else { m := n - 1; }
  }

  lemma NextDeviceEnds(env: Env, it: Iter, incDev: bool)
    requires BetweenDevices(env, it, incDev) && NextDevice(env, it, incDev).1 != 0
    ensures NoneDue(env, it.done, BOOTDEVP_COUNT, |env.order|)
  {
    hide SelectDev;
  }

  /** A scan only ends early when a check returned -ENODEV; otherwise no global
      bootmeth is left, and no bootdev is still set aside. */
  lemma EndLeavesNothing(env: Env, it: Iter)
    requires Ok(env, it) && IterIncr(env, it).1 != 0 && it.err != BF_NO_MORE_DEVICES
    ensures NoneDue(env, it.done, BOOTDEVP_COUNT, |env.order|)
    ensures it.pending.None? && (!it.doingGlobal ==> it.curMethod == env.Normal() - 1)
  {
    hide NextDevice;
    var it1 := it.(entry := 0);
    if it.doingGlobal {
      NextGlobalPoised(env, it1);
      if it.pending.None? && it.curPrio < BOOTDEVP_COUNT {
        NextDeviceEnds(env, it1.(doingGlobal := false, curMethod := 0), false);
      }
    } else if !it.flags.singlePartition {
      NextDeviceEnds(env, it1.(curMethod := 0, part := 0, maxPart := 0), true);
    }
  }

  lemma StepEnds(env: Env, it: Iter)
    requires Ok(env, it) && Step(env, it).1.Ended?
    ensures IterIncr(env, it).1 != 0 && Step(env, it).0 == IterIncr(env, it).0
  {
    hide IterIncr, Try;
    NeverStuck(env, it);
    if IterIncr(env, it).1 == 0 { TryFrame(env, IterIncr(env, it).0); }
  }

  /** A scan that ran out of bootdevs, rather than being stopped by a check that
      returned -ENODEV, took up every global bootmeth exactly once. */
  lemma ExactlyOnce(env: Env, s: Setup, n: nat, g: nat)
    requires s.Valid(env) && env.Normal() <= g < |env.order|
    requires Run(env, s, n).1.Ended? && Run(env, s, n).0.err != BF_NO_MORE_DEVICES
    ensures Tries(Run(env, s, n).0.log, g) == 1
  {
    hide Step, Start, Ok, IterIncr;
    GlobalStartGoes(env, s);
    var m := LastPass(env, s, n);
    var it := Run(env, s, m).0;
    StepEnds(env, it);
    IncrementFrame(env, it);
    EndLeavesNothing(env, it);
    ChosenGlobalIsNew(env, it);
    AtMostOnce(env, s, n);
  }

  lemma GlobalStartGoes(env: Env, s: Setup)
    requires s.Valid(env) && env.haveGlobal
    ensures !Start(env, s).1.Ended?
  {
  }

  // ----- Every ordinary bootmeth at every place -----

  lemma {:induction false} LaterMethodsTried(env: Env, log: seq<Attempt>, i: nat, m: nat)
    requires GoodLog(env, log) && i < |log| && !log[i].glob && m < env.Normal()
    requires !log[|log| - 1].glob ==> log[|log| - 1].meth == env.Normal() - 1
    ensures TriedAt(log, |log|, log[i], m)
    decreases |log| - i
  {
    if i == |log| - 1 {
      EarlierMethodsTried(env, log, i, m);
    } else {
      assert Follows(env, log[i], log[i + 1]);
      if SamePlace(log[i], log[i + 1]) {
        LaterMethodsTried(env, log, i + 1, m);
        var k :| 0 <= k < |log| && SamePlace(log[k], log[i + 1]) && log[k].meth == m;
        assert SamePlace(log[k], log[i]);
      } else {
        EarlierMethodsTried(env, log, i, m);
        var k :| 0 <= k < i + 1 && SamePlace(log[k], log[i]) && log[k].meth == m;
      }
    }
  }

  /** How the log of a complete scan ends: nothing set aside, and no bootmeth left
      out at the last place. */
  lemma CompleteLog(env: Env, s: Setup, n: nat)
    requires s.Valid(env) && Run(env, s, n).1.Ended? && Run(env, s, n).0.err != BF_NO_MORE_DEVICES
    requires Run(env, s, n).0.log != []
    ensures var log := Run(env, s, n).0.log;
            var a := log[|log| - 1];
            a.pending.None? && (!a.glob ==> a.meth == env.Normal() - 1)
  {
    hide Step, Start, IterIncr, Run;
    if Start(env, s).1.Ended? {
      EndedStartIs(env, s, n);
      EndedStartIsEmpty(env, s);
    } else {
      var m := LastPass(env, s, n);
      var it := Run(env, s, m).0;
      RunOk(env, s, m);
      StepEnds(env, it);
      IncrementFrame(env, it);
      EndLeavesNothing(env, it);
    }
  }

  /** In a complete scan every ordinary bootmeth is tried at every bootdev and
      partition the scan comes to. */
  lemma EveryMethodTried(env: Env, s: Setup, n: nat, i: nat, m: nat)
    requires s.Valid(env) && Run(env, s, n).1.Ended? && Run(env, s, n).0.err != BF_NO_MORE_DEVICES
    requires i < |Run(env, s, n).0.log| && !Run(env, s, n).0.log[i].glob && m < env.Normal()
    ensures TriedAt(Run(env, s, n).0.log, |Run(env, s, n).0.log|, Run(env, s, n).0.log[i], m)
  {
    hide Run;
    RunIsChain(env, s, n);
    CompleteLog(env, s, n);
    LaterMethodsTried(env, Run(env, s, n).0.log, i, m);
  }

  // ----- A bootdev that was set aside is not lost -----

  lemma FirstOrdinaryAfter(log: seq<Attempt>, i: nat) returns (j: nat)
    requires i < |log|
    ensures i < j <= |log| && (forall k :: i < k < j ==> log[k].glob) && (j < |log| ==> !log[j].glob)
    decreases |log| - i
  {
    j := i + 1;
    while j < |log| && log[j].glob
      invariant i < j <= |log| && forall k :: i < k < j ==> log[k].glob
    {
      j := j + 1;
    }
  }

  /** In a complete scan, a bootdev set aside for a global bootmeth is the next one
      tried, from partition 0 and the first bootmeth, with its own flags. */
  lemma SetAsideIsTried(env: Env, s: Setup, n: nat, i: nat) returns (j: nat)
    requires s.Valid(env) && Run(env, s, n).1.Ended? && Run(env, s, n).0.err != BF_NO_MORE_DEVICES
    requires i < |Run(env, s, n).0.log|
    requires Run(env, s, n).0.log[i].glob && Run(env, s, n).0.log[i].pending.Some?
    ensures var log := Run(env, s, n).0.log;
            var p := log[i].pending.value;
            && i < j < |log| && (forall k :: i < k < j ==> log[k].glob) && !log[j].glob
            && log[j].dev == p.dev && log[j].flags == p.flags
            && log[j].part == 0 && log[j].meth == 0 && log[j].entry == 0
  {
    hide Follows, Run;
    var log := Run(env, s, n).0.log;
    RunIsChain(env, s, n);
    CompleteLog(env, s, n);
    j := FirstOrdinaryAfter(log, i);
    if j == |log| {
      assert i < |log| - 1;
      PendingIsNext(env, log, i, |log| - 1);
      assert false;
    }
    PendingIsNext(env, log, i, j);
  }

  lemma RunOk(env: Env, s: Setup, n: nat)
    requires s.Valid(env) && !Run(env, s, n).1.Ended?
    ensures Ok(env, Run(env, s, n).0)
  {
  }

  lemma EndedStartIsEmpty(env: Env, s: Setup)
    requires s.Valid(env) && Start(env, s).1.Ended?
    ensures Start(env, s).0.log == []
  {
    hide Try, SetupIter;
    var it := Fresh(env, s);
    if env.haveGlobal {
      TryFrame(env, it);
    } else if FirstDev(env, it, s.sel).ret == 0 {
      var c := FirstDev(env, it, s.sel);
      TryFrame(env, SetDev(c.it, Some(c.dev), c.flags));
    }
  }

  /** A scan that cannot start stays where it is. */
  lemma {:induction false} EndedStartIs(env: Env, s: Setup, n: nat)
    requires s.Valid(env) && Start(env, s).1.Ended?
    ensures Run(env, s, n) == Start(env, s)
  {
    hide Step, Start, Ok;
    if n > 0 { EndedStartIs(env, s, n - 1); }
  }
}
