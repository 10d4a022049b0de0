/** In which order a scan makes its attempts. */
module BootScanOrder {
  import opened Wrappers
  import opened BootScan
  import opened BootScanRuns

  // ----- One attempt after another -----

  predicate SamePlace(a: Attempt, b: Attempt) {
    !a.glob && !b.glob && a.prio == b.prio && a.dev == b.dev && a.part == b.part && a.flags == b.flags
  }

  /** `b` begins at a bootmeth other than the first only by stepping on from `a`;
      a place is left only after its last bootmeth; a bootdev that was set aside
      stays set aside until it is the one tried, with its own flags. */
  predicate Follows(env: Env, a: Attempt, b: Attempt) {
    if !a.glob && !b.glob then
      || (SamePlace(a, b) && b.meth == a.meth && b.entry == a.entry + 1)
      || (SamePlace(a, b) && b.meth == a.meth + 1 && b.entry == 0)
      || (a.meth == env.Normal() - 1 && b.meth == 0 && b.entry == 0
          && (b.part == 0 || SamePlace(a.(part := a.part + 1), b)))
    else if !a.glob && b.glob then a.meth == env.Normal() - 1
    else if a.glob && !b.glob then
      && b.meth == 0 && b.entry == 0 && b.part == 0
      && (a.pending.Some? ==> b.dev == a.pending.value.dev && b.flags == a.pending.value.flags)
    else a.pending.Some? ==> b.pending == a.pending
  }

  predicate Chain(env: Env, log: seq<Attempt>) {
    forall i :: 0 < i < |log| ==> Follows(env, log[i - 1], log[i])
  }

  /** What moving to another bootdev leads to: its first attempt, or a global one. */
  lemma NextDeviceStarts(env: Env, it: Iter, incDev: bool)
    requires BetweenDevices(env, it, incDev)
    ensures var (it1, ret) := NextDevice(env, it, incDev);
            && it1.log == it.log
            && (ret == 0 ==> it1.entry == it.entry
                             && (!it1.doingGlobal ==> it1.curMethod == 0 && it1.part == 0))
  {
    hide SelectDev;
  }

  lemma NextDeviceFrame(env: Env, it: Iter, incDev: bool)
    requires BetweenDevices(env, it, incDev)
    ensures var it1 := NextDevice(env, it, incDev).0;
            it1.flags == it.flags && it1.err == it.err && it.devs <= it1.devs && it.hunted <= it1.hunted
  {
    hide SelectDev, NextGlob;
  }

  /** Parts of the state that no increment touches; the device list only grows. */
  lemma IncrementFrame(env: Env, it: Iter)
    requires Ok(env, it)
    ensures var it1 := IterIncr(env, it).0;
            && it1.log == it.log && it1.flags == it.flags && it1.err == it.err
            && it.devs <= it1.devs && it.hunted <= it1.hunted
  {
    hide NextDevice, Follows;
    IncrementFollows(env, it);
    var it1 := it.(entry := 0);
    if it.err == BF_NO_MORE_DEVICES || (it.err == 0 && env.order[it.curMethod].multi) {
    } else if it.doingGlobal {
      NextGlobalPoised(env, it1);
      if it.pending.None? && it.curPrio < BOOTDEVP_COUNT
         && FirstAllowed(env, it1, it1.curMethod + 1) == |env.order| {
        NextDeviceFrame(env, it1.(doingGlobal := false, curMethod := 0), false);
      }
    } else if it1.curMethod + 1 >= env.Normal() && !it.flags.singlePartition {
      NextDeviceFrame(env, it1.(curMethod := 0, part := 0, maxPart := 0), true);
    }
  }

  lemma IncrementFollows(env: Env, it: Iter)
    requires Ok(env, it)
    ensures IterIncr(env, it).0.log == it.log
    ensures IterIncr(env, it).1 == 0 ==> Follows(env, Now(it), Now(IterIncr(env, it).0))
  {
    hide NextDevice;
    var it1 := it.(entry := 0);
    if it.err == BF_NO_MORE_DEVICES || (it.err == 0 && env.order[it.curMethod].multi) {
    } else if it.doingGlobal {
      NextGlobalPoised(env, it1);
      if it.pending.None? && it.curPrio < BOOTDEVP_COUNT
         && FirstAllowed(env, it1, it1.curMethod + 1) == |env.order| {
        NextDeviceStarts(env, it1.(doingGlobal := false, curMethod := 0), false);
      }
    } else if it1.curMethod + 1 >= env.Normal() && !it.flags.singlePartition {
      NextDeviceStarts(env, it1.(curMethod := 0, part := 0, maxPart := 0), true);
    }
  }

  /** Each pass adds the attempt it makes to the log, and only that. */
  lemma StepLogs(env: Env, it: Iter)
    requires Ok(env, it)
    ensures var (it', o) := Step(env, it);
            if o.Ended? then it'.log == it.log
            else it'.log == it.log + [Now(it')] && Follows(env, Now(it), Now(it'))
  {
    hide IterIncr, Try, Follows;
    IncrementFollows(env, it);
    NeverStuck(env, it);
    if IterIncr(env, it).1 == 0 {
      IncrementPoised(env, it);
      TryFrame(env, IterIncr(env, it).0);
      TryKeepsOk(env, IterIncr(env, it).0);
    }
  }

  lemma ChainGrows(env: Env, log: seq<Attempt>, b: Attempt)
    requires Chain(env, log) && (log != [] ==> Follows(env, log[|log| - 1], b))
    ensures Chain(env, log + [b])
  {
  }

  lemma StartLogs(env: Env, s: Setup)
    requires s.Valid(env)
    ensures |Start(env, s).0.log| <= 1
    ensures Start(env, s).0.log != [] ==>
              var a := Start(env, s).0.log[0];
              !a.glob ==> a.meth == 0 && a.entry == 0
  {
    hide SetupIter, SelectNamed, Try;
    var it := Fresh(env, s);
    if env.haveGlobal {
      TryFrame(env, it);
    } else if FirstDev(env, it, s.sel).ret == 0 {
      var c := FirstDev(env, it, s.sel);
      TryFrame(env, SetDev(c.it, Some(c.dev), c.flags));
    }
  }

  /** The log so far: a chain that begins with a first attempt. */
  predicate GoodLog(env: Env, log: seq<Attempt>) {
    Chain(env, log) && (log != [] && !log[0].glob ==> log[0].meth == 0 && log[0].entry == 0)
  }

  lemma StepKeepsGoodLog(env: Env, it: Iter)
    requires Ok(env, it) && GoodLog(env, it.log)
    ensures GoodLog(env, Step(env, it).0.log)
  {
    hide Step, Follows;
    StepLogs(env, it);
    if !Step(env, it).1.Ended? { ChainGrows(env, it.log, Now(Step(env, it).0)); }
  }

  /** In every run, each attempt follows the one before it. */
  lemma RunIsChain(env: Env, s: Setup, n: nat)
    requires s.Valid(env)
    ensures GoodLog(env, Run(env, s, n).0.log)
  {
    hide Step, Start, Run, Ok;
    var p := (it: Iter) => GoodLog(env, it.log);
    StartLogs(env, s);
    forall it
      ensures StepKeeps(env, it, p)
    {
      if Ok(env, it) && p(it) { StepKeepsGoodLog(env, it); }
    }
    RunInvariant(env, s, n, p);
  }

  // ----- Every ordinary bootmeth at every place -----

  /** An attempt with bootmeth `m` at the place of `a` is in the log before `n`. */
  predicate TriedAt(log: seq<Attempt>, n: nat, a: Attempt, m: nat)
    requires n <= |log|
  {
    exists k :: 0 <= k < n && SamePlace(log[k], a) && log[k].meth == m
  }

  lemma {:induction false} EarlierMethodsTried(env: Env, log: seq<Attempt>, i: nat, m: nat)
    requires Chain(env, log) && i < |log| && !log[i].glob && m <= log[i].meth
    requires log[0].glob || log[0].meth == 0
    ensures TriedAt(log, i + 1, log[i], m)
  {
    var a := log[i];
    assert SamePlace(log[i], a);
    if m < a.meth {
      assert i > 0;
      var b := log[i - 1];
      assert Follows(env, b, a);
      EarlierMethodsTried(env, log, i - 1, if m <= b.meth then m else b.meth);
      var k :| 0 <= k < i && SamePlace(log[k], b) && log[k].meth == m;
      assert SamePlace(log[k], a);
    }
  }

  /** Once a run has left a place, all ordinary bootmeths were tried there. */
  lemma AllMethodsTried(env: Env, s: Setup, n: nat, i: nat, m: nat)
    requires s.Valid(env) && m < env.Normal()
    requires i + 1 < |Run(env, s, n).0.log| && !Run(env, s, n).0.log[i].glob
    requires !SamePlace(Run(env, s, n).0.log[i], Run(env, s, n).0.log[i + 1])
    ensures TriedAt(Run(env, s, n).0.log, i + 1, Run(env, s, n).0.log[i], m)
  {
    hide Run;
    RunIsChain(env, s, n);
    var log := Run(env, s, n).0.log;
    assert Follows(env, log[i], log[i + 1]);
    EarlierMethodsTried(env, log, i, m);
  }

  // ----- A bootdev that was set aside -----

  /** While only global bootmeths run, the bootdev set aside stays the same, and
      it is the first one tried afterwards. */
  lemma {:induction false} PendingIsNext(env: Env, log: seq<Attempt>, i: nat, j: nat)
    requires Chain(env, log) && i < j < |log|
    requires log[i].glob && log[i].pending.Some?
    requires forall k :: i < k < j ==> log[k].glob
    ensures if log[j].glob then log[j].pending == log[i].pending
            else
              && log[j].dev == log[i].pending.value.dev && log[j].flags == log[i].pending.value.flags
              && log[j].part == 0 && log[j].meth == 0 && log[j].entry == 0
  {
    assert Follows(env, log[j - 1], log[j]);
    if i < j - 1 { PendingIsNext(env, log, i, j - 1); }
  }

  // ----- What every attempt is made with -----

  /** An ordinary attempt has a bootdev and an ordinary bootmeth; a global one has
      neither bootdev nor partition, and a global bootmeth. */
  predicate WellMade(env: Env, a: Attempt)
    requires env.Valid()
  {
    if a.glob then env.Normal() <= a.meth < |env.order| && env.order[a.meth].isGlobal && a.dev == -1 && a.part == 0
    else a.meth < env.Normal() && !env.order[a.meth].isGlobal && a.dev >= 0
  }

  predicate AllWellMade(env: Env, it: Iter)
    requires env.Valid()
  {
    forall i :: 0 <= i < |it.log| ==> WellMade(env, it.log[i])
  }

  lemma TryWellMade(env: Env, it: Iter)
    requires Poised(env, it) && AllWellMade(env, it)
    ensures AllWellMade(env, Try(env, it).0)
  {
    hide Try;
    TryFrame(env, it);
  }

  lemma StepWellMade(env: Env, it: Iter)
    requires Ok(env, it) && AllWellMade(env, it)
    ensures AllWellMade(env, Step(env, it).0)
  {
    hide IterIncr, Try, WellMade;
    NeverStuck(env, it);
    IncrementFrame(env, it);
    if IterIncr(env, it).1 == 0 {
      IncrementPoised(env, it);
      TryWellMade(env, IterIncr(env, it).0);
    }
  }

  lemma StartWellMade(env: Env, s: Setup)
    requires s.Valid(env)
    ensures AllWellMade(env, Start(env, s).0)
  {
    hide SetupIter, Try;
    var it := Fresh(env, s);
    if env.haveGlobal {
      TryWellMade(env, it);
    } else if FirstDev(env, it, s.sel).ret == 0 {
      var c := FirstDev(env, it, s.sel);
      TryWellMade(env, SetDev(c.it, Some(c.dev), c.flags));
    }
  }

  /** No run checks an ordinary bootmeth without a bootdev, or an ordinary bootmeth
      in a global one's place. */
  lemma AttemptsWellMade(env: Env, s: Setup, n: nat)
    requires s.Valid(env)
    ensures AllWellMade(env, Run(env, s, n).0)
  {
    hide Step, Start, Run, Ok, AllWellMade;
    var p := (it: Iter) => AllWellMade(env, it);
    StartWellMade(env, s);
    forall it
      ensures StepKeeps(env, it, p)
    {
      if Ok(env, it) && p(it) { StepWellMade(env, it); }
    }
    RunInvariant(env, s, n, p);
  }
}
