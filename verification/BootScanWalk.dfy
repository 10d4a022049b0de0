/** The walk by priority: attempts come in strictly increasing order. */
module BootScanWalk {
  import opened Wrappers
  import opened BootScan
  import opened BootScanRuns
  import opened BootScanOrder

  // ----- Order -----

  /** Where an attempt stands in the walk: priority, list position, partition,
      bootmeth and entry. */
  datatype Pos = Pos(prio: nat, dev: int, part: nat, meth: nat, entry: nat)

  predicate Less(p: Pos, q: Pos) {
    p.prio < q.prio || (p.prio == q.prio && (p.dev < q.dev || (p.dev == q.dev && (p.part < q.part
    || (p.part == q.part && (p.meth < q.meth || (p.meth == q.meth && p.entry < q.entry)))))))
  }

  predicate Leq(p: Pos, q: Pos) { p == q || Less(p, q) }

  function Key(a: Attempt): Pos { Pos(a.prio, a.dev, a.part, a.meth, a.entry) }

  /** Where the walk stands during an attempt. A global bootmeth runs just before
      the bootdev that was set aside for it, before the first one, or at the end. */
  function Place(a: Attempt): Pos {
    if !a.glob then Key(a).(entry := a.entry + 1)
    else Pos(a.prio, if a.pending.Some? then a.pending.value.dev else -1, 0, 0, 0)
  }

  /** Moving to another bootdev goes down the list or down the priorities. */
  lemma NextDeviceAdvances(env: Env, it: Iter, incDev: bool)
    requires BetweenDevices(env, it, incDev) && PrioWalk(env, it)
    requires NextDevice(env, it, incDev).1 == 0
    ensures var it1 := NextDevice(env, it, incDev).0;
            var from := if incDev then it.dev.value else -1;
            if it1.doingGlobal && it1.pending.None? then it1.curPrio == BOOTDEVP_COUNT
            else
              var d := if it1.doingGlobal then it1.pending.value.dev
                       else if it1.dev.Some? then it1.dev.value else -1;
              it1.curPrio > it.curPrio || (it1.curPrio == it.curPrio && d > from)
  {
  }

  lemma IncrementAdvances(env: Env, it: Iter)
    requires Ok(env, it) && PrioWalk(env, it) && IterIncr(env, it).1 == 0
    ensures var b := Now(IterIncr(env, it).0);
            if b.glob then Leq(Place(Now(it)), Place(b)) else Less(Place(Now(it)), Place(b))
  {
    hide NextDevice;
    var it1 := it.(entry := 0);
    if it.err == 0 && env.order[it.curMethod].multi {
    } else if it.doingGlobal {
      NextGlobalPoised(env, it1);
      if it.pending.None? && it.curPrio < BOOTDEVP_COUNT
         && FirstAllowed(env, it1, it1.curMethod + 1) == |env.order| {
        var it2 := it1.(doingGlobal := false, curMethod := 0);
        NextDeviceStarts(env, it2, false);
        NextDeviceAdvances(env, it2, false);
      }
    } else if it1.curMethod + 1 >= env.Normal()
              && !(it.err != BF_NO_MORE_PARTS && it.part + 1 <= it.maxPart) {
      var it2 := it1.(curMethod := 0, part := 0, maxPart := 0);
      NextDeviceStarts(env, it2, true);
      NextDeviceAdvances(env, it2, true);
    }
  }

  predicate Ordered(log: seq<Attempt>) {
    forall i, j :: 0 <= i < j < |log| ==>
      if log[j].glob then Leq(Place(log[i]), Place(log[j])) else Less(Place(log[i]), Place(log[j]))
  }

  /** Each ordinary attempt was made on a bootdev of its priority that probes. */
  predicate OnDevices(it: Iter) {
    forall i :: 0 <= i < |it.log| && !it.log[i].glob ==>
      && 0 <= it.log[i].dev < |it.devs|
      && it.devs[it.log[i].dev].prio == it.log[i].prio
      && it.devs[it.log[i].dev].probe == 0
  }

  predicate WalkLog(it: Iter) { !it.flags.Single() && Ordered(it.log) && OnDevices(it) }

  lemma OrderedGrows(log: seq<Attempt>, b: Attempt)
    requires Ordered(log)
    requires log != [] ==>
               var a := log[|log| - 1];
               if b.glob then Leq(Place(a), Place(b)) else Less(Place(a), Place(b))
    ensures Ordered(log + [b])
  {
    var log' := log + [b];
    forall i, j | 0 <= i < j < |log'|
      ensures if log'[j].glob then Leq(Place(log'[i]), Place(log'[j])) else Less(Place(log'[i]), Place(log'[j]))
    {
      if j == |log| && i < |log| - 1 {
        var a := log[|log| - 1];
        assert Leq(Place(log[i]), Place(a));
      }
    }
  }

  lemma TryWalks(env: Env, it: Iter, it1: Iter)
    requires Poised(env, it1) && PrioWalk(env, it1) && WalkLog(it) && it1.log == it.log && it.devs <= it1.devs
    requires it.log != [] ==>
               var (a, b) := (it.log[|it.log| - 1], Now(it1));
               if b.glob then Leq(Place(a), Place(b)) else Less(Place(a), Place(b))
    ensures WalkLog(Try(env, it1).0)
  {
    hide Try, Less, Leq, Place;
    TryFrame(env, it1);
    OrderedGrows(it.log, Now(it1));
  }

  lemma StepWalks(env: Env, it: Iter)
    requires Ok(env, it) && env.labels.None? && WalkLog(it)
    ensures WalkLog(Step(env, it).0)
  {
    hide IterIncr, Try, Less, Leq, Place;
    NeverStuck(env, it);
    IncrementFrame(env, it);
    var (it1, ret) := IterIncr(env, it);
    if ret == 0 {
      IncrementPoised(env, it);
      IncrementAdvances(env, it);
      TryWalks(env, it, it1);
    }
  }

  lemma StartWalks(env: Env, s: Setup)
    requires s.Valid(env) && s.sel.None? && env.labels.None?
    ensures WalkLog(Start(env, s).0)
  {
    hide Try, SetupIter;
    var it := Fresh(env, s);
    if env.haveGlobal {
      TryWalks(env, it, it);
    } else if SetupIter(env, it).ret == 0 {
      var c := SetupIter(env, it);
      TryWalks(env, it, SetDev(c.it, Some(c.dev), c.flags));
    }
  }

  lemma RunWalks(env: Env, s: Setup, n: nat)
    requires s.Valid(env) && s.sel.None? && env.labels.None?
    ensures WalkLog(Run(env, s, n).0)
  {
    hide Step, Start, Run, Ok, WalkLog;
    var p := (it: Iter) => WalkLog(it);
    StartWalks(env, s);
    forall it
      ensures StepKeeps(env, it, p)
    {
      if Ok(env, it) && p(it) { StepWalks(env, it); }
    }
    RunInvariant(env, s, n, p);
  }

  /** In a scan by priority the ordinary attempts are strictly increasing in
      (priority, list position, partition, bootmeth, entry), whatever global
      bootmeths run in between; so none is made twice. */
  lemma AttemptsIncrease(env: Env, s: Setup, n: nat, i: nat, j: nat)
    requires s.Valid(env) && s.sel.None? && env.labels.None?
    requires i < j < |Run(env, s, n).0.log|
    requires !Run(env, s, n).0.log[i].glob && !Run(env, s, n).0.log[j].glob
    ensures Less(Key(Run(env, s, n).0.log[i]), Key(Run(env, s, n).0.log[j]))
    ensures var it := Run(env, s, n).0;
            0 <= it.log[i].dev < |it.devs| && it.devs[it.log[i].dev].prio == it.log[i].prio
  {
    hide Run;
    RunWalks(env, s, n);
  }
}
