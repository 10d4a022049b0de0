/** Why a call of the scan loop ends: what each pass that goes on uses up. */
module BootScanMeasure {
  import opened Wrappers
  import opened BootScan
  import opened BootScanRuns
  import opened BootScanOrder
  import opened BootScanGlobals

  function Undone(env: Env, done: set<nat>): nat
  {
    |set g: nat | 0 <= env.Normal() <= g < |env.order| && g !in done|
  }

  /** Still on the global bootmeths that come before any bootdev. */
  function Opening(it: Iter): nat {
    if it.doingGlobal && it.pending.None? && it.curPrio < BOOTDEVP_COUNT then 1 else 0
  }

  function PrioLeft(it: Iter): nat { if it.curPrio <= BOOTDEVP_COUNT then BOOTDEVP_COUNT - it.curPrio else 0 }

  function LabelsLeft(env: Env, it: Iter): nat {
    if it.labelled && env.labels.Some? && it.curLabel <= |env.labels.value| then |env.labels.value| - it.curLabel
    else 0
  }

  /** Bootdevs from the one in hand, or set aside, to the end of the list. */
  function DevsLeft(it: Iter): nat {
    var d := if !it.doingGlobal then it.dev
             else if it.pending.Some? then Some(it.pending.value.dev) else None;
    if d.Some? && d.value <= |it.devs| then |it.devs| - d.value else 0
  }

  function InGlobals(it: Iter): nat { if it.doingGlobal then 1 else 0 }

  function PartsLeft(it: Iter): nat {
    if it.part <= MAX_PART_PER_BOOTDEV then MAX_PART_PER_BOOTDEV - it.part else 0
  }

  function MethodsLeft(env: Env, it: Iter): nat {
    if !it.doingGlobal && it.curMethod <= env.Normal() then env.Normal() - it.curMethod else 0
  }

  function Succeeded(it: Iter): nat { if it.err == 0 then 1 else 0 }

  /** Lexicographically less to do within the walk over bootdevs. */
  predicate LessToWalk(env: Env, it1: Iter, it: Iter) {
    Opening(it1) < Opening(it) || (Opening(it1) == Opening(it) && (
    PrioLeft(it1) < PrioLeft(it) || (PrioLeft(it1) == PrioLeft(it) && (
    LabelsLeft(env, it1) < LabelsLeft(env, it) || (LabelsLeft(env, it1) == LabelsLeft(env, it) && (
    DevsLeft(it1) < DevsLeft(it) || (DevsLeft(it1) == DevsLeft(it) && (
    InGlobals(it1) < InGlobals(it) || (InGlobals(it1) == InGlobals(it) && (
    PartsLeft(it1) < PartsLeft(it) || (PartsLeft(it1) == PartsLeft(it) &&
    MethodsLeft(env, it1) < MethodsLeft(env, it))))))))))))
  }

  predicate SameWalk(env: Env, it1: Iter, it: Iter) {
    && Opening(it1) == Opening(it) && PrioLeft(it1) == PrioLeft(it) && LabelsLeft(env, it1) == LabelsLeft(env, it)
    && DevsLeft(it1) == DevsLeft(it) && InGlobals(it1) == InGlobals(it) && PartsLeft(it1) == PartsLeft(it)
    && MethodsLeft(env, it1) == MethodsLeft(env, it)
  }

  /** Less to do: fewer unused global bootmeths, less to walk, or the second of at
      most one repeat of a bootmeth that just succeeded. */
  predicate LessToDo(env: Env, it1: Iter, it: Iter) {
    || Undone(env, it1.done) < Undone(env, it.done)
    || (Undone(env, it1.done) == Undone(env, it.done)
        && (LessToWalk(env, it1, it) || (SameWalk(env, it1, it) && Succeeded(it1) < Succeeded(it))))
  }

  lemma UndoneDrops(env: Env, done: set<nat>, g: nat)
    requires env.Valid() && g < |env.order|
    ensures Undone(env, done + {g}) == Undone(env, done) - if env.Normal() <= g && g !in done then 1 else 0
  {
    var all := set k: nat | 0 <= env.Normal() <= k < |env.order| && k !in done;
    var rest := set k: nat | 0 <= env.Normal() <= k < |env.order| && k !in done + {g};
    assert rest == all - {g};
  }

  /** Further on in the walk over bootdevs. */
  predicate FurtherOn(env: Env, it1: Iter, it: Iter) {
    PrioLeft(it1) < PrioLeft(it) || (PrioLeft(it1) == PrioLeft(it) && (
    LabelsLeft(env, it1) < LabelsLeft(env, it) || (LabelsLeft(env, it1) == LabelsLeft(env, it) &&
    DevsLeft(it1) < DevsLeft(it))))
  }

  lemma NextDeviceLess(env: Env, it: Iter)
    requires BetweenDevices(env, it, true) && NextDevice(env, it, true).1 == 0
    ensures var it1 := NextDevice(env, it, true).0;
            !it1.doingGlobal ==> FurtherOn(env, it1, it)
  {
    hide HuntPrio, NextLabel, NextPrio;
  }

  lemma IncrementLess(env: Env, it: Iter)
    requires Ok(env, it) && IterIncr(env, it).1 == 0 && !Again(env, it)
    ensures var it1 := IterIncr(env, it).0;
            !it1.doingGlobal ==> LessToWalk(env, it1, it)
  {
    hide NextDevice;
    var it1 := it.(entry := 0);
    if it.doingGlobal {
      NextGlobalPoised(env, it1);
      if it.pending.None? && it.curPrio < BOOTDEVP_COUNT
         && FirstAllowed(env, it1, it1.curMethod + 1) == |env.order| {
        NextDeviceOpens(env, it1.(doingGlobal := false, curMethod := 0));
      }
    } else if it1.curMethod + 1 >= env.Normal()
              && !(it.err != BF_NO_MORE_PARTS && it.part + 1 <= it.maxPart) {
      NextDeviceLess(env, it1.(curMethod := 0, part := 0, maxPart := 0));
    }
  }

  lemma NextDeviceOpens(env: Env, it: Iter)
    requires BetweenDevices(env, it, false) && NextDevice(env, it, false).1 == 0
    ensures var it1 := NextDevice(env, it, false).0;
            !it1.doingGlobal ==> Opening(it1) == 0
  {
    hide NextDevice;
  }

  /** Fewer unused global bootmeths, or less to walk. */
  predicate LessLeft(env: Env, it1: Iter, it: Iter) {
    || Undone(env, it1.done) < Undone(env, it.done)
    || (Undone(env, it1.done) == Undone(env, it.done) && LessToWalk(env, it1, it))
  }

  /** Every pass uses something up, whatever its check returns, unless it asks a
      bootmeth that has just succeeded for its next entry. */
  lemma PassMoves(env: Env, it: Iter)
    requires Ok(env, it) && !Step(env, it).1.Ended? && !Again(env, it)
    ensures LessLeft(env, Step(env, it).0, it)
  {
    hide IterIncr, Try, LessToWalk;
    NeverStuck(env, it);
    var it1 := IterIncr(env, it).0;
    IncrementPoised(env, it);
    TryFrame(env, it1);
    ChosenGlobalIsNew(env, it);
    UndoneDrops(env, it.done, it1.curMethod);
    if !it1.doingGlobal {
      IncrementLess(env, it);
      LessAfterTry(env, it1, it);
    }
  }

  /** Every pass that goes on leaves less to do, so every call returns; within one
      call a bootmeth is asked again at most once. */
  lemma PassLess(env: Env, it: Iter)
    requires Ok(env, it) && Step(env, it).1.Going?
    ensures LessToDo(env, Step(env, it).0, it)
  {
    hide IterIncr, Try, LessToWalk;
    if Again(env, it) {
      var it1 := IterIncr(env, it).0;
      AgainIsSame(env, it);
      TryFrame(env, it1);
      TryGoes(env, it1);
      UndoneDrops(env, it.done, it1.curMethod);
    } else {
      PassMoves(env, it);
    }
  }

  /** Only the first pass of a call can ask the same bootmeth again. */
  lemma NoSecondRepeat(env: Env, it: Iter)
    requires Ok(env, it) && Step(env, it).1.Going?
    ensures Ok(env, Step(env, it).0) && !Again(env, Step(env, it).0)
  {
    hide IterIncr, Try;
    NeverStuck(env, it);
    StepKeepsOk(env, it);
    TryGoes(env, IterIncr(env, it).0);
  }

  lemma TryGoes(env: Env, it: Iter)
    requires it.curMethod < |env.order|
    ensures Try(env, it).1.Going? ==> Try(env, it).0.err != 0
  {
  }

  lemma LessAfterTry(env: Env, it1: Iter, it: Iter)
    requires it1.curMethod < |env.order| && LessToWalk(env, it1, it) && !it1.doingGlobal
    ensures LessToWalk(env, Try(env, it1).0, it)
  {
    hide Try;
    TryFrame(env, it1);
  }

  // ----- Whole calls -----

  /** One call of the scan: passes until there is something to return. That this
      function is total is the termination of the scan loop. */
  function ScanCall(env: Env, it: Iter): (r: (Iter, Outcome))
    requires Ok(env, it)
    ensures !r.1.Going?
    ensures !r.1.Ended? ==> Ok(env, r.0)
    decreases Undone(env, it.done), Opening(it), PrioLeft(it), LabelsLeft(env, it), DevsLeft(it), InGlobals(it),
              PartsLeft(it), MethodsLeft(env, it), Succeeded(it)
  {
    var (it1, o) := Step(env, it);
    if !o.Ended? then
      StepKeepsOk(env, it);
      if o.Going? then PassLess(env, it); ScanCall(env, it1) else (it1, o)
    else (it1, o)
  }

  function FirstCall(env: Env, s: Setup): (r: (Iter, Outcome))
    requires s.Valid(env)
    ensures !r.1.Going?
    ensures !r.1.Ended? ==> Ok(env, r.0)
  {
    var (it, o) := Start(env, s);
    if !o.Ended? then
      StartOk(env, s);
      if o.Going? then ScanCall(env, it) else (it, o)
    else (it, o)
  }

  /** Calls make up runs: what a call does to a state of a run is to go on with it. */
  lemma {:induction false} CallContinuesRun(env: Env, s: Setup, m: nat, it: Iter) returns (k: nat)
    requires s.Valid(env) && !Run(env, s, m).1.Ended? && it == Run(env, s, m).0
    ensures k >= 1 && Run(env, s, m + k) == ScanCall(env, it)
    decreases Undone(env, it.done), Opening(it), PrioLeft(it), LabelsLeft(env, it), DevsLeft(it), InGlobals(it),
              PartsLeft(it), MethodsLeft(env, it), Succeeded(it)
  {
    hide Step, Start, Undone, Opening, PrioLeft, LabelsLeft, DevsLeft, InGlobals, PartsLeft, MethodsLeft, Succeeded;
    RunNext(env, s, m);
    k := 1;
    if Step(env, it).1.Going? {
      PassLess(env, it);
      k := CallContinuesRun(env, s, m + 1, Step(env, it).0);
      k := k + 1;
    }
  }

  lemma RunNext(env: Env, s: Setup, m: nat)
    requires s.Valid(env) && !Run(env, s, m).1.Ended?
    ensures Ok(env, Run(env, s, m).0) && Run(env, s, m + 1) == Step(env, Run(env, s, m).0)
  {
    hide Step, Start, Ok;
  }

  // ----- Whole runs -----

  /** The next pass asks a bootmeth that has just succeeded for another entry. */
  predicate Repeats(env: Env, s: Setup, n: nat)
    requires s.Valid(env)
  {
    !Run(env, s, n).1.Ended? && Again(env, Run(env, s, n).0)
  }

  /** From `m` on no bootmeth is asked for another entry. */
  ghost predicate NoRepeatFrom(env: Env, s: Setup, m: nat)
    requires s.Valid(env)
  {
    forall n :: n >= m ==> !Repeats(env, s, n)
  }

  lemma {:induction false} RunEnds(env: Env, s: Setup, m: nat, it: Iter) returns (n: nat)
    requires s.Valid(env) && NoRepeatFrom(env, s, m) && it == Run(env, s, m).0
    ensures n >= m && Run(env, s, n).1.Ended?
    decreases Undone(env, it.done), Opening(it), PrioLeft(it), LabelsLeft(env, it), DevsLeft(it), InGlobals(it),
              PartsLeft(it), MethodsLeft(env, it)
  {
    hide Step, Start, Run, Undone, Opening, PrioLeft, LabelsLeft, DevsLeft, InGlobals, PartsLeft, MethodsLeft;
    n := m;
    if !Run(env, s, m).1.Ended? {
      RunNext(env, s, m);
      n := m + 1;
      if !Run(env, s, m + 1).1.Ended? {
        assert !Repeats(env, s, m);
        PassMoves(env, it);
        n := RunEnds(env, s, m + 1, Run(env, s, m + 1).0);
      }
    }
  }

  lemma {:induction false} EndedStays(env: Env, s: Setup, m: nat, n: nat)
    requires s.Valid(env) && m <= n && Run(env, s, m).1.Ended?
    ensures Run(env, s, n) == Run(env, s, m)
  {
    hide Step, Start, Ok;
    if m < n { EndedStays(env, s, m, n - 1); }
  }

  /** A run ends if and only if its bootmeths run out of further entries. */
  lemma RunEndsIff(env: Env, s: Setup)
    requires s.Valid(env)
    ensures (exists n :: Run(env, s, n).1.Ended?) <==> (exists m :: NoRepeatFrom(env, s, m))
  {
    hide Run;
    if m :| NoRepeatFrom(env, s, m) { var n := RunEnds(env, s, m, Run(env, s, m).0); }
    if n :| Run(env, s, n).1.Ended? {
      forall k | k >= n
        ensures !Repeats(env, s, k)
      {
        EndedStays(env, s, n, k);
      }
      assert NoRepeatFrom(env, s, n);
    }
  }

  /** Without bootmeths that give several entries every run ends. */
  lemma SingleEntriesEnd(env: Env, s: Setup) returns (n: nat)
    requires s.Valid(env) && forall i :: 0 <= i < |env.order| ==> !env.order[i].multi
    ensures Run(env, s, n).1.Ended?
  {
    hide Run, Ok;
    forall k: nat
      ensures !Repeats(env, s, k)
    {
      if !Run(env, s, k).1.Ended? { RunReady(env, s, k); }
    }
    n := RunEnds(env, s, 0, Run(env, s, 0).0);
  }

  lemma RunReady(env: Env, s: Setup, k: nat)
    requires s.Valid(env) && !Run(env, s, k).1.Ended?
    ensures Run(env, s, k).0.curMethod < |env.order|
  {
    hide Step, Start;
  }

  // ----- Checks that do not stop the scan -----

  /** No result behind any check is -ENODEV. */
  ghost predicate NeverStops(env: Env) {
    forall n: nat :: var r := env.raw(n); r.check != ENODEV && r.partInfo != ENODEV && r.body != ENODEV
  }

  lemma TryNeverStops(env: Env, it: Iter)
    requires NeverStops(env) && it.curMethod < |env.order|
    ensures Try(env, it).0.err != BF_NO_MORE_DEVICES
  {
    var r := env.raw(|it.log|);
  }

  lemma StepNeverStops(env: Env, it: Iter)
    requires NeverStops(env) && Ok(env, it) && it.err != BF_NO_MORE_DEVICES
    ensures Step(env, it).0.err != BF_NO_MORE_DEVICES
  {
    hide IterIncr, Try, NeverStops;
    NeverStuck(env, it);
    IncrementFrame(env, it);
    if IterIncr(env, it).1 == 0 { TryNeverStops(env, IterIncr(env, it).0); }
  }

  lemma StartNeverStops(env: Env, s: Setup)
    requires NeverStops(env) && s.Valid(env)
    ensures Start(env, s).0.err != BF_NO_MORE_DEVICES
  {
    hide Try, NeverStops, SelectNamed, SetupIter;
    var it := Fresh(env, s);
    if env.haveGlobal {
      TryNeverStops(env, it);
    } else if FirstDev(env, it, s.sel).ret == 0 {
      var c := FirstDev(env, it, s.sel);
      TryNeverStops(env, SetDev(c.it, Some(c.dev), c.flags));
    } else {
      FirstDevKeepsErr(env, s);
    }
  }

  lemma FirstDevKeepsErr(env: Env, s: Setup)
    requires s.Valid(env)
    ensures FirstDev(env, Fresh(env, s), s.sel).it.err == 0
  {
    hide SelectNamed, SetupIter;
  }

  /** Such a run, when it ends, is complete; and it ends if no bootmeth gives
      several entries. */
  lemma RunCompletes(env: Env, s: Setup) returns (n: nat)
    requires s.Valid(env) && NeverStops(env) && forall i :: 0 <= i < |env.order| ==> !env.order[i].multi
    ensures Complete(env, s, n)
  {
    hide Step, Start, Run, Ok, NeverStops;
    n := SingleEntriesEnd(env, s);
    var p := (it: Iter) => it.err != BF_NO_MORE_DEVICES;
    StartNeverStops(env, s);
    forall it
      ensures StepKeeps(env, it, p)
    {
      if Ok(env, it) && p(it) { StepNeverStops(env, it); }
    }
    RunInvariant(env, s, n, p);
  }
}
