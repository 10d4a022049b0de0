/** Partitions: which ones of a bootdev are tried, told from the raw results
    behind the checks. */
module BootScanParts {
  import opened Wrappers
  import opened BootScan
  import opened BootScanRuns
  import opened BootScanOrder
  import opened BootScanGlobals

  // ----- What a check gives -----

  /** Looking up partition `part` of a block device works: it is there, or the whole
      device was meant, or the bootmeth takes any partition. */
  predicate Looked(part: nat, anyPart: bool, raw: Raw) {
    && raw.blk && part < 30 && raw.check == 0
    && (anyPart || raw.partInfo == 0 || (part == 0 && raw.partInfo == ENOENT))
  }

  /** Partition 1 is missing, which is not the end of the partitions. */
  predicate FirstMissing(part: nat, anyPart: bool, raw: Raw) {
    raw.blk && raw.check == 0 && part == 1 && !Looked(part, anyPart, raw)
  }

  /** The result of a check. */
  function ResultOf(glob: bool, part: nat, anyPart: bool, raw: Raw): int {
    if glob || !raw.blk || Looked(part, anyPart, raw) then raw.body
    else if part >= 30 then ESHUTDOWN
    else if raw.check != 0 then raw.check
    else if part == 1 then ENOENT
    else if raw.partInfo == EOPNOTSUPP then ESHUTDOWN
    else raw.partInfo
  }

  /** The result of the check behind attempt `i` of a log. */
  function ResultAt(env: Env, log: seq<Attempt>, i: nat): int
    requires i < |log| && log[i].meth < |env.order|
  {
    ResultOf(log[i].glob, log[i].part, env.order[log[i].meth].anyPart, env.raw(i))
  }

  /** What a check leaves of the partition limit. */
  function LimitOf(was: nat, part: nat, anyPart: bool, raw: Raw): nat {
    if Looked(part, anyPart, raw) then 30 else if FirstMissing(part, anyPart, raw) then 3 else was
  }

  lemma BlkAnswers(part: nat, maxPart: nat, anyPart: bool, raw: Raw)
    ensures GetBootflow(part, maxPart, anyPart, raw)
            == (ResultOf(false, part, anyPart, raw), LimitOf(maxPart, part, anyPart, raw))
  {
  }

  /** Every check gives its result and moves the limit. */
  lemma TryAnswers(env: Env, it: Iter)
    requires it.curMethod < |env.order|
    ensures var it' := Try(env, it).0;
            var (raw, anyPart) := (env.raw(|it.log|), env.order[it.curMethod].anyPart);
            && it'.err == ResultOf(it.doingGlobal, Now(it).part, anyPart, raw)
            && it'.maxPart == if it.doingGlobal then it.maxPart else LimitOf(it.maxPart, it.part, anyPart, raw)
  {
    hide GetBootflow, ResultOf, LimitOf;
    BlkAnswers(it.part, it.maxPart, env.order[it.curMethod].anyPart, env.raw(|it.log|));
    GlobalAnswers(0, env.order[it.curMethod].anyPart, env.raw(|it.log|));
  }

  lemma GlobalAnswers(part: nat, anyPart: bool, raw: Raw)
    ensures ResultOf(true, part, anyPart, raw) == raw.body
  {
  }

  // ----- The limit along a log -----

  /** The first attempt on a bootdev. */
  predicate Opens(a: Attempt) { !a.glob && a.part == 0 && a.meth == 0 && a.entry == 0 }

  /** All attempts are made with a bootmeth of the order. */
  predicate MethsFine(env: Env, log: seq<Attempt>) { forall k :: 0 <= k < |log| ==> log[k].meth < |env.order| }

  /** The limit before attempt `i`: none at the start of a bootdev. */
  function LimitBefore(env: Env, log: seq<Attempt>, i: nat): nat
    requires i <= |log| && MethsFine(env, log)
    decreases i, 0
  {
    if i == 0 then 0 else LimitAfter(env, log, i - 1)
  }

  /** The limit left behind by attempt `i`: 30 once a lookup worked on this bootdev,
      3 after a missing partition 1, and 0 at its start. */
  function LimitAfter(env: Env, log: seq<Attempt>, i: nat): nat
    requires i < |log| && MethsFine(env, log)
    decreases i, 1
  {
    if log[i].glob then 0
    else
      LimitOf(if Opens(log[i]) then 0 else LimitBefore(env, log, i),
              log[i].part, env.order[log[i].meth].anyPart, env.raw(i))
  }

  lemma {:induction false} LimitStays(env: Env, log: seq<Attempt>, log': seq<Attempt>, i: nat)
    requires MethsFine(env, log) && MethsFine(env, log') && i < |log| && log <= log'
    ensures LimitAfter(env, log', i) == LimitAfter(env, log, i)
    decreases i
  {
    assert log'[i] == log[i];
    if i > 0 { LimitStays(env, log, log', i - 1); }
  }

  // ----- Along a run -----

  /** The last check's result is at hand, and so is the limit, while on a bootdev. */
  predicate Kept(env: Env, it: Iter) {
    && it.log != [] && MethsFine(env, it.log) && !it.flags.singlePartition
    && it.err == ResultAt(env, it.log, |it.log| - 1)
    && (!it.doingGlobal ==> it.maxPart == LimitAfter(env, it.log, |it.log| - 1))
  }

  lemma NextDeviceLimit(env: Env, it: Iter, incDev: bool)
    requires BetweenDevices(env, it, incDev) && NextDevice(env, it, incDev).1 == 0
    ensures NextDevice(env, it, incDev).0.maxPart == 0
  {
    hide SelectDev;
  }

  /** A new bootdev starts without a limit; anything else on the same one keeps it. */
  lemma IncrementLimit(env: Env, it: Iter)
    requires Ok(env, it) && IterIncr(env, it).1 == 0 && !IterIncr(env, it).0.doingGlobal
    ensures var it1 := IterIncr(env, it).0;
            it1.maxPart == if Opens(Now(it1)) then 0 else it.maxPart
    ensures !Opens(Now(IterIncr(env, it).0)) ==> !it.doingGlobal
  {
    hide NextDevice;
    var it1 := it.(entry := 0);
    if Again(env, it) {
    } else if it.doingGlobal {
      NextGlobalPoised(env, it1);
      if it.pending.None? && it.curPrio < BOOTDEVP_COUNT
         && FirstAllowed(env, it1, it1.curMethod + 1) == |env.order| {
        var it2 := it1.(doingGlobal := false, curMethod := 0);
        NextDeviceLimit(env, it2, false);
        NextDeviceStarts(env, it2, false);
      }
    } else if it1.curMethod + 1 >= env.Normal()
              && !(it.err != BF_NO_MORE_PARTS && it.part + 1 <= it.maxPart) && !it.flags.singlePartition {
      var it2 := it1.(curMethod := 0, part := 0, maxPart := 0);
      NextDeviceLimit(env, it2, true);
      NextDeviceStarts(env, it2, true);
    }
  }

  lemma TryKept(env: Env, it: Iter)
    requires Poised(env, it) && !it.flags.singlePartition && MethsFine(env, it.log)
    requires !it.doingGlobal ==>
               it.maxPart == if Opens(Now(it)) || it.log == [] then 0 else LimitAfter(env, it.log, |it.log| - 1)
    ensures Kept(env, Try(env, it).0)
  {
    hide Try, ResultOf, LimitOf;
    TryFrame(env, it);
    TryAnswers(env, it);
    var log' := it.log + [Now(it)];
    assert MethsFine(env, log') && log'[|it.log|] == Now(it);
    if it.doingGlobal { GlobalAnswers(0, env.order[it.curMethod].anyPart, env.raw(|it.log|)); }
    LimitGrows(env, it.log, Now(it));
  }

  lemma LimitGrows(env: Env, log: seq<Attempt>, a: Attempt)
    requires MethsFine(env, log) && a.meth < |env.order|
    ensures MethsFine(env, log + [a])
    ensures var was := if Opens(a) || log == [] then 0 else LimitAfter(env, log, |log| - 1);
            LimitAfter(env, log + [a], |log|)
            == if a.glob then 0 else LimitOf(was, a.part, env.order[a.meth].anyPart, env.raw(|log|))
  {
    hide LimitOf;
    var log' := log + [a];
    assert MethsFine(env, log') && log'[|log|] == a;
    if log != [] {
      LimitStays(env, log, log', |log| - 1);
      assert LimitBefore(env, log', |log|) == LimitAfter(env, log', |log| - 1);
    }
  }

  lemma StepKept(env: Env, it: Iter)
    requires Ok(env, it) && Kept(env, it)
    ensures Step(env, it).1.Ended? || Kept(env, Step(env, it).0)
  {
    hide IterIncr, Try, LimitAfter, ResultAt;
    NeverStuck(env, it);
    IncrementFrame(env, it);
    if IterIncr(env, it).1 == 0 {
      IncrementPoised(env, it);
      if !IterIncr(env, it).0.doingGlobal { IncrementLimit(env, it); }
      TryKept(env, IterIncr(env, it).0);
    }
  }

  // ----- The next partition -----

  /** The bootmeths start again on the next partition. */
  predicate NextPart(a: Attempt, b: Attempt) { b == a.(part := a.part + 1, meth := 0, entry := 0) }

  /** Attempt `i` is the last one at its bootdev and partition: the last ordinary
      bootmeth has been tried and has no more to offer. */
  predicate LastHere(env: Env, log: seq<Attempt>, i: nat)
    requires i < |log| && MethsFine(env, log)
  {
    log[i].meth == env.Normal() - 1 && !(ResultAt(env, log, i) == 0 && env.order[log[i].meth].multi)
  }

  /** After attempt `i` the bootdev has more partitions to offer. */
  predicate MoreParts(env: Env, log: seq<Attempt>, i: nat)
    requires i < |log| && MethsFine(env, log)
  {
    ResultAt(env, log, i) != ESHUTDOWN && log[i].part + 1 <= LimitAfter(env, log, i)
  }

  /** The attempt after an ordinary one, `i`: at the same place until that is done
      with, and then at the next partition exactly when there is more. */
  predicate Moves(env: Env, log: seq<Attempt>, i: nat, b: Attempt)
    requires i < |log| && MethsFine(env, log)
  {
    if LastHere(env, log, i) then NextPart(log[i], b) <==> MoreParts(env, log, i) else SamePlace(log[i], b)
  }

  /** The increment leaves the place for the next partition exactly when there is more. */
  lemma IncrementParts(env: Env, it: Iter)
    requires Ok(env, it) && !it.doingGlobal && !it.flags.singlePartition && it.err != BF_NO_MORE_DEVICES
    ensures var (it1, ret) := IterIncr(env, it);
            var last := it.curMethod == env.Normal() - 1 && !Again(env, it);
            var more := it.err != ESHUTDOWN && it.part + 1 <= it.maxPart;
            && (ret != 0 ==> last && !more)
            && (ret == 0 ==> if last then NextPart(Now(it), Now(it1)) <==> more else SamePlace(Now(it), Now(it1)))
  {
    hide NextDevice;
    var it1 := it.(entry := 0);
    if !Again(env, it) && it1.curMethod + 1 >= env.Normal()
       && !(it.err != BF_NO_MORE_PARTS && it.part + 1 <= it.maxPart) {
      var it2 := it1.(curMethod := 0, part := 0, maxPart := 0);
      NextDeviceStarts(env, it2, true);
    }
  }

  lemma Stopped(env: Env, it: Iter)
    requires Ok(env, it) && it.err == BF_NO_MORE_DEVICES
    ensures Step(env, it) == (it, Ended)
  {
    hide EndOfGlobals, EndOfMethods;
  }

  lemma StepMoves(env: Env, it: Iter)
    requires Ok(env, it) && Kept(env, it) && !it.doingGlobal && it.err != BF_NO_MORE_DEVICES
    ensures var (it', o) := Step(env, it);
            var i := |it.log| - 1;
            if o.Ended? then LastHere(env, it.log, i) && !MoreParts(env, it.log, i)
            else Moves(env, it.log, i, Now(it'))
  {
    hide IterIncr, Try, LimitAfter, ResultAt, NextPart;
    NeverStuck(env, it);
    IncrementParts(env, it);
    if IterIncr(env, it).1 == 0 {
      IncrementPoised(env, it);
      TryKeepsOk(env, IterIncr(env, it).0);
      TryFrame(env, IterIncr(env, it).0);
    }
  }

  /** Every ordinary attempt of the log is followed as it should be. */
  predicate PartsInTurn(env: Env, log: seq<Attempt>) {
    && MethsFine(env, log)
    && forall i :: 0 <= i < |log| - 1 && !log[i].glob ==> Moves(env, log, i, log[i + 1])
  }

  lemma MovesStays(env: Env, log: seq<Attempt>, log': seq<Attempt>, i: nat, b: Attempt)
    requires MethsFine(env, log) && MethsFine(env, log') && log <= log' && i < |log|
    ensures Moves(env, log', i, b) <==> Moves(env, log, i, b)
  {
    hide LimitAfter, ResultOf;
    LimitStays(env, log, log', i);
    assert log'[i] == log[i];
  }

  lemma PartsInTurnGrows(env: Env, log: seq<Attempt>, b: Attempt)
    requires PartsInTurn(env, log) && log != [] && b.meth < |env.order|
    requires !log[|log| - 1].glob ==> Moves(env, log, |log| - 1, b)
    ensures PartsInTurn(env, log + [b])
  {
    hide Moves;
    var log' := log + [b];
    assert MethsFine(env, log');
    forall i | 0 <= i < |log'| - 1 && !log'[i].glob
      ensures Moves(env, log', i, log'[i + 1])
    {
      MovesStays(env, log, log', i, log'[i + 1]);
    }
  }

  /** What holds after every pass that did not end the scan. */
  predicate Partitioned(env: Env, it: Iter) { Kept(env, it) && PartsInTurn(env, it.log) }

  lemma StepPartitioned(env: Env, it: Iter)
    requires Ok(env, it) && Partitioned(env, it)
    ensures if Step(env, it).1.Ended? then Step(env, it).0.log == it.log else Partitioned(env, Step(env, it).0)
  {
    hide Step, LimitAfter, ResultAt, Moves;
    StepLogs(env, it);
    StepKept(env, it);
    if !Step(env, it).1.Ended? {
      StepKeepsOk(env, it);
      if it.err == BF_NO_MORE_DEVICES { Stopped(env, it); }
      if !it.doingGlobal { StepMoves(env, it); }
      PartsInTurnGrows(env, it.log, Now(Step(env, it).0));
    }
  }

  // ----- Runs -----

  /** The caller does not ask for one partition. */
  predicate NoPartition(s: Setup) { s.sel.Some? ==> !s.sel.value.part.OnePart? }

  lemma StartPartitioned(env: Env, s: Setup)
    requires s.Valid(env) && NoPartition(s)
    ensures Start(env, s).1.Ended? || Partitioned(env, Start(env, s).0)
  {
    hide SetupIter, Prescan, HuntFrom, FindByAny, Try;
    var it := Fresh(env, s);
    if env.haveGlobal {
      TryKept(env, it);
      TryFrame(env, it);
    } else if FirstDev(env, it, s.sel).ret == 0 {
      var c := FirstDev(env, it, s.sel);
      TryKept(env, SetDev(c.it, Some(c.dev), c.flags));
      TryFrame(env, SetDev(c.it, Some(c.dev), c.flags));
    }
  }

  lemma {:induction false} RunPartitioned(env: Env, s: Setup, n: nat)
    requires s.Valid(env) && NoPartition(s)
    ensures PartsInTurn(env, Run(env, s, n).0.log)
    ensures Run(env, s, n).1.Ended? || Partitioned(env, Run(env, s, n).0)
  {
    hide Step, Start, Ok, Kept, PartsInTurn;
    if n == 0 {
      StartPartitioned(env, s);
      if Start(env, s).1.Ended? { EndedStartIsEmpty(env, s); EmptyInTurn(env); }
    } else {
      RunPartitioned(env, s, n - 1);
      if !Run(env, s, n - 1).1.Ended? { StepPartitioned(env, Run(env, s, n - 1).0); }
    }
  }

  lemma EmptyInTurn(env: Env)
    ensures PartsInTurn(env, [])
  {
  }

  /** The end of a complete scan: if it ends with an ordinary attempt, nothing is left
      to try at that place, nor on a further partition. */
  lemma CompleteLeavesNoPart(env: Env, s: Setup, n: nat)
    requires s.Valid(env) && NoPartition(s) && Complete(env, s, n) && Run(env, s, n).0.log != []
    ensures var log := Run(env, s, n).0.log;
            && PartsInTurn(env, log)
            && (!log[|log| - 1].glob ==> LastHere(env, log, |log| - 1) && !MoreParts(env, log, |log| - 1))
  {
    hide Step, Start, Run, IterIncr, LastHere, MoreParts, PartsInTurn, ResultAt, LimitAfter;
    RunPartitioned(env, s, n);
    if Start(env, s).1.Ended? {
      EndedStartIs(env, s, n);
      EndedStartIsEmpty(env, s);
    } else {
      var m := LastPass(env, s, n);
      var it := Run(env, s, m).0;
      RunOk(env, s, m);
      RunPartitioned(env, s, m);
      StepEnds(env, it);
      IncrementFrame(env, it);
      if !it.doingGlobal { StepMoves(env, it); }
    }
  }

  // ----- Every partition -----

  /** Everything in the log at the place of `a` could be looked up, and did not say
      that there are no more partitions. */
  predicate PartsWork(env: Env, log: seq<Attempt>, a: Attempt)
    requires MethsFine(env, log)
  {
    forall i :: 0 <= i < |log| && SamePlace(log[i], a) ==>
      Looked(a.part, env.order[log[i].meth].anyPart, env.raw(i)) && ResultAt(env, log, i) != ESHUTDOWN
  }

  predicate NothingLeft(env: Env, log: seq<Attempt>)
    requires MethsFine(env, log) && log != []
  {
    var i := |log| - 1;
    !log[i].glob ==> LastHere(env, log, i) && !MoreParts(env, log, i)
  }

  lemma WorksHere(env: Env, log: seq<Attempt>, i: nat, a: Attempt)
    requires MethsFine(env, log) && i < |log| && SamePlace(log[i], a) && PartsWork(env, log, a)
    ensures MoreParts(env, log, i)
  {
  }

  /** A partition that works is followed by the next one. */
  lemma {:induction false} NextIsTried(env: Env, log: seq<Attempt>, i: nat, a: Attempt) returns (j: nat)
    requires PartsInTurn(env, log) && i < |log| && NothingLeft(env, log)
    requires SamePlace(log[i], a) && PartsWork(env, log, a)
    ensures i < j < |log| && SamePlace(log[j], a.(part := a.part + 1)) && log[j].meth == 0
    decreases |log| - i
  {
    hide MoreParts, LimitAfter, ResultOf, PartsWork, LastHere;
    WorksHere(env, log, i, a);
    assert i < |log| - 1;
    assert Moves(env, log, i, log[i + 1]);
    if LastHere(env, log, i) { j := i + 1; } else { j := NextIsTried(env, log, i + 1, a); }
  }

  /** A bootdev whose partitions below 30 all work is tried at each of them and at 30. */
  lemma {:induction false} AllPartsTried(env: Env, log: seq<Attempt>, i: nat, p: nat) returns (j: nat)
    requires PartsInTurn(env, log) && i < |log| && NothingLeft(env, log) && !log[i].glob
    requires log[i].part <= p <= 30
    requires forall q :: 0 <= q < 30 ==> PartsWork(env, log, log[i].(part := q))
    ensures i <= j < |log| && SamePlace(log[j], log[i].(part := p))
    decreases p
  {
    hide PartsWork, PartsInTurn, NothingLeft;
    if p == log[i].part {
      j := i;
    } else {
      var k := AllPartsTried(env, log, i, p - 1);
      j := NextIsTried(env, log, k, log[i].(part := p - 1));
    }
  }

  /** In every run without a partition selection: after the last ordinary bootmeth at
      a bootdev and partition, the next attempt is the first one at the next partition
      exactly when the check did not end the partitions and the limit left behind
      allows one more. Before that the scan stays at the partition. */
  lemma PartitionLaw(env: Env, s: Setup, n: nat, i: nat)
    requires s.Valid(env) && NoPartition(s)
    requires i + 1 < |Run(env, s, n).0.log| && !Run(env, s, n).0.log[i].glob
    ensures MethsFine(env, Run(env, s, n).0.log)
    ensures var log := Run(env, s, n).0.log;
            var (a, b) := (log[i], log[i + 1]);
            var ret := ResultOf(false, a.part, env.order[a.meth].anyPart, env.raw(i));
            if a.meth == env.Normal() - 1 && !(ret == 0 && env.order[a.meth].multi) then
              b == a.(part := a.part + 1, meth := 0, entry := 0)
              <==> ret != ESHUTDOWN && a.part + 1 <= LimitAfter(env, log, i)
            else SamePlace(a, b)
  {
    hide Run, LimitAfter, ResultOf;
    RunPartitioned(env, s, n);
    assert Moves(env, Run(env, s, n).0.log, i, Run(env, s, n).0.log[i + 1]);
  }

  /** In a complete scan a bootdev that is come to, and whose partitions below 30 all
      work, is tried at every partition from 0 to 30. */
  lemma EveryPartitionTried(env: Env, s: Setup, n: nat, i: nat, p: nat) returns (j: nat)
    requires s.Valid(env) && NoPartition(s) && Complete(env, s, n) && p <= 30
    requires i < |Run(env, s, n).0.log| && Opens(Run(env, s, n).0.log[i])
    requires MethsFine(env, Run(env, s, n).0.log)
    requires var log := Run(env, s, n).0.log;
             forall q :: 0 <= q < 30 ==> PartsWork(env, log, log[i].(part := q))
    ensures var log := Run(env, s, n).0.log;
            i <= j < |log| && SamePlace(log[j], log[i].(part := p))
  {
    hide Run, PartsWork, PartsInTurn;
    CompleteLeavesNoPart(env, s, n);
    j := AllPartsTried(env, Run(env, s, n).0.log, i, p);
  }
}
