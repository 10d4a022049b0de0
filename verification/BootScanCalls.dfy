/** What a call of the scan returns, told from the raw results behind its checks. */
module BootScanCalls {
  import opened Wrappers
  import opened BootScan
  import opened BootScanRuns
  import opened BootScanOrder
  import opened BootScanGlobals
  import opened BootScanMeasure
  import opened BootScanParts

  /** The check behind attempt `i` is one the caller is told of: a bootflow, or with
      the ALL flag any error other than the end of the partitions and -ENOSYS. */
  predicate Told(env: Env, all: bool, log: seq<Attempt>, i: nat)
    requires i < |log| && log[i].meth < |env.order|
  {
    var ret := ResultAt(env, log, i);
    ret == 0 || (all && ret != ESHUTDOWN && ret != ENOSYS)
  }

  /** A call checks up to the first result to tell, and tells that one. */
  predicate TellsFirst(env: Env, all: bool, from: nat, log: seq<Attempt>, o: Outcome) {
    var n := if o.Ended? then |log| else |log| - 1;
    && from <= n
    && (forall i :: from <= i < |log| ==> log[i].meth < |env.order|)
    && (forall i :: from <= i < n ==> !Told(env, all, log, i))
    && (!o.Ended? ==> Told(env, all, log, n))
    && (o.Found? ==> ResultAt(env, log, n) == 0)
    && (o.Reported? ==> ResultAt(env, log, n) == o.ret != 0)
    && !o.Going?
  }

  lemma TryTells(env: Env, it: Iter)
    requires it.curMethod < |env.order|
    ensures var (it', o) := Try(env, it);
            && it'.log == it.log + [Now(it)] && it'.log[|it.log|].meth == it.curMethod && it'.flags == it.flags
            && (if Told(env, it.flags.all, it'.log, |it.log|) then
                  o == if it'.err == 0 then Found else Reported(it'.err)
                else o.Going?)
            && it'.err == ResultAt(env, it'.log, |it.log|)
  {
    hide Try, ResultOf;
    TryFrame(env, it);
    TryAnswers(env, it);
    TryJudges(env, it);
    if it.doingGlobal { GlobalAnswers(0, env.order[it.curMethod].anyPart, env.raw(|it.log|)); }
  }

  lemma TryJudges(env: Env, it: Iter)
    requires it.curMethod < |env.order|
    ensures var (it', o) := Try(env, it);
            o == if it'.err == 0 then Found
                 else if it'.err != ESHUTDOWN && it'.err != ENOSYS && it.flags.all then Reported(it'.err) else Going
  {
  }

  lemma StepTells(env: Env, it: Iter)
    requires Ok(env, it)
    ensures var (it', o) := Step(env, it);
            && it'.flags == it.flags
            && if o.Ended? then it'.log == it.log
               else
                 && |it'.log| == |it.log| + 1 && it'.log[..|it.log|] == it.log
                 && it'.log[|it.log|].meth < |env.order|
                 && (if Told(env, it.flags.all, it'.log, |it.log|) then
                       o == if it'.err == 0 then Found else Reported(it'.err)
                     else o.Going?)
                 && it'.err == ResultAt(env, it'.log, |it.log|)
  {
    hide IterIncr, Try, Told, ResultAt;
    NeverStuck(env, it);
    IncrementFrame(env, it);
    if IterIncr(env, it).1 == 0 {
      TryFrame(env, IterIncr(env, it).0);
      TryTells(env, IterIncr(env, it).0);
    }
  }

  /** One more check that is not told of, before those of the rest of the call. */
  lemma OneMore(env: Env, all: bool, log: seq<Attempt>, log': seq<Attempt>, o: Outcome)
    requires |log| >= 1 && log <= log' && log[|log| - 1].meth < |env.order| && !Told(env, all, log, |log| - 1)
    requires TellsFirst(env, all, |log|, log', o)
    ensures TellsFirst(env, all, |log| - 1, log', o)
  {
    hide ResultOf;
    assert log'[|log| - 1] == log[|log| - 1];
  }

  /** A call returns the first result of its checks that is to be told, with the
      attempt behind it the last of the log; if there is none, the scan has ended. */
  lemma {:induction false} CallTellsFirst(env: Env, it: Iter)
    requires Ok(env, it)
    ensures var (it', o) := ScanCall(env, it);
            it.log <= it'.log && TellsFirst(env, it.flags.all, |it.log|, it'.log, o)
    decreases Undone(env, it.done), Opening(it), PrioLeft(it), LabelsLeft(env, it), DevsLeft(it), InGlobals(it),
              PartsLeft(it), MethodsLeft(env, it), Succeeded(it)
  {
    hide Step, ResultAt, Undone, Opening, PrioLeft, LabelsLeft, DevsLeft, InGlobals, PartsLeft, MethodsLeft, Succeeded;
    StepTells(env, it);
    var (it1, o) := Step(env, it);
    if o.Going? {
      hide Told, TellsFirst;
      PassLess(env, it);
      StepKeepsOk(env, it);
      CallTellsFirst(env, it1);
      OneMore(env, it.flags.all, it1.log, ScanCall(env, it1).0.log, ScanCall(env, it1).1);
    }
  }

  lemma StartTells(env: Env, s: Setup)
    requires s.Valid(env)
    ensures var (it', o) := Start(env, s);
            if o.Ended? then it'.log == []
            else
              && |it'.log| == 1 && it'.log[0].meth < |env.order| && it'.flags.all == s.flags.all
              && (if Told(env, s.flags.all, it'.log, 0) then
                    o == if it'.err == 0 then Found else Reported(it'.err)
                  else o.Going?)
              && it'.err == ResultAt(env, it'.log, 0)
  {
    hide SetupIter, Prescan, HuntFrom, FindByAny, Try, Told, ResultAt;
    var it := Fresh(env, s);
    if env.haveGlobal {
      TryTells(env, it);
      TryFrame(env, it);
    } else if FirstDev(env, it, s.sel).ret == 0 {
      var c := FirstDev(env, it, s.sel);
      TryTells(env, SetDev(c.it, Some(c.dev), c.flags));
      TryFrame(env, SetDev(c.it, Some(c.dev), c.flags));
    }
  }

  /** The same of the call that starts a scan. */
  lemma FirstCallTellsFirst(env: Env, s: Setup)
    requires s.Valid(env)
    ensures TellsFirst(env, s.flags.all, 0, FirstCall(env, s).0.log, FirstCall(env, s).1)
  {
    hide Start, ResultAt, ScanCall;
    StartTells(env, s);
    var (it, o) := Start(env, s);
    if o.Going? {
      hide Told, TellsFirst;
      StartOk(env, s);
      CallTellsFirst(env, it);
      OneMore(env, s.flags.all, it.log, ScanCall(env, it).0.log, ScanCall(env, it).1);
    }
  }
}
