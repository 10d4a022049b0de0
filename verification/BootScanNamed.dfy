/** A scan of a bootdev that the caller names stays with what was named. */
module BootScanNamed {
  import opened Wrappers
  import opened BootScan
  import opened BootScanRuns
  import opened BootScanOrder
  import opened BootScanGlobals

  /** Bootdev `b` is in reach of a scan that was asked for bootdev `a`: of the same
      uclass, the same one, or on the same media device. */
  predicate InReach(flags: Flags, devs: seq<Dev>, a: int, b: int) {
    && 0 <= a < |devs| && 0 <= b < |devs|
    && (flags.singleUclass ==> devs[a].uclass == devs[b].uclass)
    && (flags.singleMedia ==> devs[a].media == devs[b].media)
    && (flags.singleDev || flags.singlePartition ==> a == b)
  }

  /** The scan is restricted to one of: a uclass, a bootdev, a media device. */
  predicate Restricted(flags: Flags) {
    if flags.singleUclass then !flags.singleDev && !flags.singleMedia else flags.singleDev != flags.singleMedia
  }

  /** All attempts are in reach of the first, and on its partition if there is
      only one. */
  predicate Stays(it: Iter) {
    && Restricted(it.flags) && it.log != []
    && forall i :: 0 <= i < |it.log| ==>
         && !it.log[i].glob && InReach(it.flags, it.devs, it.log[0].dev, it.log[i].dev)
         && (it.flags.singlePartition ==> it.log[i].part == it.log[0].part)
  }

  lemma NextDeviceInReach(env: Env, it: Iter)
    requires BetweenDevices(env, it, true) && Restricted(it.flags) && NextDevice(env, it, true).1 == 0
    requires !env.haveGlobal
    ensures var it1 := NextDevice(env, it, true).0;
            && !it1.doingGlobal && it1.dev.Some? && it1.devs == it.devs
            && InReach(it.flags, it.devs, it.dev.value, it1.dev.value)
  {
    hide NextLabel, NextPrio;
  }

  lemma IncrementInReach(env: Env, it: Iter)
    requires Ok(env, it) && !env.haveGlobal && Restricted(it.flags) && IterIncr(env, it).1 == 0
    ensures var it1 := IterIncr(env, it).0;
            && !it1.doingGlobal && it.dev.Some? && it1.dev.Some? && it1.devs == it.devs
            && InReach(it.flags, it.devs, it.dev.value, it1.dev.value)
            && (it.flags.singlePartition ==> it1.part == it.part)
  {
    hide NextDevice;
    var it1 := it.(entry := 0);
    if !Again(env, it) && it1.curMethod + 1 >= env.Normal() && !it.flags.singlePartition
       && !(it.err != BF_NO_MORE_PARTS && it.part + 1 <= it.maxPart) {
      NextDeviceInReach(env, it1.(curMethod := 0, part := 0, maxPart := 0));
    }
  }

  lemma StepStays(env: Env, it: Iter)
    requires Ok(env, it) && !env.haveGlobal && Stays(it)
    ensures Stays(Step(env, it).0)
  {
    hide IterIncr, Try;
    NeverStuck(env, it);
    IncrementFrame(env, it);
    var (it1, ret) := IterIncr(env, it);
    if ret == 0 {
      IncrementInReach(env, it);
      TryFrame(env, it1);
      assert it.log[|it.log| - 1] == Now(it);
    }
  }

  lemma StartStays(env: Env, s: Setup)
    requires s.Valid(env) && s.sel.Some? && !Start(env, s).1.Ended?
    ensures Stays(Start(env, s).0)
    ensures s.sel.value.part.OnePart? ==>
              Start(env, s).0.flags.singlePartition && Start(env, s).0.log[0].part == s.sel.value.part.num
  {
    hide Try, FindByAny, HuntFrom;
    var c := FirstDev(env, Fresh(env, s), s.sel);
    TryFrame(env, SetDev(c.it, Some(c.dev), c.flags));
  }

  /** Every attempt of a scan of a named bootdev is on a bootdev in reach of the
      first, and on the partition named, if one was. */
  lemma NamedScanStays(env: Env, s: Setup, n: nat)
    requires s.Valid(env) && s.sel.Some? && !Start(env, s).1.Ended?
    ensures Stays(Run(env, s, n).0)
    ensures s.sel.value.part.OnePart? ==>
              forall i :: 0 <= i < |Run(env, s, n).0.log| ==> Run(env, s, n).0.log[i].part == s.sel.value.part.num
  {
    hide Step, Start, Run, Ok, InReach, Restricted;
    StartStays(env, s);
    var first := Start(env, s).0.log[0];
    var one := Start(env, s).0.flags.singlePartition;
    var p := (it: Iter) => Stays(it) && it.log[0] == first && it.flags.singlePartition == one;
    forall it
      ensures StepKeeps(env, it, p)
    {
      if Ok(env, it) && p(it) {
        StepStays(env, it);
        StepKeepsFirst(env, it);
      }
    }
    RunInvariant(env, s, n, p);
  }

  lemma StepKeepsFirst(env: Env, it: Iter)
    requires Ok(env, it)
    ensures Step(env, it).0.log != [] && Step(env, it).0.log[0] == it.log[0] && Step(env, it).0.flags == it.flags
  {
    hide IterIncr, Try;
    NeverStuck(env, it);
    IncrementFrame(env, it);
    if IterIncr(env, it).1 == 0 { TryFrame(env, IterIncr(env, it).0); }
  }

  // ----- Which bootdev is named -----

  /** The first bootdev with that number. */
  predicate FirstNumbered(devs: seq<Dev>, n: int, j: nat) {
    j < |devs| && devs[j].num == n && forall k :: 0 <= k < j ==> devs[k].num != n
  }

  /** The first bootdev of that name. */
  predicate FirstOfName(devs: seq<Dev>, name: string, j: nat) {
    j < |devs| && devs[j].name == name && forall k :: 0 <= k < j ==> devs[k].name != name
  }

  /** The first bootdev of the uclass with the sequence number, if there is one. */
  predicate FirstLabelled(devs: seq<Dev>, uclass: nat, seqno: int, j: nat) {
    && j < |devs| && devs[j].uclass == uclass && (seqno != -1 ==> devs[j].seqno == seqno)
    && NoneLabelled(devs[..j], uclass, seqno)
  }

  predicate NoneLabelled(devs: seq<Dev>, uclass: nat, seqno: int) {
    forall k :: 0 <= k < |devs| && devs[k].uclass == uclass ==> seqno != -1 && devs[k].seqno != seqno
  }

  /** Looked up by number: the first with it, alone; -ENODEV exactly if there is none. */
  lemma FoundByNumber(it: Iter, x: Selector, n: int, j: nat)
    requires x.number == Some(n)
    ensures var c := FindByAny(it, x);
            && (FirstNumbered(it.devs, n, j) ==>
                  c.dev == j && c.ret == it.devs[j].probe && c.flags == MethFlags(0, false, true))
            && ((forall k :: 0 <= k < |it.devs| ==> it.devs[k].num != n) ==> c.ret == ENODEV)
  {
    var i := NextSuch(it.devs, WithNumber(n), 0);
    assert forall k :: 0 <= k < i ==> !WithNumber(n)(it.devs[k]);
  }

  /** The name belongs to a bootdev, and its probe does not say that it has gone. */
  predicate ByName(devs: seq<Dev>, name: string) {
    exists j :: 0 <= j < |devs| && FirstOfName(devs, name, j) && devs[j].probe != ENODEV
  }

  /** Looked up by name. */
  lemma FoundByName(it: Iter, x: Selector, j: nat)
    requires x.number.None? && FirstOfName(it.devs, x.name, j) && it.devs[j].probe != ENODEV
    ensures FindByAny(it, x) == Choice(it, it.devs[j].probe, j, NoFlags)
  {
    var i := NextSuch(it.devs, WithName(x.name), 0);
    assert forall k :: 0 <= k < i ==> !WithName(x.name)(it.devs[k]);
  }

  /** Looked up by label, as nothing goes by the name: the first bootdev that the
      label names. There is none exactly when -ENOENT or a probe says so. */
  lemma FoundByLabel(it: Iter, x: Selector, j: nat)
    requires x.number.None? && !ByName(it.devs, x.name)
    ensures var c := FindByAny(it, x);
            var l := x.asLabel;
            && (!l.known ==> c.ret == EPFNOSUPPORT)
            && (l.known && FirstLabelled(it.devs, l.uclass, l.seqno, j) ==>
                  c == Choice(it, it.devs[j].probe, j, MethFlags(l.special, l.seqno == -1, false)))
            && (l.known && NoneLabelled(it.devs, l.uclass, l.seqno) ==> c.ret == ENOENT)
  {
    var i := NextSuch(it.devs, WithName(x.name), 0);
    assert forall k :: 0 <= k < i ==> !WithName(x.name)(it.devs[k]);
    if i < |it.devs| && it.devs[i].probe != ENODEV { assert FirstOfName(it.devs, x.name, i); }
    var m := DevForLabel(it.devs, x.asLabel, 0);
    assert forall k :: 0 <= k < m ==> !Fits(it.devs[k], x.asLabel);
  }

  /** Bootdev `j` is what the caller names, and the flags reach as far as that asks for. */
  predicate IsNamed(devs: seq<Dev>, x: Selector, flags: Flags, j: nat) {
    if x.number.Some? then FirstNumbered(devs, x.number.value, j) && flags.singleDev
    else if ByName(devs, x.name) then FirstOfName(devs, x.name, j) && flags.singleMedia
    else
      && x.asLabel.known && FirstLabelled(devs, x.asLabel.uclass, x.asLabel.seqno, j)
      && (if x.asLabel.seqno == -1 then flags.singleUclass else flags.singleMedia)
  }

  lemma FoundIsNamed(it: Iter, x: Selector)
    requires FindByAny(it, x).ret == 0
    ensures var c := FindByAny(it, x);
            IsNamed(it.devs, x, Restrict(it.flags, c.flags), c.dev) && it.devs[c.dev].probe == 0
  {
    var (j, m) := (NextSuch(it.devs, WithName(x.name), 0), DevForLabel(it.devs, x.asLabel, 0));
    if x.number.Some? {
      var i := NextSuch(it.devs, WithNumber(x.number.value), 0);
      assert forall k :: 0 <= k < i ==> !WithNumber(x.number.value)(it.devs[k]);
    } else {
      assert forall k :: 0 <= k < j ==> !WithName(x.name)(it.devs[k]);
      assert forall k :: 0 <= k < m ==> !Fits(it.devs[k], x.asLabel);
      if j < |it.devs| { assert FirstOfName(it.devs, x.name, j); }
    }
  }

  lemma StartIsNamed(env: Env, s: Setup)
    requires s.Valid(env) && s.sel.Some? && !Start(env, s).1.Ended?
    ensures var it := Start(env, s).0;
            && |it.log| == 1 && it.dev.Some? && it.dev.value == it.log[0].dev < |it.devs|
            && IsNamed(it.devs, s.sel.value, it.flags, it.log[0].dev) && it.devs[it.log[0].dev].probe == 0
  {
    hide Try, FindByAny, HuntFrom, IsNamed;
    var c := FirstDev(env, Fresh(env, s), s.sel);
    TryFrame(env, SetDev(c.it, Some(c.dev), c.flags));
    SelectedIsNamed(env, Fresh(env, s), s.sel.value);
  }

  lemma SelectedIsNamed(env: Env, it: Iter, x: Selector)
    requires SelectNamed(env, it, x).ret == 0
    ensures var c := SelectNamed(env, it, x);
            IsNamed(c.it.devs, x, c.it.flags, c.dev) && c.it.devs[c.dev].probe == 0
  {
    hide FindByAny, Prescan, HuntFrom, IsNamed, Restrict;
    var it1 := Prescan(env, AtPart(it, x.part)).0;
    var it2 := if it1.flags.hunt then HuntFrom(env, it1, Matching(x.asLabel), 0, 0).0 else it1;
    FoundIsNamed(it2, x);
  }

  // ----- How far the scan goes -----

  predicate TriedDev(log: seq<Attempt>, d: int) { exists i :: 0 <= i < |log| && log[i].dev == d }

  /** Of the bootdevs in reach of the first, those up to `last` were tried, all of
      which probe, and no others. */
  predicate Covers(flags: Flags, devs: seq<Dev>, log: seq<Attempt>, last: int) {
    && log != [] && InReach(flags, devs, log[0].dev, last)
    && (forall i :: 0 <= i < |log| ==> log[0].dev <= log[i].dev <= last)
    && (forall d :: log[0].dev <= d <= last && InReach(flags, devs, log[0].dev, d) ==>
          TriedDev(log, d) && devs[d].probe == 0)
  }

  /** Moving on goes to the next bootdev in reach, if it probes. */
  lemma NextInReach(env: Env, it: Iter) returns (j: nat)
    requires BetweenDevices(env, it, true) && Restricted(it.flags) && !it.flags.singleDev && !env.haveGlobal
    ensures it.dev.value < j <= |it.devs|
    ensures forall e :: it.dev.value < e < j ==> !InReach(it.flags, it.devs, it.dev.value, e)
    ensures j < |it.devs| ==> InReach(it.flags, it.devs, it.dev.value, j)
    ensures var (it1, ret) := NextDevice(env, it, true);
            && it1.devs == it.devs
            && if j < |it.devs| && it.devs[j].probe == 0 then ret == 0 && it1.dev == Some(j) else ret != 0
  {
    var d := it.devs[it.dev.value];
    var p := if it.flags.singleUclass then SameUclass(d) else SameMedia(d);
    j := NextSuch(it.devs, p, it.dev.value + 1);
    assert forall k :: it.dev.value < k < j ==> !p(it.devs[k]);
  }

  /** Between `a` and `b` nothing else is in reach, and `b` probes. */
  predicate NextOne(flags: Flags, devs: seq<Dev>, a: nat, b: nat) {
    && a < b && InReach(flags, devs, a, b) && devs[b].probe == 0
    && forall e :: a < e < b ==> !InReach(flags, devs, a, e)
  }

  /** After `a`, nothing is in reach short of a bootdev that does not probe. */
  predicate Blocked(flags: Flags, devs: seq<Dev>, a: nat) {
    forall e :: a < e < |devs| && InReach(flags, devs, a, e) ==>
      exists b :: a < b <= e && InReach(flags, devs, a, b) && devs[b].probe != 0
  }

  lemma IncrementNext(env: Env, it: Iter)
    requires Ok(env, it) && !env.haveGlobal && Restricted(it.flags) && it.err != BF_NO_MORE_DEVICES
    ensures var (it1, ret) := IterIncr(env, it);
            && it.dev.Some? && it1.devs == it.devs
            && if ret != 0 then Blocked(it.flags, it.devs, it.dev.value)
               else it1.dev == it.dev || (it1.dev.Some? && NextOne(it.flags, it.devs, it.dev.value, it1.dev.value))
  {
    hide NextDevice;
    var it1 := it.(entry := 0);
    if !Again(env, it) && it1.curMethod + 1 >= env.Normal() && !it.flags.singlePartition
       && !(it.err != BF_NO_MORE_PARTS && it.part + 1 <= it.maxPart) {
      var it2 := it1.(curMethod := 0, part := 0, maxPart := 0);
      if it.flags.singleDev {
        AloneEnds(env, it2);
      } else {
        var j := NextInReach(env, it2);
      }
    }
  }

  lemma AloneEnds(env: Env, it: Iter)
    requires BetweenDevices(env, it, true) && it.flags.singleDev && !env.haveGlobal
    ensures NextDevice(env, it, true).1 != 0 && NextDevice(env, it, true).0.devs == it.devs
  {
    hide SelectDev;
  }

  lemma CoversMore(flags: Flags, devs: seq<Dev>, log: seq<Attempt>, last: nat, a: Attempt)
    requires Covers(flags, devs, log, last)
    requires a.dev == last || (a.dev >= 0 && NextOne(flags, devs, last, a.dev))
    ensures Covers(flags, devs, log + [a], a.dev)
  {
    var log' := log + [a];
    forall d | log'[0].dev <= d <= a.dev && InReach(flags, devs, log'[0].dev, d)
      ensures TriedDev(log', d) && devs[d].probe == 0
    {
      if d <= last {
        var i :| 0 <= i < |log| && log[i].dev == d;
        assert log'[i].dev == d;
      } else {
        assert InReach(flags, devs, last, d);
        assert log'[|log|].dev == d;
      }
    }
  }

  /** What holds after every check of a named scan. */
  predicate OnCourse(it: Iter) {
    it.dev.Some? && Restricted(it.flags) && Covers(it.flags, it.devs, it.log, it.dev.value)
  }

  lemma StepOnCourse(env: Env, it: Iter)
    requires Ok(env, it) && !env.haveGlobal && OnCourse(it)
    ensures var (it', o) := Step(env, it);
            && it'.flags == it.flags && it'.devs == it.devs
            && (if o.Ended? then it'.log == it.log else OnCourse(it') && it'.log != [] && it'.log[0] == it.log[0])
            && (o.Ended? && it'.err != BF_NO_MORE_DEVICES ==> Blocked(it.flags, it.devs, it.dev.value))
  {
    hide IterIncr, Try, Restricted, Covers, NextOne, Blocked;
    NeverStuck(env, it);
    IncrementFrame(env, it);
    if it.err == BF_NO_MORE_DEVICES {
      Halted(env, it);
    } else {
      IncrementNext(env, it);
      var (it1, ret) := IterIncr(env, it);
      if ret == 0 {
        IncrementInReach(env, it);
        TryFrame(env, it1);
        CoversMore(it.flags, it.devs, it.log, it.dev.value, Now(it1));
      }
    }
  }

  lemma Halted(env: Env, it: Iter)
    requires Ok(env, it) && it.err == BF_NO_MORE_DEVICES
    ensures IterIncr(env, it) == (it, BF_NO_MORE_DEVICES)
  {
    hide EndOfGlobals, EndOfMethods;
  }

  lemma StartOnCourse(env: Env, s: Setup)
    requires s.Valid(env) && s.sel.Some? && !Start(env, s).1.Ended?
    ensures OnCourse(Start(env, s).0) && Start(env, s).0.log != []
  {
    hide Start, IsNamed;
    StartStays(env, s);
    StartIsNamed(env, s);
  }

  lemma {:induction false} RunOnCourse(env: Env, s: Setup, n: nat)
    requires s.Valid(env) && s.sel.Some? && !Start(env, s).1.Ended?
    ensures var (it, it0) := (Run(env, s, n).0, Start(env, s).0);
            && it.flags == it0.flags && it.devs == it0.devs && it.log != [] && it0.log != [] && it.log[0] == it0.log[0]
            && (!Run(env, s, n).1.Ended? ==> OnCourse(it))
            && (Complete(env, s, n) ==>
                  exists d :: 0 <= d && Covers(it.flags, it.devs, it.log, d) && Blocked(it.flags, it.devs, d))
  {
    hide Step, Start, Ok, Covers, Restricted, Blocked;
    StartOnCourse(env, s);
    if n > 0 {
      RunOnCourse(env, s, n - 1);
      var (was, it) := (Run(env, s, n - 1).0, Run(env, s, n).0);
      if !Run(env, s, n - 1).1.Ended? {
        StepOnCourse(env, was);
        if Complete(env, s, n) {
          assert Covers(it.flags, it.devs, it.log, was.dev.value) && Blocked(it.flags, it.devs, was.dev.value);
        }
      }
    }
  }

  /** A named scan starts with the bootdev that is named: by number, which it then
      stays with, by name or by label. */
  lemma NamedScanStarts(env: Env, s: Setup, n: nat)
    requires s.Valid(env) && s.sel.Some? && !Start(env, s).1.Ended?
    ensures var it := Run(env, s, n).0;
            && it.log != [] && 0 <= it.log[0].dev && IsNamed(it.devs, s.sel.value, it.flags, it.log[0].dev)
            && (s.sel.value.number.Some? ==> forall i :: 0 <= i < |it.log| ==> it.log[i].dev == it.log[0].dev)
  {
    hide Run, Start, Restricted;
    StartIsNamed(env, s);
    RunOnCourse(env, s, n);
    NamedScanStays(env, s, n);
  }

  lemma ReachShared(flags: Flags, devs: seq<Dev>, a: int, b: int, c: int)
    requires InReach(flags, devs, a, b)
    ensures InReach(flags, devs, a, c) <==> InReach(flags, devs, b, c)
  {
  }

  /** In reach of the first, and after it up to `d`, every bootdev probes. */
  predicate AllProbe(flags: Flags, devs: seq<Dev>, first: int, d: int) {
    forall e :: first < e <= d && InReach(flags, devs, first, e) ==> devs[e].probe == 0
  }

  lemma CoversIff(flags: Flags, devs: seq<Dev>, log: seq<Attempt>, last: nat, d: nat)
    requires Covers(flags, devs, log, last) && Blocked(flags, devs, last)
    requires InReach(flags, devs, log[0].dev, d)
    ensures TriedDev(log, d) <==> log[0].dev <= d && AllProbe(flags, devs, log[0].dev, d)
  {
    if d > last {
      ReachShared(flags, devs, log[0].dev, last, d);
      BlockedBefore(flags, devs, log[0].dev, last, d);
    }
    hide InReach;
  }

  lemma BlockedBefore(flags: Flags, devs: seq<Dev>, first: int, last: nat, d: nat)
    requires InReach(flags, devs, first, last) && first <= last < d < |devs|
    requires Blocked(flags, devs, last) && InReach(flags, devs, last, d)
    ensures !AllProbe(flags, devs, first, d)
  {
    hide InReach;
    var b :| last < b <= d && InReach(flags, devs, last, b) && devs[b].probe != 0;
    ReachShared(flags, devs, first, last, b);
  }

  /** A complete named scan tries a bootdev in reach exactly if it comes from the named
      one on in the list, and it and all in reach between them probe. */
  lemma NamedScanTries(env: Env, s: Setup, n: nat, d: nat)
    requires s.Valid(env) && s.sel.Some? && Complete(env, s, n) && Run(env, s, n).0.log != []
    requires var it := Run(env, s, n).0;
             InReach(it.flags, it.devs, it.log[0].dev, d)
    ensures var it := Run(env, s, n).0;
            TriedDev(it.log, d) <==> it.log[0].dev <= d && AllProbe(it.flags, it.devs, it.log[0].dev, d)
  {
    hide AllProbe, Run, Start, Restricted, InReach, TriedDev, Covers, Blocked;
    if Start(env, s).1.Ended? {
      EndedStartIs(env, s, n);
      EndedStartIsEmpty(env, s);
    }
    RunOnCourse(env, s, n);
    var it := Run(env, s, n).0;
    var last :| 0 <= last && Covers(it.flags, it.devs, it.log, last) && Blocked(it.flags, it.devs, last);
    CoversIff(it.flags, it.devs, it.log, last, d);
  }

  // ----- Flags, and a bad partition -----

  /** The named bootdev goes with its own flags, every other one with none. */
  predicate FlagsKept(it: Iter) {
    it.log != [] && forall i :: 0 <= i < |it.log| ==>
      it.log[i].flags == if it.log[i].dev == it.log[0].dev then it.log[0].flags else NoFlags
  }

  lemma IncrementFlags(env: Env, it: Iter)
    requires Ok(env, it) && !env.haveGlobal && Restricted(it.flags) && IterIncr(env, it).1 == 0
    ensures var it1 := IterIncr(env, it).0;
            it1.methodFlags == if it1.dev == it.dev then it.methodFlags else NoFlags
  {
    hide NextDevice;
    var it1 := it.(entry := 0);
    if !Again(env, it) && it1.curMethod + 1 >= env.Normal() && !it.flags.singlePartition
       && !(it.err != BF_NO_MORE_PARTS && it.part + 1 <= it.maxPart) {
      NextDeviceFlags(env, it1.(curMethod := 0, part := 0, maxPart := 0));
    }
  }

  lemma NextDeviceFlags(env: Env, it: Iter)
    requires BetweenDevices(env, it, true) && Restricted(it.flags) && NextDevice(env, it, true).1 == 0
    requires !env.haveGlobal
    ensures var it1 := NextDevice(env, it, true).0;
            it1.dev != it.dev && it1.methodFlags == NoFlags
  {
    hide NextLabel, NextPrio;
  }

  lemma StepFlags(env: Env, it: Iter)
    requires Ok(env, it) && !env.haveGlobal && OnCourse(it) && FlagsKept(it)
    ensures FlagsKept(Step(env, it).0)
  {
    hide IterIncr, Try, Covers, Restricted, NextOne, Blocked;
    NeverStuck(env, it);
    IncrementFrame(env, it);
    if it.err == BF_NO_MORE_DEVICES {
      Halted(env, it);
    } else {
      IncrementNext(env, it);
      var (it1, ret) := IterIncr(env, it);
      if ret == 0 {
        IncrementInReach(env, it);
        IncrementFlags(env, it);
        TryFrame(env, it1);
        FlagsMore(it, it1);
      }
    }
  }

  lemma FlagsMore(it: Iter, it1: Iter)
    requires FlagsKept(it) && OnCourse(it) && it.log[|it.log| - 1] == Now(it) && !it.doingGlobal && !it1.doingGlobal
    requires it1.log == it.log && it1.dev.Some?
    requires it1.dev == it.dev || NextOne(it.flags, it.devs, it.dev.value, it1.dev.value)
    requires it1.methodFlags == if it1.dev == it.dev then it.methodFlags else NoFlags
    ensures FlagsKept(it1.(log := it1.log + [Now(it1)]))
  {
  }

  /** In a named scan the flags of the selection go with the named bootdev only. */
  lemma {:induction false} NamedScanFlags(env: Env, s: Setup, n: nat)
    requires s.Valid(env) && s.sel.Some? && !Start(env, s).1.Ended?
    ensures FlagsKept(Run(env, s, n).0)
  {
    hide Step, Start, Ok, Covers, Restricted, Blocked, FlagsKept;
    if n == 0 {
      StartIsNamed(env, s);
      OneKept(Start(env, s).0);
    } else {
      NamedScanFlags(env, s, n - 1);
      RunOnCourse(env, s, n - 1);
      if !Run(env, s, n - 1).1.Ended? { StepFlags(env, Run(env, s, n - 1).0); }
    }
  }

  lemma OneKept(it: Iter)
    requires |it.log| == 1
    ensures FlagsKept(it)
  {
  }

  /** A partition that is not a number is refused before anything is looked at. */
  lemma BadPartitionIsRefused(env: Env, s: Setup, n: nat)
    requires s.Valid(env) && s.sel.Some? && s.sel.value.part.BadPart?
    ensures Run(env, s, n) == (Fresh(env, s), Ended)
  {
    hide Run, Step, Ok;
    EndedStartIs(env, s, n);
  }
}
