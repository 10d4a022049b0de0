/** The bootflow iterator as it runs: an object whose fields the scan updates in
    place. Every operation is tied to the scan's functional description. */
module BootflowIter {
  import opened Wrappers
  import opened BootScan
  import opened BootScanRuns
  import opened BootScanMeasure
  import opened BootScanCover

  class BootflowIter {
    const env: Env

    var flags: Flags
    var dev: Option<nat>
    var part: nat
    var entry: nat
    var maxPart: nat
    var err: int
    var labelled: bool
    var curLabel: int
    var curMethod: nat
    var curPrio: nat
    var doingGlobal: bool
    var methodFlags: MethFlags
    var done: set<nat>
    var pending: Option<Pending>
    var checks: nat

    // kept by the driver model, not by the iterator
    var devs: seq<Dev>
    var hunted: set<nat>

    ghost var visits: seq<Visit>
    ghost var log: seq<Attempt>

    ghost function State(): Iter
      reads this
    {
      Iter(flags, dev, part, entry, maxPart, err, labelled, curLabel, curMethod, curPrio, doingGlobal,
           methodFlags, done, pending, devs, hunted, visits, log)
    }

    constructor (env: Env, s: Setup)
      requires env.Valid()
      ensures this.env == env && State() == Fresh(env, s) && checks == 0
    {
      this.env := env;
      flags, dev, part, entry, maxPart, err := s.flags, None, 0, 0, 0, 0;
      labelled, curLabel, curPrio := false, 0, 0;
      curMethod := if env.haveGlobal then env.firstGlob else 0;
      doingGlobal := env.haveGlobal;
      methodFlags, done, pending, checks := NoFlags, {}, None, 0;
      devs, hunted, visits, log := s.devs, s.hunted, [], [];
    }

    // ----- Hunting -----

    method HuntDrv(h: nat) returns (ret: int)
      requires h < |env.hunters|
      modifies this`devs, this`hunted
      ensures (State(), ret) == HuntOne(env, old(State()), h)
    {
      if h !in hunted {
        ret := env.hunters[h].result;
        if ret != 0 && ret != ENOENT { return; }
        if ret == 0 { devs := devs + env.hunters[h].finds; }
        hunted := hunted + {h};
      }
      ret := 0;
    }

    method HuntWhere(p: nat -> bool) returns (result: int)
      modifies this`devs, this`hunted
      ensures (State(), result) == HuntFrom(env, old(State()), p, 0, 0)
    {
      result := 0;
      for h := 0 to |env.hunters|
        invariant HuntFrom(env, old(State()), p, 0, 0) == HuntFrom(env, State(), p, h, result)
      {
        if p(h) {
          var ret := HuntDrv(h);
          if ret != 0 { result := ret; }
        }
      }
    }

    // ----- Choosing a bootdev -----

    /** Go down one priority and hunt for bootdevs there. */
    method LowerPriority()
      modifies this`curPrio, this`devs, this`hunted
      ensures State() == LowerPrio(env, old(State()))
    {
      hide HuntPrio;
      curPrio := curPrio + 1;
      if curPrio < BOOTDEVP_COUNT && flags.hunt {
        var ret := HuntPriority(curPrio);
      }
    }

    /** From the bootdev after `at` (the first one if there is none) on. */
    method NextByPrio(at: Option<nat>) returns (ret: int, d: nat)
      requires curPrio < BOOTDEVP_COUNT && (at.Some? ==> at.value < |devs|)
      modifies this`curPrio, this`devs, this`hunted
      ensures Choice(State(), ret, d, NoFlags)
              == NextPrio(env, old(State()), if at.Some? then at.value + 1 else 0)
    {
      hide NextPrio, LowerPrio, DevAtPrio;
      ghost var start: nat := if at.Some? then at.value + 1 else 0;
      var i: nat := if at.Some? then at.value + 1 else 0;
      while true
        invariant curPrio < BOOTDEVP_COUNT && i <= |devs|
        invariant NextPrio(env, old(State()), start) == NextPrio(env, State(), i)
        decreases BOOTDEVP_COUNT - curPrio, |devs| - i
      {
        NextPrioCases(env, State(), i);
        var j := FindAtPrio(i);
        if j == |devs| {
          LowerPriority();
          if curPrio == BOOTDEVP_COUNT { return ENODEV, 0; }
          i := 0;
        } else if devs[j].probe != 0 {
          i := j + 1;
        } else {
          return 0, j;
        }
      }
    }

    method FindAtPrio(i: nat) returns (j: nat)
      requires i <= |devs|
      ensures j == DevAtPrio(devs, curPrio, i)
    {
      j := i;
      while j < |devs| && devs[j].prio != curPrio
        invariant i <= j <= |devs| && DevAtPrio(devs, curPrio, i) == DevAtPrio(devs, curPrio, j)
      {
        j := j + 1;
      }
    }

    method HuntPriority(prio: nat) returns (ret: int)
      modifies this`devs, this`hunted
      ensures (State(), ret) == HuntPrio(env, old(State()), prio)
    {
      ret := HuntWhere(AtPrio(env, prio));
    }

    method FindForLabel(l: Label) returns (j: nat)
      ensures j == DevForLabel(devs, l, 0)
      ensures j < |devs| ==> devs[j].uclass == l.uclass && (l.seqno != -1 ==> devs[j].seqno == l.seqno)
      ensures forall k :: 0 <= k < j && devs[k].uclass == l.uclass ==> l.seqno != -1 && devs[k].seqno != l.seqno
    {
      j := 0;
      while j < |devs| && !(devs[j].uclass == l.uclass && (l.seqno == -1 || devs[j].seqno == l.seqno))
        invariant j <= |devs| && DevForLabel(devs, l, 0) == DevForLabel(devs, l, j)
        invariant forall k :: 0 <= k < j && devs[k].uclass == l.uclass ==> l.seqno != -1 && devs[k].seqno != l.seqno
      {
        j := j + 1;
      }
    }

    method NextByLabel() returns (ret: int, d: nat, mf: MethFlags)
      requires env.labels.Some? && -1 <= curLabel <= |env.labels.value|
      modifies this`curLabel, this`devs, this`hunted
      ensures Choice(State(), ret, d, mf) == NextLabel(env, old(State()))
    {
      hide HuntFrom, DevForLabel;
      var labels := env.labels.value;
      if curLabel == |labels| { return ENODEV, 0, NoFlags; }
      while true
        invariant -1 <= curLabel < |labels|
        invariant NextLabel(env, old(State())) == NextLabel(env, State())
        decreases |labels| - curLabel
      {
        curLabel := curLabel + 1;
        if curLabel == |labels| { return ENODEV, 0, NoFlags; }
        var l := labels[curLabel];
        var hret := HuntWhere(Matching(l));
        var j := FindForLabel(l);
        if hret == 0 && l.known && j < |devs| {
          return 0, j, MethFlags(l.special, l.seqno == -1, false);
        }
      }
    }

    method NextWhere(p: Dev -> bool, i: nat) returns (j: nat)
      requires i <= |devs|
      ensures j == NextSuch(devs, p, i)
    {
      j := i;
      while j < |devs| && !p(devs[j])
        invariant i <= j <= |devs| && NextSuch(devs, p, i) == NextSuch(devs, p, j)
      {
        j := j + 1;
      }
    }

    method SetupWalk() returns (ret: int, d: nat, mf: MethFlags)
      requires curPrio < BOOTDEVP_COUNT
      modifies this`curPrio, this`labelled, this`curLabel, this`devs, this`hunted
      ensures Choice(State(), ret, d, mf) == SetupIter(env, old(State()))
    {
      hide HuntPrio, NextLabel, NextPrio;
      d, mf := 0, NoFlags;
      if flags.hunt {
        ret := HuntPriority(BOOTDEVP_PRE_SCAN);
        if ret != 0 { return; }
      }
      if env.labels.Some? {
        labelled, curLabel := true, -1;
        ret, d, mf := NextByLabel();
      } else {
        ret, d := NextByPrio(None);
      }
      if ret != 0 { return ENOENT, d, mf; }
      if devs[d].probe != 0 { return devs[d].probe, d, mf; }
    }

    // ----- Global bootmeths and bootdevs -----

    method NextGlobBootmeth() returns (found: bool)
      requires env.Valid()
      modifies this`curMethod, this`doingGlobal, this`dev
      ensures var j := NextGlob(env, old(State()));
              && found == (j < |env.order|)
              && State() == if found then DoGlob(old(State()), j) else old(State())
    {
      found := false;
      if env.haveGlobal {
        var i := env.firstGlob;
        while i < |env.order|
          invariant env.firstGlob <= i <= |env.order|
          invariant State() == old(State())
          invariant NextGlob(env, State()) == FirstAllowed(env, State(), i)
        {
          if i !in done && env.order[i].globPrio <= curPrio {
            curMethod, doingGlobal, dev := i, true, None;
            return true;
          }
          i := i + 1;
        }
      }
    }

    method SetBootdev(d: Option<nat>, mf: MethFlags)
      modifies this`dev, this`methodFlags, this`visits
      ensures State() == SetDev(old(State()), d, mf)
    {
      dev, methodFlags := d, mf;
      if d.Some? { visits := visits + [Visit(d.value, mf)]; }
    }

    method Prepare(d: nat, mf: MethFlags, checkGlobal: bool) returns (ret: int)
      requires env.Valid() && d < |devs|
      modifies this`curMethod, this`doingGlobal, this`dev, this`pending, this`methodFlags, this`visits
      ensures (State(), ret) == PrepareBootdev(env, old(State()), d, mf, checkGlobal)
    {
      hide NextGlob;
      if checkGlobal {
        var found := NextGlobBootmeth();
        if found {
          pending := Some(Pending(d, mf));
          return 0;
        }
      }
      ret := devs[d].probe;
      if ret != 0 { return; }
      SetBootdev(Some(d), mf);
    }

    // ----- The increment -----

    /** The bootdev after the current one. */
    method SelectNext() returns (ret: int, d: nat, mf: MethFlags)
      requires env.Valid() && curPrio < BOOTDEVP_COUNT && dev.Some? && dev.value < |devs|
      requires labelled ==> env.labels.Some? && -1 <= curLabel <= |env.labels.value|
      modifies this`curPrio, this`curLabel, this`devs, this`hunted
      ensures Choice(State(), ret, d, mf) == SelectDev(env, old(State()), true)
    {
      hide NextLabel, NextPrio, NextSuch, SameUclass, SameMedia;
      if flags.singleUclass {
        d := NextWhere(SameUclass(devs[dev.value]), dev.value + 1);
        ret, mf := if d < |devs| then 0 else ENODEV, NoFlags;
      } else if flags.singleMedia {
        d := NextWhere(SameMedia(devs[dev.value]), dev.value + 1);
        ret, mf := if d < |devs| then 0 else ENODEV, NoFlags;
      } else if labelled {
        if methodFlags.singleUclass {
          d := NextWhere(SameUclass(devs[dev.value]), dev.value + 1);
          if d < |devs| { return 0, d, UclassFlags; }
        }
        ret, d, mf := NextByLabel();
      } else {
        mf := NoFlags;
        ret, d := NextByPrio(dev);
        assert Choice(State(), ret, d, mf) == NextPrio(env, old(State()), old(dev).value + 1);
      }
    }

    method Select(incDev: bool) returns (ret: int, d: nat, mf: MethFlags)
      requires env.Valid() && curPrio < BOOTDEVP_COUNT
      requires incDev ==> dev.Some? && dev.value < |devs|
      requires labelled ==> env.labels.Some? && -1 <= curLabel <= |env.labels.value|
      modifies this`curPrio, this`labelled, this`curLabel, this`devs, this`hunted
      ensures Choice(State(), ret, d, mf) == SelectDev(env, old(State()), incDev)
    {
      hide SetupIter, NextLabel, NextPrio, NextSuch;
      if !incDev {
        ret, d, mf := SetupWalk();
      } else {
        ret, d, mf := SelectNext();
      }
    }

    /** Use the bootdev that was chosen, if one was. */
    method Use(ret0: int, d: nat, mf: MethFlags) returns (ret: int)
      requires env.Valid() && (ret0 == 0 ==> d < |devs|)
      modifies this`curMethod, this`doingGlobal, this`dev, this`pending, this`methodFlags, this`visits
      ensures (State(), ret) == UseChoice(env, Choice(old(State()), ret0, d, mf))
    {
      hide PrepareBootdev;
      ret := ret0;
      if ret != 0 {
        SetBootdev(None, NoFlags);
      } else {
        ret := Prepare(d, mf, true);
      }
    }

    /** No more bootdevs: try global bootmeths of any priority. */
    method TryLastGlobals() returns (ret: int)
      requires env.Valid()
      modifies this`curPrio, this`curMethod, this`doingGlobal, this`dev
      ensures (State(), ret) == LastGlobals(env, old(State()))
    {
      hide NextGlob;
      curPrio := BOOTDEVP_COUNT;
      var found := NextGlobBootmeth();
      ret := if found then 0 else BF_NO_MORE_DEVICES;
    }

    method NextBootdev(incDev: bool) returns (ret: int)
      requires env.Valid() && curPrio < BOOTDEVP_COUNT && curMethod == 0
      requires incDev ==> dev.Some? && dev.value < |devs|
      requires labelled ==> env.labels.Some? && -1 <= curLabel <= |env.labels.value|
      modifies this
      ensures (State(), ret) == NextDevice(env, old(State()), incDev) && checks == old(checks) && log == old(log)
    {
      hide SelectDev, UseChoice, LastGlobals;
      if flags.singleDev {
        ret := ENOENT;
      } else {
        var d, mf;
        ret, d, mf := Select(incDev);
        ret := Use(ret, d, mf);
      }
      if ret != 0 { ret := TryLastGlobals(); }
    }

    method AfterMethods(incDev: bool) returns (ret: int)
      requires env.Valid() && curPrio < BOOTDEVP_COUNT
      requires incDev ==> dev.Some? && dev.value < |devs|
      requires labelled ==> env.labels.Some? && -1 <= curLabel <= |env.labels.value|
      modifies this
      ensures (State(), ret) == EndOfMethods(env, old(State()), incDev) && checks == old(checks) && log == old(log)
      ensures old(!flags.singlePartition && err != ESHUTDOWN && part + 1 <= maxPart) ==>
                ret == 0 && State() == old(State()).(curMethod := 0, part := old(part) + 1)
    {
      hide NextDevice;
      if flags.singlePartition { return BF_NO_MORE_DEVICES; }
      curMethod := 0;
      if err != BF_NO_MORE_PARTS {
        part := part + 1;
        if part <= maxPart { return 0; }
      }
      part := 0;
      maxPart := 0;
      ret := NextBootdev(incDev);
    }

    method AfterGlobals() returns (ret: int)
      requires env.Valid() && curPrio <= BOOTDEVP_COUNT
      requires pending.Some? ==> pending.value.dev < |devs|
      requires labelled ==> env.labels.Some? && -1 <= curLabel <= |env.labels.value|
      modifies this
      ensures (State(), ret) == EndOfGlobals(env, old(State())) && checks == old(checks) && log == old(log)
    {
      hide EndOfMethods, PrepareBootdev;
      doingGlobal := false;
      if pending.Some? {
        var p := pending.value;
        pending := None;
        ret := Prepare(p.dev, p.flags, false);
        if ret != 0 { return; }
        curMethod := 0;
        return 0;
      }
      if curPrio == BOOTDEVP_COUNT { return BF_NO_MORE_DEVICES; }
      ret := AfterMethods(false);
    }

    /** The next bootmeth of the kind being worked on, if there is one. */
    method NextMethod() returns (found: bool)
      requires env.Valid() && curMethod < |env.order|
      modifies this`curMethod
      ensures var it := old(State());
              var j := if it.doingGlobal then FirstAllowed(env, it, it.curMethod + 1) else it.curMethod + 1;
              && State() == it.(curMethod := j)
              && found == (j < if it.doingGlobal then |env.order| else env.Normal())
    {
      hide FirstAllowed;
      found := false;
      ghost var it := State();
      curMethod := curMethod + 1;
      while curMethod < |env.order|
        invariant curMethod <= |env.order| && State() == it.(curMethod := curMethod)
        invariant if doingGlobal then FirstAllowed(env, it, it.curMethod + 1) == FirstAllowed(env, it, curMethod)
                  else curMethod == it.curMethod + 1
      {
        if doingGlobal {
          if !(curMethod !in done && env.order[curMethod].globPrio <= curPrio) {
            curMethod := curMethod + 1;
            continue;
          }
          return true;
        }
        if env.haveGlobal && curMethod >= env.firstGlob { break; }
        return true;
      }
    }

    method Increment() returns (ret: int)
      requires Ready(env, State())
      modifies this
      ensures (State(), ret) == IterIncr(env, old(State())) && checks == old(checks) && log == old(log)
    {
      hide EndOfMethods, EndOfGlobals, FirstAllowed;
      var global := doingGlobal;
      if err == BF_NO_MORE_DEVICES { return BF_NO_MORE_DEVICES; }
      if err == 0 && env.order[curMethod].multi {
        entry := entry + 1;
        return 0;
      }
      entry := 0;
      var found := NextMethod();
      if found { return 0; }
      if global {
        ret := AfterGlobals();
      } else {
        ret := AfterMethods(true);
      }
    }

    // ----- Checking -----

    /** Ask a block device; this is where the number of partitions is bounded. */
    method AskBlk(raw: Raw, anyPart: bool) returns (ret: int)
      modifies this`maxPart
      ensures (ret, maxPart) == FindInBlk(part, old(maxPart), anyPart, raw)
    {
      if part >= MAX_PART_PER_BOOTDEV { return ESHUTDOWN; }
      ret := raw.check;
      if ret != 0 { return; }
      ret := raw.partInfo;
      if part == 0 && ret == ENOENT { ret := 0; }
      if ret == EOPNOTSUPP { ret := ESHUTDOWN; }
      if ret != 0 && !anyPart {
        if part == 1 {
          maxPart := 3;
          ret := ENOENT;
        }
        return;
      }
      maxPart := MAX_PART_PER_BOOTDEV;
      ret := raw.body;
    }

    /** Ask a bootdev, which for a block device depends on the partition. */
    method GetFlow(raw: Raw, anyPart: bool) returns (ret: int)
      modifies this`maxPart
      ensures (ret, maxPart) == GetBootflow(part, old(maxPart), anyPart, raw)
    {
      hide FindInBlk;
      if raw.blk {
        ret := AskBlk(raw, anyPart);
      } else {
        ret := raw.body;
      }
    }

    /** Mark the current bootmeth as used and take note of the attempt. */
    method Record() returns (raw: Raw)
      requires checks == |log|
      modifies this`done, this`checks, this`log
      ensures raw == env.raw(old(checks)) && checks == |log|
      ensures var it := old(State());
              State() == it.(done := it.done + {it.curMethod}, log := it.log + [Now(it)])
    {
      log := log + [Now(State())];
      done := done + {curMethod};
      raw := env.raw(checks);
      checks := checks + 1;
    }

    /** Check for a bootflow. */
    method CheckNow() returns (ret: int)
      requires curMethod < |env.order| && checks == |log|
      modifies this`done, this`checks, this`log, this`dev, this`methodFlags, this`visits, this`maxPart
      ensures (State(), ret) == Check(env, old(State())) && checks == |log|
    {
      hide GetBootflow;
      var raw := Record();
      if doingGlobal {
        SetBootdev(None, NoFlags);
        return raw.body;
      }
      ret := GetFlow(raw, env.order[curMethod].anyPart);
    }

    // ----- Scanning -----

    /** Check, remember the result, and decide whether to return it. */
    method TryNow() returns (ret: int, stop: bool)
      requires curMethod < |env.order| && checks == |log|
      modifies this
      ensures State() == Try(env, old(State())).0 && checks == |log|
      ensures stop == !Try(env, old(State())).1.Going?
      ensures stop ==> ret == Code(Try(env, old(State())).1)
    {
      hide Check;
      ret := CheckNow();
      err := ret;
      stop := ret == 0 || (ret != BF_NO_MORE_PARTS && ret != ENOSYS && flags.all);
    }

    /** One pass of the scan loop. */
    method Pass() returns (ret: int, stop: bool)
      requires Ready(env, State()) && checks == |log|
      modifies this
      ensures State() == Step(env, old(State())).0 && checks == |log|
      ensures stop == !Step(env, old(State())).1.Going?
      ensures stop ==> ret == Code(Step(env, old(State())).1)
    {
      hide IterIncr, Try;
      ret := Increment();
      if ret == BF_NO_MORE_DEVICES { return ret, true; }
      if ret == 0 {
        ret, stop := TryNow();
      } else {
        err := ret;
        stop := false;
      }
    }

    method ScanNext() returns (ret: int)
      requires Ok(env, State()) && checks == |log|
      modifies this
      ensures State() == ScanCall(env, old(State())).0 && ret == Code(ScanCall(env, old(State())).1)
      ensures checks == |log|
    {
      hide Step, ScanCall;
      var stop := false;
      while true
        invariant Ok(env, State()) && checks == |log|
        invariant ScanCall(env, old(State())) == ScanCall(env, State())
        decreases Undone(env, done), Opening(State()), PrioLeft(State()), LabelsLeft(env, State()),
                  DevsLeft(State()), InGlobals(State()), PartsLeft(State()), MethodsLeft(env, State()),
                  Succeeded(State())
      {
        hide Undone, Opening, PrioLeft, LabelsLeft, DevsLeft, InGlobals, PartsLeft, MethodsLeft, Succeeded;
        CallUnfolds(env, State());
        ret, stop := Pass();
        if stop { return; }
      }
    }

    /** Find a bootdev by its number, its name or a label. */
    method FindAny(x: Selector) returns (ret: int, d: nat, mf: MethFlags)
      ensures Choice(State(), ret, d, mf) == FindByAny(State(), x)
    {
      if x.number.Some? {
        d := NextWhere(WithNumber(x.number.value), 0);
        ret := if d < |devs| then devs[d].probe else ENODEV;
        return ret, d, MethFlags(0, false, true);
      }
      d := NextWhere(WithName(x.name), 0);
      ret := if d < |devs| then devs[d].probe else ENODEV;
      if ret != ENODEV { return ret, d, NoFlags; }
      if !x.asLabel.known { return EPFNOSUPPORT, 0, NoFlags; }
      d := FindForLabel(x.asLabel);
      if d == |devs| { return ENOENT, 0, NoFlags; }
      ret, mf := devs[d].probe, MethFlags(x.asLabel.special, x.asLabel.seqno == -1, false);
    }

    /** Pre-scan hunters, then those for a name. */
    method HuntNamed(l: Label) returns (ret: int)
      modifies this`devs, this`hunted
      ensures var (it1, ret1) := Prescan(env, old(State()));
              (State(), ret)
              == if it1.flags.hunt && ret1 == 0 then HuntFrom(env, it1, Matching(l), 0, 0) else (it1, ret1)
    {
      hide HuntPrio, HuntFrom;
      ret := 0;
      if flags.hunt {
        ret := HuntPriority(BOOTDEVP_PRE_SCAN);
        if ret != 0 { return; }
        ret := HuntWhere(Matching(l));
      }
    }

    /** Go to the bootdev the caller names. */
    method SelectByName(x: Selector) returns (ret: int, d: nat, mf: MethFlags)
      modifies this`flags, this`part, this`devs, this`hunted
      ensures Choice(State(), ret, d, mf) == SelectNamed(env, old(State()), x)
    {
      hide Prescan, HuntFrom, FindByAny;
      d, mf := 0, NoFlags;
      if x.part.BadPart? { return EINVAL, d, mf; }
      if x.part.OnePart? {
        flags := flags.(singlePartition := true);
        part := x.part.num;
      }
      ret := HuntNamed(x.asLabel);
      if ret != 0 { return; }
      ret, d, mf := FindAny(x);
      if ret != 0 { return; }
      if mf.singleUclass {
        flags := flags.(singleUclass := true);
      } else if mf.singleDev {
        flags := flags.(singleDev := true);
      } else {
        flags := flags.(singleMedia := true);
      }
    }

    /** The bootdev to start with: the one the caller named, or the first of the walk. */
    method SelectFirst(sel: Option<Selector>) returns (ret: int, d: nat, mf: MethFlags)
      requires curPrio < BOOTDEVP_COUNT
      modifies this`flags, this`part, this`curPrio, this`labelled, this`curLabel, this`devs, this`hunted
      ensures Choice(State(), ret, d, mf) == FirstDev(env, old(State()), sel)
    {
      hide SetupIter, SelectNamed;
      if sel.None? {
        ret, d, mf := SetupWalk();
      } else {
        ret, d, mf := SelectByName(sel.value);
      }
    }

    /** Start a scan: the first check, and if that gives nothing, the next call. */
    method ScanFirst(s: Setup) returns (ret: int)
      requires s.Valid(env) && State() == Fresh(env, s) && checks == 0
      modifies this
      ensures State() == FirstCall(env, s).0 && ret == Code(FirstCall(env, s).1)
      ensures checks == |log|
    {
      hide FirstDev, Try, ScanCall, Ok;
      if !doingGlobal {
        var d, mf;
        ret, d, mf := SelectFirst(s.sel);
        if ret != 0 { return ENODEV; }
        SetBootdev(Some(d), mf);
      }
      ghost var it := State();
      TryFrame(env, it);
      var stop;
      ret, stop := TryNow();
      assert (State(), Try(env, it).1) == Start(env, s);
      StartUnfolds(env, s);
      if !stop { ret := ScanNext(); }
    }
  }

  lemma CallUnfolds(env: Env, it: Iter)
    requires Ok(env, it)
    ensures var (it1, o) := Step(env, it);
            && (!o.Ended? ==> Ok(env, it1))
            && ScanCall(env, it) == (if o.Going? then ScanCall(env, it1) else (it1, o))
            && (o.Going? ==> LessToDo(env, it1, it))
  {
    hide Step, LessToDo;
    if !Step(env, it).1.Ended? { StepKeepsOk(env, it); }
    if Step(env, it).1.Going? { PassLess(env, it); }
  }

  lemma StartUnfolds(env: Env, s: Setup)
    requires s.Valid(env) && !Start(env, s).1.Ended?
    ensures var (it, o) := Start(env, s);
            Ok(env, it) && FirstCall(env, s) == (if o.Going? then ScanCall(env, it) else (it, o))
  {
    hide Start;
    StartOk(env, s);
  }

  /** The return value for each way a call can end. */
  function Code(o: Outcome): int {
    match o
    case Found => 0
    case Reported(ret) => ret
    case Ended => BF_NO_MORE_DEVICES
    case Going => 0
  }
}
