/** Small scans in which a bootdev is missed, or is used without a label's handling. */
module BootScanExamples {
  import opened Wrappers
  import opened BootScan
  import opened BootScanRuns
  import opened BootScanMeasure
  import opened BootScanLabels
  import opened BootScanCover
  import opened BootScanMissed

  const EIO: int := -5

  /** One ordinary bootmeth, which finds nothing anywhere. */
  function OneBootmeth(hunters: seq<Hunter>, labels: Option<seq<Label>>): (env: Env)
    ensures env.Valid() && NeverStops(env) && forall i :: 0 <= i < |env.order| ==> !env.order[i].multi
  {
    Env([Method(false, false, false, 0)], -1, false, hunters, labels, (n: nat) => Raw(false, 0, 0, BF_NO_MORE_PARTS))
  }

  /** A scan of these bootdevs, hunting or not. */
  function ScanOf(hunt: bool, devs: seq<Dev>): Setup {
    Setup(Flags(false, hunt, false, false, false, false), devs, {}, None)
  }

  function Disk(num: nat, probe: int): Dev { Dev("disk", num, 4, num, 1, num, probe) }

  /** A label for all bootdevs of uclass 1. */
  function WholeUclass(special: nat): Label { Label(true, 1, -1, special, {}) }

  // ----- A boot order -----

  function Disks(a: int, b: int, c: int): seq<Dev> { [Disk(0, a), Disk(1, b), Disk(2, c)] }

  function OneLabel(l: Label): Env { OneBootmeth([], Some([l])) }

  /** One label for the three disks. */
  lemma ThreeStops(special: nat, a: int, b: int, c: int)
    ensures var l := WholeUclass(special);
            BootOrder(OneLabel(l), ScanOf(false, Disks(a, b, c)))
            == [Stop(Visit(0, LabelFlags(l)), a == 0), Stop(Visit(1, UclassFlags), b == 0),
                Stop(Visit(2, UclassFlags), c == 0)]
  {
    var l, devs := WholeUclass(special), Disks(a, b, c);
    var env, s := OneLabel(l), ScanOf(false, devs);
    var it := Fresh(env, s);
    assert AllOf(devs, 1, 3) == [] && AllOf(devs, 1, 2) == [2] && AllOf(devs, 1, 1) == [1, 2];
    assert LabelDevs(devs, l) == [0, 1, 2];
    StopsFirst(devs, 0, [1, 2], LabelFlags(l));
    StopsFirst(devs, 1, [2], UclassFlags);
    StopsFirst(devs, 2, [], UclassFlags);
    assert [0] + [1, 2] == [0, 1, 2] && [1] + [2] == [1, 2] && [2] + [] == [2];
    assert LabelStops(devs, l) == [StopAt(devs, 0, LabelFlags(l)), StopAt(devs, 1, UclassFlags),
                                   StopAt(devs, 2, UclassFlags)];
    NamedAt(env, it, 0);
    assert Named(env, it, 1) == [];
  }

  /** A bootdev that does not probe ends the walk: the third one, which does, is
      named and never visited. */
  lemma ProbeFailureEndsWalk() returns (n: nat)
    ensures var env, s := OneLabel(WholeUclass(0)), ScanOf(false, Disks(0, EIO, 0));
            && s.Valid(env) && Complete(env, s, n)
            && BootOrder(env, s)[2] == Stop(Visit(2, UclassFlags), true)
            && Run(env, s, n).0.visits == [Visit(0, UclassFlags)]
  {
    var env, s := OneLabel(WholeUclass(0)), ScanOf(false, Disks(0, EIO, 0));
    n := RunCompletes(env, s);
    hide Run;
    LabelOrderVisits(env, s, n);
    ThreeStops(0, 0, EIO, 0);
    ReachedFirst(Stop(Visit(0, UclassFlags), true), BootOrder(env, s)[1..]);
  }

  /** The bootdevs of a label with special handling are all visited, the second and
      third without it. */
  lemma LaterBootdevsLoseHandling(special: nat) returns (n: nat)
    requires special != 0
    ensures var env, s := OneLabel(WholeUclass(special)), ScanOf(false, Disks(0, 0, 0));
            && s.Valid(env) && Complete(env, s, n)
            && Run(env, s, n).0.visits
               == [Visit(0, MethFlags(special, true, false)), Visit(1, UclassFlags), Visit(2, UclassFlags)]
  {
    var env, s := OneLabel(WholeUclass(special)), ScanOf(false, Disks(0, 0, 0));
    n := RunCompletes(env, s);
    hide Run;
    LabelOrderVisits(env, s, n);
    ThreeStops(special, 0, 0, 0);
    ReachedIsPart(BootOrder(env, s));
    assert Visits(BootOrder(env, s))
        == [Visit(0, MethFlags(special, true, false)), Visit(1, UclassFlags), Visit(2, UclassFlags)];
  }

  // ----- A walk by priority -----

  /** A hunter of this priority, with this result, that finds one disk, of priority 4. */
  function FindsDisk(prio: nat, result: int): Hunter { Hunter(prio, result, [Disk(0, 0)]) }

  /** A hunter of priority 5 finds a disk of priority 4: the scan ends, and the disk
      was never tried. */
  lemma LateHunterExample() returns (n: nat)
    ensures var env, s := OneBootmeth([FindsDisk(5, 0)], None), ScanOf(true, []);
            && PlainScan(env, s) && Late(env, 0, 0) && Complete(env, s, n)
            && exists d :: Due(Run(env, s, n).0, d) && !Tried(Run(env, s, n).0.log, d)
  {
    var env, s := OneBootmeth([FindsDisk(5, 0)], None), ScanOf(true, []);
    n := RunCompletes(env, s);
    hide Run;
    LateHunterLoses(env, s, n, 0, 0);
  }

  /** A pre-scan hunter fails: the disk that was there all along is not tried. */
  lemma PrescanFailureExample() returns (n: nat)
    ensures var env, s := OneBootmeth([FindsDisk(BOOTDEVP_PRE_SCAN, EIO)], None), ScanOf(true, [Disk(0, 0)]);
            && ByPriority(env, s) && Complete(env, s, n)
            && Due(Run(env, s, n).0, 0) && !Tried(Run(env, s, n).0.log, 0)
  {
    var env, s := OneBootmeth([FindsDisk(BOOTDEVP_PRE_SCAN, EIO)], None), ScanOf(true, [Disk(0, 0)]);
    n := RunCompletes(env, s);
    hide Run;
    assert !Works(env.hunters[0]);
    PrescanFailureStops(env, s, n);
    assert s.devs <= PrescanDevs(env, s);
  }
}
