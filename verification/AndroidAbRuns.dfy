/** What repeated calls of the A/B slot selector promise: crash safety of the
    two metadata copies, the exact length of a rollback, round robin. */
module AndroidAbRuns {
  import opened AndroidAb

  // ----- One call -----

  /** The copies lie in the partition, on block boundaries; otherwise every call
      stops at its first read. */
  ghost predicate Placed(cfg: Config)
    requires cfg.Valid()
  {
    cfg.ReadRet(CleanIo) == 0
  }

  /** The state every finished call leaves: a valid primary, and a backup
      (where one is configured) that is identical to it. */
  ghost predicate Settled(cfg: Config, d: Disk) {
    cfg.Intact(d.primary) && (cfg.HasBackup() ==> d.backup == d.primary)
  }

  /** The call got past its reads and header checks, and no write it made failed. */
  ghost predicate Completes(cfg: Config, d: Disk, decTries: bool, io: Io)
    requires cfg.Valid()
  {
    && cfg.ReadRet(io) == 0
    && Supported(Loaded(cfg, d))
    && CallResult(cfg, d, decTries, io) != EIO
  }

  lemma CompletedCallSettles(cfg: Config, d: Disk, decTries: bool, io: Io)
    requires cfg.Valid() && Completes(cfg, d, decTries, io)
    ensures Settled(cfg, CallDisk(cfg, d, decTries, io))
    ensures Loaded(cfg, CallDisk(cfg, d, decTries, io)) == Advance(Loaded(cfg, d), decTries)
    ensures Supported(Loaded(cfg, CallDisk(cfg, d, decTries, io)))
  {
  }

  /** Choosing again without an outside change gives the same slot, whether or
      not the first choice had to repair the metadata first: the slot whose
      partitions are scanned is the slot whose try is then spent. */
  lemma ScannedSlotIsBootedSlot(cfg: Config, d: Disk, io: Io, io': Io)
    requires cfg.Valid() && Completes(cfg, d, false, io)
    requires Completes(cfg, CallDisk(cfg, d, false, io), true, io')
    ensures CallResult(cfg, CallDisk(cfg, d, false, io), true, io') == CallResult(cfg, d, false, io)
  {
    CompletedCallSettles(cfg, d, false, io);
    var c, c' := Loaded(cfg, d), Loaded(cfg, CallDisk(cfg, d, false, io));
    assert c'.slots == c.slots && Slots(c') == Slots(c);
  }

  /** A call is refused with -ENODATA, and then leaves both copies alone, exactly when
      the table in force has the wrong magic number or a version it does not know. */
  lemma UnsupportedIsRefused(cfg: Config, d: Disk, decTries: bool, io: Io)
    requires cfg.Valid() && cfg.ReadRet(io) == 0
    ensures var c := Loaded(cfg, d);
            CallResult(cfg, d, decTries, io) == -61 <==> c.magic != 0x42414342 || c.version > 1
    ensures CallResult(cfg, d, decTries, io) == -61 ==> CallDisk(cfg, d, decTries, io) == d
  {
  }

  /** In bytes: the record of the message at `offset` lies in the partition, on a block
      boundary. */
  predicate InPartition(geo: Geometry, offset: nat)
    requires geo.blksz > 0
  {
    (offset + 2048) % geo.blksz == 0 && offset + 2048 + 32 <= geo.blocks * geo.blksz
  }

  /** A count of blocks that covers `n` bytes from a block boundary fits in the partition
      exactly when the bytes do. */
  lemma BlocksCover(b: int, at: int, n: int, q: int, blocks: int)
    requires b > 0 && n > 0 && (n - 1) < b * q && b * (q - 1) < n
    ensures at + q <= blocks <==> at * b + n <= blocks * b
  {
    if at + q <= blocks { Ordered(b, at + q, blocks); } else { Ordered(b, blocks, at + q - 1); }
    assert b * (at + q) == at * b + b * q && b * (at + q - 1) == at * b + b * (q - 1);
  }

  lemma Ordered(b: int, x: int, y: int)
    requires b > 0 && x <= y
    ensures b * x <= b * y
  {
  }

  lemma RoundedUp(b: int, n: int)
    requires b > 0 && n > 0
    ensures var q := (n + b - 1) / b;
            n - 1 < b * q && b * (q - 1) < n
  {
    var q := (n + b - 1) / b;
    assert n + b - 1 == b * q + (n + b - 1) % b;
    assert b * (q - 1) == b * q - b;
  }

  lemma ReadRetIs(geo: Geometry, offset: nat, ok: bool)
    requires geo.blksz > 0
    ensures geo.ReadRet(offset, ok) == if !InPartition(geo, offset) then EINVAL else if !ok then EIO else 0
  {
    var (b, x) := (geo.blksz, offset + 2048);
    if x % b == 0 {
      RoundedUp(b, 32);
      BlocksCover(b, x / b, 32, (32 + b - 1) / b, geo.blocks);
      assert x == (x / b) * b;
    }
  }

  /** A call whose reads do not work leaves both copies alone: -EINVAL for a copy that is
      not in the partition, -EIO for one that cannot be read, the primary's error first. */
  lemma FailedReadIsReported(cfg: Config, d: Disk, decTries: bool, io: Io)
    requires cfg.Valid()
    ensures var (r, d') := (CallResult(cfg, d, decTries, io), CallDisk(cfg, d, decTries, io));
            if !InPartition(cfg.geo, 0) then r == EINVAL && d' == d
            else if !io.readPrimary then r == EIO && d' == d
            else if cfg.geo.backupOffset != 0 && !InPartition(cfg.geo, cfg.geo.backupOffset) then
              r == EINVAL && d' == d
            else if cfg.geo.backupOffset != 0 && !io.readBackup then r == EIO && d' == d
            else cfg.ReadRet(io) == 0
  {
    ReadRetIs(cfg.geo, 0, io.readPrimary);
    ReadRetIs(cfg.geo, cfg.geo.backupOffset, io.readBackup);
    hide InPartition, Loaded, Advance, StoreNeeded;
  }

  /** The slot a call returns is the one the stored suffix names. */
  lemma SuffixNamesSlot(cfg: Config, d: Disk, decTries: bool, io: Io)
    requires cfg.Valid() && CallResult(cfg, d, decTries, io) >= 0
    ensures var slot := CallResult(cfg, d, decTries, io);
            var suffix := Loaded(cfg, CallDisk(cfg, d, decTries, io)).suffix;
            slot < 4 && suffix == ["_a\0\0", "_b\0\0", "_c\0\0", "_d\0\0"][slot]
  {
    CompletedCallSettles(cfg, d, decTries, io);
  }

  /** Which table a finished call chooses from: the primary's if it is intact, else the
      backup's, else a new one with all slots at the highest priority and seven tries. */
  lemma CallChooses(cfg: Config, d: Disk, decTries: bool, io: Io)
    requires cfg.Valid() && Completes(cfg, d, decTries, io)
    ensures var r := CallResult(cfg, d, decTries, io);
            var p := if r < 0 then -1 else r;
            && (r < 0 ==> r == EINVAL)
            && (cfg.Intact(d.primary) ==> IsPick(d.primary.control.slots, Slots(d.primary.control), p))
            && (!cfg.Intact(d.primary) && cfg.HasBackup() && cfg.Intact(d.backup) ==>
                  IsPick(d.backup.control.slots, Slots(d.backup.control), p))
            && (!cfg.Intact(d.primary) && !(cfg.HasBackup() && cfg.Intact(d.backup)) ==>
                  && r == 0
                  && var c := Loaded(cfg, CallDisk(cfg, d, decTries, io));
                     && c.nbSlot == cfg.numSlots && c.recoveryTries == d.primary.control.recoveryTries
                     && (forall i :: 0 <= i < 4 ==>
                           c.slots[i] == if i < cfg.numSlots then
                                           Slot(15, if i == 0 && decTries then 6 else 7, false, false, 0)
                                         else d.primary.control.slots[i])
                     && (forall x :: x in c.reserved0 + c.reserved1 ==> x == 0))
    ensures var (c, c') := (Loaded(cfg, d), Loaded(cfg, CallDisk(cfg, d, decTries, io)));
            c'.nbSlot == if c.nbSlot > 4 then 4 else c.nbSlot
  {
    hide CallDisk;
    CompletedCallSettles(cfg, d, decTries, io);
    ResultIsChoice(cfg, d, decTries, io);
    if !cfg.Intact(d.primary) && !(cfg.HasBackup() && cfg.Intact(d.backup)) { DefaultPick(cfg, d.primary.control); }
  }

  lemma ResultIsChoice(cfg: Config, d: Disk, decTries: bool, io: Io)
    requires cfg.Valid() && Completes(cfg, d, decTries, io)
    ensures var (r, p) := (CallResult(cfg, d, decTries, io), Selected(Loaded(cfg, d)));
            if p < 0 then r == EINVAL else r == p
  {
  }

  lemma DefaultPick(cfg: Config, damaged: Control)
    requires cfg.Valid()
    ensures Selected(DefaultControl(cfg, damaged)) == 0
  {
    var c := DefaultControl(cfg, damaged);
    assert IsPick(c.slots, Slots(c), 0);
    PickUnique(c.slots, Slots(c), 0, Selected(c));
  }

  // ----- Power cuts -----

  /** An interrupted write leaves the old block, the new block, or a torn one
      whose checksum does not match. */
  ghost predicate PlausibleWrite(cfg: Config, was: Record, intended: Record, w: Write) {
    w.Completed? || w.left == was || w.left == intended || !cfg.Intact(w.left)
  }

  ghost predicate Plausible(cfg: Config, d: Disk, decTries: bool, io: Io)
    requires cfg.Valid()
  {
    var intended := cfg.Seal(Advance(Loaded(cfg, d), decTries));
    PlausibleWrite(cfg, d.primary, intended, io.writePrimary)
    && PlausibleWrite(cfg, d.backup, intended, io.writeBackup)
  }

  /** Wherever the power fails during this call, the next one works from exactly
      the old or the new metadata. */
  ghost predicate SurvivesAnyCut(cfg: Config, d: Disk, decTries: bool)
    requires cfg.Valid()
  {
    forall io :: Plausible(cfg, d, decTries, io) ==>
      Loaded(cfg, CallDisk(cfg, d, decTries, io))
        in {Loaded(cfg, d), Advance(Loaded(cfg, d), decTries)}
  }

  /** The call starts with a good fallback: a valid backup holding the old or
      the new metadata. */
  ghost predicate BackupReady(cfg: Config, d: Disk, decTries: bool)
    requires cfg.Valid()
  {
    cfg.HasBackup() && cfg.Intact(d.backup)
    && d.backup.control in {Loaded(cfg, d), Advance(Loaded(cfg, d), decTries)}
  }

  /** A table no re-initialisation agrees with: the recovery counter differs. */
  function TornRecord(cfg: Config, c: Control): Record {
    var c' := c.(recoveryTries := if c.recoveryTries == 0 then 1 else 0);
    Record(c', cfg.crc(c') + 1)
  }

  lemma TornPrimaryIsLost(cfg: Config, d: Disk, decTries: bool)
    requires cfg.Valid() && Placed(cfg) && Supported(Loaded(cfg, d))
    requires StoreNeeded(cfg, d, decTries) && !BackupReady(cfg, d, decTries)
    ensures !SurvivesAnyCut(cfg, d, decTries)
  {
    var torn := TornRecord(cfg, Loaded(cfg, d));
    var io := Io(true, true, Interrupted(torn), Completed);
    assert Plausible(cfg, d, decTries, io);
    var next := Loaded(cfg, CallDisk(cfg, d, decTries, io));
    if !(cfg.HasBackup() && cfg.Intact(d.backup)) {
      assert next.recoveryTries == torn.control.recoveryTries;
    }
  }

  /** Copies that are not placed are never read or written, and nothing is chosen. */
  lemma UnplacedIsRefused(cfg: Config, d: Disk, decTries: bool, io: Io)
    requires cfg.Valid() && !Placed(cfg) && io.readPrimary && io.readBackup
    ensures CallDisk(cfg, d, decTries, io) == d && CallResult(cfg, d, decTries, io) == EINVAL
  {
  }

  /** A call survives every power cut exactly when it gets nowhere, leaves the
      primary alone, or starts with a good fallback. */
  lemma CrashSafeIff(cfg: Config, d: Disk, decTries: bool)
    requires cfg.Valid()
    ensures SurvivesAnyCut(cfg, d, decTries)
            <==> || !Placed(cfg) || !Supported(Loaded(cfg, d))
                 || !StoreNeeded(cfg, d, decTries) || BackupReady(cfg, d, decTries)
  {
    if Placed(cfg) && Supported(Loaded(cfg, d)) && StoreNeeded(cfg, d, decTries) && !BackupReady(cfg, d, decTries) {
      TornPrimaryIsLost(cfg, d, decTries);
    }
  }

  lemma SettledDiskSurvivesAnyCut(cfg: Config, d: Disk, decTries: bool)
    requires cfg.Valid() && cfg.HasBackup() && Settled(cfg, d)
    ensures SurvivesAnyCut(cfg, d, decTries)
  {
    CrashSafeIff(cfg, d, decTries);
  }

  /** Two cuts in a row are one too many: the first tears the backup, the second
      the primary, and every later call starts from a re-initialised table. */
  lemma SecondCutCanLoseMetadata(cfg: Config, d: Disk)
    requires cfg.Valid() && Placed(cfg) && cfg.HasBackup() && Settled(cfg, d) && Supported(Loaded(cfg, d))
    requires StoreNeeded(cfg, d, true) && StoreNeeded(cfg, CallDisk(cfg, d, true, CleanIo), true)
    ensures exists io :: Plausible(cfg, d, true, io)
                         && !SurvivesAnyCut(cfg, CallDisk(cfg, d, true, io), true)
  {
    var io := Io(true, true, Completed, Interrupted(TornRecord(cfg, Loaded(cfg, d))));
    assert Plausible(cfg, d, true, io);
    CrashSafeIff(cfg, CallDisk(cfg, d, true, io), true);
  }

  // ----- Runs of decrementing selections -----

  const CleanIo := Io(true, true, Completed, Completed)

  function BootDisk(cfg: Config, d: Disk, n: nat): Disk
    requires cfg.Valid()
  {
    if n == 0 then d else CallDisk(cfg, BootDisk(cfg, d, n - 1), true, CleanIo)
  }

  /** What call number `k` (from 0) of a run returns. */
  function BootResult(cfg: Config, d: Disk, k: nat): int
    requires cfg.Valid()
  {
    CallResult(cfg, BootDisk(cfg, d, k), true, CleanIo)
  }

  function Boots(c: Control, n: nat): Control {
    if n == 0 then c else Advance(Boots(c, n - 1), true)
  }

  lemma CleanCompletes(cfg: Config, d: Disk)
    requires cfg.Valid() && Placed(cfg) && Supported(Loaded(cfg, d))
    ensures Completes(cfg, d, true, CleanIo)
  {
    hide Loaded, Advance, StoreNeeded;
  }

  lemma {:induction false} BootDiskHoldsBoots(cfg: Config, d: Disk, n: nat)
    requires cfg.Valid() && Placed(cfg) && Supported(Loaded(cfg, d))
    ensures Loaded(cfg, BootDisk(cfg, d, n)) == Boots(Loaded(cfg, d), n)
    ensures Supported(Boots(Loaded(cfg, d), n))
  {
    hide CallDisk, CallResult, Loaded, Advance, Supported, Placed;
    if n > 0 {
      BootDiskHoldsBoots(cfg, d, n - 1);
      CleanCompletes(cfg, BootDisk(cfg, d, n - 1));
      CompletedCallSettles(cfg, BootDisk(cfg, d, n - 1), true, CleanIo);
    }
  }

  predicate Proven(s: Slot) { !s.corrupted && s.successful }
  predicate Unproven(s: Slot) { !s.corrupted && !s.successful }

  /** Highest priority among the proven slots below `n`, -1 when there is none. */
  function BestProven(slots: seq<Slot>, n: nat): (best: int)
    requires n <= |slots|
    ensures forall i :: 0 <= i < n && Proven(slots[i]) ==> slots[i].priority <= best
    ensures best >= 0 ==> exists i :: 0 <= i < n && Proven(slots[i]) && slots[i].priority == best
    ensures best >= -1
  {
    if n == 0 then -1
    else
      var rest := BestProven(slots, n - 1);
      if Proven(slots[n - 1]) && slots[n - 1].priority > rest then slots[n - 1].priority else rest
  }

  /** Tries left in unproven slots whose priority is above `floor`. */
  function TriesAbove(slots: seq<Slot>, n: nat, floor: int): nat
    requires n <= |slots|
  {
    if n == 0 then 0
    else TriesAbove(slots, n - 1, floor)
         + if Unproven(slots[n - 1]) && slots[n - 1].priority > floor then slots[n - 1].tries else 0
  }

  /** How many more boots of unproven slots the table allows. */
  function Budget(c: Control): nat {
    TriesAbove(c.slots, Slots(c), BestProven(c.slots, Slots(c)))
  }

  /** `p` is the lowest-index best proven slot below `n`, or -1. */
  ghost predicate IsProvenPick(slots: seq<Slot>, n: nat, p: int)
    requires n <= |slots|
  {
    if p == -1 then forall i :: 0 <= i < n ==> !Proven(slots[i])
    else
      && 0 <= p < n
      && Proven(slots[p])
      && (forall i :: 0 <= i < n && Proven(slots[i]) ==> Rank(slots[i]) <= Rank(slots[p]))
      && (forall i :: 0 <= i < p && Proven(slots[i]) ==> Rank(slots[i]) < Rank(slots[p]))
  }

  lemma {:induction false} TriesAboveZero(slots: seq<Slot>, n: nat, floor: int)
    requires n <= |slots|
    ensures TriesAbove(slots, n, floor) == 0
            <==> forall i :: 0 <= i < n && Unproven(slots[i]) && slots[i].priority > floor ==> slots[i].tries == 0
  {
    if n > 0 { TriesAboveZero(slots, n - 1, floor); }
  }

  lemma {:induction false} TriesAboveMonotone(slots: seq<Slot>, n: nat, floor: int)
    requires n <= |slots| && floor >= -1
    ensures TriesAbove(slots, n, floor) <= TriesAbove(slots, n, -1)
  {
    if n > 0 { TriesAboveMonotone(slots, n - 1, floor); }
  }

  lemma {:induction false} SpendTry(slots: seq<Slot>, n: nat, floor: int, p: nat)
    requires n <= |slots| && p < |slots|
    requires Unproven(slots[p]) && slots[p].priority > floor && slots[p].tries > 0
    ensures var after := slots[p := slots[p].(tries := slots[p].tries - 1)];
            TriesAbove(after, n, floor) == TriesAbove(slots, n, floor) - (if p < n then 1 else 0)
  {
    if n > 0 { SpendTry(slots, n - 1, floor, p); }
  }

  lemma {:induction false} SpendTryKeepsBestProven(slots: seq<Slot>, n: nat, p: nat, s: Slot)
    requires n <= |slots| && p < |slots| && Unproven(slots[p]) && Unproven(s)
    ensures BestProven(slots[p := s], n) == BestProven(slots, n)
  {
    if n > 0 { SpendTryKeepsBestProven(slots, n - 1, p, s); }
  }

  /** While the budget lasts, the choice is an unproven slot above all proven ones. */
  lemma UnprovenChoice(c: Control)
    requires Budget(c) > 0
    ensures 0 <= Selected(c) < Slots(c) && Unproven(c.slots[Selected(c)])
    ensures c.slots[Selected(c)].tries > 0
    ensures c.slots[Selected(c)].priority > BestProven(c.slots, Slots(c))
  {
    hide BestProven, TriesAbove, Pick;
    var floor := BestProven(c.slots, Slots(c));
    TriesAboveZero(c.slots, Slots(c), floor);
    var i :| 0 <= i < Slots(c) && Unproven(c.slots[i]) && c.slots[i].priority > floor && c.slots[i].tries > 0;
    assert Rank(c.slots[i]) <= Rank(c.slots[Selected(c)]);
  }

  /** While the budget lasts, each boot takes an unproven slot and costs one. */
  lemma UnprovenBoot(c: Control)
    requires Budget(c) > 0
    ensures 0 <= Selected(c) < Slots(c) && Unproven(c.slots[Selected(c)])
    ensures c.slots[Selected(c)].tries > 0
    ensures Budget(Advance(c, true)) == Budget(c) - 1
  {
    UnprovenChoice(c);
    hide BestProven, TriesAbove, Pick, Selected;
    var p := Selected(c);
    SpendTry(c.slots, Slots(c), BestProven(c.slots, Slots(c)), p);
    SpendTryKeepsBestProven(c.slots, Slots(c), p, c.slots[p].(tries := c.slots[p].tries - 1));
  }

  /** With the budget spent, the choice is the best proven slot and nothing changes. */
  lemma ProvenBoot(c: Control)
    requires Budget(c) == 0
    ensures IsProvenPick(c.slots, Slots(c), Selected(c))
    ensures Advance(c, true).slots == c.slots
  {
    var floor := BestProven(c.slots, Slots(c));
    TriesAboveZero(c.slots, Slots(c), floor);
  }

  lemma ProvenPickStable(before: seq<Slot>, after: seq<Slot>, n: nat, p: int)
    requires |before| == |after| && n <= |before|
    requires forall i :: 0 <= i < n ==>
               before[i] == after[i] || (Unproven(before[i]) && Unproven(after[i]))
    ensures IsProvenPick(before, n, p) <==> IsProvenPick(after, n, p)
  {
    assert forall i :: 0 <= i < n ==> (Proven(before[i]) <==> Proven(after[i]));
    assert forall i :: 0 <= i < n && Proven(before[i]) ==> before[i] == after[i];
  }

  lemma OnlyUnprovenMove(c: Control)
    ensures Slots(Advance(c, true)) == Slots(c)
    ensures forall i :: 0 <= i < Slots(c) ==>
              c.slots[i] == Advance(c, true).slots[i]
              || (Unproven(c.slots[i]) && Unproven(Advance(c, true).slots[i]))
  {
  }

  lemma BudgetOfSlots(c: Control, c': Control)
    requires c'.slots == c.slots && Slots(c') == Slots(c)
    ensures Budget(c') == Budget(c)
  {
  }

  /** Only tries of unproven slots ever move, and the budget counts down to zero. */
  lemma {:induction false} BootsCountDown(c: Control, n: nat)
    ensures Slots(Boots(c, n)) == Slots(c)
    ensures Budget(Boots(c, n)) == if n < Budget(c) then Budget(c) - n else 0
    ensures forall i :: 0 <= i < Slots(c) ==>
              c.slots[i] == Boots(c, n).slots[i]
              || (Unproven(c.slots[i]) && Unproven(Boots(c, n).slots[i]))
  {
    if n > 0 {
      BootsCountDown(c, n - 1);
      var b := Boots(c, n - 1);
      OnlyUnprovenMove(b);
      hide Budget, Advance, Pick;
      if Budget(b) > 0 { UnprovenBoot(b); } else { ProvenBoot(b); BudgetOfSlots(b, Advance(b, true)); }
    }
  }

  /** A run boots unproven slots for exactly `Budget` calls, and from then on
      either the best proven slot forever or nothing forever. */
  lemma RollbackIsExact(cfg: Config, d: Disk, k: nat)
    requires cfg.Valid() && Placed(cfg) && Supported(Loaded(cfg, d))
    ensures var c := Loaded(cfg, d);
            var r := BootResult(cfg, d, k);
            if k < Budget(c) then 0 <= r < Slots(c) && Unproven(c.slots[r])
            else if r == EINVAL then IsProvenPick(c.slots, Slots(c), -1)
            else r >= 0 && IsProvenPick(c.slots, Slots(c), r)
  {
    var c := Loaded(cfg, d);
    BootDiskHoldsBoots(cfg, d, k);
    BootsCountDown(c, k);
    var b := Boots(c, k);
    if Budget(b) > 0 {
      UnprovenBoot(b);
    } else {
      ProvenBoot(b);
      ProvenPickStable(c.slots, b.slots, Slots(c), Selected(b));
    }
  }

  ghost predicate BootsUnproven(cfg: Config, d: Disk, k: nat)
    requires cfg.Valid()
  {
    var r := BootResult(cfg, d, k);
    0 <= r < MAX_SLOTS && Unproven(Loaded(cfg, d).slots[r])
  }

  lemma BootsUnprovenIff(cfg: Config, d: Disk, k: nat)
    requires cfg.Valid() && Placed(cfg) && Supported(Loaded(cfg, d))
    ensures BootsUnproven(cfg, d, k) <==> k < Budget(Loaded(cfg, d))
  {
    RollbackIsExact(cfg, d, k);
  }

  /** How many of the calls below `k` satisfy `p`. */
  ghost function Count(p: nat -> bool, k: nat): nat {
    if k == 0 then 0 else Count(p, k - 1) + if p(k - 1) then 1 else 0
  }

  lemma {:induction false} CountOfPrefix(p: nat -> bool, k: nat, bound: nat)
    requires forall i: nat :: p(i) <==> i < bound
    ensures Count(p, k) == if k < bound then k else bound
  {
    if k > 0 { CountOfPrefix(p, k - 1, bound); }
  }

  /** However long the run, unproven slots are booted at most as often as the
      tries stored in the unproven, uncorrupted slots add up to. */
  lemma UnprovenCallsAreBounded(cfg: Config, d: Disk, k: nat)
    requires cfg.Valid() && Placed(cfg) && Supported(Loaded(cfg, d))
    ensures Count((i: nat) => BootsUnproven(cfg, d, i), k)
            <= TriesAbove(Loaded(cfg, d).slots, Slots(Loaded(cfg, d)), -1)
  {
    var c := Loaded(cfg, d);
    TriesAboveMonotone(c.slots, Slots(c), BestProven(c.slots, Slots(c)));
    forall i: nat { BootsUnprovenIff(cfg, d, i); }
    CountOfPrefix((i: nat) => BootsUnproven(cfg, d, i), k, Budget(c));
  }

  // ----- Round robin from a re-initialised table -----

  /** The table after `q` full rounds and `r` further boots. */
  ghost predicate InRound(c: Control, n: nat, q: nat, r: nat) {
    && 1 <= n <= MAX_SLOTS && c.nbSlot == n
    && (q < 7 || (q == 7 && r == 0)) && r < n
    && forall i :: 0 <= i < n ==>
         c.slots[i] == FreshSlot.(tries := 7 - q - if i < r then 1 else 0)
  }

  lemma NextInRound(c: Control, n: nat, q: nat, r: nat)
    requires InRound(c, n, q, r)
    ensures q < 7 ==> Selected(c) == r
    ensures q < 7 ==> if r + 1 < n then InRound(Advance(c, true), n, q, r + 1)
                      else InRound(Advance(c, true), n, q + 1, 0)
    ensures q == 7 ==> Selected(c) == -1 && InRound(Advance(c, true), n, q, r)
  {
    if q < 7 {
      assert IsPick(c.slots, n, r);
      PickUnique(c.slots, n, r, Selected(c));
    }
  }

  /** Rounds finished and position in the next one, after `k` boots. */
  function Round(n: nat, k: nat): (qr: (nat, nat))
    requires n >= 1
    ensures qr.1 < n
  {
    if k == 0 then (0, 0)
    else
      var (q, r) := Round(n, k - 1);
      if q == 7 then (q, r) else if r + 1 < n then (q, r + 1) else (q + 1, 0)
  }

  /** Products of a slot count, one by one. */
  lemma Times(n: nat, q: int)
    requires 1 <= n <= MAX_SLOTS
    ensures q * n == if n == 1 then q else if n == 2 then 2 * q else if n == 3 then 3 * q else 4 * q
  {
  }

  lemma {:induction false} RoundCounts(n: nat, k: nat)
    requires 1 <= n <= MAX_SLOTS
    ensures if k < 7 * n then Round(n, k).0 * n + Round(n, k).1 == k && Round(n, k).0 < 7
            else Round(n, k) == (7, 0)
  {
    Times(n, Round(n, k).0);
    if k > 0 {
      RoundCounts(n, k - 1);
      Times(n, Round(n, k - 1).0);
    }
  }

  lemma RoundPosition(n: nat, k: nat)
    requires 1 <= n <= MAX_SLOTS
    ensures if k < 7 * n then Round(n, k).0 < 7 && Round(n, k).1 == k % n else Round(n, k) == (7, 0)
  {
    hide Round;
    RoundCounts(n, k);
    var (q, r) := Round(n, k);
    Times(n, q);
    if n == 1 {} else if n == 2 {} else if n == 3 {} else { assert n == 4; }
  }

  lemma {:induction false} RoundAfter(c: Control, n: nat, k: nat)
    requires InRound(c, n, 0, 0)
    ensures InRound(Boots(c, k), n, Round(n, k).0, Round(n, k).1)
  {
    if k > 0 {
      RoundAfter(c, n, k - 1);
      NextInRound(Boots(c, k - 1), n, Round(n, k - 1).0, Round(n, k - 1).1);
    }
  }

  /** With both copies damaged, call `k` boots slot `k mod numSlots`, seven times
      round, and then there is nothing left to boot. */
  lemma RoundRobinFromDefault(cfg: Config, d: Disk, k: nat)
    requires cfg.Valid() && Placed(cfg) && !cfg.Intact(d.primary) && !(cfg.HasBackup() && cfg.Intact(d.backup))
    ensures BootResult(cfg, d, k) == if k < 7 * cfg.numSlots then k % cfg.numSlots else EINVAL
  {
    var c, n := Loaded(cfg, d), cfg.numSlots;
    assert InRound(c, n, 0, 0);
    BootDiskHoldsBoots(cfg, d, k);
    RoundAfter(c, n, k);
    RoundPosition(n, k);
    NextInRound(Boots(c, k), n, Round(n, k).0, Round(n, k).1);
  }
}
