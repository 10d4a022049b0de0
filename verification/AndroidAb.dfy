/** Android A/B slot selection: the metadata record, how one call of the
    selector loads, repairs, updates and stores it, and the class that does
    so step by step on the two copies kept in the "misc" partition. */
module AndroidAb {

  // ----- Data model -----

  const MAX_SLOTS: nat := 4
  const BOOT_CTRL_MAGIC: nat := 0x42414342
  const BOOT_CTRL_VERSION: nat := 1

  const EIO: int := -5
  const EINVAL: int := -22
  const ENODATA: int := -61

  type Priority = n: nat | n < 16
  type Tries = n: nat | n < 8
  type SlotCount = n: nat | n < 8

  datatype Slot = Slot(priority: Priority, tries: Tries, successful: bool,
                       corrupted: bool, reserved: nat)

  type SlotTable = s: seq<Slot> | |s| == MAX_SLOTS
    witness seq(MAX_SLOTS, _ => Slot(0, 0, false, false, 0))

  /** Everything in the on-disk block that the checksum covers. */
  datatype Control = Control(suffix: string, magic: nat, version: nat, nbSlot: SlotCount,
                             recoveryTries: Tries, reserved0: seq<nat>, slots: SlotTable,
                             reserved1: seq<nat>)

  datatype Record = Record(control: Control, crc: int)

  datatype Disk = Disk(primary: Record, backup: Record)

  /** Bytes before the record in its message, and bytes of the record. */
  const ABC_OFFSET: nat := 2048
  const ABC_SIZE: nat := 32

  /** The partition: block size, number of blocks, and where the backup message
      is, 0 for none. */
  datatype Geometry = Geometry(blksz: nat, blocks: nat, backupOffset: nat) {
    /** What reading the record of the message at `offset` returns. */
    function ReadRet(offset: nat, ok: bool): int
      requires blksz > 0
    {
      if (offset + ABC_OFFSET) % blksz != 0 then EINVAL
      else if (offset + ABC_OFFSET) / blksz + (ABC_SIZE + blksz - 1) / blksz > blocks then EINVAL
      else if !ok then EIO
      else 0
    }
  }

  /** Build-time settings and the partition: how many slots a new table gets,
      and the checksum, which stays abstract. */
  datatype Config = Config(numSlots: nat, geo: Geometry, crc: Control -> int) {
    predicate Valid() { 1 <= numSlots <= MAX_SLOTS && geo.blksz > 0 }
    predicate HasBackup() { geo.backupOffset != 0 }
    predicate Intact(r: Record) { r.crc == crc(r.control) }
    function Seal(c: Control): Record { Record(c, crc(c)) }

    /** The first error of reading the copies, 0 if there is none. */
    function ReadRet(io: Io): int
      requires Valid()
    {
      var ret := geo.ReadRet(0, io.readPrimary);
      if ret < 0 || !HasBackup() then ret else geo.ReadRet(geo.backupOffset, io.readBackup)
    }
  }

  /** What became of one block write: it finished, or it stopped part-way and
      left `left` behind. A power cut and an I/O error look the same on disk,
      since the code writes nothing more after a failed store. */
  datatype Write = Completed | Interrupted(left: Record)

  /** Whether each read works, and what becomes of each write. */
  datatype Io = Io(readPrimary: bool, readBackup: bool, writePrimary: Write, writeBackup: Write)

  // ----- Comparing slots -----

  function ToInt(b: bool): int { if b then 1 else 0 }

  /** Negative when `a` is the better slot. */
  function Compare(a: Slot, b: Slot): int {
    if a.priority != b.priority then b.priority - a.priority
    else if a.successful != b.successful then ToInt(b.successful) - ToInt(a.successful)
    else if a.tries != b.tries then b.tries - a.tries
    else 0
  }

  /** Reference order: the three fields read as one number. */
  function Rank(s: Slot): nat { 16 * s.priority + 8 * ToInt(s.successful) + s.tries }

  lemma CompareIsRank(a: Slot, b: Slot)
    ensures Compare(a, b) < 0 <==> Rank(a) > Rank(b)
    ensures Compare(a, b) == 0 <==> Rank(a) == Rank(b)
    ensures Compare(a, b) > 0 <==> Rank(a) < Rank(b)
  {
  }

  predicate Bootable(s: Slot) { !s.corrupted && (s.tries > 0 || s.successful) }

  /** `p` is the lowest-index maximum among the bootable slots below `n`, or -1. */
  ghost predicate IsPick(slots: seq<Slot>, n: nat, p: int)
    requires n <= |slots|
  {
    if p == -1 then forall i :: 0 <= i < n ==> !Bootable(slots[i])
    else
      && 0 <= p < n
      && Bootable(slots[p])
      && (forall i :: 0 <= i < n && Bootable(slots[i]) ==> Rank(slots[i]) <= Rank(slots[p]))
      && (forall i :: 0 <= i < p && Bootable(slots[i]) ==> Rank(slots[i]) < Rank(slots[p]))
  }

  function Pick(slots: seq<Slot>, n: nat): (p: int)
    requires n <= |slots|
    ensures IsPick(slots, n, p)
  {
    if n == 0 then -1
    else
      var best := Pick(slots, n - 1);
      if Bootable(slots[n - 1]) && (best < 0 || Rank(slots[n - 1]) > Rank(slots[best])) then n - 1
      else best
  }

  lemma PickUnique(slots: seq<Slot>, n: nat, p: int, q: int)
    requires n <= |slots| && IsPick(slots, n, p) && IsPick(slots, n, q)
    ensures p == q
  {
  }

  // ----- One call, as functions -----

  const FreshSlot := Slot(15, 7, false, false, 0)

  /** The re-initialised table. Slots past `numSlots` and the recovery counter
      keep whatever the damaged record held. */
  function DefaultControl(cfg: Config, damaged: Control): Control
    requires cfg.Valid()
  {
    damaged.(suffix := "_a\0\0", magic := BOOT_CTRL_MAGIC, version := BOOT_CTRL_VERSION,
             nbSlot := cfg.numSlots,
             reserved0 := seq(|damaged.reserved0|, _ => 0),
             slots := seq(MAX_SLOTS, i requires 0 <= i < MAX_SLOTS =>
                            if i < cfg.numSlots then FreshSlot else damaged.slots[i]),
             reserved1 := seq(|damaged.reserved1|, _ => 0))
  }

  function Loaded(cfg: Config, d: Disk): Control
    requires cfg.Valid()
  {
    if cfg.Intact(d.primary) then d.primary.control
    else if cfg.HasBackup() && cfg.Intact(d.backup) then d.backup.control
    else DefaultControl(cfg, d.primary.control)
  }

  predicate Supported(c: Control) { c.magic == BOOT_CTRL_MAGIC && c.version <= BOOT_CTRL_VERSION }

  function Slots(c: Control): nat { if c.nbSlot > MAX_SLOTS then MAX_SLOTS else c.nbSlot }

  function Selected(c: Control): int { Pick(c.slots, Slots(c)) }

  function Suffix(slot: nat): string
    requires slot < MAX_SLOTS
  {
    ['_', ('a' as int + slot) as char, '\0', '\0']
  }

  /** The table after a selection: slot count clamped, suffix set, one try spent
      if the slot is unproven and the caller asked for it. */
  function Advance(c: Control, decTries: bool): Control
  {
    var p := Selected(c);
    if p < 0 then c.(nbSlot := Slots(c))
    else
      var s := c.slots[p];
      c.(nbSlot := Slots(c), suffix := Suffix(p),
         slots := if decTries && !s.successful then c.slots[p := s.(tries := s.tries - 1)] else c.slots)
  }

  /** Whether the primary copy gets rewritten. */
  predicate StoreNeeded(cfg: Config, d: Disk, decTries: bool)
    requires cfg.Valid()
  {
    !cfg.Intact(d.primary) || Advance(Loaded(cfg, d), decTries) != Loaded(cfg, d)
  }

  function Put(w: Write, r: Record): Record { if w.Completed? then r else w.left }

  function CallDisk(cfg: Config, d: Disk, decTries: bool, io: Io): Disk
    requires cfg.Valid()
  {
    var sealed := cfg.Seal(Advance(Loaded(cfg, d), decTries));
    var store := StoreNeeded(cfg, d, decTries);
    if cfg.ReadRet(io) < 0 || !Supported(Loaded(cfg, d)) then d
    else if store && io.writePrimary.Interrupted? then d.(primary := io.writePrimary.left)
    else
      var d' := if store then d.(primary := sealed) else d;
      if cfg.HasBackup() && d.backup != sealed then d'.(backup := Put(io.writeBackup, sealed)) else d'
  }

  function CallResult(cfg: Config, d: Disk, decTries: bool, io: Io): int
    requires cfg.Valid()
  {
    if cfg.ReadRet(io) < 0 then cfg.ReadRet(io)
    else if !Supported(Loaded(cfg, d)) then ENODATA
    else if StoreNeeded(cfg, d, decTries) && io.writePrimary.Interrupted? then EIO
    else if cfg.HasBackup() && d.backup != cfg.Seal(Advance(Loaded(cfg, d), decTries))
            && io.writeBackup.Interrupted? then EIO
    else if Selected(Loaded(cfg, d)) < 0 then EINVAL
    else Selected(Loaded(cfg, d))
  }

  // ----- The same call, step by step -----

  method ControlDefault(cfg: Config, damaged: Control) returns (abc: Control)
    requires cfg.Valid()
    ensures abc == DefaultControl(cfg, damaged)
  {
    abc := damaged.(suffix := "_a\0\0", magic := BOOT_CTRL_MAGIC, version := BOOT_CTRL_VERSION,
                    nbSlot := cfg.numSlots, reserved0 := seq(|damaged.reserved0|, _ => 0));
    for i := 0 to abc.nbSlot
      invariant abc == damaged.(suffix := "_a\0\0", magic := BOOT_CTRL_MAGIC,
                                version := BOOT_CTRL_VERSION, nbSlot := cfg.numSlots,
                                reserved0 := seq(|damaged.reserved0|, _ => 0), slots := abc.slots)
      invariant forall k :: 0 <= k < MAX_SLOTS ==>
                  abc.slots[k] == if k < i then FreshSlot else damaged.slots[k]
    {
      abc := abc.(slots := abc.slots[i := FreshSlot]);
    }
    assert abc.slots == DefaultControl(cfg, damaged).slots;
    abc := abc.(reserved1 := seq(|damaged.reserved1|, _ => 0));
  }

  method PickSlot(slots: seq<Slot>, n: nat) returns (slot: int)
    requires n <= |slots|
    ensures IsPick(slots, n, slot)
  {
    slot := -1;
    for i := 0 to n
      invariant IsPick(slots, i, slot)
    {
      if slots[i].corrupted || (slots[i].tries == 0 && !slots[i].successful) {
        continue;
      }
      if slot >= 0 { CompareIsRank(slots[i], slots[slot]); }
      if slot < 0 || Compare(slots[i], slots[slot]) < 0 {
        slot := i;
      }
    }
  }

  /** The in-memory part of a call: clamp, choose, spend a try, set the suffix. */
  method ChooseSlot(was: Control, decTries: bool) returns (abc: Control, slot: int, changed: bool)
    ensures abc == Advance(was, decTries)
    ensures slot == Selected(was)
    ensures changed == (abc != was)
  {
    abc, changed := was, false;
    if abc.nbSlot > MAX_SLOTS {
      abc, changed := abc.(nbSlot := MAX_SLOTS), true;
    }
    slot := PickSlot(abc.slots, abc.nbSlot);
    PickUnique(was.slots, Slots(was), slot, Selected(was));
    if slot >= 0 && !abc.slots[slot].successful && decTries {
      var s := abc.slots[slot];
      abc, changed := abc.(slots := abc.slots[slot := s.(tries := s.tries - 1)]), true;
      assert abc.slots[slot] != was.slots[slot];
    }
    if slot >= 0 {
      var suffix := ['_', ('a' as int + slot) as char, '\0', '\0'];
      if abc.suffix != suffix {
        abc, changed := abc.(suffix := suffix), true;
      }
    }
  }

  /** A backup that could be read can be written: the store's own test of its
      offset does not fail after the reads. */
  lemma ReadMeansAligned(geo: Geometry, offset: nat, ok: bool, ok': bool)
    requires geo.blksz > 0 && geo.ReadRet(0, ok) == 0 && geo.ReadRet(offset, ok') == 0
    ensures offset % geo.blksz == 0
  {
    var q, r := (offset + ABC_OFFSET) / geo.blksz, ABC_OFFSET / geo.blksz;
    assert offset == geo.blksz * (q - r);
    NoRest(geo.blksz, q - r, offset / geo.blksz, offset % geo.blksz);
  }

  lemma NoRest(b: int, k: int, q: int, m: int)
    requires 0 <= m < b && b * k == b * q + m
    ensures m == 0
  {
    assert m == b * (k - q);
    Multiple(b, k - q);
  }

  lemma Multiple(b: int, n: int)
    requires b > 0
    ensures n >= 1 ==> b * n >= b
    ensures n <= -1 ==> b * n <= -b
    ensures n == 0 ==> b * n == 0
  {
  }

  class MiscPartition {
    const cfg: Config
    var primary: Record
    var backup: Record

    constructor (cfg: Config, primary: Record, backup: Record)
      ensures this.cfg == cfg && this.primary == primary && this.backup == backup
    {
      this.cfg, this.primary, this.backup := cfg, primary, backup;
    }

    function Image(): Disk
      reads this
    {
      Disk(primary, backup)
    }

    /** Read one copy into memory. */
    method Load(fromBackup: bool, ok: bool) returns (ret: int, r: Record)
      requires cfg.Valid()
      ensures ret == cfg.geo.ReadRet(if fromBackup then cfg.geo.backupOffset else 0, ok)
      ensures ret == 0 ==> r == if fromBackup then backup else primary
    {
      r := if fromBackup then backup else primary;
      var offset := (if fromBackup then cfg.geo.backupOffset else 0) + ABC_OFFSET;
      if offset % cfg.geo.blksz != 0 { return EINVAL, r; }
      var count := (ABC_SIZE + cfg.geo.blksz - 1) / cfg.geo.blksz;
      if offset / cfg.geo.blksz + count > cfg.geo.blocks { return EINVAL, r; }
      if !ok { return EIO, r; }
      ret := 0;
    }

    /** Write one copy; an interrupted write leaves its own contents behind. */
    method Store(toBackup: bool, r: Record, w: Write) returns (ret: int)
      requires cfg.Valid()
      modifies this
      ensures var aligned := (if toBackup then cfg.geo.backupOffset else 0) % cfg.geo.blksz == 0;
              && ret == (if !aligned then EINVAL else if w.Completed? then 0 else EIO)
              && Image() == if !aligned then old(Image())
                            else if toBackup then old(Image()).(backup := Put(w, r))
                            else old(Image()).(primary := Put(w, r))
    {
      var offset := if toBackup then cfg.geo.backupOffset else 0;
      if offset % cfg.geo.blksz != 0 { return EINVAL; }
      var left := if w.Completed? then r else w.left;
      if toBackup { backup := left; } else { primary := left; }
      ret := if w.Completed? then 0 else EIO;
    }

    /** Check the primary copy and fall back to the backup or a new table. */
    method LoadControl(first: Record, backupAbc: Record) returns (abc: Control, repaired: bool)
      requires cfg.Valid() && first == primary && backupAbc == backup
      ensures abc == Loaded(cfg, Image())
      ensures repaired == !cfg.Intact(primary)
    {
      abc, repaired := first.control, false;
      if first.crc != cfg.crc(abc) {
        var validBackup := false;
        if cfg.HasBackup() && backupAbc.crc == cfg.crc(backupAbc.control) {
          validBackup := true;
          abc := backupAbc.control;
        }
        if !validBackup {
          abc := ControlDefault(cfg, abc);
        }
        repaired := true;
      }
    }

    method SelectSlot(decTries: bool, io: Io) returns (ret: int)
      requires cfg.Valid()
      modifies this
      ensures Image() == CallDisk(cfg, old(Image()), decTries, io)
      ensures ret == CallResult(cfg, old(Image()), decTries, io)
    {
      var first, backupAbc;
      ret, first := Load(false, io.readPrimary);
      if ret < 0 { return; }
      backupAbc := backup;
      if cfg.HasBackup() {
        ret, backupAbc := Load(true, io.readBackup);
        if ret < 0 { return; }
        ReadMeansAligned(cfg.geo, cfg.geo.backupOffset, io.readPrimary, io.readBackup);
      }
      var abc, storeNeeded := LoadControl(first, backupAbc);

      if abc.magic != BOOT_CTRL_MAGIC { return ENODATA; }
      if abc.version > BOOT_CTRL_VERSION { return ENODATA; }

      var slot, changed;
      abc, slot, changed := ChooseSlot(abc, decTries);
      storeNeeded := storeNeeded || changed;

      if storeNeeded {
        ret := Store(false, cfg.Seal(abc), io.writePrimary);
        if ret < 0 { return ret; }
      }

      if cfg.HasBackup() && backupAbc != cfg.Seal(abc) {
        ret := Store(true, cfg.Seal(abc), io.writeBackup);
        if ret < 0 { return ret; }
      }

      if slot < 0 { return EINVAL; }
      return slot;
    }
  }
}
