/** The PIO disk driver, over a drive that may refuse any transfer. */
module Ata {
  import opened Results
  import opened Words
  import opened Geometry

  /** The contents of the whole drive. */
  type Raw = s: seq<SectorWords> | |s| == TOTAL_SECTORS
    witness seq<SectorWords>(TOTAL_SECTORS, _ => ZeroWords())

  /** The drive's address registers. */
  datatype TaskFile = TaskFile(driveHead: u8, sectorCount: u8, lbaLow: u8, lbaMid: u8, lbaHigh: u8)

  /** The sector a drive in LBA28 mode takes the registers to mean. */
  function Addressed(f: TaskFile): nat {
    f.driveHead % 0x10 * 0x100_0000 + f.lbaHigh * 0x1_0000 + f.lbaMid * 0x100 + f.lbaLow
  }

  const LBA_LIMIT: nat := 0x1000_0000

  /** What select_sector leaves in the registers. */
  function Select(lba: u32): (f: TaskFile)
    ensures Addressed(f) == lba % LBA_LIMIT
    ensures f.sectorCount == 1 && f.driveHead / 0x10 == 0xE
  {
    SplitLba(lba);
    TaskFile(0xE0 + lba / 0x100_0000 % 0x10, 1, lba % 0x100, lba / 0x100 % 0x100, lba / 0x1_0000 % 0x100)
  }

  lemma SplitLba(lba: u32)
    ensures lba / 0x100_0000 % 0x10 * 0x100_0000 + lba / 0x1_0000 % 0x100 * 0x1_0000
            + lba / 0x100 % 0x100 * 0x100 + lba % 0x100 == lba % LBA_LIMIT
  {
    var q1, q2, q3, q4 := lba / 0x100, lba / 0x1_0000, lba / 0x100_0000, lba / LBA_LIMIT;
    assert q2 % 0x100 == q2 - 0x100 * q3 by { assert q2 / 0x100 == q3; }
    assert q1 % 0x100 == q1 - 0x100 * q2 by { assert q1 / 0x100 == q2; }
    assert q3 % 0x10 == q3 - 0x10 * q4 by { assert q3 / 0x10 == q4; }
  }

  /** Every sector of the file system reaches the drive under its own number. */
  lemma ClusterSectorsAreAddressable(c: u32, t: nat)
    requires ValidCluster(c) && t < SECTORS_PER_CLUSTER
    ensures var first := ClusterToSector(c);
      first.Success? && first.value + t < TOTAL_SECTORS && Addressed(Select(first.value + t)) == first.value + t
  {
    ClustersTileTheDataArea(0, c, t);
  }

  /** The drive has the sector that this number reaches. */
  predicate OnDrive(lba: nat) {
    lba % LBA_LIMIT < TOTAL_SECTORS
  }

  /** A call answers AtaError exactly when the drive refused a transfer, and then it refused just one. */
  predicate Accounted<T>(before: nat, after: nat, r: Result<T>) {
    after == before + if r.Failure? && r.error == AtaError then 1 else 0
  }

  class Disk {
    var sectors: Raw
    var taskFile: TaskFile
    /** The earlier contents of the drive, one for every completed sector write. */
    ghost var history: seq<Raw>
    /** How often the drive refused to transfer a sector it has. */
    ghost var faults: nat

    constructor (contents: Raw)
      ensures sectors == contents && history == [] && faults == 0
    {
      sectors := contents;
      taskFile := TaskFile(0, 0, 0, 0, 0);
      history := [];
      faults := 0;
    }

    method SelectSector(lba: u32)
      modifies this`taskFile
      ensures taskFile == Select(lba)
    {
      taskFile := taskFile.(driveHead := 0xE0 + lba / 0x100_0000 % 0x10);
      taskFile := taskFile.(sectorCount := 1);
      taskFile := taskFile.(lbaLow := lba % 0x100);
      taskFile := taskFile.(lbaMid := lba / 0x100 % 0x100);
      taskFile := taskFile.(lbaHigh := lba / 0x1_0000 % 0x100);
    }

    /** The drive answers a command with DRQ or with ERR. It always refuses a sector it does not have;
        that it refuses one it has is a fault. */
    method WaitDrq() returns (r: Result<()>)
      modifies this`faults
      ensures r.Failure? ==> r.error == AtaError
      ensures if Addressed(taskFile) < TOTAL_SECTORS then Accounted(old(faults), faults, r)
              else r.Failure? && faults == old(faults)
    {
      if Addressed(taskFile) >= TOTAL_SECTORS {
        return Failure(AtaError);
      }
      var err: bool := *;
      if err {
        faults := faults + 1;
        return Failure(AtaError);
      }
      return Success(());
    }

    method ReadSector(lba: u32, buffer: array<u16>) returns (r: Result<()>)
      requires buffer.Length == WORDS_PER_SECTOR
      modifies this`taskFile, this`faults, buffer
      ensures r.Success? ==> OnDrive(lba) && buffer[..] == sectors[lba % LBA_LIMIT]
      ensures r.Failure? ==> r.error == AtaError && buffer[..] == old(buffer[..])
      ensures if OnDrive(lba) then Accounted(old(faults), faults, r) else faults == old(faults)
    {
      SelectSector(lba);
      var _ :- WaitDrq();
      var source := sectors[Addressed(taskFile)];
      for i := 0 to WORDS_PER_SECTOR
        invariant forall j :: 0 <= j < i ==> buffer[j] == source[j]
        invariant faults == old(faults)
      {
        buffer[i] := source[i];
      }
      return Success(());
    }

    method WriteSector(lba: u32, buffer: array<u16>) returns (r: Result<()>)
      requires buffer.Length == WORDS_PER_SECTOR
      modifies this
      ensures r.Success? ==>
        OnDrive(lba)
        && sectors == old(sectors)[lba % LBA_LIMIT := buffer[..]]
        && history == old(history) + [old(sectors)]
      ensures r.Failure? ==> r.error == AtaError && sectors == old(sectors) && history == old(history)
      ensures if OnDrive(lba) then Accounted(old(faults), faults, r) else faults == old(faults)
    {
      SelectSector(lba);
      var _ :- WaitDrq();
      var transferred: seq<u16> := [];
      for i := 0 to WORDS_PER_SECTOR
        invariant transferred == buffer[..i]
      {
        transferred := transferred + [buffer[i]];
      }
      assert transferred == buffer[..];
      history := history + [sectors];
      sectors := sectors[Addressed(taskFile) := transferred];
      return Success(());
    }
  }
}
