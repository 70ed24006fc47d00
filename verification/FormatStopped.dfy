/** What a format that stopped early leaves on the disk, write by write. */
module FormatStopped {
  import opened Words
  import opened Geometry
  import opened Ata
  import opened Traces
  import opened Volume
  import opened Fat
  import opened Directory
  import opened Files
  import opened BootSector
  import opened Format

  /** Which of the first `done` sector writes of format was the last one to sector `x`, or -1. */
  function LastWrite(x: nat, done: nat): int {
    if x == 0 then Among(0, done)
    else if x == 6 then Among(1, done)
    else if x == 1 then Among(2, done)
    else if x == 7 then Among(3, done)
    else if x == 32 && done > 2052 then 2052
    else if x == 1056 && done > 2053 then 2053
    else if 32 <= x < 2080 then Among(4 + x - 32, done)
    else if 2080 <= x < 2088 then Among(2054 + x - 2080, done)
    else -1
  }

  function Among(i: nat, done: nat): int {
    if i < done then i else -1
  }

  lemma LastWriteNext(x: nat, done: nat)
    requires 0 < done <= FORMAT_WRITES
    ensures LastWrite(x, done) == if FormatSector(done - 1) == x then done - 1 else LastWrite(x, done - 1)
  {
  }

  /** After `done` sector writes, every sector has what the last write to it put there, or what it had. */
  lemma {:induction false} SectorAfter(before: seq<Raw>, after: seq<Raw>, done: nat, x: nat)
    requires FormatSteps(before, after, 0) && done <= |after| - |before| && x < TOTAL_SECTORS
    ensures done <= FORMAT_WRITES
    ensures var i, raw := LastWrite(x, done), after[|before| - 1 + done];
      if i < 0 then raw[x] == Last(before)[x] else FormatContents(i, raw[x])
  {
    hide FormatContents, LastWrite;
    if done == 0 {
      NoWrites(x);
      assert after[|before| - 1] == Last(before);
    } else {
      SectorAfter(before, after, done - 1, x);
      assert FormatStep(after[|before| - 2 + done], after[|before| - 1 + done], done - 1);
      LastWriteNext(x, done);
    }
  }

  lemma NoWrites(x: nat)
    ensures LastWrite(x, 0) < 0
  {
  }

  /** `raw` is what format leaves of `raw0` after `done` sector writes. */
  ghost predicate StoppedAfter(raw0: Raw, raw: Raw, done: nat) {
    exists before: seq<Raw>, after: seq<Raw> :: StoppedIn(before, after, raw0, raw, done)
  }

  ghost predicate StoppedIn(before: seq<Raw>, after: seq<Raw>, raw0: Raw, raw: Raw, done: nat) {
    && FormatSteps(before, after, 0) && raw0 == Last(before)
    && done <= |after| - |before| && raw == after[|before| - 1 + done]
  }

  /** Every state of the drive during and after a call of format is one of these. */
  lemma CallIsStopped(before: seq<Raw>, after: seq<Raw>, i: nat)
    requires FormatSteps(before, after, 0) && |before| <= i + 1 && i < |after|
    ensures StoppedAfter(Last(before), after[i], i + 1 - |before|)
  {
    assert StoppedIn(before, after, Last(before), after[i], i + 1 - |before|);
  }

  lemma StoppedSector(raw0: Raw, raw: Raw, done: nat, x: nat)
    requires StoppedAfter(raw0, raw, done) && x < TOTAL_SECTORS
    ensures done <= FORMAT_WRITES
    ensures var i := LastWrite(x, done); if i < 0 then raw[x] == raw0[x] else FormatContents(i, raw[x])
  {
    hide FormatSteps, FormatContents, LastWrite;
    var before: seq<Raw>, after: seq<Raw> :| StoppedIn(before, after, raw0, raw, done);
    SectorAfter(before, after, done, x);
  }

  /** What the volume keeps, by the number of writes done: the data after the root cluster always, the
      root directory until both FATs are complete, the FATs until all boot and FSInfo sectors are. */
  lemma StoppedVolume(raw0: Raw, raw: Raw, done: nat)
    requires StoppedAfter(raw0, raw, done)
    ensures done <= FORMAT_WRITES
    ensures var v0, v := VolOf(raw0), VolOf(raw);
      && (forall s :: SECTORS_PER_CLUSTER <= s < DATA_SECTORS ==> v.data[s] == v0.data[s])
      && (forall s :: 0 <= s < RESERVED_SECTORS && s !in {0, 1, 6, 7} ==> v.reserved[s] == v0.reserved[s])
      && (done <= 2054 ==> v.data == v0.data)
      && (done <= 4 ==> v.fats == v0.fats)
  {
    hide BytesOf, FormatContents, StoppedAfter, FatOf;
    StoppedSector(raw0, raw, done, 0);
    forall x | 0 <= x < TOTAL_SECTORS && LastWrite(x, done) < 0
      ensures raw[x] == raw0[x]
    {
      StoppedSector(raw0, raw, done, x);
    }
    if done <= 4 {
      FatsKept(raw0, raw);
    }
  }

  lemma FatsKept(raw0: Raw, raw: Raw)
    requires forall x :: FAT_START_SECTOR <= x < DATA_START_SECTOR ==> raw[x] == raw0[x]
    ensures VolOf(raw).fats == VolOf(raw0).fats
  {
    hide BytesOf, Le32;
    assert FatOf(raw, 0) == FatOf(raw0, 0);
    assert FatOf(raw, 1) == FatOf(raw0, 1);
  }

  /** The order of the phases: the root directory changes only when both FATs hold the fresh entries, and
      the FATs change only when boot and FSInfo sectors and their backups are written. */
  lemma PhasesInOrder(raw0: Raw, raw: Raw, done: nat)
    requires StoppedAfter(raw0, raw, done)
    ensures var v0, v := VolOf(raw0), VolOf(raw);
      && (v.data != v0.data ==> FreshFats(v))
      && (v.fats != v0.fats || v.data != v0.data ==> BootSectorsWritten(v))
  {
    hide StoppedAfter, FreshFats, BootSectorsWritten, VolOf;
    StoppedVolume(raw0, raw, done);
    if done > 2054 {
      FatsComplete(raw0, raw, done);
    }
    if done > 4 {
      BootComplete(raw0, raw, done);
    }
  }

  ghost predicate FreshFats(v: Vol) {
    v.fats[0] == v.fats[1] && forall c :: 0 <= c < FAT_ENTRIES ==> v.fats[0][c] == FreshEntry(c)
  }

  ghost predicate BootSectorsWritten(v: Vol) {
    IsBootSector(v.reserved[0]) && IsBootSector(v.reserved[6]) && FsInfo(v.reserved[1]) && FsInfo(v.reserved[7])
  }

  lemma FatsComplete(raw0: Raw, raw: Raw, done: nat)
    requires StoppedAfter(raw0, raw, done) && done >= 2054
    ensures FreshFats(VolOf(raw))
  {
    hide StoppedAfter, FirstFatSector, FreshEntry, VolOf, IsBootSector, FsInfo;
    StoppedSector(raw0, raw, done, 32);
    StoppedSector(raw0, raw, done, 1056);
    forall s | FAT_START_SECTOR <= s < DATA_START_SECTOR && s != FatStart(0) && s != FatStart(1)
      ensures raw[s] == ZeroWords()
    {
      StoppedSector(raw0, raw, done, s);
    }
    FormattedFats(raw);
  }

  lemma BootComplete(raw0: Raw, raw: Raw, done: nat)
    requires StoppedAfter(raw0, raw, done) && done >= 4
    ensures BootSectorsWritten(VolOf(raw))
  {
    hide StoppedAfter, FirstFatSector, IsBootSector, FsInfo, FatOf, BytesOf;
    StoppedSector(raw0, raw, done, 0);
    StoppedSector(raw0, raw, done, 6);
    StoppedSector(raw0, raw, done, 1);
    StoppedSector(raw0, raw, done, 7);
  }

  /** Stopped within the first four writes, format has lost no file. */
  lemma EarlyStopKeepsFiles(raw0: Raw, raw: Raw, done: nat, k: nat, n: nat)
    requires StoppedAfter(raw0, raw, done) && done <= 4 && InvAt(VolOf(raw0), k, n)
    ensures InvAt(VolOf(raw), k, n) && Listing(VolOf(raw)) == Listing(VolOf(raw0))
  {
    hide StoppedAfter, VolOf, FilesTo, Stored, DirShape;
    StoppedVolume(raw0, raw, done);
    var v0, v := VolOf(raw0), VolOf(raw);
    BumpKept(v0, v, k);
    FilesUntouched(v0, v, k, n, k);
  }

  /** Stopped while the FATs are cleared, it has left a volume on which no cluster is in use, not even the
      root directory's: no longer a file system, until format is run again. */
  lemma MidwayStopBreaksVolume(raw0: Raw, raw: Raw, done: nat)
    requires StoppedAfter(raw0, raw, done) && 5 <= done <= 2052
    ensures Entry(VolOf(raw), 0, ROOT_CLUSTER) == FAT_FREE && !Inv(VolOf(raw))
  {
    hide StoppedAfter, IsBootSector, FsInfo, FirstFatSector, SectorsOf, BytesOf, Le32, DirShape, Stored;
    StoppedSector(raw0, raw, done, 32);
    ZeroBytes();
    ZeroEntry(2);
    EntryIsStored(raw, 2);
    var v := VolOf(raw);
    forall k: nat, n: nat
      ensures !InvAt(v, k, n)
    {
      assert ValidCluster(2);
    }
  }
}
