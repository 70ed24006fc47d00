/** Formatting the data disk. */
module Format {
  import opened Results
  import opened Words
  import opened Geometry
  import opened Ata
  import opened Traces
  import opened Volume
  import opened Fat
  import opened Directory
  import opened Files
  import opened BootSector

  // ---------------------------------------------------------------- the order of the writes

  /** The raw contents of the drive so far, one for every sector write, the present one last. */
  ghost function RawStates(disk: Disk): (s: seq<Raw>)
    reads disk`sectors, disk`history
    ensures s != [] && Last(s) == disk.sectors
  {
    disk.history + [disk.sectors]
  }

  /** Format writes 2 + 2 + 2 * 1024 + 2 + 8 sectors. */
  const FORMAT_WRITES: nat := 2062

  /** The place of the i-th of them: boot sector and its backup, FSInfo and its backup, both FATs, the
      first sector of either FAT again, and the root directory. */
  function FormatSector(i: nat): nat {
    if i == 0 then 0 else if i == 1 then 6 else if i == 2 then 1 else if i == 3 then 7
    else if i < 2052 then 32 + (i - 4)
    else if i == 2052 then 32 else if i == 2053 then 1056
    else 2080 + (i - 2054)
  }

  ghost predicate FormatContents(i: nat, w: SectorWords) {
    if i < 2 then IsBootSector(BytesOf(w))
    else if i < 4 then FsInfo(BytesOf(w))
    else if i == 2052 || i == 2053 then FirstFatSector(w)
    else w == ZeroWords()
  }

  /** From `a` to `b` the i-th sector write of format was done, and nothing else. */
  ghost predicate FormatStep(a: Raw, b: Raw, i: nat) {
    i < FORMAT_WRITES && var s := FormatSector(i); b == a[s := b[s]] && FormatContents(i, b[s])
  }

  /** The states recorded since the last one of `before` come from the sector writes of format, one after
      the other, beginning with number `from`. */
  ghost predicate FormatSteps(before: seq<Raw>, after: seq<Raw>, from: nat) {
    && before != [] && before <= after
    && forall j :: |before| <= j < |after| ==> FormatStep(after[j - 1], after[j], from + j - |before|)
  }

  lemma StepsPush(before: seq<Raw>, log: seq<Raw>, next: Raw, from: nat)
    requires FormatSteps(before, log, from) && FormatStep(Last(log), next, from + |log| - |before|)
    ensures FormatSteps(before, log + [next], from)
  {
    hide FormatStep;
    forall j | |before| <= j < |log + [next]|
      ensures FormatStep((log + [next])[j - 1], (log + [next])[j], from + j - |before|)
    {
      if j < |log| {
        assert FormatStep(log[j - 1], log[j], from + j - |before|);
      }
    }
  }

  lemma StepsThen(before: seq<Raw>, mid: seq<Raw>, after: seq<Raw>, from: nat)
    requires FormatSteps(before, mid, from) && FormatSteps(mid, after, from + |mid| - |before|)
    ensures FormatSteps(before, after, from)
  {
    hide FormatStep;
    forall j | |before| <= j < |after|
      ensures FormatStep(after[j - 1], after[j], from + j - |before|)
    {
      if j < |mid| {
        assert FormatStep(mid[j - 1], mid[j], from + j - |before|);
      }
    }
  }

  /** write_sector as the next sector write of format. */
  method FormatWrite(disk: Disk, sector: u32, words: array<u16>, ghost before: seq<Raw>, ghost from: nat)
    returns (r: Result<()>)
    requires words.Length == WORDS_PER_SECTOR && FormatSteps(before, RawStates(disk), from)
    requires var i := from + |RawStates(disk)| - |before|;
      i < FORMAT_WRITES && sector == FormatSector(i) && FormatContents(i, words[..])
    modifies disk
    ensures FormatSteps(before, RawStates(disk), from)
    ensures r.Success? ==>
      disk.sectors == old(disk.sectors)[sector := words[..]] && |RawStates(disk)| == old(|RawStates(disk)|) + 1
    ensures r.Failure? ==>
      r.error == AtaError && disk.sectors == old(disk.sectors) && RawStates(disk) == old(RawStates(disk))
    ensures Accounted(old(disk.faults), disk.faults, r)
  {
    hide FormatContents, FormatStep;
    ghost var log := RawStates(disk);
    FormatSectorExists(from + |log| - |before|);
    r := disk.WriteSector(sector, words);
    if r.Success? {
      NextStep(Last(log), disk.sectors, from + |log| - |before|, words[..]);
      StepsPush(before, log, disk.sectors, from);
    }
  }

  lemma NextStep(a: Raw, b: Raw, i: nat, w: SectorWords)
    requires i < FORMAT_WRITES && FormatContents(i, w) && b == a[FormatSector(i) := w]
    ensures FormatStep(a, b, i)
  {
    hide FormatContents;
  }

  lemma FormatSectorExists(i: nat)
    ensures i < FORMAT_WRITES ==> FormatSector(i) < 2088 && OnDrive(FormatSector(i))
  {
  }

  // ---------------------------------------------------------------- boot and FSInfo sectors

  /** Two reserved sectors were given the same new contents; nothing else changed. */
  ghost predicate Rewritten(before: Raw, now: Raw, a: nat, b: nat) {
    && a < RESERVED_SECTORS && b < RESERVED_SECTORS && now[a] == now[b]
    && forall s :: 0 <= s < TOTAL_SECTORS && s != a && s != b ==> now[s] == before[s]
  }

  method WriteBootSector(disk: Disk, volumeId: u32) returns (r: Result<()>)
    modifies disk
    ensures r.Success? ==>
      Rewritten(old(disk.sectors), disk.sectors, 0, 6) && DescribesVolume(BytesOf(disk.sectors[0]), volumeId)
    ensures FormatSteps(old(RawStates(disk)), RawStates(disk), 0)
    ensures r.Success? ==> |RawStates(disk)| == |old(RawStates(disk))| + 2
    ensures r.Failure? ==> |RawStates(disk)| < |old(RawStates(disk))| + 2
    ensures r.Failure? ==> r.error == AtaError
    ensures Accounted(old(disk.faults), disk.faults, r)
  {
    hide DescribesVolume, IsBootSector, Le32, BytesOf, WordsOf, FormatStep, RawStates;
    var sector := BootBuffer(volumeId);
    IdValue(sector[..], volumeId);
    var words := BytesToWords(sector);
    SectorRoundTrip(sector[..], words[..]);
    var _ :- FormatWrite(disk, 0, words, old(RawStates(disk)), 0);
    var _ :- FormatWrite(disk, 6, words, old(RawStates(disk)), 0);
    return Success(());
  }

  method WriteFsInfoSector(disk: Disk) returns (r: Result<()>)
    modifies disk
    ensures r.Success? ==> Rewritten(old(disk.sectors), disk.sectors, 1, 7) && FsInfo(BytesOf(disk.sectors[1]))
    ensures FormatSteps(old(RawStates(disk)), RawStates(disk), 2)
    ensures r.Success? ==> |RawStates(disk)| == |old(RawStates(disk))| + 2
    ensures r.Failure? ==> |RawStates(disk)| < |old(RawStates(disk))| + 2
    ensures r.Failure? ==> r.error == AtaError
    ensures Accounted(old(disk.faults), disk.faults, r)
  {
    hide FsInfo, BytesOf, WordsOf, FormatStep, RawStates;
    var sector := FsInfoBuffer();
    var words := BytesToWords(sector);
    SectorRoundTrip(sector[..], words[..]);
    var _ :- FormatWrite(disk, 1, words, old(RawStates(disk)), 2);
    var _ :- FormatWrite(disk, 7, words, old(RawStates(disk)), 2);
    return Success(());
  }

  // ---------------------------------------------------------------- FAT tables and root directory

  /** An empty FAT: the two reserved entries and the one-cluster root directory. */
  function FreshEntry(c: nat): u32 {
    if c == 0 then 0x0FFF_FFF8 else if c <= ROOT_CLUSTER then FAT_EOC else FAT_FREE
  }

  ghost predicate FirstFatSector(w: SectorWords) {
    forall c :: 0 <= c < ENTRIES_PER_SECTOR ==> Le32(BytesOf(w), 4 * c) == FreshEntry(c)
  }

  method FirstFatBuffer() returns (firstSector: array<u8>)
    ensures fresh(firstSector) && firstSector.Length == BYTES_PER_SECTOR
    ensures forall c :: 0 <= c < ENTRIES_PER_SECTOR ==> Le32(firstSector[..], 4 * c) == FreshEntry(c)
  {
    hide Patch, Bytes16, Bytes32, Le32;
    firstSector := new u8[BYTES_PER_SECTOR](_ => 0);
    ghost var s0 := firstSector[..];
    assert s0 == ZeroSector();
    CopyFromSlice(firstSector, 0, Bytes32(0x0FFF_FFF8));
    ghost var s1 := firstSector[..];
    CopyFromSlice(firstSector, 4, Bytes32(0x0FFF_FFFF));
    ghost var s2 := firstSector[..];
    CopyFromSlice(firstSector, 8, Bytes32(0x0FFF_FFFF));
    forall c | 0 <= c < ENTRIES_PER_SECTOR
      ensures Le32(firstSector[..], 4 * c) == FreshEntry(c)
    {
      ZeroEntry(c);
      EntryPatch(s0, 0, 0x0FFF_FFF8, c);
      EntryPatch(s1, 1, 0x0FFF_FFFF, c);
      EntryPatch(s2, 2, 0x0FFF_FFFF, c);
    }
  }

  /** The first bytes of a FAT as other systems read them: media descriptor, reserved entry, root. */
  lemma FirstFatBytes(w: SectorWords)
    requires FirstFatSector(w)
    ensures BytesOf(w)[..12] == [0xF8, 0xFF, 0xFF, 0x0F, 0xFF, 0xFF, 0xFF, 0x0F, 0xFF, 0xFF, 0xFF, 0x0F]
    ensures w[..6] == [0xFFF8, 0x0FFF, 0xFFFF, 0x0FFF, 0xFFFF, 0x0FFF]
  {
    hide BytesOf, Le32;
    var b := BytesOf(w);
    assert Le32(b, 4 * 0) == 0x0FFF_FFF8 && Le32(b, 4 * 1) == 0x0FFF_FFFF && Le32(b, 4 * 2) == 0x0FFF_FFFF;
    FieldsAreLittleEndian(b, 0);
    FieldsAreLittleEndian(b, 4);
    FieldsAreLittleEndian(b, 8);
    SectorRoundTrip(b, w);
    forall i: nat | i < 6
      ensures w[i] % 0x100 == b[2 * i] && w[i] / 0x100 == b[2 * i + 1]
    {
      WordsAreLittleEndian(b, i);
    }
  }

  /** Zeroes both FAT copies. */
  method ClearFatTables(disk: Disk) returns (r: Result<()>)
    modifies disk
    ensures r.Success? ==> Cleared(old(disk.sectors), disk.sectors, FAT_START_SECTOR, DATA_START_SECTOR)
    ensures FormatSteps(old(RawStates(disk)), RawStates(disk), 4)
    ensures r.Success? ==> |RawStates(disk)| == |old(RawStates(disk))| + 2048
    ensures r.Failure? ==> |RawStates(disk)| < |old(RawStates(disk))| + 2048
    ensures r.Failure? ==> r.error == AtaError
    ensures Accounted(old(disk.faults), disk.faults, r)
  {
    hide FormatStep, RawStates, FsInfo, IsBootSector, FirstFatSector;
    var zeroSector := new u16[WORDS_PER_SECTOR](_ => 0);
    assert zeroSector[..] == ZeroWords();
    for fatIndex := 0 to NUM_FATS
      invariant zeroSector[..] == ZeroWords()
      invariant Cleared(old(disk.sectors), disk.sectors, FAT_START_SECTOR,
                        FAT_START_SECTOR + fatIndex * SECTORS_PER_FAT)
      invariant FormatSteps(old(RawStates(disk)), RawStates(disk), 4)
      invariant |RawStates(disk)| == |old(RawStates(disk))| + fatIndex * 1024
      invariant disk.faults == old(disk.faults)
    {
      var fatStart := FAT_START_SECTOR + fatIndex * SECTORS_PER_FAT;
      for offset := 0 to SECTORS_PER_FAT
        invariant zeroSector[..] == ZeroWords()
        invariant Cleared(old(disk.sectors), disk.sectors, FAT_START_SECTOR, fatStart + offset)
        invariant FormatSteps(old(RawStates(disk)), RawStates(disk), 4)
        invariant |RawStates(disk)| == |old(RawStates(disk))| + fatIndex * 1024 + offset
        invariant disk.faults == old(disk.faults)
      {
        var _ :- FormatWrite(disk, fatStart + offset, zeroSector, old(RawStates(disk)), 4);
      }
    }
    return Success(());
  }

  method InitFatTables(disk: Disk) returns (r: Result<()>)
    modifies disk
    ensures r.Success? ==>
      && (forall s :: 0 <= s < TOTAL_SECTORS && !(FAT_START_SECTOR <= s < DATA_START_SECTOR) ==>
            disk.sectors[s] == old(disk.sectors[s]))
      && (forall s :: FAT_START_SECTOR <= s < DATA_START_SECTOR && s != FatStart(0) && s != FatStart(1) ==>
            disk.sectors[s] == ZeroWords())
      && FirstFatSector(disk.sectors[FatStart(0)]) && FirstFatSector(disk.sectors[FatStart(1)])
    ensures FormatSteps(old(RawStates(disk)), RawStates(disk), 4)
    ensures r.Success? ==> |RawStates(disk)| == |old(RawStates(disk))| + 2050
    ensures r.Failure? ==> |RawStates(disk)| < |old(RawStates(disk))| + 2050
    ensures r.Failure? ==> r.error == AtaError
    ensures Accounted(old(disk.faults), disk.faults, r)
  {
    hide BytesOf, WordsOf, Le32, FreshEntry, FormatStep, RawStates, FsInfo, IsBootSector;
    var _ :- ClearFatTables(disk);
    var firstSector := FirstFatBuffer();
    var words := BytesToWords(firstSector);
    SectorRoundTrip(firstSector[..], words[..]);
    for fatIndex := 0 to NUM_FATS
      invariant FirstFatSector(words[..])
      invariant forall s :: 0 <= s < TOTAL_SECTORS && !(FAT_START_SECTOR <= s < DATA_START_SECTOR) ==>
        disk.sectors[s] == old(disk.sectors[s])
      invariant forall s :: FAT_START_SECTOR <= s < DATA_START_SECTOR && s != FatStart(0) && s != FatStart(1) ==>
        disk.sectors[s] == ZeroWords()
      invariant fatIndex > 0 ==> FirstFatSector(disk.sectors[FatStart(0)])
      invariant fatIndex > 1 ==> FirstFatSector(disk.sectors[FatStart(1)])
      invariant FormatSteps(old(RawStates(disk)), RawStates(disk), 4)
      invariant |RawStates(disk)| == |old(RawStates(disk))| + 2048 + fatIndex
      invariant disk.faults == old(disk.faults)
    {
      var fatStart := FAT_START_SECTOR + fatIndex * SECTORS_PER_FAT;
      var _ :- FormatWrite(disk, fatStart, words, old(RawStates(disk)), 4);
    }
    return Success(());
  }

  /** The sectors from `lo` to `hi - 1` are zero, all others as they were. */
  ghost predicate Cleared(before: Raw, now: Raw, lo: nat, hi: nat) {
    forall s :: 0 <= s < TOTAL_SECTORS ==> now[s] == if lo <= s < hi then ZeroWords() else before[s]
  }

  method InitRootDirectory(disk: Disk) returns (r: Result<()>)
    modifies disk
    ensures r.Success? ==>
      Cleared(old(disk.sectors), disk.sectors, DATA_START_SECTOR, DATA_START_SECTOR + SECTORS_PER_CLUSTER)
    ensures FormatSteps(old(RawStates(disk)), RawStates(disk), 2054)
    ensures r.Success? ==> |RawStates(disk)| == |old(RawStates(disk))| + 8
    ensures r.Failure? ==> |RawStates(disk)| < |old(RawStates(disk))| + 8
    ensures r.Failure? ==> r.error == AtaError
    ensures Accounted(old(disk.faults), disk.faults, r)
  {
    hide FormatStep, RawStates, FsInfo, IsBootSector, FirstFatSector;
    var zeroSector := new u16[WORDS_PER_SECTOR](_ => 0);
    assert zeroSector[..] == ZeroWords();
    var rootDirStart := ClusterToSector(ROOT_CLUSTER).value;
    for offset := 0 to SECTORS_PER_CLUSTER
      invariant zeroSector[..] == ZeroWords()
      invariant Cleared(old(disk.sectors), disk.sectors, DATA_START_SECTOR, DATA_START_SECTOR + offset)
      invariant FormatSteps(old(RawStates(disk)), RawStates(disk), 2054)
      invariant |RawStates(disk)| == |old(RawStates(disk))| + offset
      invariant disk.faults == old(disk.faults)
    {
      var _ :- FormatWrite(disk, rootDirStart + offset, zeroSector, old(RawStates(disk)), 2054);
    }
    return Success(());
  }

  // ---------------------------------------------------------------- the formatted volume

  ghost predicate Formatted(v: Vol) {
    && IsBootSector(v.reserved[0]) && v.reserved[BACKUP_BOOT_SECTOR] == v.reserved[0]
    && FsInfo(v.reserved[FSINFO_SECTOR]) && v.reserved[BACKUP_BOOT_SECTOR + 1] == v.reserved[FSINFO_SECTOR]
    && v.fats[0] == v.fats[1]
    && (forall c :: 0 <= c < FAT_ENTRIES ==> v.fats[0][c] == FreshEntry(c))
    && (forall t :: 0 <= t < SECTORS_PER_CLUSTER ==> v.data[t] == ZeroSector())
  }

  lemma ZeroBytes()
    ensures BytesOf(ZeroWords()) == ZeroSector()
  {
  }

  lemma FormattedFat(raw: Raw, copy: nat, c: nat)
    requires copy < NUM_FATS && c < FAT_ENTRIES && FirstFatSector(raw[FatStart(copy)])
    requires forall s :: FAT_START_SECTOR <= s < DATA_START_SECTOR && s != FatStart(0) && s != FatStart(1) ==>
      raw[s] == ZeroWords()
    ensures FatOf(raw, copy)[c] == FreshEntry(c)
  {
    hide BytesOf, Le32, FatSector, FatStart, FreshEntry;
    ZeroBytes();
    SectorOfEntry(copy, c);
    if c >= ENTRIES_PER_SECTOR {
      ZeroEntry(c % ENTRIES_PER_SECTOR);
      FreeEntry(c);
    }
  }

  lemma SectorOfEntry(copy: nat, c: nat)
    requires copy < NUM_FATS && c < FAT_ENTRIES
    ensures FAT_START_SECTOR <= FatSector(copy, c) < DATA_START_SECTOR
    ensures c < ENTRIES_PER_SECTOR ==> FatSector(copy, c) == FatStart(copy) && c % ENTRIES_PER_SECTOR == c
    ensures c >= ENTRIES_PER_SECTOR ==> FatSector(copy, c) != FatStart(0) && FatSector(copy, c) != FatStart(1)
  {
  }

  lemma FreeEntry(c: nat)
    requires c > ROOT_CLUSTER
    ensures FreshEntry(c) == FAT_FREE
  {
  }

  lemma ZeroEntry(e: nat)
    requires e < ENTRIES_PER_SECTOR
    ensures Le32(ZeroSector(), 4 * e) == 0
  {
  }

  method FormatDisk(disk: Disk, volumeId: u32) returns (r: Result<()>)
    modifies disk
    ensures r.Success? ==> Formatted(Now(disk))
    ensures r.Success? ==> forall s :: SECTORS_PER_CLUSTER <= s < DATA_SECTORS ==>
      Now(disk).data[s] == old(Now(disk)).data[s]
    ensures r.Success? ==> forall s :: 0 <= s < RESERVED_SECTORS && s !in {0, 1, 6, 7} ==>
      Now(disk).reserved[s] == old(Now(disk)).reserved[s]
    ensures r.Success? ==> DescribesVolume(Now(disk).reserved[0], volumeId)
    ensures FormatSteps(old(RawStates(disk)), RawStates(disk), 0)
    ensures r.Success? ==> |RawStates(disk)| == |old(RawStates(disk))| + FORMAT_WRITES
    ensures r.Failure? ==> |RawStates(disk)| < |old(RawStates(disk))| + FORMAT_WRITES
    ensures r.Failure? ==> r.error == AtaError
    ensures Accounted(old(disk.faults), disk.faults, r)
  {
    hide VolOf, DescribesVolume, IsBootSector, FsInfo, BytesOf, FirstFatSector, FormatStep, FormatSteps, RawStates;
    ghost var raw0, s0 := disk.sectors, RawStates(disk);
    var boot := WriteBootSector(disk, volumeId);
    ghost var raw1, s1 := disk.sectors, RawStates(disk);
    var _ :- boot;
    var info := WriteFsInfoSector(disk);
    ghost var raw2, s2 := disk.sectors, RawStates(disk);
    StepsThen(s0, s1, s2, 0);
    var _ :- info;
    var fats := InitFatTables(disk);
    ghost var raw3, s3 := disk.sectors, RawStates(disk);
    StepsThen(s0, s2, s3, 0);
    var _ :- fats;
    var root := InitRootDirectory(disk);
    StepsThen(s0, s3, RawStates(disk), 0);
    var _ :- root;
    PhasesCompose(raw0, raw1, raw2, raw3, disk.sectors);
    FormattedFats(disk.sectors);
    IdValue(BytesOf(raw1[0]), volumeId);
    return Success(());
  }

  /** The FAT area after the last phase. */
  lemma FormattedFats(raw: Raw)
    requires FirstFatSector(raw[FatStart(0)]) && FirstFatSector(raw[FatStart(1)])
    requires forall s :: FAT_START_SECTOR <= s < DATA_START_SECTOR && s != FatStart(0) && s != FatStart(1) ==>
      raw[s] == ZeroWords()
    ensures var v := VolOf(raw);
      v.fats[0] == v.fats[1] && forall c :: 0 <= c < FAT_ENTRIES ==> v.fats[0][c] == FreshEntry(c)
  {
    hide BytesOf, FirstFatSector, FatOf, FreshEntry;
    var v := VolOf(raw);
    forall c | 0 <= c < FAT_ENTRIES
      ensures v.fats[0][c] == FreshEntry(c) && v.fats[1][c] == FreshEntry(c)
    {
      FormattedFat(raw, 0, c);
      FormattedFat(raw, 1, c);
    }
    assert v.fats[0] == v.fats[1];
  }

  /** No phase overwrites what an earlier one wrote: at the end the reserved sectors are those of the
      boot phases, and only the root cluster of the data area has changed. */
  lemma PhasesCompose(raw0: Raw, raw1: Raw, raw2: Raw, raw3: Raw, raw4: Raw)
    requires Rewritten(raw0, raw1, 0, 6) && Rewritten(raw1, raw2, 1, 7)
    requires forall s :: 0 <= s < TOTAL_SECTORS && !(FAT_START_SECTOR <= s < DATA_START_SECTOR) ==> raw3[s] == raw2[s]
    requires Cleared(raw3, raw4, DATA_START_SECTOR, DATA_START_SECTOR + SECTORS_PER_CLUSTER)
    ensures var v, v0 := VolOf(raw4), VolOf(raw0);
      && v.reserved[0] == v.reserved[6] == BytesOf(raw1[0])
      && v.reserved[1] == v.reserved[7] == BytesOf(raw2[1])
      && (forall s :: 0 <= s < RESERVED_SECTORS && s !in {0, 1, 6, 7} ==> v.reserved[s] == v0.reserved[s])
      && (forall t :: 0 <= t < SECTORS_PER_CLUSTER ==> v.data[t] == ZeroSector())
      && (forall s :: SECTORS_PER_CLUSTER <= s < DATA_SECTORS ==> v.data[s] == v0.data[s])
  {
    hide BytesOf, FatOf;
    ZeroBytes();
  }

  /** Formatting establishes the file-system invariant with no file, whatever the disk held. */
  lemma FormattedIsEmpty(v: Vol)
    requires Formatted(v)
    ensures InvAt(v, 3, 0) && Listing(v) == [] && v.fats[0] == v.fats[1]
  {
    hide DescribesVolume, FsInfo, FilesTo;
    assert Bump(v, 3) by {
      forall c | ValidCluster(c)
        ensures Entry(v, 0, c) != FAT_FREE <==> c < 3
      {
        assert v.fats[0][c] == FreshEntry(c);
      }
    }
    assert DirShape(v, 0);
    ListingEnds(v, 0, ROOT_SLOTS);
    NoFiles(v);
  }

  lemma NoFiles(v: Vol)
    ensures FilesTo(v, 0) == []
  {
  }
}
