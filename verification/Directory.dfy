/** The root directory: 128 slots of 32 bytes in the eight sectors of the root cluster. */
module Directory {
  import opened Results
  import opened Words
  import opened Geometry
  import opened Ata
  import opened Volume
  import opened Names

  const DIR_ENTRY_SIZE: nat := 32
  const SLOTS_PER_SECTOR: nat := 16
  const ROOT_SLOTS: nat := SECTORS_PER_CLUSTER * SLOTS_PER_SECTOR

  const UNUSED: u8 := 0x00
  const DELETED: u8 := 0xE5
  const ATTR_ARCHIVE: u8 := 0x20

  type Slot = b: seq<u8> | |b| == DIR_ENTRY_SIZE witness seq(DIR_ENTRY_SIZE, _ => 0)

  // ---------------------------------------------------------------- one slot

  function SlotIn(sector: Sector, e: nat): Slot
    requires e < SLOTS_PER_SECTOR
  {
    sector[e * DIR_ENTRY_SIZE..(e + 1) * DIR_ENTRY_SIZE]
  }

  /** A short name whose first byte says "unused" or "deleted" marks its slot as free. */
  predicate Occupies(shortName: seq<u8>)
    requires shortName != []
  {
    shortName[0] != UNUSED && shortName[0] != DELETED
  }

  predicate Live(b: Slot) {
    Occupies(b)
  }

  function NameOf(b: Slot): (s: seq<u8>)
    ensures |s| == NAME_LENGTH
  {
    b[..NAME_LENGTH]
  }

  function FirstClusterOf(b: Slot): u32 {
    Le16(b, 20) * 0x1_0000 + Le16(b, 26)
  }

  function SizeOf(b: Slot): u32 {
    Le32(b, 28)
  }

  /** The bytes at which a slot may begin: every thirty-second of the root cluster's eight sectors. A
      directory is full when none of them says "unused" or "deleted". */
  ghost predicate NoRoom(v: Vol) {
    forall t, p :: 0 <= t < 8 && 0 <= p < 512 && p % 32 == 0 ==> v.data[t][p] != 0x00 && v.data[t][p] != 0xE5
  }

  /** The fields write_file patches into a slot of a directory sector. */
  function FillSlot(sector: Sector, e: nat, shortName: seq<u8>, first: u32, size: u32): Sector
    requires e < SLOTS_PER_SECTOR && |shortName| == NAME_LENGTH
  {
    var at := e * DIR_ENTRY_SIZE;
    Patch(
      Patch(
        Patch(
          Patch(
            Patch(sector, at, shortName),
            at + 11, [ATTR_ARCHIVE]),
          at + 20, Bytes16(first / 0x1_0000)),
        at + 26, Bytes16(first % 0x1_0000)),
      at + 28, Bytes32(size))
  }

  /** The split cluster number and the size come back as they were stored, and no other slot and no
      other byte of the slot changes. */
  lemma SlotRoundTrip(sector: Sector, e: nat, shortName: seq<u8>, first: u32, size: u32, f: nat)
    requires e < SLOTS_PER_SECTOR && f < SLOTS_PER_SECTOR && |shortName| == NAME_LENGTH
    ensures var after := FillSlot(sector, e, shortName, first, size);
      var b := SlotIn(after, e);
      && NameOf(b) == shortName && FirstClusterOf(b) == first && SizeOf(b) == size && b[11] == 0x20
      && b[20] as int * 0x1_0000 + b[21] as int * 0x100_0000 + b[26] as int + b[27] as int * 0x100 == first
      && b[28] as int + b[29] as int * 0x100 + b[30] as int * 0x1_0000 + b[31] as int * 0x100_0000 == size
      && b[12..20] == SlotIn(sector, e)[12..20] && b[22..26] == SlotIn(sector, e)[22..26]
      && (f != e ==> SlotIn(after, f) == SlotIn(sector, f))
  {
    hide FillSlot, Bytes16, Bytes32, Le16, Le32;
    var after := FillSlot(sector, e, shortName, first, size);
    var b, was, at := SlotIn(after, e), SlotIn(sector, e), e * DIR_ENTRY_SIZE;
    FillSlotBytes(sector, e, shortName, first, size);
    SliceOfSlice(after, at, at + 32, 0, 11);
    SliceOfSlice(after, at, at + 32, 12, 20);
    SliceOfSlice(after, at, at + 32, 20, 22);
    SliceOfSlice(after, at, at + 32, 22, 26);
    SliceOfSlice(after, at, at + 32, 26, 28);
    SliceOfSlice(after, at, at + 32, 28, 32);
    SliceOfSlice(sector, at, at + 32, 12, 20);
    SliceOfSlice(sector, at, at + 32, 22, 26);
    LeOfSlice(b);
    LeOfFields(b);
    if f != e {
      assert SlotIn(after, f) == SlotIn(sector, f);
    }
  }

  lemma SliceOfSlice(s: seq<u8>, a: nat, b: nat, i: nat, j: nat)
    requires a <= b <= |s| && i <= j <= b - a
    ensures s[a..b][i..j] == s[a + i..a + j]
  {
    forall p | 0 <= p < j - i
      ensures s[a..b][i..j][p] == s[a + i..a + j][p]
    {
      assert s[a..b][i..j][p] == s[a..b][i + p] == s[a + i + p];
    }
  }

  lemma LeOfFields(b: Slot)
    ensures FirstClusterOf(b) ==
            b[20] as int * 0x1_0000 + b[21] as int * 0x100_0000 + b[26] as int + b[27] as int * 0x100
    ensures SizeOf(b) ==
            b[28] as int + b[29] as int * 0x100 + b[30] as int * 0x1_0000 + b[31] as int * 0x100_0000
  {
  }

  lemma LeOfSlice(b: Slot)
    ensures Le16(b, 20) == Le16(b[20..22], 0) && Le16(b, 26) == Le16(b[26..28], 0)
    ensures Le32(b, 28) == Le32(b[28..32], 0)
  {
  }

  lemma FillSlotBytes(sector: Sector, e: nat, shortName: seq<u8>, first: u32, size: u32)
    requires e < SLOTS_PER_SECTOR && |shortName| == NAME_LENGTH
    ensures var after := FillSlot(sector, e, shortName, first, size);
      var at := e * DIR_ENTRY_SIZE;
      && after[at..at + 11] == shortName && after[at + 11] == ATTR_ARCHIVE
      && after[at + 12..at + 20] == sector[at + 12..at + 20]
      && after[at + 20..at + 22] == Bytes16(first / 0x1_0000)
      && after[at + 22..at + 26] == sector[at + 22..at + 26]
      && after[at + 26..at + 28] == Bytes16(first % 0x1_0000)
      && after[at + 28..at + 32] == Bytes32(size)
      && forall i :: 0 <= i < BYTES_PER_SECTOR && !(at <= i < at + 32) ==> after[i] == sector[i]
  {
    hide Bytes16, Bytes32;
  }

  // ---------------------------------------------------------------- the root directory

  /** Sector t of the root cluster is data sector t. */
  function SlotAt(v: Vol, i: nat): Slot
    requires i < ROOT_SLOTS
  {
    SlotIn(v.data[i / SLOTS_PER_SECTOR], i % SLOTS_PER_SECTOR)
  }

  /** Every byte of the root cluster lies in exactly one of its 128 slots. */
  lemma SlotsTileTheRoot(v: Vol, t: nat, p: nat, i: nat, b: nat)
    requires t < 8 && p < 512 && i < ROOT_SLOTS && b < DIR_ENTRY_SIZE
    ensures ROOT_SLOTS == 128 && DIR_ENTRY_SIZE == 32
    ensures i == 16 * t + p / 32 && b == p % 32 <==> 512 * t + p == 32 * i + b
    ensures 512 * t + p == 32 * i + b ==> SlotAt(v, i)[b] == v.data[t][p]
  {
  }

  function SetSlot(v: Vol, i: nat, shortName: seq<u8>, first: u32, size: u32): Vol
    requires i < ROOT_SLOTS && |shortName| == NAME_LENGTH
  {
    SetSector(v, i / SLOTS_PER_SECTOR,
              FillSlot(v.data[i / SLOTS_PER_SECTOR], i % SLOTS_PER_SECTOR, shortName, first, size))
  }

  /** Filling a slot changes that slot and nothing else on the volume. */
  lemma SetSlotOnly(v: Vol, i: nat, shortName: seq<u8>, first: u32, size: u32, j: nat)
    requires i < ROOT_SLOTS && j < ROOT_SLOTS && |shortName| == NAME_LENGTH
    ensures var w := SetSlot(v, i, shortName, first, size);
      && w.reserved == v.reserved && w.fats == v.fats
      && (forall s :: SECTORS_PER_CLUSTER <= s < DATA_SECTORS ==> w.data[s] == v.data[s])
      && (j != i ==> SlotAt(w, j) == SlotAt(v, j))
      && NameOf(SlotAt(w, i)) == shortName
      && FirstClusterOf(SlotAt(w, i)) == first && SizeOf(SlotAt(w, i)) == size
  {
    hide FillSlot, NameOf, FirstClusterOf, SizeOf, SlotIn;
    SlotRoundTrip(v.data[i / SLOTS_PER_SECTOR], i % SLOTS_PER_SECTOR, shortName, first, size, j % SLOTS_PER_SECTOR);
  }

  /** The first `n` slots are live; of the others only the first may hold anything, and then only a
      name that does not occupy it. */
  ghost predicate DirShape(v: Vol, n: nat) {
    && n <= ROOT_SLOTS
    && (forall i :: 0 <= i < n ==> Live(SlotAt(v, i)))
    && (forall i :: n <= i < ROOT_SLOTS ==> !Live(SlotAt(v, i)))
    && (forall i :: n < i < ROOT_SLOTS ==> SlotAt(v, i)[0] == UNUSED)
  }

  // ---------------------------------------------------------------- scans of one sector

  predicate AllLive(sector: Sector, count: nat)
    requires count <= SLOTS_PER_SECTOR
  {
    forall e :: 0 <= e < count ==> Live(SlotIn(sector, e))
  }

  /** The writer's scan: the first slot of the sector that is not live. */
  method FindUnusedSlot(bytes: array<u8>) returns (entryIndex: nat)
    requires bytes.Length == BYTES_PER_SECTOR
    ensures entryIndex <= SLOTS_PER_SECTOR
    ensures entryIndex < SLOTS_PER_SECTOR ==> !Live(SlotIn(bytes[..], entryIndex))
    ensures AllLive(bytes[..], entryIndex)
  {
    entryIndex := 0;
    while entryIndex < SLOTS_PER_SECTOR
      invariant entryIndex <= SLOTS_PER_SECTOR
      invariant AllLive(bytes[..], entryIndex)
    {
      var entryStart := entryIndex * DIR_ENTRY_SIZE;
      var firstByte := bytes[entryStart];
      assert firstByte == SlotIn(bytes[..], entryIndex)[0];
      if firstByte == UNUSED || firstByte == DELETED {
        return;
      }
      entryIndex := entryIndex + 1;
    }
  }

  /** The reader's scan: the first live slot of that name before any unused slot of the sector. */
  method FindNamedSlot(bytes: array<u8>, shortName: seq<u8>) returns (entryIndex: nat)
    requires bytes.Length == BYTES_PER_SECTOR
    ensures entryIndex <= SLOTS_PER_SECTOR
    ensures entryIndex < SLOTS_PER_SECTOR ==>
      Live(SlotIn(bytes[..], entryIndex)) && NameOf(SlotIn(bytes[..], entryIndex)) == shortName
    ensures entryIndex < SLOTS_PER_SECTOR ==> forall e :: 0 <= e < entryIndex ==> SlotIn(bytes[..], e)[0] != UNUSED
    ensures forall e :: 0 <= e < entryIndex ==>
      var b := SlotIn(bytes[..], e);
      (Live(b) && NameOf(b) == shortName ==>
        exists z :: 0 <= z < e && SlotIn(bytes[..], z)[0] == UNUSED)
  {
    entryIndex := 0;
    while entryIndex < SLOTS_PER_SECTOR
      invariant entryIndex <= SLOTS_PER_SECTOR
      invariant forall e :: 0 <= e < entryIndex ==>
        var b := SlotIn(bytes[..], e); b[0] != UNUSED && !(Live(b) && NameOf(b) == shortName)
    {
      var entryStart := entryIndex * DIR_ENTRY_SIZE;
      var firstByte := bytes[entryStart];
      ghost var b := SlotIn(bytes[..], entryIndex);
      assert firstByte == b[0];
      assert NameOf(b) == bytes[entryStart..entryStart + NAME_LENGTH];
      if firstByte == UNUSED {
        return SLOTS_PER_SECTOR;
      }
      if firstByte != DELETED {
        if bytes[entryStart..entryStart + NAME_LENGTH] == shortName {
          return;
        }
      }
      entryIndex := entryIndex + 1;
    }
  }

  /** The writer's patches, made in the sector buffer. */
  method PatchSlot(bytes: array<u8>, entryIndex: nat, shortName: seq<u8>, first: u32, size: u32)
    requires bytes.Length == BYTES_PER_SECTOR && entryIndex < SLOTS_PER_SECTOR && |shortName| == NAME_LENGTH
    modifies bytes
    ensures bytes[..] == FillSlot(old(bytes[..]), entryIndex, shortName, first, size)
  {
    hide Patch, Bytes16, Bytes32;
    var entryStart := entryIndex * DIR_ENTRY_SIZE;
    CopyFromSlice(bytes, entryStart, shortName);
    CopyFromSlice(bytes, entryStart + 11, [ATTR_ARCHIVE]);
    CopyFromSlice(bytes, entryStart + 20, Bytes16(first / 0x1_0000));
    CopyFromSlice(bytes, entryStart + 26, Bytes16(first % 0x1_0000));
    CopyFromSlice(bytes, entryStart + 28, Bytes32(size));
  }

  // ---------------------------------------------------------------- adding an entry

  /** Puts an entry into the first slot that is not live: the last sector write of write_file. */
  method AddEntry(disk: Disk, shortName: seq<u8>, first: u32, size: u32, ghost n: nat) returns (r: Result<()>)
    requires |shortName| == NAME_LENGTH && DirShape(Now(disk), n)
    modifies disk
    ensures r.Success? ==>
      n < ROOT_SLOTS && States(disk) == old(States(disk)) + [SetSlot(old(Now(disk)), n, shortName, first, size)]
    ensures r.Failure? ==>
      States(disk) == old(States(disk)) && (r.error == AtaError || (r.error == DirectoryFull && n == ROOT_SLOTS))
    ensures r == Failure(DirectoryFull) ==> NoRoom(old(Now(disk)))
    ensures r.Success? ==> !NoRoom(old(Now(disk)))
    ensures Accounted(old(disk.faults), disk.faults, r)
  {
    hide VolOf, States, BytesOf, WordsOf, FillSlot, Live, SlotIn, AllLive, DirShape, SetSlot, NoRoom;
    DirShapeRange(Now(disk), n);
    RoomLeft(Now(disk), n);
    var rootDirStart := ClusterToSector(ROOT_CLUSTER).value;
    for sectorOffset := 0 to SECTORS_PER_CLUSTER
      invariant States(disk) == old(States(disk)) && disk.sectors == old(disk.sectors)
      invariant n >= sectorOffset * SLOTS_PER_SECTOR && disk.faults == old(disk.faults)
    {
      var sector := rootDirStart + sectorOffset;
      var _, bytes :- LoadSector(disk, sector);
      RootSectorIsStored(disk.sectors, sectorOffset);
      assert bytes[..] == Now(disk).data[sectorOffset];
      var entryIndex := FindUnusedSlot(bytes);
      FirstUnusedIsEnd(Now(disk), n, sectorOffset, entryIndex);
      if entryIndex < SLOTS_PER_SECTOR {
        PatchSlot(bytes, entryIndex, shortName, first, size);
        ghost var raw := disk.sectors;
        var _ :- StoreSector(disk, sector, bytes);
        SlotWrite(raw, n, shortName, first, size);
        return Success(());
      }
    }
    return Failure(DirectoryFull);
  }

  lemma RootSectorIsStored(raw: Raw, t: nat)
    requires t < SECTORS_PER_CLUSTER
    ensures DATA_START_SECTOR + t < TOTAL_SECTORS < LBA_LIMIT
    ensures BytesOf(raw[DATA_START_SECTOR + t]) == VolOf(raw).data[t]
  {
  }

  lemma FirstUnusedIsEnd(v: Vol, n: nat, t: nat, e: nat)
    requires DirShape(v, n) && t < SECTORS_PER_CLUSTER && e <= SLOTS_PER_SECTOR && n >= t * SLOTS_PER_SECTOR
    requires e < SLOTS_PER_SECTOR ==> !Live(SlotIn(v.data[t], e))
    requires AllLive(v.data[t], e)
    ensures if e < SLOTS_PER_SECTOR then n == t * SLOTS_PER_SECTOR + e else n >= (t + 1) * SLOTS_PER_SECTOR
  {
    hide Live, SlotIn;
    var i := t * SLOTS_PER_SECTOR + e;
    if e < SLOTS_PER_SECTOR {
      assert SlotAt(v, i) == SlotIn(v.data[t], e);
      LiveIsBelow(v, n, i);
    }
    if e > 0 {
      assert SlotAt(v, i - 1) == SlotIn(v.data[t], e - 1);
      LiveIsBelow(v, n, i - 1);
    }
  }

  lemma DirShapeRange(v: Vol, n: nat)
    requires DirShape(v, n)
    ensures n <= ROOT_SLOTS
  {
  }

  /** The directory is full exactly when all 128 slots are live. */
  lemma RoomLeft(v: Vol, n: nat)
    requires DirShape(v, n)
    ensures NoRoom(v) <==> n == 128
  {
    hide DirShape, Live, SlotIn;
    DirShapeRange(v, n);
    forall t: nat, p: nat | t < 8 && p < 512 && p % 32 == 0
      ensures v.data[t][p] != 0x00 && v.data[t][p] != 0xE5 <==> 16 * t + p / 32 < n
    {
      SlotsTileTheRoot(v, t, p, 16 * t + p / 32, 0);
      LiveIsBelow(v, n, 16 * t + p / 32);
      LiveByte(SlotAt(v, 16 * t + p / 32));
    }
    if n < 128 {
      assert v.data[n / 16][n % 16 * 32] == 0x00 || v.data[n / 16][n % 16 * 32] == 0xE5;
    }
  }

  lemma LiveByte(b: Slot)
    ensures Live(b) <==> b[0] != 0x00 && b[0] != 0xE5
  {
  }

  lemma LiveIsBelow(v: Vol, n: nat, i: nat)
    requires DirShape(v, n) && i < ROOT_SLOTS
    ensures Live(SlotAt(v, i)) <==> i < n
  {
  }

  lemma SlotWrite(raw: Raw, n: nat, shortName: seq<u8>, first: u32, size: u32)
    requires n < ROOT_SLOTS && |shortName| == NAME_LENGTH
    ensures var s := DATA_START_SECTOR + n / SLOTS_PER_SECTOR;
      var bytes := FillSlot(BytesOf(raw[s]), n % SLOTS_PER_SECTOR, shortName, first, size);
      VolOf(raw[s := WordsOf(bytes)]) == SetSlot(VolOf(raw), n, shortName, first, size)
  {
    hide VolOf, BytesOf, WordsOf, FillSlot, SetSector;
    var s := DATA_START_SECTOR + n / SLOTS_PER_SECTOR;
    RootSectorIsStored(raw, n / SLOTS_PER_SECTOR);
    DataSectorWrite(raw, s, FillSlot(BytesOf(raw[s]), n % SLOTS_PER_SECTOR, shortName, first, size));
  }
}
