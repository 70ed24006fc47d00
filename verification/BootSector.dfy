/** The boot and FSInfo sectors of the data disk: their bytes, and the volume a driver makes of them. */
module BootSector {
  import opened Words
  import opened Geometry

  const FSINFO_SECTOR: nat := 1
  const BACKUP_BOOT_SECTOR: nat := 6

  // ---------------------------------------------------------------- the bytes

  function Zeros(n: nat): (z: seq<u8>)
    ensures |z| == n
  {
    seq<u8>(n, _ => 0)
  }

  /** Jump code, OEM name, bytes per sector, sectors per cluster, reserved sectors. */
  predicate NameFields(b: Sector) {
    && b[0..1] == [0xEB] && b[1..2] == [0x58] && b[2..3] == [0x90]
    && b[3..11] == [0x41, 0x52, 0x4F, 0x4E, 0x41, 0x4F, 0x53, 0x20]
    && b[11..13] == [0x00, 0x02] && b[13..14] == [0x08] && b[14..16] == [0x20, 0x00]
  }

  /** FAT copies, root directory entries, 16-bit total, media byte, 16-bit FAT size, CHS geometry, hidden
      sectors, 32-bit total. */
  predicate SizeFields(b: Sector) {
    && b[16..17] == [0x02] && b[17..19] == [0, 0] && b[19..21] == [0, 0] && b[21..22] == [0xF8]
    && b[22..24] == [0, 0] && b[24..26] == [0x20, 0x00] && b[26..28] == [0x40, 0x00] && b[28..32] == [0, 0, 0, 0]
    && b[32..36] == [0x00, 0x00, 0x10, 0x00]
  }

  /** 32-bit FAT size, flags, version, root cluster, FSInfo sector, backup sector. */
  predicate Fat32Fields(b: Sector) {
    && b[36..40] == [0x00, 0x04, 0x00, 0x00] && b[40..42] == [0, 0] && b[42..44] == [0, 0]
    && b[44..48] == [0x02, 0x00, 0x00, 0x00] && b[48..50] == [0x01, 0x00] && b[50..52] == [0x06, 0x00]
    && b[52..64] == Zeros(12)
  }

  /** Drive number, signature, volume id, label, file-system type, boot signature. */
  predicate VolumeFields(b: Sector, volumeId: u32) {
    && b[64..65] == [0x80] && b[65..66] == [0] && b[66..67] == [0x29] && b[67..71] == Bytes32(volumeId)
    && b[71..82] == [0x41, 0x52, 0x4F, 0x4E, 0x41, 0x4F, 0x53, 0x20, 0x20, 0x20, 0x20]
    && b[82..90] == [0x46, 0x41, 0x54, 0x33, 0x32, 0x20, 0x20, 0x20] && b[90..510] == Zeros(420)
    && b[510..511] == [0x55] && b[511..512] == [0xAA]
  }

  /** All 512 bytes. */
  predicate DescribesVolume(b: Sector, volumeId: u32) {
    NameFields(b) && SizeFields(b) && Fat32Fields(b) && VolumeFields(b, volumeId)
  }

  predicate IsBootSector(b: Sector) {
    DescribesVolume(b, Le32(b, 67))
  }

  /** All 512 bytes of the FSInfo sector: three signatures, and two counts given as unknown. */
  predicate FsInfo(b: Sector) {
    && b[0..4] == [0x52, 0x52, 0x61, 0x41] && b[4..484] == Zeros(480)
    && b[484..488] == [0x72, 0x72, 0x41, 0x61] && b[488..492] == [0xFF, 0xFF, 0xFF, 0xFF]
    && b[492..496] == [0xFF, 0xFF, 0xFF, 0xFF] && b[496..508] == Zeros(12) && b[508..512] == [0x00, 0x00, 0x55, 0xAA]
  }

  // ---------------------------------------------------------------- the volume they describe

  /** What a driver computes from a boot sector: sector numbers, and the number of clusters. */
  datatype Layout = Layout(fatStart: int, fatSize: int, dataStart: int, clusterSize: int, clusters: int, root: int)

  /** A 16-bit field, or where it is zero the 32-bit field that replaces it. */
  function Either(b: Sector, at16: nat, at32: nat): u32
    requires at16 + 2 <= BYTES_PER_SECTOR && at32 + 4 <= BYTES_PER_SECTOR
  {
    if Le16(b, at16) != 0 then Le16(b, at16) else Le32(b, at32)
  }

  /** The layout by the rules of the FAT specification (sections "FAT Data Structure" and "FAT Type
      Determination"); a sector or cluster size of zero makes no volume. */
  function LayoutOf(b: Sector): (l: Layout) {
    var bytesPerSector, sectorsPerCluster := Le16(b, 11), b[13];
    if bytesPerSector == 0 || sectorsPerCluster == 0 then Layout(0, 0, 0, 0, 0, 0)
    else
      var rootDirSectors := (Le16(b, 17) * 32 + bytesPerSector - 1) / bytesPerSector;
      var fatStart, fatSize := Le16(b, 14), Either(b, 22, 36);
      var dataStart := fatStart + b[16] * fatSize + rootDirSectors;
      Layout(fatStart, fatSize, dataStart, bytesPerSector * sectorsPerCluster,
             (Either(b, 19, 32) - dataStart) / sectorsPerCluster, Le32(b, 44))
  }

  /** A driver finds a FAT32 volume, which is what 65,525 clusters and more mean, with the areas and
      clusters of the constants, and FATs that have an entry for every cluster. */
  lemma LayoutFromBootSector(b: Sector, volumeId: u32)
    requires DescribesVolume(b, volumeId)
    ensures LayoutOf(b) == Layout(32, 1024, 2080, 4096, 130_812, 2)
    ensures LayoutOf(b) ==
      Layout(FAT_START_SECTOR, SECTORS_PER_FAT, DATA_START_SECTOR, CLUSTER_SIZE, TOTAL_CLUSTERS, ROOT_CLUSTER)
    ensures LayoutOf(b).clusters >= 65525 && (LayoutOf(b).clusters + 2) * 4 <= 1024 * 512
    ensures FSINFO_SECTOR < 32 && BACKUP_BOOT_SECTOR + 1 < 32
  {
    hide Le16, Le32;
    NameValues(b);
    SizeValues(b);
    Fat32Values(b);
  }

  lemma NameValues(b: Sector)
    requires NameFields(b)
    ensures Le16(b, 11) == 512 && b[13] == 8 && Le16(b, 14) == 32
  {
    assert b[11] == b[11..13][0] && b[12] == b[11..13][1] && b[13] == b[13..14][0];
    assert b[14] == b[14..16][0] && b[15] == b[14..16][1];
  }

  lemma IdValue(b: Sector, volumeId: u32)
    requires DescribesVolume(b, volumeId)
    ensures Le32(b, 67) == volumeId && IsBootSector(b)
  {
    assert forall i :: 0 <= i < 4 ==> b[67 + i] == b[67..71][i];
  }

  lemma SizeValues(b: Sector)
    requires SizeFields(b)
    ensures b[16] == 2 && Le16(b, 17) == 0 && Le16(b, 19) == 0 && Le16(b, 22) == 0 && Le32(b, 32) == 1_048_576
  {
    assert b[16] == b[16..17][0] && b[17] == b[17..19][0] && b[18] == b[17..19][1];
    assert b[19] == b[19..21][0] && b[20] == b[19..21][1] && b[22] == b[22..24][0] && b[23] == b[22..24][1];
    assert forall i :: 0 <= i < 4 ==> b[32 + i] == b[32..36][i];
  }

  lemma Fat32Values(b: Sector)
    requires Fat32Fields(b)
    ensures Le32(b, 36) == 1024 && Le32(b, 44) == 2
  {
    assert forall i :: 0 <= i < 4 ==> b[36 + i] == b[36..40][i] && b[44 + i] == b[44..48][i];
  }

  // ---------------------------------------------------------------- how they are written

  /** `sector[at..at + |field|].copy_from_slice(field)`, as seen from ranges of the sector. */
  method Put(sector: array<u8>, at: nat, field: seq<u8>)
    requires sector.Length == BYTES_PER_SECTOR && at + |field| <= BYTES_PER_SECTOR
    modifies sector
    ensures sector[..][at..at + |field|] == field
    ensures forall lo, hi {:trigger sector[..][lo..hi]} ::
      0 <= lo <= hi <= BYTES_PER_SECTOR && (hi <= at || at + |field| <= lo) ==>
        sector[..][lo..hi] == old(sector[..])[lo..hi]
  {
    CopyFromSlice(sector, at, field);
  }

  /** `sector[at] = x` */
  method PutByte(sector: array<u8>, at: nat, x: u8)
    requires sector.Length == BYTES_PER_SECTOR && at < BYTES_PER_SECTOR
    modifies sector
    ensures sector[..][at..at + 1] == [x]
    ensures forall lo, hi {:trigger sector[..][lo..hi]} ::
      0 <= lo <= hi <= BYTES_PER_SECTOR && (hi <= at || at < lo) ==> sector[..][lo..hi] == old(sector[..])[lo..hi]
  {
    sector[at] := x;
  }

  /** The boot sector in memory. */
  method BootBuffer(volumeId: u32) returns (sector: array<u8>)
    ensures fresh(sector) && sector.Length == BYTES_PER_SECTOR && DescribesVolume(sector[..], volumeId)
  {
    hide NameFields, SizeFields, Fat32Fields, VolumeFields;
    sector := new u8[BYTES_PER_SECTOR](_ => 0);
    assert sector[..] == ZeroSector();
    ZeroRange(52, 64);
    ZeroRange(90, 510);
    PutNameFields(sector);
    ghost var b1 := sector[..];
    PutSizeFields(sector);
    ghost var b2 := sector[..];
    SubRange(ZeroSector(), b1, 16, 512, 52, 64);
    SubRange(b1, b2, 36, 512, 52, 64);
    PutFat32Fields(sector);
    ghost var b3 := sector[..];
    SubRange(ZeroSector(), b1, 16, 512, 90, 510);
    SubRange(b1, b2, 36, 512, 90, 510);
    SubRange(b2, b3, 64, 512, 90, 510);
    PutVolumeFields(sector, volumeId);
    FieldsByRange(b1, b2, volumeId);
    FieldsByRange(b2, b3, volumeId);
    FieldsByRange(b3, sector[..], volumeId);
  }

  /** Bytes 0 to 15. */
  method PutNameFields(sector: array<u8>)
    requires sector.Length == BYTES_PER_SECTOR
    modifies sector
    ensures NameFields(sector[..])
    ensures sector[..][16..512] == old(sector[..])[16..512]
  {
    hide Bytes16;
    FieldBytes();
    PutByte(sector, 0, 0xEB);
    PutByte(sector, 1, 0x58);
    PutByte(sector, 2, 0x90);
    Put(sector, 3, [0x41, 0x52, 0x4F, 0x4E, 0x41, 0x4F, 0x53, 0x20]);
    Put(sector, 11, Bytes16(BYTES_PER_SECTOR));
    PutByte(sector, 13, SECTORS_PER_CLUSTER);
    Put(sector, 14, Bytes16(RESERVED_SECTORS));
  }

  /** Bytes 16 to 35. */
  method PutSizeFields(sector: array<u8>)
    requires sector.Length == BYTES_PER_SECTOR
    modifies sector
    ensures SizeFields(sector[..])
    ensures sector[..][0..16] == old(sector[..])[0..16] && sector[..][36..512] == old(sector[..])[36..512]
  {
    hide Bytes16, Bytes32;
    FieldBytes();
    PutByte(sector, 16, NUM_FATS);
    Put(sector, 17, Bytes16(0));
    Put(sector, 19, Bytes16(0));
    PutByte(sector, 21, 0xF8);
    Put(sector, 22, Bytes16(0));
    Put(sector, 24, Bytes16(32));
    Put(sector, 26, Bytes16(64));
    Put(sector, 28, Bytes32(0));
    Put(sector, 32, Bytes32(TOTAL_SECTORS));
  }

  /** Bytes 36 to 51; the reserved ones after them stay zero. */
  method PutFat32Fields(sector: array<u8>)
    requires sector.Length == BYTES_PER_SECTOR && sector[..][52..64] == Zeros(12)
    modifies sector
    ensures Fat32Fields(sector[..])
    ensures sector[..][0..36] == old(sector[..])[0..36] && sector[..][64..512] == old(sector[..])[64..512]
  {
    hide Bytes16, Bytes32;
    FieldBytes();
    Put(sector, 36, Bytes32(SECTORS_PER_FAT));
    Put(sector, 40, Bytes16(0));
    Put(sector, 42, Bytes16(0));
    Put(sector, 44, Bytes32(ROOT_CLUSTER));
    Put(sector, 48, Bytes16(1));
    Put(sector, 50, Bytes16(6));
  }

  /** Bytes 64 to 511; the boot code stays zero. */
  method PutVolumeFields(sector: array<u8>, volumeId: u32)
    requires sector.Length == BYTES_PER_SECTOR && sector[..][90..510] == Zeros(420)
    modifies sector
    ensures VolumeFields(sector[..], volumeId)
    ensures sector[..][0..64] == old(sector[..])[0..64]
  {
    hide Bytes32;
    PutByte(sector, 64, 0x80);
    PutByte(sector, 65, 0);
    PutByte(sector, 66, 0x29);
    Put(sector, 67, Bytes32(volumeId));
    Put(sector, 71, [0x41, 0x52, 0x4F, 0x4E, 0x41, 0x4F, 0x53, 0x20, 0x20, 0x20, 0x20]);
    Put(sector, 82, [0x46, 0x41, 0x54, 0x33, 0x32, 0x20, 0x20, 0x20]);
    PutByte(sector, 510, 0x55);
    PutByte(sector, 511, 0xAA);
  }

  /** The FSInfo sector in memory. */
  method FsInfoBuffer() returns (sector: array<u8>)
    ensures fresh(sector) && sector.Length == BYTES_PER_SECTOR && FsInfo(sector[..])
  {
    hide Bytes32;
    FieldBytes();
    sector := new u8[BYTES_PER_SECTOR](_ => 0);
    assert sector[..] == ZeroSector();
    ZeroRange(4, 484);
    ZeroRange(496, 508);
    Put(sector, 0, Bytes32(0x4161_5252));
    Put(sector, 484, Bytes32(0x6141_7272));
    Put(sector, 488, Bytes32(0xFFFF_FFFF));
    Put(sector, 492, Bytes32(0xFFFF_FFFF));
    Put(sector, 508, Bytes32(0xAA55_0000));
  }

  /** The little-endian bytes of the values above. */
  lemma FieldBytes()
    ensures Bytes16(0) == [0, 0] && Bytes16(1) == [1, 0] && Bytes16(6) == [6, 0]
    ensures Bytes16(32) == [0x20, 0x00] && Bytes16(64) == [0x40, 0x00] && Bytes16(512) == [0x00, 0x02]
    ensures Bytes32(0) == [0, 0, 0, 0] && Bytes32(2) == [2, 0, 0, 0]
    ensures Bytes32(1024) == [0x00, 0x04, 0x00, 0x00] && Bytes32(1_048_576) == [0x00, 0x00, 0x10, 0x00]
    ensures Bytes32(0x4161_5252) == [0x52, 0x52, 0x61, 0x41] && Bytes32(0x6141_7272) == [0x72, 0x72, 0x41, 0x61]
    ensures Bytes32(0xFFFF_FFFF) == [0xFF, 0xFF, 0xFF, 0xFF] && Bytes32(0xAA55_0000) == [0x00, 0x00, 0x55, 0xAA]
    ensures Bytes32(0x0FFF_FFF8) == [0xF8, 0xFF, 0xFF, 0x0F] && Bytes32(0x0FFF_FFFF) == [0xFF, 0xFF, 0xFF, 0x0F]
  {
  }

  lemma ZeroRange(lo: nat, hi: nat)
    requires lo <= hi <= BYTES_PER_SECTOR
    ensures ZeroSector()[lo..hi] == Zeros(hi - lo)
  {
  }

  lemma SubRange(b: Sector, c: Sector, from: nat, to: nat, lo: nat, hi: nat)
    requires from <= lo <= hi <= to <= BYTES_PER_SECTOR && b[from..to] == c[from..to]
    ensures b[lo..hi] == c[lo..hi]
  {
    forall i | 0 <= i < hi - lo
      ensures b[lo..hi][i] == c[lo..hi][i]
    {
      assert b[from..to][lo + i - from] == c[from..to][lo + i - from];
    }
  }

  /** Each group of fields is decided by its own bytes. */
  lemma FieldsByRange(b: Sector, c: Sector, volumeId: u32)
    ensures b[0..16] == c[0..16] && NameFields(b) ==> NameFields(c)
    ensures b[0..36] == c[0..36] && NameFields(b) && SizeFields(b) ==> NameFields(c) && SizeFields(c)
    ensures b[0..64] == c[0..64] && NameFields(b) && SizeFields(b) && Fat32Fields(b) ==>
              NameFields(c) && SizeFields(c) && Fat32Fields(c)
  {
    hide Zeros;
    if b[0..16] == c[0..16] {
      forall lo, hi {:trigger b[lo..hi]} {:trigger c[lo..hi]} | 0 <= lo <= hi <= 16
        ensures b[lo..hi] == c[lo..hi]
      {
        SubRange(b, c, 0, 16, lo, hi);
      }
    }
    if b[0..36] == c[0..36] {
      forall lo, hi {:trigger b[lo..hi]} {:trigger c[lo..hi]} | 0 <= lo <= hi <= 36
        ensures b[lo..hi] == c[lo..hi]
      {
        SubRange(b, c, 0, 36, lo, hi);
      }
    }
    if b[0..64] == c[0..64] {
      forall lo, hi {:trigger b[lo..hi]} {:trigger c[lo..hi]} | 0 <= lo <= hi <= 64
        ensures b[lo..hi] == c[lo..hi]
      {
        SubRange(b, c, 0, 64, lo, hi);
      }
    }
  }
}