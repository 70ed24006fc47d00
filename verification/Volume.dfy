/** The drive's contents decoded into the four areas of a FAT32 volume, and what one sector write
    does to them. */
module Volume {
  import opened Results
  import opened Words
  import opened Geometry
  import opened Ata
  import opened Traces

  datatype Areas = Areas(
    reserved: seq<Sector>,        // sectors before the first FAT
    fats: seq<seq<u32>>,          // the raw 32-bit entries of each FAT copy
    data: seq<Sector>)            // the sectors of all clusters

  predicate Shaped(a: Areas) {
    && |a.reserved| == RESERVED_SECTORS
    && |a.fats| == NUM_FATS
    && |a.fats[0]| == FAT_ENTRIES
    && |a.fats[1]| == FAT_ENTRIES
    && |a.data| == DATA_SECTORS
  }

  const BLANK_FAT: seq<u32> := seq(FAT_ENTRIES, _ => 0)

  type Vol = a: Areas | Shaped(a)
    witness Areas(seq<Sector>(RESERVED_SECTORS, _ => ZeroSector()), [BLANK_FAT, BLANK_FAT],
                  seq<Sector>(DATA_SECTORS, _ => ZeroSector()))

  /** The sector holding the entry of cluster `c` in one of the copies. */
  function FatSector(copy: nat, c: nat): (s: nat)
    ensures c < FAT_ENTRIES ==> FatStart(copy) <= s < FatStart(copy) + SECTORS_PER_FAT <= DATA_START_SECTOR
  {
    FatStart(copy) + c / ENTRIES_PER_SECTOR
  }

  function FatStart(copy: nat): nat {
    if copy == 0 then FAT_START_SECTOR else FAT_START_SECTOR + SECTORS_PER_FAT
  }

  function FatOf(raw: Raw, copy: nat): (f: seq<u32>)
    requires copy < NUM_FATS
    ensures |f| == FAT_ENTRIES
  {
    seq(FAT_ENTRIES,
        c requires 0 <= c < FAT_ENTRIES =>
          Le32(BytesOf(raw[FatSector(copy, c)]), 4 * (c % ENTRIES_PER_SECTOR)))
  }

  function SectorsOf(raw: Raw, from: nat, count: nat): (s: seq<Sector>)
    requires from + count <= TOTAL_SECTORS
    ensures |s| == count
  {
    seq<Sector>(count, i requires 0 <= i < count => BytesOf(raw[from + i]))
  }

  function VolOf(raw: Raw): Vol {
    Areas(SectorsOf(raw, 0, RESERVED_SECTORS),
          [FatOf(raw, 0), FatOf(raw, 1)],
          SectorsOf(raw, DATA_START_SECTOR, DATA_SECTORS))
  }

  /** One raw entry of one copy replaced; nothing happens outside the FAT. */
  function SetRaw(v: Vol, copy: nat, c: nat, x: u32): Vol {
    if copy < NUM_FATS && c < FAT_ENTRIES then
      var fat: seq<u32> := v.fats[copy][c := x];
      v.(fats := v.fats[copy := fat])
    else v
  }

  /** One data sector replaced; nothing happens outside the data area. */
  function SetSector(v: Vol, s: int, bytes: Sector): Vol {
    if 0 <= s < DATA_SECTORS then v.(data := v.data[s := bytes]) else v
  }

  /** Patching four bytes of a FAT sector changes one entry of one copy and nothing else: entries
      never straddle sectors, and sectors of the copies are disjoint from each other and the rest. */
  lemma FatSectorWrite(raw: Raw, copy: nat, c: nat, x: u32)
    requires copy < NUM_FATS && c < FAT_ENTRIES
    ensures var s := FatSector(copy, c);
      var bytes := Patch(BytesOf(raw[s]), 4 * (c % ENTRIES_PER_SECTOR), Bytes32(x));
      VolOf(raw[s := WordsOf(bytes)]) == SetRaw(VolOf(raw), copy, c, x)
  {
    var s := FatSector(copy, c);
    var bytes: Sector := Patch(BytesOf(raw[s]), 4 * (c % ENTRIES_PER_SECTOR), Bytes32(x));
    var raw': Raw := raw[s := WordsOf(bytes)];
    SectorRoundTrip(bytes, raw[s]);
    var v, v' := VolOf(raw), SetRaw(VolOf(raw), copy, c, x);
    assert SectorsOf(raw', 0, RESERVED_SECTORS) == v.reserved;
    assert SectorsOf(raw', DATA_START_SECTOR, DATA_SECTORS) == v.data;
    forall k: nat, d: nat | k < NUM_FATS && d < FAT_ENTRIES
      ensures FatOf(raw', k)[d] == v'.fats[k][d]
    {
      if FatSector(k, d) == s {
        SameFatSector(copy, c, k, d);
        assert raw'[FatSector(k, d)] == WordsOf(bytes);
        EntryPatch(BytesOf(raw[s]), c % ENTRIES_PER_SECTOR, x, d % ENTRIES_PER_SECTOR);
      }
    }
    assert FatOf(raw', 0) == v'.fats[0];
    assert FatOf(raw', 1) == v'.fats[1];
  }

  lemma SameFatSector(k: nat, c: nat, l: nat, d: nat)
    requires k < NUM_FATS && l < NUM_FATS && c < FAT_ENTRIES && d < FAT_ENTRIES
    requires FatSector(k, c) == FatSector(l, d)
    ensures k == l
    ensures c % ENTRIES_PER_SECTOR == d % ENTRIES_PER_SECTOR ==> c == d
  {
    assert c / ENTRIES_PER_SECTOR == d / ENTRIES_PER_SECTOR;
  }

  lemma EntryPatch(b: Sector, e: nat, x: u32, f: nat)
    requires e < ENTRIES_PER_SECTOR && f < ENTRIES_PER_SECTOR
    ensures Le32(Patch(b, 4 * e, Bytes32(x)), 4 * f) == if e == f then x else Le32(b, 4 * f)
  {
    var p := Patch(b, 4 * e, Bytes32(x));
    if e == f {
      assert Le32(p, 4 * e) == Le32(Bytes32(x), 0);
    }
  }

  /** Writing a data sector changes that sector and nothing else. */
  lemma DataSectorWrite(raw: Raw, s: nat, bytes: Sector)
    requires DATA_START_SECTOR <= s < TOTAL_SECTORS
    ensures VolOf(raw[s := WordsOf(bytes)]) == SetSector(VolOf(raw), s - DATA_START_SECTOR, bytes)
  {
    var raw': Raw := raw[s := WordsOf(bytes)];
    var v' := SetSector(VolOf(raw), s - DATA_START_SECTOR, bytes);
    SectorRoundTrip(bytes, raw[s]);
    assert SectorsOf(raw', 0, RESERVED_SECTORS) == v'.reserved;
    assert FatOf(raw', 0) == v'.fats[0];
    assert FatOf(raw', 1) == v'.fats[1];
    assert SectorsOf(raw', DATA_START_SECTOR, DATA_SECTORS) == v'.data;
  }

  // ---------------------------------------------------------------- sectors as bytes

  /** The volume on the drive now. */
  function Now(disk: Disk): Vol
    reads disk`sectors
  {
    VolOf(disk.sectors)
  }

  /** The volumes the drive held so far, one after each sector write, the present one last. */
  ghost function States(disk: Disk): (s: seq<Vol>)
    reads disk`sectors, disk`history
    ensures s != [] && Last(s) == Now(disk)
  {
    Trace(disk.history) + [Now(disk)]
  }

  ghost function Trace(log: seq<Raw>): seq<Vol> {
    seq<Vol>(|log|, i requires 0 <= i < |log| => VolOf(log[i]))
  }

  lemma TracePush(log: seq<Raw>, raw: Raw)
    ensures Trace(log + [raw]) == Trace(log) + [VolOf(raw)]
  {
    hide VolOf;
  }

  /** read_sector followed by words_to_bytes */
  method LoadSector(disk: Disk, sector: u32) returns (r: Result<()>, bytes: array<u8>)
    modifies disk`taskFile, disk`faults
    ensures fresh(bytes) && bytes.Length == BYTES_PER_SECTOR
    ensures r.Success? ==> OnDrive(sector) && bytes[..] == BytesOf(disk.sectors[sector % LBA_LIMIT])
    ensures r.Failure? ==> r.error == AtaError
    ensures if OnDrive(sector) then Accounted(old(disk.faults), disk.faults, r)
            else disk.faults == old(disk.faults)
  {
    var words := new u16[WORDS_PER_SECTOR](_ => 0);
    r := disk.ReadSector(sector, words);
    bytes := WordsToBytes(words);
  }

  /** bytes_to_words followed by write_sector */
  method StoreSector(disk: Disk, sector: u32, bytes: array<u8>) returns (r: Result<()>)
    requires bytes.Length == BYTES_PER_SECTOR
    modifies disk
    ensures r.Success? ==>
      && OnDrive(sector)
      && disk.sectors == old(disk.sectors)[sector % LBA_LIMIT := WordsOf(bytes[..])]
      && States(disk) == old(States(disk)) + [Now(disk)]
    ensures r.Failure? ==>
      r.error == AtaError && disk.sectors == old(disk.sectors) && States(disk) == old(States(disk))
    ensures if OnDrive(sector) then Accounted(old(disk.faults), disk.faults, r)
            else disk.faults == old(disk.faults)
  {
    hide VolOf, Trace, WordsOf;
    TracePush(disk.history, disk.sectors);
    var words := BytesToWords(bytes);
    r := disk.WriteSector(sector, words);
  }
}
