/** File contents in cluster chains: writing a byte string into a chain and reading one back. */
module Chain {
  import opened Results
  import opened Words
  import opened Geometry
  import opened Ata
  import opened Traces
  import opened Volume
  import opened Fat

  // ---------------------------------------------------------------- what a chain holds

  /** The cluster `j` links after `c`, following FAT copy 1. */
  function Nth(v: Vol, c: nat, j: nat): nat {
    if j == 0 then c else Entry(v, 0, Nth(v, c, j - 1))
  }

  function DataIndex(c: nat, t: nat): int {
    (c - 2) * SECTORS_PER_CLUSTER + t
  }

  /** Byte `p` of the chain that starts at `c`. */
  function ByteAt(v: Vol, c: nat, p: nat): u8 {
    var cluster := Nth(v, c, p / CLUSTER_SIZE);
    if ValidCluster(cluster) then
      v.data[DataIndex(cluster, p % CLUSTER_SIZE / BYTES_PER_SECTOR)][p % BYTES_PER_SECTOR]
    else 0
  }

  /** The first `size` bytes of the chain that starts at `c`. */
  function Contents(v: Vol, c: nat, size: nat): (d: seq<u8>)
    ensures |d| == size
  {
    seq<u8>(size, p requires 0 <= p < size => ByteAt(v, c, p))
  }

  /** The first `size` bytes of the chain lie in clusters of the disk. Chains may be cyclic. */
  ghost predicate Walkable(v: Vol, c: nat, size: nat) {
    forall j: nat :: j * CLUSTER_SIZE < size ==> ValidCluster(Nth(v, c, j))
  }

  /** `cs` are the first clusters of a chain, all different. */
  ghost predicate Path(v: Vol, cs: seq<nat>) {
    && (forall i :: 0 <= i < |cs| ==> ValidCluster(cs[i]))
    && (forall i, j :: 0 <= i < j < |cs| ==> cs[i] != cs[j])
    && (forall i :: 0 < i < |cs| ==> cs[i] == Entry(v, 0, cs[i - 1]))
  }

  lemma {:induction false} PathIsNth(v: Vol, cs: seq<nat>, j: nat)
    requires Path(v, cs) && j < |cs|
    ensures Nth(v, cs[0], j) == cs[j]
  {
    hide Entry;
    if j > 0 {
      PathIsNth(v, cs, j - 1);
    }
  }

  // ---------------------------------------------------------------- writing

  function Min(a: nat, b: nat): nat {
    if a <= b then a else b
  }

  /** Bytes 512q to 512q + 511 of `data`, zero-padded. */
  function Chunk(data: seq<u8>, q: nat): (b: Sector)
    ensures forall i :: 0 <= i < BYTES_PER_SECTOR ==>
      b[i] == if q * BYTES_PER_SECTOR + i < |data| then data[q * BYTES_PER_SECTOR + i] else 0
  {
    seq<u8>(BYTES_PER_SECTOR, i requires 0 <= i =>
      if q * BYTES_PER_SECTOR + i < |data| then data[q * BYTES_PER_SECTOR + i] else 0)
  }

  /** Sectors written for `n` bytes: all sectors of every cluster the data reaches. */
  function SectorsFor(n: nat): nat {
    (n + CLUSTER_SIZE - 1) / CLUSTER_SIZE * SECTORS_PER_CLUSTER
  }

  /** The place of the q-th sector of a chain in the data area. */
  function Place(cs: seq<nat>, q: nat): int
    requires q < |cs| * SECTORS_PER_CLUSTER
  {
    DataIndex(cs[q / SECTORS_PER_CLUSTER], q % SECTORS_PER_CLUSTER)
  }

  /** The volumes that writing the first `q` sectors of `data` goes through. */
  function DataPlan(v: Vol, cs: seq<nat>, data: seq<u8>, q: nat): (p: seq<Vol>)
    requires q <= |cs| * SECTORS_PER_CLUSTER
    ensures |p| == q + 1 && p[0] == v
  {
    if q == 0 then [v]
    else
      var p := DataPlan(v, cs, data, q - 1);
      p + [SetSector(Last(p), Place(cs, q - 1), Chunk(data, q - 1))]
  }

  lemma {:induction false} DataPlanGrows(v: Vol, cs: seq<nat>, data: seq<u8>, q: nat, r: nat)
    requires q <= r <= |cs| * SECTORS_PER_CLUSTER
    ensures DataPlan(v, cs, data, q) <= DataPlan(v, cs, data, r)
    ensures DataPlan(v, cs, data, r)[q] == Last(DataPlan(v, cs, data, q))
  {
    hide SetSector, Place, Chunk;
    if q < r {
      DataPlanGrows(v, cs, data, q, r - 1);
    }
  }

  /** `w` differs from `v` at most in sectors of the clusters `cs`. */
  ghost predicate OnlyData(v: Vol, w: Vol, cs: seq<nat>) {
    && w.reserved == v.reserved && w.fats == v.fats
    && forall s :: 0 <= s < DATA_SECTORS && 2 + s / SECTORS_PER_CLUSTER !in cs ==> w.data[s] == v.data[s]
  }

  lemma SetSectorOnly(v: Vol, w: Vol, cs: seq<nat>, q: nat, bytes: Sector)
    requires OnlyData(v, w, cs) && q < |cs| * SECTORS_PER_CLUSTER && ValidCluster(cs[q / SECTORS_PER_CLUSTER])
    ensures OnlyData(v, SetSector(w, Place(cs, q), bytes), cs)
  {
    var c, t := cs[q / SECTORS_PER_CLUSTER], q % SECTORS_PER_CLUSTER;
    assert 2 + DataIndex(c, t) / SECTORS_PER_CLUSTER == c;
  }

  /** However far the writing got, no sector outside the chain's clusters has changed. */
  lemma {:induction false} DataPlanOnly(v: Vol, cs: seq<nat>, data: seq<u8>, q: nat)
    requires forall i :: 0 <= i < |cs| ==> ValidCluster(cs[i])
    requires q <= |cs| * SECTORS_PER_CLUSTER
    ensures forall w :: w in DataPlan(v, cs, data, q) ==> OnlyData(v, w, cs)
  {
    hide SetSector, Place, Chunk, OnlyData;
    if q == 0 {
      OnlyDataSelf(v, cs);
    } else {
      DataPlanOnly(v, cs, data, q - 1);
      SetSectorOnly(v, Last(DataPlan(v, cs, data, q - 1)), cs, q - 1, Chunk(data, q - 1));
    }
  }

  lemma OnlyDataSelf(v: Vol, cs: seq<nat>)
    ensures OnlyData(v, v, cs)
  {
  }

  lemma PlacesDiffer(v: Vol, cs: seq<nat>, q: nat, r: nat)
    requires Path(v, cs) && q < |cs| * SECTORS_PER_CLUSTER && r < |cs| * SECTORS_PER_CLUSTER
    ensures 0 <= Place(cs, q) < DATA_SECTORS
    ensures Place(cs, q) == Place(cs, r) ==> q == r
  {
    hide Entry;
    if Place(cs, q) == Place(cs, r) {
      assert cs[q / SECTORS_PER_CLUSTER] == cs[r / SECTORS_PER_CLUSTER];
    }
  }

  /** The q-th sector, once written, is not overwritten by later ones. */
  lemma {:induction false} DataPlanHolds(v: Vol, cs: seq<nat>, data: seq<u8>, q: nat, r: nat)
    requires Path(v, cs) && q < r <= |cs| * SECTORS_PER_CLUSTER
    ensures 0 <= Place(cs, q) < DATA_SECTORS
    ensures Last(DataPlan(v, cs, data, r)).data[Place(cs, q)] == Chunk(data, q)
  {
    hide Place, Chunk, Path;
    PlacesDiffer(v, cs, q, r - 1);
    PlacesDiffer(v, cs, r - 1, q);
    if q < r - 1 {
      DataPlanHolds(v, cs, data, q, r - 1);
    }
  }

  lemma SectorsForCovers(n: nat, p: nat)
    ensures n <= SectorsFor(n) / SECTORS_PER_CLUSTER * CLUSTER_SIZE
    ensures p < n ==> p / BYTES_PER_SECTOR < SectorsFor(n)
  {
  }

  lemma SectorsForNothing()
    ensures SectorsFor(0) == 0
  {
  }

  lemma SectorsForRound(n: nat, i: nat)
    requires i * CLUSTER_SIZE < n
    ensures (i + 1) * SECTORS_PER_CLUSTER <= SectorsFor(n)
    ensures n <= (i + 1) * CLUSTER_SIZE ==> (i + 1) * SECTORS_PER_CLUSTER == SectorsFor(n)
  {
  }

  lemma SectorsForFits(n: nat, m: nat)
    requires n <= m * CLUSTER_SIZE
    ensures SectorsFor(n) <= m * SECTORS_PER_CLUSTER
  {
  }

  /** Byte `p` of a chain is in its sector p / 512. */
  lemma BytePlace(v: Vol, cs: seq<nat>, p: nat)
    requires Path(v, cs) && p / BYTES_PER_SECTOR < |cs| * SECTORS_PER_CLUSTER
    ensures var place := Place(cs, p / BYTES_PER_SECTOR);
      0 <= place < DATA_SECTORS && ByteAt(v, cs[0], p) == v.data[place][p % BYTES_PER_SECTOR]
  {
    hide Entry, Nth;
    var q := p / BYTES_PER_SECTOR;
    PlacesDiffer(v, cs, q, q);
    PathIsNth(v, cs, p / CLUSTER_SIZE);
    assert q / SECTORS_PER_CLUSTER == p / CLUSTER_SIZE;
    assert q % SECTORS_PER_CLUSTER == p % CLUSTER_SIZE / BYTES_PER_SECTOR;
  }

  lemma PathKept(v: Vol, w: Vol, cs: seq<nat>)
    requires Path(v, cs) && w.fats == v.fats
    ensures Path(w, cs)
  {
    assert forall c {:trigger Entry(w, 0, c)} :: Entry(w, 0, c) == Entry(v, 0, c);
  }

  lemma PathClusters(v: Vol, cs: seq<nat>)
    requires Path(v, cs)
    ensures forall i :: 0 <= i < |cs| ==> ValidCluster(cs[i])
  {
  }

  lemma DataPlanKeepsPath(v: Vol, cs: seq<nat>, data: seq<u8>, q: nat)
    requires Path(v, cs) && q <= |cs| * SECTORS_PER_CLUSTER
    ensures Path(Last(DataPlan(v, cs, data, q)), cs)
  {
    hide Path, DataPlan;
    var plan := DataPlan(v, cs, data, q);
    PathClusters(v, cs);
    DataPlanOnly(v, cs, data, q);
    assert plan[q] in plan;
    PathKept(v, plan[q], cs);
  }

  /** Where on the drive the bytes are: byte p of the data in byte p % 512 of sector p % 4096 / 512 of
      the chain's cluster p / 4096, and zeros after the last one up to the end of its cluster. */
  lemma WrittenPlace(v: Vol, cs: seq<nat>, data: seq<u8>, p: nat)
    requires Path(v, cs) && |data| <= |cs| * CLUSTER_SIZE
    requires p / 4096 * 4096 < |data|
    ensures SectorsFor(|data|) <= |cs| * SECTORS_PER_CLUSTER && p / 4096 < |cs|
    ensures var place := (cs[p / 4096] - 2) * 8 + p % 4096 / 512;
      && 0 <= place < DATA_SECTORS
      && Last(DataPlan(v, cs, data, SectorsFor(|data|))).data[place][p % 512] == if p < |data| then data[p] else 0
  {
    hide Path, DataPlan, SectorsFor, Place, Chunk;
    var q := p / 4096;
    SectorsForFits(|data|, |cs|);
    SectorsForRound(|data|, q);
    assert q < |cs|;
    PlaceOfByte(cs, p);
    ChunkByte(data, p);
    DataPlanHolds(v, cs, data, p / 512, SectorsFor(|data|));
  }

  lemma ChunkByte(data: seq<u8>, p: nat)
    ensures Chunk(data, p / 512)[p % 512] == if p < |data| then data[p] else 0
  {
    assert p / 512 * BYTES_PER_SECTOR + p % 512 == p;
  }

  lemma PlaceOfByte(cs: seq<nat>, p: nat)
    requires p / 4096 < |cs|
    ensures p / 512 < (p / 4096 + 1) * SECTORS_PER_CLUSTER
    ensures p / 512 < |cs| * SECTORS_PER_CLUSTER
    ensures Place(cs, p / 512) == (cs[p / 4096] - 2) * 8 + p % 4096 / 512
  {
    assert p / 512 / 8 == p / 4096 && p / 512 % 8 == p % 4096 / 512;
  }

  /** Every byte of the clusters the data reaches is the data's, or zero past its end. */
  lemma WrittenByte(v: Vol, cs: seq<nat>, data: seq<u8>, p: nat)
    requires Path(v, cs) && |data| <= |cs| * CLUSTER_SIZE && cs != []
    requires p < SectorsFor(|data|) * BYTES_PER_SECTOR
    ensures SectorsFor(|data|) <= |cs| * SECTORS_PER_CLUSTER
    ensures ByteAt(Last(DataPlan(v, cs, data, SectorsFor(|data|))), cs[0], p) == if p < |data| then data[p] else 0
  {
    hide Path, ByteAt, DataPlan, SectorsFor, Place;
    SectorsForFits(|data|, |cs|);
    var n := SectorsFor(|data|);
    var w := Last(DataPlan(v, cs, data, n));
    DataPlanKeepsPath(v, cs, data, n);
    BytePlace(w, cs, p);
    DataPlanHolds(v, cs, data, p / BYTES_PER_SECTOR, n);
  }

  /** Data round trip: what was written into a chain is what is read from it. */
  lemma WriteThenRead(v: Vol, cs: seq<nat>, data: seq<u8>)
    requires Path(v, cs) && |data| <= |cs| * CLUSTER_SIZE && cs != []
    ensures SectorsFor(|data|) <= |cs| * SECTORS_PER_CLUSTER
    ensures Contents(Last(DataPlan(v, cs, data, SectorsFor(|data|))), cs[0], |data|) == data
  {
    hide Path, ByteAt, DataPlan, SectorsFor;
    SectorsForFits(|data|, |cs|);
    forall p | 0 <= p < |data|
      ensures ByteAt(Last(DataPlan(v, cs, data, SectorsFor(|data|))), cs[0], p) == data[p]
    {
      SectorsForCovers(|data|, p);
      WrittenByte(v, cs, data, p);
    }
  }

  /** One sector of a chunk of file data, zero-padded, in a sector buffer. */
  method FillSector(chunk: seq<u8>, sectorIndex: nat) returns (sectorBytes: array<u8>)
    ensures fresh(sectorBytes) && sectorBytes.Length == BYTES_PER_SECTOR
    ensures sectorBytes[..] == Chunk(chunk, sectorIndex)
  {
    sectorBytes := new u8[BYTES_PER_SECTOR](_ => 0);
    assert sectorBytes[..] == ZeroSector();
    var start := sectorIndex * BYTES_PER_SECTOR;
    if start < |chunk| {
      var end := Min(start + BYTES_PER_SECTOR, |chunk|);
      CopyFromSlice(sectorBytes, 0, chunk[start..end]);
    }
  }

  lemma ChunkOfChunk(data: seq<u8>, i: nat, t: nat)
    requires i * CLUSTER_SIZE < |data| && t < SECTORS_PER_CLUSTER
    ensures var chunk := data[i * CLUSTER_SIZE..Min(i * CLUSTER_SIZE + CLUSTER_SIZE, |data|)];
      Chunk(chunk, t) == Chunk(data, i * SECTORS_PER_CLUSTER + t)
  {
  }

  /** How write_data_to_chain leaves the drive. */
  ghost predicate DataOutcome(before: seq<Vol>, now: seq<Vol>, v: Vol, cs: seq<nat>, data: seq<u8>, r: Result<()>)
    requires |data| <= |cs| * CLUSTER_SIZE
  {
    SectorsForFits(|data|, |cs|);
    var plan := DataPlan(v, cs, data, SectorsFor(|data|));
    && Ran(before, now, plan)
    && (r.Success? ==> |now| - |before| == |plan| - 1)
    && (r.Failure? ==> r.error == AtaError)
  }

  /** The first `q` sectors of the data are written. */
  ghost predicate Written(before: seq<Vol>, now: seq<Vol>, v: Vol, cs: seq<nat>, data: seq<u8>, q: nat)
    requires q <= |cs| * SECTORS_PER_CLUSTER
  {
    Ran(before, now, DataPlan(v, cs, data, q)) && |now| - |before| == q
  }

  lemma WrittenNone(before: seq<Vol>, cs: seq<nat>, data: seq<u8>)
    requires before != []
    ensures Written(before, before, Last(before), cs, data, 0)
  {
    RanNone(before, DataPlan(Last(before), cs, data, 0));
  }

  /** What a state of the writing means for its outcome and for the links still to be followed. */
  lemma WrittenSome(before: seq<Vol>, now: seq<Vol>, v: Vol, cs: seq<nat>, data: seq<u8>, q: nat)
    requires |data| <= |cs| * CLUSTER_SIZE && Path(v, cs)
    requires q <= SectorsFor(|data|) && q <= |cs| * SECTORS_PER_CLUSTER && Written(before, now, v, cs, data, q)
    ensures DataOutcome(before, now, v, cs, data, Failure(AtaError))
    ensures q == SectorsFor(|data|) ==> DataOutcome(before, now, v, cs, data, Success(()))
    ensures now != [] && Path(Last(now), cs)
  {
    hide Ran, Path, SectorsFor, DataPlan;
    SectorsForFits(|data|, |cs|);
    var plan := DataPlan(v, cs, data, q);
    RanLast(before, now, plan);
    DataPlanKeepsPath(v, cs, data, q);
    DataPlanGrows(v, cs, data, q, SectorsFor(|data|));
    RanMore(before, now, plan, DataPlan(v, cs, data, SectorsFor(|data|)));
  }

  /** One more sector. */
  lemma WrittenNext(before: seq<Vol>, now: seq<Vol>, v: Vol, cs: seq<nat>, data: seq<u8>, q: nat)
    requires q < |cs| * SECTORS_PER_CLUSTER
    requires Written(before, now, v, cs, data, q) && now != []
    ensures Written(before, now + [SetSector(Last(now), Place(cs, q), Chunk(data, q))], v, cs, data, q + 1)
  {
    hide Ran, Place, Chunk, SetSector;
    var plan := DataPlan(v, cs, data, q);
    RanLast(before, now, plan);
    RanMore(before, now, plan, DataPlan(v, cs, data, q + 1));
    RanPush(before, now, SetSector(Last(now), Place(cs, q), Chunk(data, q)), DataPlan(v, cs, data, q + 1));
  }

  /** The sector write of write_data_to_chain, seen as the next step of the plan. */
  lemma WrittenSector(before: seq<Vol>, states: seq<Vol>, raw: Raw, raw': Raw, v: Vol, cs: seq<nat>,
                      data: seq<u8>, i: nat, t: nat)
    requires i < |cs| && ValidCluster(cs[i]) && t < SECTORS_PER_CLUSTER && i * CLUSTER_SIZE < |data|
    requires Written(before, states, v, cs, data, i * SECTORS_PER_CLUSTER + t)
    requires states != [] && Last(states) == VolOf(raw)
    requires var chunk := data[i * CLUSTER_SIZE..Min(i * CLUSTER_SIZE + CLUSTER_SIZE, |data|)];
      raw' == raw[DATA_START_SECTOR + DataIndex(cs[i], t) := WordsOf(Chunk(chunk, t))]
    ensures Written(before, states + [VolOf(raw')], v, cs, data, i * SECTORS_PER_CLUSTER + t + 1)
  {
    hide VolOf, WordsOf, Chunk, Written, SetSector;
    var q := i * SECTORS_PER_CLUSTER + t;
    assert Place(cs, q) == DataIndex(cs[i], t);
    ChunkOfChunk(data, i, t);
    DataSectorWrite(raw, DATA_START_SECTOR + DataIndex(cs[i], t), Chunk(data, q));
    WrittenNext(before, states, v, cs, data, q);
  }

  method WriteDataToChain(disk: Disk, firstCluster: u32, data: seq<u8>, ghost cs: seq<nat>) returns (r: Result<()>)
    requires Path(Now(disk), cs) && |data| <= |cs| * CLUSTER_SIZE
    requires cs != [] && cs[0] == firstCluster
    modifies disk
    ensures DataOutcome(old(States(disk)), States(disk), old(Now(disk)), cs, data, r)
    ensures Accounted(old(disk.faults), disk.faults, r)
  {
    hide VolOf, States, WordsOf, Chunk, Written, DataOutcome, Path, SectorsFor, Entry;
    SectorsForFits(|data|, |cs|);
    SectorsForNothing();
    ghost var v0, before := Now(disk), States(disk);
    WrittenNone(before, cs, data);
    var cluster := firstCluster;
    var offset := 0;
    ghost var i := 0;

    while offset < |data|
      invariant offset == i * CLUSTER_SIZE && i * SECTORS_PER_CLUSTER <= SectorsFor(|data|)
      invariant offset < |data| ==> i < |cs| && cluster == cs[i]
      invariant offset >= |data| ==> i * SECTORS_PER_CLUSTER == SectorsFor(|data|)
      invariant Written(before, States(disk), v0, cs, data, i * SECTORS_PER_CLUSTER)
      invariant disk.faults == old(disk.faults)
    {
      PathClusters(v0, cs);
      SectorsForRound(|data|, i);
      var sectorStart := ClusterToSector(cluster).value;
      var chunkEnd := Min(offset + CLUSTER_SIZE, |data|);
      var chunk := data[offset..chunkEnd];

      for sectorIndex := 0 to SECTORS_PER_CLUSTER
        invariant Written(before, States(disk), v0, cs, data, i * SECTORS_PER_CLUSTER + sectorIndex)
        invariant disk.faults == old(disk.faults)
      {
        var sectorBytes := FillSector(chunk, sectorIndex);
        ghost var raw, states := disk.sectors, States(disk);
        WrittenSome(before, states, v0, cs, data, i * SECTORS_PER_CLUSTER + sectorIndex);
        var _ :- StoreSector(disk, sectorStart + sectorIndex, sectorBytes);
        WrittenSector(before, states, raw, disk.sectors, v0, cs, data, i, sectorIndex);
      }

      offset := offset + CLUSTER_SIZE;
      i := i + 1;
      WrittenSome(before, States(disk), v0, cs, data, i * SECTORS_PER_CLUSTER);
      if offset < |data| {
        PathLink(Now(disk), cs, i);
        cluster :- ReadFatEntry(disk, cluster);
      }
    }
    WrittenSome(before, States(disk), v0, cs, data, i * SECTORS_PER_CLUSTER);
    return Success(());
  }

  lemma PathLink(v: Vol, cs: seq<nat>, i: nat)
    requires Path(v, cs) && 0 < i < |cs|
    ensures Entry(v, 0, cs[i - 1]) == cs[i] && cs[i - 1] < FAT_ENTRIES
  {
    hide Entry;
  }

  // ---------------------------------------------------------------- reading

  lemma DataIsStored(raw: Raw, c: nat, t: nat)
    requires ValidCluster(c) && t < SECTORS_PER_CLUSTER
    ensures 0 <= DataIndex(c, t) < DATA_SECTORS
    ensures DATA_START_SECTOR + DataIndex(c, t) < TOTAL_SECTORS < LBA_LIMIT
    ensures BytesOf(raw[DATA_START_SECTOR + DataIndex(c, t)]) == VolOf(raw).data[DataIndex(c, t)]
  {
  }

  /** The next sector of a chain continues what was read of it. */
  lemma ContentsGrow(v: Vol, c: nat, i: nat, t: nat, take: nat)
    requires t < SECTORS_PER_CLUSTER && take <= BYTES_PER_SECTOR && ValidCluster(Nth(v, c, i))
    ensures 0 <= DataIndex(Nth(v, c, i), t) < DATA_SECTORS
    ensures var n := i * CLUSTER_SIZE + t * BYTES_PER_SECTOR;
      Contents(v, c, n + take) == Contents(v, c, n) + v.data[DataIndex(Nth(v, c, i), t)][..take]
  {
    hide Nth, ByteAt;
    var n := i * CLUSTER_SIZE + t * BYTES_PER_SECTOR;
    forall p | n <= p < n + take
      ensures ByteAt(v, c, p) == v.data[DataIndex(Nth(v, c, i), t)][p - n]
    {
      ByteInSector(v, c, i, t, p - n);
    }
  }

  lemma ByteInSector(v: Vol, c: nat, i: nat, t: nat, b: nat)
    requires t < SECTORS_PER_CLUSTER && b < BYTES_PER_SECTOR && ValidCluster(Nth(v, c, i))
    ensures 0 <= DataIndex(Nth(v, c, i), t) < DATA_SECTORS
    ensures ByteAt(v, c, i * CLUSTER_SIZE + t * BYTES_PER_SECTOR + b) == v.data[DataIndex(Nth(v, c, i), t)][b]
  {
    hide Nth;
    ByteAddress(i, t, b);
  }

  lemma ByteAddress(i: nat, t: nat, b: nat)
    requires t < SECTORS_PER_CLUSTER && b < BYTES_PER_SECTOR
    ensures var p := i * CLUSTER_SIZE + t * BYTES_PER_SECTOR + b;
      p / CLUSTER_SIZE == i && p % CLUSTER_SIZE / BYTES_PER_SECTOR == t && p % BYTES_PER_SECTOR == b
  {
    var p := i * CLUSTER_SIZE + t * BYTES_PER_SECTOR + b;
    assert p / CLUSTER_SIZE == i && p % CLUSTER_SIZE == t * BYTES_PER_SECTOR + b;
    assert p == (i * SECTORS_PER_CLUSTER + t) * BYTES_PER_SECTOR + b;
  }

  lemma ReadGrows(raw: Raw, c: nat, i: nat, cluster: nat, t: nat, take: nat)
    requires t < SECTORS_PER_CLUSTER && take <= BYTES_PER_SECTOR
    requires ValidCluster(cluster) && Nth(VolOf(raw), c, i) == cluster
    ensures var n, sector := i * CLUSTER_SIZE + t * BYTES_PER_SECTOR, DATA_START_SECTOR + DataIndex(cluster, t);
      && 0 <= sector < TOTAL_SECTORS && sector % LBA_LIMIT == sector
      && Contents(VolOf(raw), c, n + take) == Contents(VolOf(raw), c, n) + BytesOf(raw[sector])[..take]
  {
    hide VolOf, BytesOf, Contents, Nth;
    DataIsStored(raw, cluster, t);
    ContentsGrow(VolOf(raw), c, i, t, take);
  }

  lemma NthNext(v: Vol, c: nat, i: nat)
    ensures Nth(v, c, i + 1) == Entry(v, 0, Nth(v, c, i))
    ensures Nth(v, c, 0) == c
  {
  }

  /** Reads the rest of one cluster, `data` being what was read before it. */
  method ReadClusterSectors(disk: Disk, cluster: u32, fileSize: nat, data: seq<u8>, ghost c: nat, ghost i: nat)
    returns (r: Result<seq<u8>>)
    requires |data| == i * CLUSTER_SIZE < fileSize
    modifies disk`taskFile, disk`faults
    ensures r.Success? ==> |r.value| == Min(|data| + CLUSTER_SIZE, fileSize)
    ensures r.Failure? ==> r.error == AtaError || (r.error == ArithmeticPanic && !ValidCluster(cluster))
    ensures r.Success? && ValidCluster(cluster) && cluster == Nth(Now(disk), c, i)
            && data == Contents(Now(disk), c, |data|) ==>
      r.value == Contents(Now(disk), c, |r.value|)
    ensures r == Failure(AtaError) || disk.faults == old(disk.faults)
    ensures ValidCluster(cluster) ==> Accounted(old(disk.faults), disk.faults, r)
  {
    hide VolOf, Nth, Contents, BytesOf;
    ghost var good := ValidCluster(cluster) && cluster == Nth(Now(disk), c, i)
                      && data == Contents(Now(disk), c, |data|);
    var sectorStart :- ClusterToSector(cluster);
    var read := data;
    for sectorIndex := 0 to SECTORS_PER_CLUSTER
      invariant |read| == |data| + sectorIndex * BYTES_PER_SECTOR < fileSize || sectorIndex == SECTORS_PER_CLUSTER
      invariant sectorIndex == SECTORS_PER_CLUSTER ==> |read| == |data| + CLUSTER_SIZE < fileSize
      invariant good ==> read == Contents(Now(disk), c, |read|)
      invariant disk.faults == old(disk.faults)
    {
      if ValidCluster(cluster) {
        ClusterSectorsAreAddressable(cluster, sectorIndex);
      }
      var _, bytes :- LoadSector(disk, sectorStart + sectorIndex);
      var remaining := fileSize - |read|;
      var take := Min(remaining, BYTES_PER_SECTOR);
      if good {
        ReadGrows(disk.sectors, c, i, cluster, sectorIndex, take);
      }
      read := read + bytes[..take];
      if |read| >= fileSize {
        return Success(read);
      }
    }
    return Success(read);
  }

  /** Reading ends for every FAT, with exactly `fileSize` bytes or an error: each round reads at
      least one byte more. Where the links stay on the disk the bytes are the chain's. */
  method ReadDataFromChain(disk: Disk, firstCluster: u32, fileSize: nat) returns (r: Result<seq<u8>>)
    modifies disk`taskFile, disk`faults
    ensures r.Success? ==> |r.value| == fileSize
    ensures r.Failure? ==> r.error == AtaError || r.error == ArithmeticPanic
    ensures Walkable(Now(disk), firstCluster, fileSize) ==>
      r == if disk.faults == old(disk.faults) then Success(Contents(Now(disk), firstCluster, fileSize))
           else Failure(AtaError)
    ensures r == Failure(AtaError) || disk.faults == old(disk.faults)
    ensures Walkable(Now(disk), firstCluster, fileSize) ==> Accounted(old(disk.faults), disk.faults, r)
  {
    hide VolOf, Nth, Contents, Entry;
    var data := [];
    var cluster := firstCluster;
    ghost var i := 0;
    ghost var good := Walkable(Now(disk), firstCluster, fileSize);
    ContentsNothing(Now(disk), firstCluster);
    NthNext(Now(disk), firstCluster, 0);

    while |data| < fileSize
      invariant |data| == Min(i * CLUSTER_SIZE, fileSize)
      invariant good == Walkable(Now(disk), firstCluster, fileSize)
      invariant good ==> data == Contents(Now(disk), firstCluster, |data|)
      invariant good && |data| < fileSize ==> cluster == Nth(Now(disk), firstCluster, i)
      invariant disk.faults == old(disk.faults)
      decreases fileSize - |data|
    {
      data :- ReadClusterSectors(disk, cluster, fileSize, data, firstCluster, i);
      i := i + 1;
      if |data| < fileSize {
        NthNext(Now(disk), firstCluster, i - 1);
        cluster :- ReadFatEntry(disk, cluster);
      }
    }
    return Success(data);
  }

  lemma ContentsNothing(v: Vol, c: nat)
    ensures Contents(v, c, 0) == []
  {
  }
}
