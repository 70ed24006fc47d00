/** FAT entries, the search for a free cluster, and the allocation of cluster chains. */
module Fat {
  import opened Results
  import opened Words
  import opened Geometry
  import opened Ata
  import opened Traces
  import opened Volume

  const FAT_EOC: u32 := 0x0FFF_FFFF
  const FAT_FREE: u32 := 0
  /** Entries are 28 bits wide; the top four bits of the stored word are reserved. */
  const ENTRY_LIMIT: nat := 0x1000_0000

  // ---------------------------------------------------------------- single entries

  /** The entry of cluster `c` in one of the copies. */
  function Entry(v: Vol, copy: nat, c: nat): (e: nat)
    ensures e < ENTRY_LIMIT
  {
    if copy < NUM_FATS && c < FAT_ENTRIES then v.fats[copy][c] % ENTRY_LIMIT else 0
  }

  /** The low 28 bits of `value` under the reserved bits of `existing`. */
  function Merge(existing: u32, value: nat): (x: u32)
    ensures x % ENTRY_LIMIT == value % ENTRY_LIMIT && x / ENTRY_LIMIT == existing / ENTRY_LIMIT
  {
    existing / ENTRY_LIMIT * ENTRY_LIMIT + value % ENTRY_LIMIT
  }

  /** The volume with that entry set. */
  function SetEntry(v: Vol, copy: nat, c: nat, value: nat): Vol {
    if copy < NUM_FATS && c < FAT_ENTRIES then
      SetRaw(v, copy, c, Merge(v.fats[copy][c], value))
    else v
  }

  /** The volume before, during and after write_fat_entry. */
  function EntryPlan(v: Vol, c: nat, value: nat): (p: seq<Vol>)
    ensures |p| == 3 && p[0] == v
  {
    [v, SetEntry(v, 0, c, value), SetEntry(SetEntry(v, 0, c, value), 1, c, value)]
  }

  /** Setting an entry gives it the low 28 bits of the value, keeps the reserved bits of every
      entry, and leaves every other entry of both copies, and everything outside the FAT, alone. */
  lemma EntryIsolation(v: Vol, copy: nat, c: nat, value: nat, k: nat, d: nat)
    requires copy < NUM_FATS && c < FAT_ENTRIES && k < NUM_FATS && d < FAT_ENTRIES
    ensures var w := SetEntry(v, copy, c, value);
      && Entry(w, k, d) == (if k == copy && d == c then value % ENTRY_LIMIT else Entry(v, k, d))
      && w.fats[k][d] / ENTRY_LIMIT == v.fats[k][d] / ENTRY_LIMIT
      && (k != copy || d != c ==> w.fats[k][d] == v.fats[k][d])
      && w.reserved == v.reserved && w.data == v.data
  {
  }

  method ReadFatEntry(disk: Disk, cluster: u32) returns (r: Result<u32>)
    modifies disk`taskFile, disk`faults
    ensures r.Success? ==>
      FatSector(0, cluster) < TOTAL_SECTORS
      && r.value ==
         Le32(BytesOf(disk.sectors[FatSector(0, cluster)]), 4 * (cluster % ENTRIES_PER_SECTOR)) % ENTRY_LIMIT
    ensures r.Success? && cluster < FAT_ENTRIES ==> r.value == Entry(Now(disk), 0, cluster)
    ensures r.Failure? ==> r.error == AtaError
    ensures FatSector(0, cluster) < TOTAL_SECTORS ==> Accounted(old(disk.faults), disk.faults, r)
    ensures FatSector(0, cluster) >= TOTAL_SECTORS ==> disk.faults == old(disk.faults)
  {
    hide BytesOf, Le32, FatSector, VolOf, Entry;
    var fatOffset := cluster * 4;
    var sector := FAT_START_SECTOR + fatOffset / BYTES_PER_SECTOR;
    var offsetInSector := fatOffset % BYTES_PER_SECTOR;
    EntryAddress(cluster);
    FatAddress(0, cluster);

    var _, bytes :- LoadSector(disk, sector);
    var raw := Le32(bytes[..], offsetInSector);
    EntryIsStored(disk.sectors, cluster);
    return Success(raw % ENTRY_LIMIT);
  }

  lemma EntryIsStored(raw: Raw, c: nat)
    ensures c < FAT_ENTRIES ==>
      Entry(VolOf(raw), 0, c) == Le32(BytesOf(raw[FatSector(0, c)]), 4 * (c % ENTRIES_PER_SECTOR)) % ENTRY_LIMIT
  {
  }

  lemma EntryAddress(c: nat)
    ensures c * 4 / BYTES_PER_SECTOR == c / ENTRIES_PER_SECTOR
    ensures c * 4 % BYTES_PER_SECTOR == 4 * (c % ENTRIES_PER_SECTOR)
  {
    var q, e := c / 128, c % 128;
    assert c * 4 == 512 * q + 4 * e;
  }

  lemma FatAddress(copy: nat, c: u32)
    requires copy < NUM_FATS
    ensures FAT_START_SECTOR + copy * SECTORS_PER_FAT + c / ENTRIES_PER_SECTOR == FatSector(copy, c)
    ensures FatSector(copy, c) % LBA_LIMIT == FatSector(copy, c)
    ensures FatSector(0, c) <= FatSector(copy, c) <= FatSector(1, c)
    ensures c < FAT_ENTRIES ==> FatSector(copy, c) < DATA_START_SECTOR
  {
  }

  /** For a number of the FAT this is a run of its plan; a number past it is patched where its address
      falls, in each of the two places, or refused by the drive where there is no such sector. */
  method WriteFatEntry(disk: Disk, cluster: u32, value: u32) returns (r: Result<()>)
    modifies disk
    ensures cluster < FAT_ENTRIES ==>
      && Ran(old(States(disk)), States(disk), EntryPlan(old(Now(disk)), cluster, value))
      && (r.Success? <==> |States(disk)| == |old(States(disk))| + 2)
      && Accounted(old(disk.faults), disk.faults, r)
    ensures r.Success? ==>
      && FatSector(0, cluster) < TOTAL_SECTORS && FatSector(1, cluster) < TOTAL_SECTORS
      && disk.sectors == PatchFat(PatchFat(old(disk.sectors), 0, cluster, value), 1, cluster, value)
    ensures r.Failure? ==> r.error == AtaError
    ensures FatSector(1, cluster) < TOTAL_SECTORS ==> Accounted(old(disk.faults), disk.faults, r)
  {
    hide VolOf, States, Ran, EntryPlan, SetEntry, PatchEntry, Merge, FatSector, BytesOf, WordsOf, Le32, Patch, Bytes32;
    ghost var plan := EntryPlan(Now(disk), cluster, value);
    RanNone(States(disk), plan);
    var fatOffset := cluster * 4;
    var sectorInFat := fatOffset / BYTES_PER_SECTOR;
    var offsetInSector := fatOffset % BYTES_PER_SECTOR;
    EntryAddress(cluster);

    for fatIndex := 0 to NUM_FATS
      invariant cluster < FAT_ENTRIES ==>
        Ran(old(States(disk)), States(disk), plan) && |States(disk)| == |old(States(disk))| + fatIndex
      invariant fatIndex == 0 ==> disk.sectors == old(disk.sectors)
      invariant fatIndex > 0 ==> FatSector(0, cluster) < TOTAL_SECTORS
      invariant fatIndex == 1 ==> disk.sectors == PatchFat(old(disk.sectors), 0, cluster, value)
      invariant fatIndex > 1 ==>
        FatSector(1, cluster) < TOTAL_SECTORS
        && disk.sectors == PatchFat(PatchFat(old(disk.sectors), 0, cluster, value), 1, cluster, value)
      invariant disk.faults == old(disk.faults)
    {
      var fatStart := FAT_START_SECTOR + fatIndex * SECTORS_PER_FAT;
      var sector := fatStart + sectorInFat;
      FatAddress(fatIndex, cluster);

      ghost var raw, states := disk.sectors, States(disk);
      var _, bytes :- LoadSector(disk, sector);
      MergeEntry(bytes, offsetInSector, value);
      var _ :- StoreSector(disk, sector, bytes);
      assert disk.sectors == PatchFat(raw, fatIndex, cluster, value);
      if cluster < FAT_ENTRIES {
        EntryWrite(raw, fatIndex, cluster, value);
        EntryPush(old(States(disk)), states, Now(disk), old(Now(disk)), fatIndex, cluster, value);
      }
    }
    return Success(());
  }

  /** The low 28 bits of one entry of a FAT sector are replaced in the buffer. */
  method MergeEntry(bytes: array<u8>, at: nat, value: u32)
    requires bytes.Length == BYTES_PER_SECTOR && at + 4 <= BYTES_PER_SECTOR
    modifies bytes
    ensures bytes[..] == PatchEntry(old(bytes[..]), at, value)
  {
    hide Le32, Bytes32, Merge;
    var existing := Le32(bytes[..], at);
    var newValue := Merge(existing, value);
    var newBytes := Bytes32(newValue);
    CopyFromSlice(bytes, at, newBytes);
  }

  function PatchEntry(sector: Sector, at: nat, value: u32): Sector
    requires at + 4 <= BYTES_PER_SECTOR
  {
    Patch(sector, at, Bytes32(Merge(Le32(sector, at), value)))
  }

  /** The read-modify-write of the sector that the entry's address names. */
  function PatchFat(raw: Raw, copy: nat, c: nat, value: u32): Raw {
    var s := FatSector(copy, c);
    if s < TOTAL_SECTORS then
      raw[s := WordsOf(PatchEntry(BytesOf(raw[s]), 4 * (c % ENTRIES_PER_SECTOR), value))]
    else raw
  }

  /** Within the FAT it sets one entry of one copy. */
  lemma EntryWrite(raw: Raw, copy: nat, c: nat, value: u32)
    requires copy < NUM_FATS && c < FAT_ENTRIES
    ensures VolOf(PatchFat(raw, copy, c, value)) == SetEntry(VolOf(raw), copy, c, value)
  {
    var existing := Le32(BytesOf(raw[FatSector(copy, c)]), 4 * (c % ENTRIES_PER_SECTOR));
    assert VolOf(raw).fats[copy][c] == existing;
    FatSectorWrite(raw, copy, c, Merge(existing, value));
  }

  lemma EntryPush(before: seq<Vol>, states: seq<Vol>, next: Vol, v: Vol, copy: nat, c: nat, value: u32)
    requires copy < NUM_FATS && c < FAT_ENTRIES
    requires Ran(before, states, EntryPlan(v, c, value)) && |states| == |before| + copy
    requires next == SetEntry(Last(states), copy, c, value)
    ensures Ran(before, states + [next], EntryPlan(v, c, value))
  {
    hide SetEntry, Ran;
    RanLast(before, states, EntryPlan(v, c, value));
    RanPush(before, states, next, EntryPlan(v, c, value));
  }

  // ---------------------------------------------------------------- free clusters

  /** `r` names the lowest free cluster of copy 1, or says that there is none. */
  ghost predicate LowestFree(v: Vol, r: Result<u32>) {
    match r
    case Success(c) =>
      ValidCluster(c) && Entry(v, 0, c) == FAT_FREE && forall d :: 2 <= d < c ==> Entry(v, 0, d) != FAT_FREE
    case Failure(e) =>
      e == AtaError || (e == DiskFull && forall d :: ValidCluster(d) ==> Entry(v, 0, d) != FAT_FREE)
  }

  method FindFreeCluster(disk: Disk) returns (r: Result<u32>)
    modifies disk`taskFile, disk`faults
    ensures LowestFree(Now(disk), r)
    ensures Accounted(old(disk.faults), disk.faults, r)
  {
    hide Now, Entry;
    var totalClusters := (TOTAL_SECTORS - DATA_START_SECTOR) / SECTORS_PER_CLUSTER;
    for cluster := 2 to 2 + totalClusters
      invariant forall d :: 2 <= d < cluster ==> Entry(Now(disk), 0, d) != FAT_FREE
      invariant disk.faults == old(disk.faults)
    {
      FatAddress(0, cluster);
      var entry :- ReadFatEntry(disk, cluster);
      if entry == FAT_FREE {
        return Success(cluster);
      }
    }
    return Failure(DiskFull);
  }

  /** The clusters in use in FAT copy 1 are exactly those below `k`. */
  ghost predicate Bump(v: Vol, k: nat) {
    && 3 <= k <= CLUSTER_END
    && forall c :: ValidCluster(c) ==> (Entry(v, 0, c) != FAT_FREE <==> c < k)
  }

  /** Where the used clusters are a prefix, the search behaves like a counter standing at its end. */
  lemma LowestFreeIsCounter(v: Vol, k: nat, r: Result<u32>)
    requires Bump(v, k) && LowestFree(v, r)
    ensures r.Success? ==> r.value == k < CLUSTER_END
    ensures r.Failure? && r.error != AtaError ==> r.error == DiskFull && k == CLUSTER_END
  {
    assert ValidCluster(k) || k == CLUSTER_END;
  }

  lemma BumpRange(v: Vol, k: nat)
    requires Bump(v, k)
    ensures 3 <= k <= CLUSTER_END
  {
  }

  ghost function FreeClusters(v: Vol): set<nat> {
    set c: nat | 2 <= c < CLUSTER_END && Entry(v, 0, c) == FAT_FREE
  }

  ghost function Interval(lo: nat, hi: nat): (s: set<nat>)
    requires lo <= hi
    ensures forall c :: c in s <==> lo <= c < hi
    ensures |s| == hi - lo
    decreases hi
  {
    if lo == hi then {} else Interval(lo, hi - 1) + {hi - 1}
  }

  lemma BumpFreeCount(v: Vol, k: nat)
    requires Bump(v, k)
    ensures |FreeClusters(v)| == CLUSTER_END - k
  {
    assert FreeClusters(v) == Interval(k, CLUSTER_END);
  }

  lemma BumpUnique(v: Vol, k: nat, l: nat)
    requires Bump(v, k) && Bump(v, l)
    ensures k == l
  {
    if k < l {
      assert ValidCluster(k);
    } else if l < k {
      assert ValidCluster(l);
    }
  }

  // ---------------------------------------------------------------- chains

  /** byte_len.div_ceil(CLUSTER_SIZE).max(1) */
  function ClustersFor(byteLen: nat): (m: nat)
    ensures m >= 1
    ensures m == 1 || (m - 1) * CLUSTER_SIZE < byteLen
    ensures byteLen <= m * CLUSTER_SIZE
  {
    var needed := (byteLen + CLUSTER_SIZE - 1) / CLUSTER_SIZE;
    if needed < 1 then 1 else needed
  }

  /** The volumes that allocating the `m` clusters from `k` on goes through, sector write by sector
      write: each cluster but the first is linked to from the one before it, then marked as the end. */
  function AllocPlan(v: Vol, k: nat, m: nat): (p: seq<Vol>)
    ensures p != [] && p[0] == v
  {
    if m == 0 then [v] else RoundPlan(AllocPlan(v, k, m - 1), k, m)
  }

  function RoundPlan(p: seq<Vol>, k: nat, m: nat): (q: seq<Vol>)
    requires p != [] && m > 0
    ensures p <= LinkPlan(p, k, m) <= q && |q| == |p| + if m == 1 then 2 else 4
  {
    var linked := LinkPlan(p, k, m);
    Then(linked, EntryPlan(Last(linked), k + m - 1, FAT_EOC))
  }

  function LinkPlan(p: seq<Vol>, k: nat, m: nat): (q: seq<Vol>)
    requires p != [] && m > 0
    ensures q != [] && p <= q
  {
    if m == 1 then p else Then(p, EntryPlan(Last(p), k + m - 2, k + m - 1))
  }

  lemma {:induction false} AllocPlanGrows(v: Vol, k: nat, j: nat, m: nat)
    requires j <= m
    ensures AllocPlan(v, k, j) <= AllocPlan(v, k, m)
  {
    hide RoundPlan, LinkPlan;
    if j < m {
      AllocPlanGrows(v, k, j, m - 1);
    }
  }

  /** `w` differs from `v` at most in the low 28 bits of the entries of the clusters k, ..., k + m - 1. */
  ghost predicate OnlyEntries(v: Vol, w: Vol, k: nat, m: nat) {
    && w.reserved == v.reserved && w.data == v.data
    && (forall copy: nat, d: nat :: copy < NUM_FATS && d < FAT_ENTRIES ==>
          w.fats[copy][d] / ENTRY_LIMIT == v.fats[copy][d] / ENTRY_LIMIT)
    && forall copy: nat, d: nat :: copy < NUM_FATS && d < FAT_ENTRIES && !(k <= d < k + m) ==>
         w.fats[copy][d] == v.fats[copy][d]
  }

  lemma SetEntryOnly(v: Vol, w: Vol, k: nat, m: nat, copy: nat, c: nat, value: nat)
    requires OnlyEntries(v, w, k, m) && k <= c < k + m
    ensures OnlyEntries(v, SetEntry(w, copy, c, value), k, m)
  {
  }

  /** Setting a used entry, or the first free one, to a value that is not "free" keeps the used
      clusters a prefix; copy 2 has no part in it. */
  lemma BumpStep(v: Vol, k: nat, copy: nat, c: nat, value: nat)
    requires Bump(v, k) && 2 <= c <= k && c < CLUSTER_END && copy < NUM_FATS
    requires value % ENTRY_LIMIT != FAT_FREE
    ensures copy == 0 && c == k ==> Bump(SetEntry(v, copy, c, value), k + 1)
    ensures copy == 1 || c < k ==> Bump(SetEntry(v, copy, c, value), k)
  {
    hide SetEntry, Entry;
    forall d | ValidCluster(d)
      ensures Entry(SetEntry(v, copy, c, value), 0, d) ==
              if copy == 0 && d == c then value % ENTRY_LIMIT else Entry(v, 0, d)
    {
      EntryIsolation(v, copy, c, value, 0, d);
    }
  }

  /** A state an interrupted allocation of `m` clusters from `k` on may leave: only their entries have
      changed, and the used clusters are a prefix again. */
  ghost predicate Partial(v: Vol, w: Vol, k: nat, m: nat) {
    OnlyEntries(v, w, k, m) && exists l :: k <= l && Bump(w, l)
  }

  /** The states `p` an allocation may leave, the last of them with the clusters below `l` in use. */
  ghost predicate Allocating(v: Vol, p: seq<Vol>, k: nat, m: nat, l: nat) {
    && p != []
    && (forall w :: w in p ==> Partial(v, w, k, m))
    && OnlyEntries(v, Last(p), k, m)
    && Bump(Last(p), l)
  }

  lemma AllocatingEntry(v: Vol, p: seq<Vol>, k: nat, m: nat, l: nat, c: nat, value: nat)
    requires Allocating(v, p, k, m, l) && 2 <= k <= c <= l && c < CLUSTER_END && c < k + m
    requires value % ENTRY_LIMIT != FAT_FREE
    ensures Allocating(v, Then(p, EntryPlan(Last(p), c, value)), k, m, if c == l then l + 1 else l)
  {
    hide SetEntry, OnlyEntries, Bump, Then;
    var w := Last(p);
    var w1 := SetEntry(w, 0, c, value);
    var l1 := if c == l then l + 1 else l;
    SetEntryOnly(v, w, k, m, 0, c, value);
    SetEntryOnly(v, w1, k, m, 1, c, value);
    BumpStep(w, l, 0, c, value);
    BumpStep(w1, l1, 1, c, value);
  }

  lemma AllocatingMore(v: Vol, p: seq<Vol>, k: nat, m: nat, l: nat)
    requires Allocating(v, p, k, m, l)
    ensures Allocating(v, p, k, m + 1, l)
  {
    hide Bump;
  }

  /** Whatever prefix of an allocation reached the disk, it is a partial allocation; when all of it
      did, exactly `m` more clusters are in use. */
  lemma {:induction false} AllocPlanAllocates(v: Vol, k: nat, m: nat)
    requires Bump(v, k) && k + m <= CLUSTER_END
    ensures Allocating(v, AllocPlan(v, k, m), k, m, k + m)
  {
    hide Bump, RoundPlan, LinkPlan, Allocating;
    BumpRange(v, k);
    if m == 0 {
      AllocatingNone(v, k);
    } else {
      AllocPlanAllocates(v, k, m - 1);
      AllocatingRound(v, AllocPlan(v, k, m - 1), k, m);
    }
  }

  lemma AllocatingNone(v: Vol, k: nat)
    requires Bump(v, k)
    ensures Allocating(v, [v], k, 0, k)
  {
    hide Bump;
    assert Partial(v, v, k, 0);
  }

  lemma AllocatingRound(v: Vol, p: seq<Vol>, k: nat, m: nat)
    requires p != [] && m > 0 && 2 <= k && k + m <= CLUSTER_END
    requires Allocating(v, p, k, m - 1, k + m - 1)
    ensures Allocating(v, RoundPlan(p, k, m), k, m, k + m)
  {
    hide Allocating, Then, EntryPlan;
    AllocatingMore(v, p, k, m - 1, k + m - 1);
    if m > 1 {
      AllocatingEntry(v, p, k, m, k + m - 1, k + m - 2, k + m - 1);
    }
    AllocatingEntry(v, LinkPlan(p, k, m), k, m, k + m - 1, k + m - 1, FAT_EOC);
  }

  /** A complete allocation links its clusters in order, ends the chain at the last one, and says the
      same in both copies. */
  lemma {:induction false} AllocLinks(v: Vol, k: nat, m: nat, copy: nat, j: nat)
    requires copy < NUM_FATS && j < m && k + m <= CLUSTER_END
    ensures Entry(Last(AllocPlan(v, k, m)), copy, k + j) == if j == m - 1 then FAT_EOC else k + j + 1
  {
    hide Entry, SetEntry, RoundPlan, LinkPlan;
    var p := AllocPlan(v, k, m - 1);
    RoundLinks(p, k, m, copy, k + j);
    if j < m - 1 {
      AllocLinks(v, k, m - 1, copy, j);
    }
  }

  lemma RoundLinks(p: seq<Vol>, k: nat, m: nat, copy: nat, d: nat)
    requires p != [] && m > 0 && copy < NUM_FATS && k <= d < k + m <= CLUSTER_END
    ensures Entry(Last(RoundPlan(p, k, m)), copy, d) ==
            if d == k + m - 1 then FAT_EOC else if d == k + m - 2 then k + m - 1 else Entry(Last(p), copy, d)
    ensures Last(p).fats[0] == Last(p).fats[1] ==>
              Last(RoundPlan(p, k, m)).fats[0] == Last(RoundPlan(p, k, m)).fats[1]
  {
    hide Entry, SetEntry, EntryPlan, Then;
    if m > 1 {
      SetBoth(Last(p), k + m - 2, k + m - 1, copy, d);
    }
    SetBoth(Last(LinkPlan(p, k, m)), k + m - 1, FAT_EOC, copy, d);
  }

  /** Setting an entry in both copies. */
  lemma SetBoth(v: Vol, c: nat, value: nat, copy: nat, d: nat)
    requires copy < NUM_FATS && c < FAT_ENTRIES && d < FAT_ENTRIES
    ensures var w := Last(EntryPlan(v, c, value));
      && Entry(w, copy, d) == (if d == c then value % ENTRY_LIMIT else Entry(v, copy, d))
      && (v.fats[0] == v.fats[1] ==> w.fats[0] == w.fats[1])
  {
    var u := SetEntry(v, 0, c, value);
    EntryIsolation(v, 0, c, value, copy, d);
    EntryIsolation(u, 1, c, value, copy, d);
  }

  /** A complete allocation leaves the copies equal if it found them equal. */
  lemma {:induction false} AllocMirrors(v: Vol, k: nat, m: nat)
    requires v.fats[0] == v.fats[1] && k + m <= CLUSTER_END
    ensures Last(AllocPlan(v, k, m)).fats[0] == Last(AllocPlan(v, k, m)).fats[1]
  {
    hide RoundPlan, LinkPlan;
    if m > 0 {
      AllocMirrors(v, k, m - 1);
      RoundLinks(AllocPlan(v, k, m - 1), k, m, 0, k);
    }
  }

  /** An interrupted allocation can leave a cluster in use whose link names a free cluster, and two
      FAT copies that disagree about it; only chains of stored files are sure to be sound. */
  lemma LeakedChainMayDangle(v: Vol, k: nat)
    requires Bump(v, k) && k + 2 <= CLUSTER_END
    ensures |AllocPlan(v, k, 2)| == 7
    ensures var w := AllocPlan(v, k, 2)[3];
      && Entry(w, 0, k) == k + 1 && Entry(w, 0, k + 1) == FAT_FREE
      && Entry(w, 1, k) == FAT_EOC
  {
    hide SetEntry, Entry, AllocPlan;
    BumpRange(v, k);
    SecondClusterLinked(v, k);
    var u := Last(EntryPlan(v, k, FAT_EOC));
    SetBoth(v, k, FAT_EOC, 0, k + 1);
    SetBoth(v, k, FAT_EOC, 1, k);
    EntryIsolation(u, 0, k, k + 1, 0, k);
    EntryIsolation(u, 0, k, k + 1, 0, k + 1);
    EntryIsolation(u, 0, k, k + 1, 1, k);
    assert ValidCluster(k + 1);
  }

  lemma SecondClusterLinked(v: Vol, k: nat)
    ensures |AllocPlan(v, k, 2)| == 7
    ensures AllocPlan(v, k, 2)[3] == SetEntry(Last(EntryPlan(v, k, FAT_EOC)), 0, k, k + 1)
  {
    hide SetEntry;
    assert AllocPlan(v, k, 0) == [v];
    assert AllocPlan(v, k, 1) == Then([v], EntryPlan(v, k, FAT_EOC));
    assert AllocPlan(v, k, 2)[3] == EntryPlan(Last(AllocPlan(v, k, 1)), k, k + 1)[1];
  }

  /** The clusters an allocation of `m` clusters from `k` on can take: all of them, or all there are. */
  function Available(k: nat, m: nat): (n: nat)
    requires k <= CLUSTER_END
    ensures n <= m && k + n <= CLUSTER_END && (n == m || k + n == CLUSTER_END)
  {
    if k + m <= CLUSTER_END then m else CLUSTER_END - k
  }

  /** How allocate_cluster_chain leaves the drive: a prefix of its planned writes was done, and all of
      them unless the drive failed; the disk is full when fewer than `m` clusters were left. */
  ghost predicate AllocOutcome(before: seq<Vol>, now: seq<Vol>, v: Vol, k: nat, m: nat, r: Result<u32>)
    requires k <= CLUSTER_END
  {
    var n := Available(k, m);
    var plan := AllocPlan(v, k, n);
    && Ran(before, now, plan)
    && (r.Success? ==> r.value == k && n == m)
    && (r.Failure? && r.error != AtaError ==> r.error == DiskFull && n < m)
    && (r.Success? || r.error != AtaError ==> |now| - |before| == |plan| - 1)
  }

  /** From `before` to `now`, all the writes that allocate `j` clusters were done. */
  ghost predicate Allocated(before: seq<Vol>, now: seq<Vol>, v: Vol, k: nat, j: nat) {
    var plan := AllocPlan(v, k, j);
    Ran(before, now, plan) && |now| - |before| == |plan| - 1
  }

  /** The same, and the link to the `j`-th cluster. */
  ghost predicate Linked(before: seq<Vol>, now: seq<Vol>, v: Vol, k: nat, j: nat)
    requires j > 0
  {
    var plan := LinkPlan(AllocPlan(v, k, j - 1), k, j);
    Ran(before, now, plan) && |now| - |before| == |plan| - 1
  }

  lemma AllocStart(before: seq<Vol>, k: nat)
    requires before != []
    ensures Allocated(before, before, Last(before), k, 0)
    ensures Linked(before, before, Last(before), k, 1)
  {
    RanNone(before, AllocPlan(Last(before), k, 0));
  }

  /** The search for the next cluster finds the one after those allocated, or ends the allocation. */
  lemma AllocSearch(before: seq<Vol>, now: seq<Vol>, v: Vol, k: nat, j: nat, m: nat, found: Result<u32>)
    requires Bump(v, k) && j < m && k + j <= CLUSTER_END
    requires Allocated(before, now, v, k, j)
    requires now != [] && LowestFree(Last(now), found)
    ensures found.Success? ==> found.value == k + j < CLUSTER_END
    ensures found.Failure? ==> AllocOutcome(before, now, v, k, m, found)
  {
    hide Bump, Ran, AllocPlan, LowestFree, Available;
    RanLast(before, now, AllocPlan(v, k, j));
    AllocPlanAllocates(v, k, j);
    LowestFreeIsCounter(Last(now), k + j, found);
    AllocPlanGrows(v, k, j, Available(k, m));
    RanMore(before, now, AllocPlan(v, k, j), AllocPlan(v, k, Available(k, m)));
  }

  /** One more write_fat_entry, complete or not, carries the allocation on. */
  lemma AllocLink(before: seq<Vol>, mid: seq<Vol>, after: seq<Vol>, v: Vol, k: nat, j: nat, m: nat)
    requires 2 <= j <= m && k + j <= CLUSTER_END && Allocated(before, mid, v, k, j - 1)
    requires mid != [] && Ran(mid, after, EntryPlan(Last(mid), k + j - 2, k + j - 1))
    ensures AllocOutcome(before, after, v, k, m, Failure(AtaError))
    ensures |after| == |mid| + 2 ==> Linked(before, after, v, k, j)
  {
    hide Ran, EntryPlan, Then, Available, RoundPlan;
    var p, n := AllocPlan(v, k, j - 1), Available(k, m);
    RanLast(before, mid, p);
    RanThen(before, mid, after, p, EntryPlan(Last(mid), k + j - 2, k + j - 1));
    AllocPlanGrows(v, k, j, n);
    RanMore(before, after, LinkPlan(p, k, j), AllocPlan(v, k, n));
  }

  lemma AllocMark(before: seq<Vol>, mid: seq<Vol>, after: seq<Vol>, v: Vol, k: nat, j: nat, m: nat)
    requires 1 <= j <= m && k + j <= CLUSTER_END && Linked(before, mid, v, k, j)
    requires mid != [] && Ran(mid, after, EntryPlan(Last(mid), k + j - 1, FAT_EOC))
    ensures AllocOutcome(before, after, v, k, m, Failure(AtaError))
    ensures |after| == |mid| + 2 ==> Allocated(before, after, v, k, j)
    ensures |after| == |mid| + 2 && j == m ==> AllocOutcome(before, after, v, k, m, Success(k))
  {
    hide Ran, EntryPlan, LinkPlan, Then, Available;
    var linked, n := LinkPlan(AllocPlan(v, k, j - 1), k, j), Available(k, m);
    RanLast(before, mid, linked);
    RanThen(before, mid, after, linked, EntryPlan(Last(mid), k + j - 1, FAT_EOC));
    AllocPlanGrows(v, k, j, n);
    RanMore(before, after, AllocPlan(v, k, j), AllocPlan(v, k, n));
  }

  method AllocateClusterChain(disk: Disk, byteLen: nat, ghost k: nat) returns (r: Result<u32>)
    requires k <= CLUSTER_END && Bump(Now(disk), k)
    modifies disk
    ensures AllocOutcome(old(States(disk)), States(disk), old(Now(disk)), k, ClustersFor(byteLen), r)
    ensures Accounted(old(disk.faults), disk.faults, r)
  {
    hide Now, States, EntryPlan, Ran, Bump, ClustersFor, LowestFree, Linked, Allocated, AllocOutcome, PatchFat,
         FatSector, VolOf;
    ghost var v0, before := Now(disk), States(disk);
    var neededClusters := ClustersFor(byteLen);
    AllocStart(before, k);

    var found := FindFreeCluster(disk);
    AllocSearch(before, before, v0, k, 0, neededClusters, found);
    var firstCluster :- found;
    var marked := WriteFatEntry(disk, firstCluster, FAT_EOC);
    AllocMark(before, before, States(disk), v0, k, 1, neededClusters);
    var _ :- marked;

    var prev := firstCluster;
    for j := 1 to neededClusters
      invariant prev == k + j - 1 < CLUSTER_END
      invariant Allocated(before, States(disk), v0, k, j) && disk.faults == old(disk.faults)
      invariant j == neededClusters ==> AllocOutcome(before, States(disk), v0, k, neededClusters, Success(k))
    {
      ghost var done := States(disk);
      found := FindFreeCluster(disk);
      AllocSearch(before, done, v0, k, j, neededClusters, found);
      var next :- found;

      var linked := WriteFatEntry(disk, prev, next);
      AllocLink(before, done, States(disk), v0, k, j + 1, neededClusters);
      var _ :- linked;

      ghost var mid := States(disk);
      marked := WriteFatEntry(disk, next, FAT_EOC);
      AllocMark(before, mid, States(disk), v0, k, j + 1, neededClusters);
      var _ :- marked;
      prev := next;
    }
    return Success(firstCluster);
  }
}
