/** The volume as an ordered list of named byte strings, and the invariant that keeps it one. */
module Files {
  import opened Results
  import opened Words
  import opened Geometry
  import opened Volume
  import opened Fat
  import opened Chain
  import opened Names
  import opened Directory

  datatype File = File(name: seq<u8>, data: seq<u8>)

  function FileAt(v: Vol, i: nat): File
    requires i < ROOT_SLOTS
  {
    var b := SlotAt(v, i);
    File(NameOf(b), Contents(v, FirstClusterOf(b), SizeOf(b)))
  }

  /** The files of the live slots among the first `n`, in slot order. */
  function FilesTo(v: Vol, n: nat): seq<File>
    requires n <= ROOT_SLOTS
  {
    if n == 0 then []
    else if Live(SlotAt(v, n - 1)) then FilesTo(v, n - 1) + [FileAt(v, n - 1)]
    else FilesTo(v, n - 1)
  }

  function Listing(v: Vol): seq<File> {
    FilesTo(v, ROOT_SLOTS)
  }

  /** First match by short name. */
  function Lookup(files: seq<File>, name: seq<u8>): Result<seq<u8>> {
    if files == [] then Failure(NotFound)
    else if files[0].name == name then Success(files[0].data)
    else Lookup(files[1..], name)
  }

  // ---------------------------------------------------------------- the invariant

  /** In both FAT copies, the m clusters from f on are linked one after the other and end there. */
  ghost predicate Chained(v: Vol, f: nat, m: nat) {
    forall j: nat :: j < m ==> LinkAt(v, f, m, j)
  }

  ghost predicate LinkAt(v: Vol, f: nat, m: nat, j: nat) {
    Entry(v, 0, f + j) == Entry(v, 1, f + j) == if j == m - 1 then FAT_EOC else f + j + 1
  }

  function ExtentOf(v: Vol, i: nat): nat
    requires i < ROOT_SLOTS
  {
    ClustersFor(SizeOf(SlotAt(v, i)))
  }

  function HeadOf(v: Vol, i: nat): nat
    requires i < ROOT_SLOTS
  {
    FirstClusterOf(SlotAt(v, i))
  }

  /** The file of slot i has all the clusters its size needs, below `k` and after the root cluster. */
  ghost predicate Stored(v: Vol, k: nat, i: nat)
    requires i < ROOT_SLOTS
  {
    ROOT_CLUSTER < HeadOf(v, i) && HeadOf(v, i) + ExtentOf(v, i) <= k && Chained(v, HeadOf(v, i), ExtentOf(v, i))
  }

  /** The file-system invariant, with `k` the first free cluster and `n` the number of live slots. */
  ghost predicate InvAt(v: Vol, k: nat, n: nat) {
    && Bump(v, k)
    && DirShape(v, n)
    && (forall i :: 0 <= i < n ==> Stored(v, k, i))
    && (forall i, j :: 0 <= i < j < n ==> HeadOf(v, i) + ExtentOf(v, i) <= HeadOf(v, j))
  }

  ghost predicate Inv(v: Vol) {
    exists k: nat, n: nat :: InvAt(v, k, n)
  }

  /** The first free cluster and the number of live slots are determined by the volume. */
  lemma InvUnique(v: Vol, k: nat, n: nat, l: nat, m: nat)
    requires InvAt(v, k, n) && InvAt(v, l, m)
    ensures k == l && n == m
  {
    hide Stored, SlotAt;
    BumpUnique(v, k, l);
    if n < m {
      LiveIsBelow(v, n, n);
      LiveIsBelow(v, m, n);
    } else if m < n {
      LiveIsBelow(v, n, m);
      LiveIsBelow(v, m, m);
    }
  }

  // ---------------------------------------------------------------- chains of stored files

  lemma {:induction false} ChainedNth(v: Vol, f: nat, m: nat, j: nat)
    requires Chained(v, f, m) && j < m
    ensures Nth(v, f, j) == f + j
  {
    hide Entry;
    if j > 0 {
      ChainedNth(v, f, m, j - 1);
      assert LinkAt(v, f, m, j - 1);
    }
  }

  /** Each live slot heads a chain of exactly the clusters its size needs: they are different data
      clusters other than the root cluster, in use in copy 1, linked alike in both copies, with the
      end-of-chain mark at the last of them. */
  lemma ChainOfFile(v: Vol, k: nat, n: nat, i: nat, j: nat)
    requires InvAt(v, k, n) && i < n && j < ExtentOf(v, i)
    ensures SizeOf(SlotAt(v, i)) <= ExtentOf(v, i) * CLUSTER_SIZE
    ensures var c := Nth(v, HeadOf(v, i), j);
      && c == HeadOf(v, i) + j
      && ValidCluster(c) && c != ROOT_CLUSTER && Entry(v, 0, c) != FAT_FREE && Entry(v, 1, c) == Entry(v, 0, c)
      && (Entry(v, 0, c) == FAT_EOC <==> j == ExtentOf(v, i) - 1)
      && forall l: nat :: l < ExtentOf(v, i) && l != j ==> Nth(v, HeadOf(v, i), l) != c
  {
    hide Entry, SlotAt, Nth, SizeOf, ClustersFor, FirstClusterOf;
    BumpRange(v, k);
    assert Stored(v, k, i);
    ExtentCovers(v, i);
    var f, m := HeadOf(v, i), ExtentOf(v, i);
    ChainedNth(v, f, m, j);
    assert LinkAt(v, f, m, j);
    FatCoversAllClusters();
    forall l: nat | l < m && l != j
      ensures Nth(v, f, l) != f + j
    {
      ChainedNth(v, f, m, l);
    }
  }

  lemma ExtentCovers(v: Vol, i: nat)
    requires i < ROOT_SLOTS
    ensures SizeOf(SlotAt(v, i)) <= ExtentOf(v, i) * CLUSTER_SIZE
  {
    hide SlotAt, SizeOf;
  }

  /** Chains of different files share no cluster. */
  lemma ChainsDisjoint(v: Vol, k: nat, n: nat, i: nat, j: nat, a: nat, b: nat)
    requires InvAt(v, k, n) && i < n && j < n && i != j && a < ExtentOf(v, i) && b < ExtentOf(v, j)
    ensures Nth(v, HeadOf(v, i), a) != Nth(v, HeadOf(v, j), b)
  {
    hide Entry, SlotAt, Nth, ClustersFor, FirstClusterOf;
    assert Stored(v, k, i) && Stored(v, k, j);
    ChainedNth(v, HeadOf(v, i), ExtentOf(v, i), a);
    ChainedNth(v, HeadOf(v, j), ExtentOf(v, j), b);
  }

  // ---------------------------------------------------------------- what leaves files alone

  /** `w` agrees with `v` on the FAT entries of all clusters below `k`, and on the sectors of those
      from `lo` on. */
  ghost predicate Kept(v: Vol, w: Vol, lo: nat, k: nat) {
    && (forall copy: nat, c: nat :: copy < NUM_FATS && c < FAT_ENTRIES && c < k ==>
          w.fats[copy][c] == v.fats[copy][c])
    && (forall s :: 0 <= s < DATA_SECTORS && lo <= 2 + s / SECTORS_PER_CLUSTER < k ==> w.data[s] == v.data[s])
  }

  lemma KeptEntry(v: Vol, w: Vol, lo: nat, k: nat, copy: nat, c: nat)
    requires Kept(v, w, lo, k) && c < k
    ensures Entry(w, copy, c) == Entry(v, copy, c)
  {
  }

  lemma KeptSlot(v: Vol, w: Vol, lo: nat, k: nat, i: nat)
    requires Kept(v, w, lo, k) && lo <= ROOT_CLUSTER < k && i < ROOT_SLOTS
    ensures SlotAt(w, i) == SlotAt(v, i)
  {
    hide SlotIn;
  }

  lemma KeptChained(v: Vol, w: Vol, lo: nat, k: nat, f: nat, m: nat)
    requires Kept(v, w, lo, k) && Chained(v, f, m) && f + m <= k
    ensures Chained(w, f, m)
  {
    hide Entry, Kept;
    forall j: nat | j < m
      ensures LinkAt(w, f, m, j)
    {
      assert LinkAt(v, f, m, j);
      KeptEntry(v, w, lo, k, 0, f + j);
      KeptEntry(v, w, lo, k, 1, f + j);
    }
  }

  lemma KeptContents(v: Vol, w: Vol, lo: nat, k: nat, f: nat, size: nat)
    requires Kept(v, w, lo, k) && Chained(v, f, ClustersFor(size)) && lo <= f && 2 <= f && f + ClustersFor(size) <= k
    ensures Contents(w, f, size) == Contents(v, f, size)
  {
    hide Nth, Chained, Kept;
    var m := ClustersFor(size);
    KeptChained(v, w, lo, k, f, m);
    forall p | 0 <= p < size
      ensures ByteAt(w, f, p) == ByteAt(v, f, p)
    {
      var j := p / CLUSTER_SIZE;
      ChainedNth(v, f, m, j);
      ChainedNth(w, f, m, j);
      KeptSector(v, w, lo, k, f + j, p % CLUSTER_SIZE / BYTES_PER_SECTOR);
    }
  }

  lemma KeptSector(v: Vol, w: Vol, lo: nat, k: nat, c: nat, t: nat)
    requires Kept(v, w, lo, k) && 2 <= c < k && lo <= c && t < SECTORS_PER_CLUSTER
    ensures ValidCluster(c) ==> w.data[DataIndex(c, t)] == v.data[DataIndex(c, t)]
  {
    assert 2 + DataIndex(c, t) / SECTORS_PER_CLUSTER == c;
  }

  lemma KeptFile(v: Vol, w: Vol, lo: nat, k: nat, i: nat)
    requires Kept(v, w, lo, k) && lo <= 3 && i < ROOT_SLOTS && Stored(v, k, i) && SlotAt(w, i) == SlotAt(v, i)
    ensures FileAt(w, i) == FileAt(v, i) && Stored(w, k, i)
  {
    hide Kept, Chained, Contents, SlotAt, NameOf, FirstClusterOf, SizeOf, ClustersFor;
    KeptContents(v, w, lo, k, HeadOf(v, i), SizeOf(SlotAt(v, i)));
    KeptChained(v, w, lo, k, HeadOf(v, i), ExtentOf(v, i));
  }

  lemma {:induction false} KeptListing(v: Vol, w: Vol, k: nat, n: nat, i: nat)
    requires InvAt(v, k, n) && Kept(v, w, 0, k) && i <= ROOT_SLOTS
    ensures FilesTo(w, i) == FilesTo(v, i)
  {
    hide Kept, Stored, SlotAt, Live, FileAt, Bump;
    BumpRange(v, k);
    if i > 0 {
      KeptListing(v, w, k, n, i - 1);
      KeptSlot(v, w, 0, k, i - 1);
      LiveIsBelow(v, n, i - 1);
      if i - 1 < n {
        KeptFile(v, w, 0, k, i - 1);
      }
    }
  }

  /** Writes that stay at or above the first free cluster, and keep the used clusters a prefix, keep
      the invariant and every file. */
  lemma FilesUntouched(v: Vol, w: Vol, k: nat, n: nat, l: nat)
    requires InvAt(v, k, n) && Kept(v, w, 0, k) && Bump(w, l) && k <= l
    ensures InvAt(w, l, n) && Listing(w) == Listing(v)
  {
    hide Kept, SlotAt, Live, FileAt, Bump, Chained, FilesTo, ClustersFor, FirstClusterOf, SizeOf;
    BumpRange(v, k);
    KeptListing(v, w, k, n, ROOT_SLOTS);
    forall i | 0 <= i < ROOT_SLOTS
      ensures SlotAt(w, i) == SlotAt(v, i) && HeadOf(w, i) == HeadOf(v, i) && ExtentOf(w, i) == ExtentOf(v, i)
    {
      KeptSlot(v, w, 0, k, i);
    }
    forall i | 0 <= i < n
      ensures Stored(w, l, i)
    {
      KeptSlot(v, w, 0, k, i);
      KeptFile(v, w, 0, k, i);
    }
  }

  // ---------------------------------------------------------------- the listing

  lemma {:induction false} ListingEnds(v: Vol, n: nat, i: nat)
    requires DirShape(v, n) && n <= i <= ROOT_SLOTS
    ensures FilesTo(v, i) == FilesTo(v, n)
    decreases i
  {
    hide SlotAt, Live, FileAt;
    if i > n {
      ListingEnds(v, n, i - 1);
      LiveIsBelow(v, n, i - 1);
    }
  }

  lemma {:induction false} ListingIndexed(v: Vol, n: nat, i: nat)
    requires DirShape(v, n) && i <= n
    ensures FilesTo(v, i) == seq<File>(i, j requires 0 <= j < i => FileAt(v, j))
  {
    hide SlotAt, Live, FileAt;
    if i > 0 {
      ListingIndexed(v, n, i - 1);
      LiveIsBelow(v, n, i - 1);
    }
  }

  lemma {:induction false} LookupFirst(files: seq<File>, name: seq<u8>, i: nat)
    requires i < |files| && files[i].name == name
    requires forall j :: 0 <= j < i ==> files[j].name != name
    ensures Lookup(files, name) == Success(files[i].data)
  {
    if i > 0 {
      LookupFirst(files[1..], name, i - 1);
    }
  }

  lemma {:induction false} LookupNone(files: seq<File>, name: seq<u8>)
    requires forall j :: 0 <= j < |files| ==> files[j].name != name
    ensures Lookup(files, name) == Failure(NotFound)
  {
    if files != [] {
      LookupNone(files[1..], name);
    }
  }

  /** Appending a file answers a lookup only if nothing before it does. */
  lemma {:induction false} LookupAppend(files: seq<File>, file: File, name: seq<u8>)
    ensures Lookup(files + [file], name) ==
            if Lookup(files, name).Success? then Lookup(files, name)
            else if file.name == name then Success(file.data)
            else Failure(NotFound)
  {
    if files != [] {
      assert (files + [file])[1..] == files[1..] + [file];
      LookupAppend(files[1..], file, name);
    } else {
      assert (files + [file])[1..] == [];
    }
  }

  // ---------------------------------------------------------------- a new entry

  /** Filling the first free slot with a complete chain above all others appends one file to the
      listing; if the name does not occupy the slot, the listing stays as it is. */
  lemma EntryAdded(u: Vol, l: nat, n: nat, name: seq<u8>, f: nat, size: u32)
    requires InvAt(u, l, n) && n < ROOT_SLOTS && |name| == NAME_LENGTH
    requires ROOT_CLUSTER < f && f + ClustersFor(size) <= l && Chained(u, f, ClustersFor(size))
    requires forall i :: 0 <= i < n ==> HeadOf(u, i) + ExtentOf(u, i) <= f
    requires f < 0x1_0000_0000
    ensures var w := SetSlot(u, n, name, f, size);
      && InvAt(w, l, if Occupies(name) then n + 1 else n)
      && Listing(w) == Listing(u) + if Occupies(name) then [File(name, Contents(u, f, size))] else []
  {
    hide SlotAt, NameOf, FirstClusterOf, SizeOf, ClustersFor, Chained, Bump, FilesTo, Contents, SetSlot, Entry;
    var w := SetSlot(u, n, name, f, size);
    EntryFrame(u, l, n, name, f, size);
    BumpKept(u, w, l);
    assert DirShape(w, if Occupies(name) then n + 1 else n) by {
      EntryShape(u, n, name, f, size);
    }
    KeptContents(u, w, 3, l, f, size);
    KeptChained(u, w, 3, l, f, ClustersFor(size));
    forall i | 0 <= i < n
      ensures Stored(w, l, i) && HeadOf(w, i) == HeadOf(u, i) && ExtentOf(w, i) == ExtentOf(u, i)
    {
      EntrySlots(u, n, name, f, size, i);
      KeptFile(u, w, 3, l, i);
    }
    EntrySlots(u, n, name, f, size, n);
    EntryListing(u, l, n, name, f, size, n);
    ListingEnds(u, n, ROOT_SLOTS);
    if Occupies(name) {
      ListingEnds(w, n + 1, ROOT_SLOTS);
      FilesToNext(w, n);
    } else {
      ListingEnds(w, n, ROOT_SLOTS);
    }
  }

  lemma FilesToNext(v: Vol, n: nat)
    requires n < ROOT_SLOTS && Live(SlotAt(v, n))
    ensures FilesTo(v, n + 1) == FilesTo(v, n) + [FileAt(v, n)]
  {
  }

  lemma EntrySlots(u: Vol, n: nat, name: seq<u8>, f: u32, size: u32, j: nat)
    requires n < ROOT_SLOTS && |name| == NAME_LENGTH && j < ROOT_SLOTS
    ensures var w := SetSlot(u, n, name, f, size);
      && (j != n ==> SlotAt(w, j) == SlotAt(u, j))
      && NameOf(SlotAt(w, n)) == name && HeadOf(w, n) == f && SizeOf(SlotAt(w, n)) == size
      && Live(SlotAt(w, n)) == Occupies(name)
  {
    hide SetSlot, SlotAt, FirstClusterOf, SizeOf;
    SetSlotOnly(u, n, name, f, size, j);
    assert NameOf(SlotAt(SetSlot(u, n, name, f, size), n))[0] == name[0];
  }

  lemma EntryFrame(u: Vol, l: nat, n: nat, name: seq<u8>, f: u32, size: u32)
    requires n < ROOT_SLOTS && |name| == NAME_LENGTH
    ensures Kept(u, SetSlot(u, n, name, f, size), 3, l)
    ensures SetSlot(u, n, name, f, size).fats == u.fats
  {
    hide SetSlot, SlotAt, FirstClusterOf, SizeOf, NameOf;
    SetSlotOnly(u, n, name, f, size, n);
  }

  lemma BumpKept(u: Vol, w: Vol, l: nat)
    requires Bump(u, l) && w.fats == u.fats
    ensures Bump(w, l)
  {
    assert forall c {:trigger Entry(w, 0, c)} :: Entry(w, 0, c) == Entry(u, 0, c);
  }

  lemma EntryShape(u: Vol, n: nat, name: seq<u8>, f: u32, size: u32)
    requires DirShape(u, n) && n < ROOT_SLOTS && |name| == NAME_LENGTH
    ensures DirShape(SetSlot(u, n, name, f, size), if Occupies(name) then n + 1 else n)
  {
    hide SetSlot, SlotAt, FirstClusterOf, SizeOf, NameOf, Live, Occupies;
    forall j | 0 <= j < ROOT_SLOTS
      ensures j != n ==> SlotAt(SetSlot(u, n, name, f, size), j) == SlotAt(u, j)
      ensures Live(SlotAt(SetSlot(u, n, name, f, size), n)) == Occupies(name)
    {
      EntrySlots(u, n, name, f, size, j);
    }
  }

  lemma {:induction false} EntryListing(u: Vol, l: nat, n: nat, name: seq<u8>, f: u32, size: u32, i: nat)
    requires InvAt(u, l, n) && i <= n < ROOT_SLOTS && |name| == NAME_LENGTH
    ensures FilesTo(SetSlot(u, n, name, f, size), i) == FilesTo(u, i)
  {
    hide SetSlot, SlotAt, FileAt, Live, Kept, Stored;
    if i > 0 {
      EntryListing(u, l, n, name, f, size, i - 1);
      EntrySlots(u, n, name, f, size, i - 1);
      EntryFrame(u, l, n, name, f, size);
      KeptFile(u, SetSlot(u, n, name, f, size), 3, l, i - 1);
    }
  }

  /** Every listed name occupies its slot. */
  lemma {:induction false} ListedNamesOccupy(v: Vol, n: nat, s: int)
    requires n <= ROOT_SLOTS && 0 <= s < |FilesTo(v, n)|
    ensures |FilesTo(v, n)[s].name| == NAME_LENGTH && Occupies(FilesTo(v, n)[s].name)
  {
    hide SlotAt, Contents;
    if Live(SlotAt(v, n - 1)) {
      if s < |FilesTo(v, n - 1)| {
        ListedNamesOccupy(v, n - 1, s);
      } else {
        assert FileAt(v, n - 1).name[0] == SlotAt(v, n - 1)[0];
      }
    } else {
      ListedNamesOccupy(v, n - 1, s);
    }
  }

  // ---------------------------------------------------------------- the reader's scan

  /** No live slot among the first `i` has this name. */
  ghost predicate NotAmong(v: Vol, name: seq<u8>, i: nat)
    requires i <= ROOT_SLOTS
  {
    forall j :: 0 <= j < i ==> !(Live(SlotAt(v, j)) && NameOf(SlotAt(v, j)) == name)
  }

  /** A scan that ends a sector early at an unused slot has missed no live slot: on a volume of the
      right shape nothing live follows an unused slot. */
  lemma SectorScanned(v: Vol, n: nat, name: seq<u8>, t: nat, e: nat)
    requires DirShape(v, n) && t < SECTORS_PER_CLUSTER && e <= SLOTS_PER_SECTOR
    requires NotAmong(v, name, t * SLOTS_PER_SECTOR)
    requires forall d :: 0 <= d < e ==>
      var b := SlotIn(v.data[t], d);
      (Live(b) && NameOf(b) == name ==> exists z :: 0 <= z < d && SlotIn(v.data[t], z)[0] == UNUSED)
    ensures NotAmong(v, name, t * SLOTS_PER_SECTOR + e)
  {
    hide NameOf, SlotIn, DirShape, Live;
    forall j | t * SLOTS_PER_SECTOR <= j < t * SLOTS_PER_SECTOR + e
      ensures !(Live(SlotAt(v, j)) && NameOf(SlotAt(v, j)) == name)
    {
      var d := j - t * SLOTS_PER_SECTOR;
      assert SlotAt(v, j) == SlotIn(v.data[t], d);
      if exists z :: 0 <= z < d && SlotIn(v.data[t], z)[0] == UNUSED {
        var z :| 0 <= z < d && SlotIn(v.data[t], z)[0] == UNUSED;
        assert SlotAt(v, t * SLOTS_PER_SECTOR + z) == SlotIn(v.data[t], z);
        UnusedEndsDirectory(v, n, t * SLOTS_PER_SECTOR + z, j);
      }
    }
  }

  lemma UnusedEndsDirectory(v: Vol, n: nat, i: nat, j: nat)
    requires DirShape(v, n) && i < j < ROOT_SLOTS && SlotAt(v, i)[0] == UNUSED
    ensures !Live(SlotAt(v, j))
  {
    hide SlotAt;
  }

  lemma ScanFound(v: Vol, n: nat, name: seq<u8>, i: nat)
    requires DirShape(v, n) && i < ROOT_SLOTS && NotAmong(v, name, i)
    requires Live(SlotAt(v, i)) && NameOf(SlotAt(v, i)) == name
    ensures i < n
    ensures Lookup(Listing(v), name) == Success(Contents(v, HeadOf(v, i), SizeOf(SlotAt(v, i))))
  {
    hide SlotAt, NameOf, Contents, FirstClusterOf, SizeOf, Live;
    LiveIsBelow(v, n, i);
    ListingEnds(v, n, ROOT_SLOTS);
    ListingIndexed(v, n, n);
    forall j | 0 <= j < i
      ensures FileAt(v, j).name != name
    {
      LiveIsBelow(v, n, j);
    }
    LookupFirst(Listing(v), name, i);
  }

  lemma ScanMissed(v: Vol, n: nat, name: seq<u8>)
    requires DirShape(v, n) && NotAmong(v, name, ROOT_SLOTS)
    ensures Lookup(Listing(v), name) == Failure(NotFound)
  {
    hide SlotAt, NameOf, Contents, FirstClusterOf, SizeOf, Live;
    ListingEnds(v, n, ROOT_SLOTS);
    ListingIndexed(v, n, n);
    forall j | 0 <= j < n
      ensures FileAt(v, j).name != name
    {
      LiveIsBelow(v, n, j);
    }
    LookupNone(Listing(v), name);
  }

  lemma StoredWalkable(v: Vol, k: nat, n: nat, i: nat)
    requires InvAt(v, k, n) && i < n
    ensures i < ROOT_SLOTS && Walkable(v, HeadOf(v, i), SizeOf(SlotAt(v, i)))
  {
    hide Entry, SlotAt, Nth, FirstClusterOf, SizeOf, Bump;
    BumpRange(v, k);
    assert Stored(v, k, i);
    forall j: nat | j * CLUSTER_SIZE < SizeOf(SlotAt(v, i))
      ensures ValidCluster(Nth(v, HeadOf(v, i), j))
    {
      ChainedNth(v, HeadOf(v, i), ExtentOf(v, i), j);
    }
  }
}
