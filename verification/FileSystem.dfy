/** write_file and read_file: the order of the disk writes, and what every crash or disk error leaves. */
module FileSystem {
  import opened Results
  import opened Words
  import opened Geometry
  import opened Ata
  import opened Traces
  import opened Volume
  import opened Fat
  import opened Chain
  import opened Names
  import opened Directory
  import opened Files

  // ---------------------------------------------------------------- the planned writes

  function Consecutive(k: nat, m: nat): (cs: seq<nat>)
    ensures |cs| == m
    ensures forall j :: 0 <= j < m ==> cs[j] == k + j
  {
    seq<nat>(m, j requires 0 <= j => k + j)
  }

  /** The call gets as far as writing file data. */
  predicate Fits(k: nat, data: seq<u8>) {
    k + ClustersFor(|data|) <= CLUSTER_END
  }

  /** The writes up to the point where all clusters that can be had are linked. */
  function AllocPart(v: Vol, k: nat, data: seq<u8>): (p: seq<Vol>)
    requires k <= CLUSTER_END
    ensures p != [] && p[0] == v
  {
    AllocPlan(v, k, Available(k, ClustersFor(|data|)))
  }

  function DataPart(u: Vol, k: nat, data: seq<u8>): (p: seq<Vol>)
    ensures p != [] && p[0] == u
  {
    DataFits(data);
    DataPlan(u, Consecutive(k, ClustersFor(|data|)), data, SectorsFor(|data|))
  }

  lemma DataFits(data: seq<u8>)
    ensures SectorsFor(|data|) <= ClustersFor(|data|) * SECTORS_PER_CLUSTER
  {
    SectorsForFits(|data|, ClustersFor(|data|));
  }

  /** The writes before the directory is touched. */
  function BodyPlan(v: Vol, k: nat, data: seq<u8>): (p: seq<Vol>)
    requires k <= CLUSTER_END
    ensures p != [] && p[0] == v
  {
    if Fits(k, data) then Then(AllocPart(v, k, data), DataPart(Last(AllocPart(v, k, data)), k, data))
    else AllocPart(v, k, data)
  }

  /** All sector writes of write_file, as the volumes they lead through. */
  function FilePlan(v: Vol, k: nat, n: nat, name: seq<u8>, data: seq<u8>): (p: seq<Vol>)
    requires k <= CLUSTER_END && |name| == NAME_LENGTH
    ensures p != [] && p[0] == v
  {
    if Fits(k, data) && n < ROOT_SLOTS then
      var body := BodyPlan(v, k, data);
      body + [SetSlot(Last(body), n, name, k % 0x1_0000_0000, |data| % 0x1_0000_0000)]
    else BodyPlan(v, k, data)
  }

  /** The answer of write_file on a drive that does not fail. */
  function Answer(k: nat, n: nat, data: seq<u8>): Result<()> {
    if !Fits(k, data) then Failure(DiskFull)
    else if n >= ROOT_SLOTS then Failure(DirectoryFull)
    else Success(())
  }

  // ---------------------------------------------------------------- every state on the way

  lemma AllocPartSafe(v: Vol, k: nat, n: nat, data: seq<u8>, w: Vol)
    requires InvAt(v, k, n) && w in AllocPart(v, k, data)
    ensures Inv(w) && Listing(w) == Listing(v)
  {
    hide AllocPlan, Available, ClustersFor, InvAt, Bump, Kept, FilesTo;
    InvBump(v, k, n);
    var m := Available(k, ClustersFor(|data|));
    AllocPlanAllocates(v, k, m);
    assert Partial(v, w, k, m);
    var l: nat :| k <= l && Bump(w, l);
    OnlyEntriesKept(v, w, k, m);
    FilesUntouched(v, w, k, n, l);
  }

  lemma InvBump(v: Vol, k: nat, n: nat)
    requires InvAt(v, k, n)
    ensures Bump(v, k) && 3 <= k <= CLUSTER_END && n <= ROOT_SLOTS && DirShape(v, n)
  {
  }

  lemma OnlyEntriesKept(v: Vol, w: Vol, k: nat, m: nat)
    requires OnlyEntries(v, w, k, m)
    ensures Kept(v, w, 0, k)
  {
  }

  lemma OnlyDataKept(v: Vol, u: Vol, w: Vol, k: nat, m: nat)
    requires Kept(v, u, 0, k) && OnlyData(u, w, Consecutive(k, m))
    ensures Kept(v, w, 0, k)
  {
    assert forall c :: c in Consecutive(k, m) ==> c >= k;
  }

  /** The complete allocation: a chain of consecutive clusters from `k` on. */
  lemma AllocDone(v: Vol, k: nat, n: nat, data: seq<u8>)
    requires InvAt(v, k, n) && Fits(k, data)
    ensures var u, m := Last(AllocPart(v, k, data)), ClustersFor(|data|);
      && InvAt(u, k + m, n) && Listing(u) == Listing(v)
      && Kept(v, u, 0, k) && Chained(u, k, m) && Path(u, Consecutive(k, m))
  {
    hide AllocPlan, ClustersFor, InvAt, Bump, Kept, FilesTo, Entry;
    InvBump(v, k, n);
    var m := ClustersFor(|data|);
    var u := Last(AllocPart(v, k, data));
    AllocPlanAllocates(v, k, m);
    OnlyEntriesKept(v, u, k, m);
    FilesUntouched(v, u, k, n, k + m);
    forall j: nat | j < m
      ensures LinkAt(u, k, m, j)
    {
      AllocLinks(v, k, m, 0, j);
      AllocLinks(v, k, m, 1, j);
    }
    ChainedPath(u, k, m);
  }

  lemma ChainedPath(v: Vol, k: nat, m: nat)
    requires Chained(v, k, m) && 2 <= k && k + m <= CLUSTER_END
    ensures Path(v, Consecutive(k, m))
  {
    hide Entry;
    var cs := Consecutive(k, m);
    forall i | 0 < i < |cs|
      ensures cs[i] == Entry(v, 0, cs[i - 1])
    {
      assert LinkAt(v, k, m, i - 1);
    }
  }

  lemma DataPartSafe(v: Vol, k: nat, n: nat, data: seq<u8>, w: Vol)
    requires InvAt(v, k, n) && Fits(k, data)
    requires w in DataPart(Last(AllocPart(v, k, data)), k, data)
    ensures InvAt(w, k + ClustersFor(|data|), n) && Listing(w) == Listing(v)
    ensures Kept(v, w, 0, k) && w.fats == Last(AllocPart(v, k, data)).fats
  {
    hide AllocPart, DataPlan, ClustersFor, InvAt, Bump, Kept, FilesTo, Path, Chained, SectorsFor;
    var m, u := ClustersFor(|data|), Last(AllocPart(v, k, data));
    AllocDone(v, k, n, data);
    InvBump(u, k + m, n);
    DataFits(data);
    PathClusters(u, Consecutive(k, m));
    DataPlanOnly(u, Consecutive(k, m), data, SectorsFor(|data|));
    assert OnlyData(u, w, Consecutive(k, m));
    OnlyDataKept(v, u, w, k, m);
    BumpKept(u, w, k + m);
    FilesUntouched(v, w, k, n, k + m);
  }

  /** Just before the directory write, the new file's chain and data are complete. */
  lemma BodyDone(v: Vol, k: nat, n: nat, data: seq<u8>)
    requires InvAt(v, k, n) && Fits(k, data)
    ensures var u, m := Last(BodyPlan(v, k, data)), ClustersFor(|data|);
      && InvAt(u, k + m, n) && Listing(u) == Listing(v) && Kept(v, u, 0, k)
      && Chained(u, k, m) && Contents(u, k, |data|) == data
      && u.fats == Last(AllocPart(v, k, data)).fats
  {
    hide AllocPart, ClustersFor, InvAt, Bump, Kept, FilesTo, Path, Chained, SectorsFor, Contents, DataPlan;
    var m, a := ClustersFor(|data|), Last(AllocPart(v, k, data));
    var part := DataPart(a, k, data);
    var u := Last(part);
    LastOfThen(AllocPart(v, k, data), part);
    AllocDone(v, k, n, data);
    DataPartSafe(v, k, n, data, u);
    ChainedKept(a, u, k, m);
    WriteThenRead(a, Consecutive(k, m), data);
  }

  lemma LastOfThen<T>(p: seq<T>, q: seq<T>)
    requires p != [] && q != [] && q[0] == Last(p)
    ensures Last(Then(p, q)) == Last(q)
  {
  }

  lemma ChainedKept(v: Vol, w: Vol, f: nat, m: nat)
    requires Chained(v, f, m) && w.fats == v.fats
    ensures Chained(w, f, m)
  {
    forall j: nat | j < m
      ensures LinkAt(w, f, m, j)
    {
      assert LinkAt(v, f, m, j);
    }
  }

  lemma SizeFits(k: nat, data: seq<u8>)
    requires Fits(k, data)
    ensures |data| < 0x1_0000_0000 && k < 0x1_0000_0000
  {
  }

  /** Atomicity: stop write_file after any of its sector writes, and the invariant holds and every
      file is there as it was; only the last write, that of the directory sector, makes the new file
      appear, whole. The size stored in the entry never loses bits. */
  lemma WriteIsAtomic(v: Vol, k: nat, n: nat, name: seq<u8>, data: seq<u8>, i: nat)
    requires InvAt(v, k, n) && |name| == NAME_LENGTH && k <= CLUSTER_END
    requires i < |FilePlan(v, k, n, name, data)|
    ensures var plan := FilePlan(v, k, n, name, data);
      && Inv(plan[i])
      && Listing(plan[i]) == Listing(v) +
         if Answer(k, n, data).Success? && i == |plan| - 1 && Occupies(name) then [File(name, data)] else []
  {
    hide InvAt, Inv, Listing, BodyPlan, FilePlan, Fits, Answer, Occupies, SetSlot;
    var body := BodyPlan(v, k, data);
    InvBump(v, k, n);
    PlanIndex(v, k, n, name, data, i);
    if i < |body| {
      BodySafe(v, k, n, data, body[i]);
      assert Listing(v) + [] == Listing(v);
    } else {
      NewEntry(v, k, n, name, data);
      InvIntro(SetSlot(Last(body), n, name, k, |data|), k + ClustersFor(|data|),
               if Occupies(name) then n + 1 else n);
    }
  }

  lemma InvIntro(v: Vol, k: nat, n: nat)
    requires InvAt(v, k, n)
    ensures Inv(v)
  {
  }

  lemma PlanIndex(v: Vol, k: nat, n: nat, name: seq<u8>, data: seq<u8>, i: nat)
    requires k <= CLUSTER_END && |name| == NAME_LENGTH && i < |FilePlan(v, k, n, name, data)|
    ensures var plan, body := FilePlan(v, k, n, name, data), BodyPlan(v, k, data);
      if i < |body| then plan[i] == body[i] && !(Answer(k, n, data).Success? && i == |plan| - 1)
      else
        && Fits(k, data) && n < ROOT_SLOTS && Answer(k, n, data).Success? && i == |plan| - 1
        && |data| < 0x1_0000_0000 && k < 0x1_0000_0000
        && plan[i] == SetSlot(Last(body), n, name, k, |data|)
  {
    hide BodyPlan, SetSlot, ClustersFor;
    if Fits(k, data) {
      SizeFits(k, data);
    }
  }

  lemma BodySafe(v: Vol, k: nat, n: nat, data: seq<u8>, w: Vol)
    requires InvAt(v, k, n) && k <= CLUSTER_END && w in BodyPlan(v, k, data)
    ensures Inv(w) && Listing(w) == Listing(v)
  {
    hide InvAt, Listing, AllocPart, DataPart, ClustersFor;
    if w in AllocPart(v, k, data) {
      AllocPartSafe(v, k, n, data, w);
    } else {
      DataPartSafe(v, k, n, data, w);
    }
  }

  lemma NewEntry(v: Vol, k: nat, n: nat, name: seq<u8>, data: seq<u8>)
    requires InvAt(v, k, n) && Fits(k, data) && n < ROOT_SLOTS && |name| == NAME_LENGTH
    ensures |data| < 0x1_0000_0000 && k < 0x1_0000_0000
    ensures var u := Last(BodyPlan(v, k, data));
      var w := SetSlot(u, n, name, k, |data|);
      && InvAt(w, k + ClustersFor(|data|), if Occupies(name) then n + 1 else n)
      && Listing(w) == Listing(v) + if Occupies(name) then [File(name, data)] else []
  {
    hide AllocPart, BodyPlan, ClustersFor, Kept, Chained, Contents, SetSlot, FilesTo, SlotAt, FirstClusterOf, SizeOf,
         Stored, Occupies, Bump, DirShape;
    SizeFits(k, data);
    BodyDone(v, k, n, data);
    var u := Last(BodyPlan(v, k, data));
    HeadsBelow(v, u, k, n);
    EntryAdded(u, k + ClustersFor(|data|), n, name, k, |data|);
  }

  lemma HeadsBelow(v: Vol, u: Vol, k: nat, n: nat)
    requires InvAt(v, k, n) && Kept(v, u, 0, k)
    ensures k >= 3 && n <= ROOT_SLOTS
    ensures forall i :: 0 <= i < n ==> HeadOf(u, i) + ExtentOf(u, i) <= k
  {
    hide Kept, SlotAt, FirstClusterOf, SizeOf, ClustersFor, Chained;
    forall i | 0 <= i < n
      ensures HeadOf(u, i) + ExtentOf(u, i) <= k
    {
      KeptSlot(v, u, 0, k, i);
      assert Stored(v, k, i);
    }
  }

  // ---------------------------------------------------------------- space and mirroring

  /** The whole plan in terms of free clusters: a write takes exactly the clusters its data needs (one
      for an empty file), and "disk full" means that fewer were free, all of which are then taken. */
  lemma SpaceAccounting(v: Vol, k: nat, n: nat, name: seq<u8>, data: seq<u8>)
    requires InvAt(v, k, n) && |name| == NAME_LENGTH && k <= CLUSTER_END
    ensures var w, m := Last(FilePlan(v, k, n, name, data)), ClustersFor(|data|);
      && (Answer(k, n, data) == Failure(DiskFull) <==> |FreeClusters(v)| < m)
      && |FreeClusters(w)| == if |FreeClusters(v)| < m then 0 else |FreeClusters(v)| - m
  {
    hide InvAt, AllocPart, AllocPlan, BodyPlan, ClustersFor, Bump, FreeClusters, SetSlot, FilesTo;
    InvBump(v, k, n);
    BumpFreeCount(v, k);
    var m := ClustersFor(|data|);
    if !Fits(k, data) {
      AllocPlanAllocates(v, k, CLUSTER_END - k);
      BumpFreeCount(Last(AllocPlan(v, k, CLUSTER_END - k)), CLUSTER_END);
      FullPlan(v, k, n, name, data);
    } else {
      BodyDone(v, k, n, data);
      var u := Last(BodyPlan(v, k, data));
      InvBump(u, k + m, n);
      BumpFreeCount(u, k + m);
      if n < ROOT_SLOTS {
        NewEntry(v, k, n, name, data);
        var w := SetSlot(u, n, name, k, |data|);
        InvBump(w, k + m, if Occupies(name) then n + 1 else n);
        BumpFreeCount(w, k + m);
      }
    }
  }

  /** The answer of a call on a drive that does not fail, by what a user can count: the bytes of the
      data, the free clusters and the files listed. */
  lemma AnswerExactlyWhen(v: Vol, k: nat, n: nat, data: seq<u8>)
    requires InvAt(v, k, n) && k <= CLUSTER_END
    ensures |Listing(v)| == n <= 128 && (NoRoom(v) <==> |Listing(v)| == 128)
    ensures Answer(k, n, data) == Failure(DiskFull) <==>
            4096 * |FreeClusters(v)| < |data| || |FreeClusters(v)| == 0
    ensures Answer(k, n, data) == Failure(DirectoryFull) <==>
            4096 * |FreeClusters(v)| >= |data| && |FreeClusters(v)| > 0 && |Listing(v)| == 128
    ensures Answer(k, n, data) == Success(()) <==>
            4096 * |FreeClusters(v)| >= |data| && |FreeClusters(v)| > 0 && |Listing(v)| < 128
  {
    hide InvAt, Bump, FreeClusters, FilesTo, SlotAt, Live, NoRoom, DirShape, FileAt;
    InvBump(v, k, n);
    BumpFreeCount(v, k);
    RoomLeft(v, n);
    ListingEnds(v, n, ROOT_SLOTS);
    ListingIndexed(v, n, n);
    EnoughClusters(|data|, |FreeClusters(v)|);
  }

  lemma EnoughClusters(byteLen: nat, free: nat)
    ensures ClustersFor(byteLen) <= free <==> byteLen <= 4096 * free && free > 0
  {
  }

  lemma FullPlan(v: Vol, k: nat, n: nat, name: seq<u8>, data: seq<u8>)
    requires k <= CLUSTER_END && |name| == NAME_LENGTH && !Fits(k, data)
    ensures FilePlan(v, k, n, name, data) == AllocPlan(v, k, CLUSTER_END - k)
  {
    hide AllocPlan;
  }

  /** Without disk errors the two FAT copies stay equal from call to call. (That they agree on every
      file's chain even after errors is part of the invariant, see ChainOfFile.) */
  lemma MirrorsStayEqual(v: Vol, k: nat, n: nat, name: seq<u8>, data: seq<u8>)
    requires InvAt(v, k, n) && |name| == NAME_LENGTH && k <= CLUSTER_END && v.fats[0] == v.fats[1]
    ensures var w := Last(FilePlan(v, k, n, name, data)); w.fats[0] == w.fats[1]
  {
    hide InvAt, AllocPlan, BodyPlan, ClustersFor, SetSlot, FilesTo, Kept, Chained, Contents, Available;
    InvBump(v, k, n);
    AllocMirrors(v, k, Available(k, ClustersFor(|data|)));
    if !Fits(k, data) {
      FullPlan(v, k, n, name, data);
      assert Available(k, ClustersFor(|data|)) == CLUSTER_END - k;
    } else {
      BodyDone(v, k, n, data);
      if n < ROOT_SLOTS {
        SizeFits(k, data);
        EntryFrame(Last(BodyPlan(v, k, data)), k, n, name, k, |data|);
      }
    }
  }

  // ---------------------------------------------------------------- write_file

  /** How write_file leaves the drive: it ran a prefix of its planned sector writes; unless the drive
      failed it ran all of them and gives the planned answer; when the drive failed, a directory write
      was not reached. */
  ghost predicate FileOutcome(before: seq<Vol>, now: seq<Vol>, v: Vol, k: nat, n: nat, name: seq<u8>,
                              data: seq<u8>, r: Result<()>)
    requires k <= CLUSTER_END && |name| == NAME_LENGTH
  {
    var plan := FilePlan(v, k, n, name, data);
    && Ran(before, now, plan)
    && (r != Failure(AtaError) ==> r == Answer(k, n, data) && |now| - |before| == |plan| - 1)
    && (r == Failure(AtaError) && Answer(k, n, data).Success? ==> |now| - |before| < |plan| - 1)
  }

  /** An allocation that did not succeed ends the call. */
  lemma AllocEnds(before: seq<Vol>, now: seq<Vol>, v: Vol, k: nat, n: nat, name: seq<u8>, data: seq<u8>,
                  r: Result<u32>)
    requires k <= CLUSTER_END && |name| == NAME_LENGTH && r.Failure?
    requires AllocOutcome(before, now, v, k, ClustersFor(|data|), r)
    ensures FileOutcome(before, now, v, k, n, name, data, Failure(r.error))
  {
    hide AllocPlan, ClustersFor, Ran, DataPart, SetSlot, Available;
    RanLast(before, now, AllocPart(v, k, data));
    RanMore(before, now, AllocPart(v, k, data), FilePlan(v, k, n, name, data));
  }

  lemma DataEnds(before: seq<Vol>, mid: seq<Vol>, now: seq<Vol>, v: Vol, k: nat, n: nat, name: seq<u8>,
                 data: seq<u8>, r: Result<()>)
    requires k <= CLUSTER_END && |name| == NAME_LENGTH
    requires AllocOutcome(before, mid, v, k, ClustersFor(|data|), Success(k)) && mid != []
    requires |data| <= ClustersFor(|data|) * CLUSTER_SIZE
    requires DataOutcome(mid, now, Last(mid), Consecutive(k, ClustersFor(|data|)), data, r)
    ensures r.Failure? ==> FileOutcome(before, now, v, k, n, name, data, r)
    ensures r.Success? ==>
      Fits(k, data) && Ran(before, now, BodyPlan(v, k, data)) && |now| - |before| == |BodyPlan(v, k, data)| - 1
  {
    hide AllocPlan, ClustersFor, Ran, DataPlan, SetSlot, Available, SectorsFor;
    var a := AllocPart(v, k, data);
    RanLast(before, mid, a);
    var d := DataPart(Last(a), k, data);
    RanLast(mid, now, d);
    RanThen(before, mid, now, a, d);
    RanMore(before, now, BodyPlan(v, k, data), FilePlan(v, k, n, name, data));
  }

  lemma EntryEnds(before: seq<Vol>, mid: seq<Vol>, now: seq<Vol>, v: Vol, k: nat, n: nat, name: seq<u8>,
                  data: seq<u8>, r: Result<()>)
    requires k <= CLUSTER_END && |name| == NAME_LENGTH && n <= ROOT_SLOTS && Fits(k, data) && mid != []
    requires Ran(before, mid, BodyPlan(v, k, data)) && |mid| - |before| == |BodyPlan(v, k, data)| - 1
    requires |data| < 0x1_0000_0000 && k < 0x1_0000_0000
    requires r.Success? ==> n < ROOT_SLOTS && now == mid + [SetSlot(Last(mid), n, name, k, |data|)]
    requires r.Failure? ==> now == mid && (r.error == AtaError || (r.error == DirectoryFull && n == ROOT_SLOTS))
    ensures FileOutcome(before, now, v, k, n, name, data, r)
  {
    hide Ran, SetSlot, BodyPlan;
    var body, plan := BodyPlan(v, k, data), FilePlan(v, k, n, name, data);
    RanLast(before, mid, body);
    RanMore(before, mid, body, plan);
    if r.Success? {
      var last := SetSlot(Last(mid), n, name, k, |data|);
      assert plan == body + [last];
      RanPush(before, mid, last, plan);
      assert r.value == ();
    }
  }

  /** What the outcome means for the files: on Ok exactly one file is appended (unless its name does
      not occupy a slot), otherwise none, and no state on the way shows anything but the old files. */
  ghost predicate Atomic(before: seq<Vol>, now: seq<Vol>, v: Vol, name: seq<u8>, data: seq<u8>, r: Result<()>)
    requires name != []
  {
    && now != [] && Inv(Last(now))
    && Listing(Last(now)) == Listing(v) + (if r.Success? && Occupies(name) then [File(name, data)] else [])
    && forall i :: |before| <= i < |now| - 1 ==> Inv(now[i]) && Listing(now[i]) == Listing(v)
  }

  lemma OutcomeIsAtomic(before: seq<Vol>, now: seq<Vol>, v: Vol, k: nat, n: nat, name: seq<u8>,
                        data: seq<u8>, r: Result<()>)
    requires InvAt(v, k, n) && k <= CLUSTER_END && |name| == NAME_LENGTH
    requires FileOutcome(before, now, v, k, n, name, data, r)
    ensures Atomic(before, now, v, name, data, r)
    ensures r == Answer(k, n, data) || r == Failure(AtaError)
    ensures Answer(k, n, data) != Failure(AtaError)
  {
    hide InvAt, Inv, Listing, FilePlan, Ran, Occupies;
    var plan := FilePlan(v, k, n, name, data);
    RanLast(before, now, plan);
    WriteIsAtomic(v, k, n, name, data, |now| - |before|);
    forall i | |before| <= i < |now| - 1
      ensures Inv(now[i]) && Listing(now[i]) == Listing(v)
    {
      WriteIsAtomic(v, k, n, name, data, i - |before| + 1);
      assert Listing(v) + [] == Listing(v);
    }
  }

  method WriteFile(disk: Disk, name: string, data: seq<u8>, ghost k: nat, ghost n: nat) returns (r: Result<()>)
    requires InvAt(Now(disk), k, n) && k <= CLUSTER_END
    modifies disk
    ensures FileOutcome(old(States(disk)), States(disk), old(Now(disk)), k, n, ShortName(name), data, r)
    ensures Atomic(old(States(disk)), States(disk), old(Now(disk)), ShortName(name), data, r)
    ensures r == if disk.faults == old(disk.faults) then Answer(k, n, data) else Failure(AtaError)
    ensures Accounted(old(disk.faults), disk.faults, r)
  {
    hide VolOf, States, ClustersFor, InvAt, AllocOutcome, DataOutcome, FileOutcome, Atomic, Path, BodyPlan, Ran,
         ShortName, Fits, DirShape, SetSlot, Consecutive;
    ghost var v, before := Now(disk), States(disk);
    InvBump(v, k, n);
    var shortName := ToShortName(name);

    var alloc := AllocateClusterChain(disk, |data|, k);
    ghost var mid := States(disk);
    if alloc.Failure? {
      AllocEnds(before, mid, v, k, n, shortName, data, alloc);
      OutcomeIsAtomic(before, mid, v, k, n, shortName, data, Failure(alloc.error));
      return Failure(alloc.error);
    }
    var firstCluster := alloc.value;

    AllocatedPath(before, mid, v, k, n, data, alloc);
    var written := WriteDataToChain(disk, firstCluster, data, Consecutive(k, ClustersFor(|data|)));
    ghost var done := States(disk);
    DataEnds(before, mid, done, v, k, n, shortName, data, written);
    if written.Failure? {
      OutcomeIsAtomic(before, done, v, k, n, shortName, data, written);
      return written;
    }

    BodyShape(before, done, v, k, n, data);
    r := AddEntry(disk, shortName, firstCluster, |data| % 0x1_0000_0000, n);
    EntryEnds(before, done, States(disk), v, k, n, shortName, data, r);
    OutcomeIsAtomic(before, States(disk), v, k, n, shortName, data, r);
  }

  lemma AllocatedPath(before: seq<Vol>, now: seq<Vol>, v: Vol, k: nat, n: nat, data: seq<u8>, r: Result<u32>)
    requires InvAt(v, k, n) && k <= CLUSTER_END && r.Success?
    requires AllocOutcome(before, now, v, k, ClustersFor(|data|), r)
    ensures r.value == k && now != [] && Path(Last(now), Consecutive(k, ClustersFor(|data|)))
    ensures Consecutive(k, ClustersFor(|data|)) != [] && Consecutive(k, ClustersFor(|data|))[0] == k
    ensures |data| <= ClustersFor(|data|) * CLUSTER_SIZE && ClustersFor(|data|) >= 1
  {
    hide InvAt, AllocPlan, Ran, Path, ClustersFor, Kept, Chained, FilesTo;
    RanLast(before, now, AllocPart(v, k, data));
    AllocDone(v, k, n, data);
  }

  lemma BodyShape(before: seq<Vol>, now: seq<Vol>, v: Vol, k: nat, n: nat, data: seq<u8>)
    requires InvAt(v, k, n) && Fits(k, data) && k <= CLUSTER_END
    requires Ran(before, now, BodyPlan(v, k, data)) && |now| - |before| == |BodyPlan(v, k, data)| - 1
    ensures now != [] && DirShape(Last(now), n) && n <= ROOT_SLOTS
    ensures |data| < 0x1_0000_0000 && k < 0x1_0000_0000
  {
    hide InvAt, Ran, BodyPlan, ClustersFor, DirShape, Kept, Chained, FilesTo, Contents;
    RanLast(before, now, BodyPlan(v, k, data));
    BodyDone(v, k, n, data);
    InvBump(Last(now), k + ClustersFor(|data|), n);
    SizeFits(k, data);
  }

  // ---------------------------------------------------------------- read_file

  /** What read_file does with the slot it found. */
  method ReadSlot(disk: Disk, bytes: array<u8>, entryIndex: nat) returns (r: Result<seq<u8>>)
    requires bytes.Length == BYTES_PER_SECTOR && entryIndex < SLOTS_PER_SECTOR
    modifies disk`taskFile, disk`faults
    ensures r.Success? ==> |r.value| == SizeOf(SlotIn(bytes[..], entryIndex))
    ensures r.Failure? ==> r.error == AtaError || r.error == ArithmeticPanic
    ensures var b := SlotIn(bytes[..], entryIndex);
      Walkable(Now(disk), FirstClusterOf(b), SizeOf(b)) ==>
        Accounted(old(disk.faults), disk.faults, r)
        && r == if disk.faults == old(disk.faults) then Success(Contents(Now(disk), FirstClusterOf(b), SizeOf(b)))
                else Failure(AtaError)
    ensures r == Failure(AtaError) || disk.faults == old(disk.faults)
  {
    hide VolOf, Contents, Le16, Le32, Walkable;
    var entryStart := entryIndex * DIR_ENTRY_SIZE;
    SlotFields(bytes[..], entryIndex);
    var clusterHigh := Le16(bytes[..], entryStart + 20);
    var clusterLow := Le16(bytes[..], entryStart + 26);
    var firstCluster := clusterHigh as int * 0x1_0000 + clusterLow as int;
    var fileSize := Le32(bytes[..], entryStart + 28);
    r := ReadDataFromChain(disk, firstCluster, fileSize);
  }

  lemma SlotFields(sector: Sector, e: nat)
    requires e < SLOTS_PER_SECTOR
    ensures var at := e * DIR_ENTRY_SIZE;
      && FirstClusterOf(SlotIn(sector, e)) == Le16(sector, at + 20) * 0x1_0000 + Le16(sector, at + 26)
      && SizeOf(SlotIn(sector, e)) == Le32(sector, at + 28)
  {
  }

  /** On a drive that does not fail, the first stored file of that short name, or "not found". On any
      other volume the call still ends, with an answer and an unchanged disk. */
  method ReadFile(disk: Disk, name: string, ghost k: nat, ghost n: nat) returns (r: Result<seq<u8>>)
    modifies disk`taskFile, disk`faults
    ensures InvAt(Now(disk), k, n) ==>
      Accounted(old(disk.faults), disk.faults, r)
      && r == if disk.faults == old(disk.faults) then Lookup(Listing(Now(disk)), ShortName(name)) else Failure(AtaError)
    ensures r.Failure? ==> r.error == AtaError || r.error == NotFound || r.error == ArithmeticPanic
    ensures r == Failure(AtaError) || disk.faults == old(disk.faults)
  {
    hide VolOf, InvAt, Contents, SlotIn, NameOf, Live, Listing, NotAmong, DirShape, ShortName, BytesOf, FirstClusterOf,
         SizeOf, Lookup, Walkable;
    ghost var v := Now(disk);
    ghost var good := InvAt(v, k, n);
    if good {
      InvBump(v, k, n);
    }
    var shortName := ToShortName(name);
    NotAmongNone(v, shortName);
    var rootDirStart := ClusterToSector(ROOT_CLUSTER).value;
    for sectorOffset := 0 to SECTORS_PER_CLUSTER
      invariant good ==> NotAmong(v, shortName, sectorOffset * SLOTS_PER_SECTOR)
      invariant disk.faults == old(disk.faults)
    {
      var sector := rootDirStart + sectorOffset;
      var _, bytes :- LoadSector(disk, sector);
      RootSectorIsStored(disk.sectors, sectorOffset);
      assert bytes[..] == v.data[sectorOffset];
      var entryIndex := FindNamedSlot(bytes, shortName);
      if good {
        SectorScanned(v, n, shortName, sectorOffset, entryIndex);
      }
      if entryIndex < SLOTS_PER_SECTOR {
        ghost var i := sectorOffset * SLOTS_PER_SECTOR + entryIndex;
        assert SlotAt(v, i) == SlotIn(bytes[..], entryIndex);
        if good {
          ScanFound(v, n, shortName, i);
          StoredWalkable(v, k, n, i);
        }
        r := ReadSlot(disk, bytes, entryIndex);
        return;
      }
    }
    if good {
      ScanMissed(v, n, shortName);
    }
    return Failure(NotFound);
  }

  lemma NotAmongNone(v: Vol, name: seq<u8>)
    ensures NotAmong(v, name, 0)
  {
  }

  // ---------------------------------------------------------------- which files are found again

  /** A file just written with Ok is found again if and only if its short name occupies a slot; what
      is found is the new data exactly when no older file of that name answers first with other data. */
  lemma WrittenFileIsFound(v: Vol, k: nat, n: nat, name: string, data: seq<u8>)
    requires InvAt(v, k, n) && k <= CLUSTER_END && Answer(k, n, data).Success?
    ensures var w, s := Last(FilePlan(v, k, n, ShortName(name), data)), ShortName(name);
      && (Lookup(Listing(w), s).Success? <==> Occupies(s))
      && (Lookup(Listing(w), s) == Success(data) <==>
            Occupies(s) && (Lookup(Listing(v), s).Success? ==> Lookup(Listing(v), s) == Success(data)))
  {
    hide InvAt, Listing, FilePlan, Answer, ShortName, Occupies;
    var s := ShortName(name);
    var plan := FilePlan(v, k, n, s, data);
    WriteIsAtomic(v, k, n, s, data, |plan| - 1);
    LookupAppend(Listing(v), File(s, data), s);
    if !Occupies(s) {
      UnlistedName(v, s);
      assert Listing(v) + [] == Listing(v);
    }
    LookupFailure(Listing(v), s);
  }

  lemma {:induction false} LookupFailure(files: seq<File>, name: seq<u8>)
    ensures Lookup(files, name).Failure? ==> Lookup(files, name) == Failure(NotFound)
  {
    if files != [] {
      LookupFailure(files[1..], name);
    }
  }

  lemma UnlistedName(v: Vol, name: seq<u8>)
    requires |name| == NAME_LENGTH && !Occupies(name)
    ensures Lookup(Listing(v), name) == Failure(NotFound)
  {
    hide FilesTo, Occupies;
    forall j | 0 <= j < |Listing(v)|
      ensures Listing(v)[j].name != name
    {
      ListedNamesOccupy(v, ROOT_SLOTS, j);
    }
    LookupNone(Listing(v), name);
  }

  /** Which names occupy a slot, in terms of the characters: all but those whose base begins with a
      character whose code point ends in 0x00 or 0xE5. */
  lemma NameOccupies(name: string)
    ensures Occupies(ShortName(name)) <==>
      Base(name) == "" || (Base(name)[0] as int % 0x100 != 0x00 && Base(name)[0] as int % 0x100 != 0xE5)
  {
    hide LastDot;
    assert ShortName(name)[0] == Field(Base(name), BASE_LENGTH)[0];
  }

  /** The file name "\u{E5}.TXT" is such a name: write_file answers Ok and the file is lost. */
  lemma LostFile(v: Vol, k: nat, n: nat, data: seq<u8>)
    requires InvAt(v, k, n) && k <= CLUSTER_END && Answer(k, n, data).Success?
    ensures var name := "\U{E5}.TXT";
      var w := Last(FilePlan(v, k, n, ShortName(name), data));
      Lookup(Listing(w), ShortName(name)) == Failure(NotFound)
  {
    hide InvAt, Listing, FilePlan, Answer, ShortName;
    var name := "\U{E5}.TXT";
    LastDotUnique(name, 1);
    assert Base(name) == [name[0]];
    NameOccupies(name);
    WrittenFileIsFound(v, k, n, name, data);
    LookupFailure(Listing(Last(FilePlan(v, k, n, ShortName(name), data))), ShortName(name));
  }
}
