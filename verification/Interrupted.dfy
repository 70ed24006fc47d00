/** What an interrupted call of write_file leaves in the FAT: exactly when the two copies differ, and
    exactly when a cluster in use links to a free one. */
module Interrupted {
  import opened Results
  import opened Words
  import opened Geometry
  import opened Traces
  import opened Volume
  import opened Fat
  import opened Chain
  import opened Names
  import opened Directory
  import opened Files
  import opened FileSystem

  // ---------------------------------------------------------------- the allocation, write by write

  /** The first cluster that is not in use after `i` sector writes of an allocation from `k` on. */
  function Reached(k: nat, i: nat): nat {
    k + i / 4 + if i % 4 == 0 then 0 else 1
  }

  /** The last cluster in use names the one after it, which is not in use yet. */
  predicate HalfLinked(i: nat) {
    i % 4 == 3 || (i % 4 == 0 && i > 0)
  }

  /** The sector write that follows the first `i` ones: end mark in copy 1, in copy 2, link in copy 1,
      in copy 2, and so on. */
  function AllocWrite(w: Vol, k: nat, i: nat): Vol {
    SetEntry(w, i % 2, Target(k, i), Value(k, i))
  }

  function Target(k: nat, i: nat): nat {
    if i % 4 == 0 then Reached(k, i) else Reached(k, i) - 1
  }

  function Value(k: nat, i: nat): nat {
    if i % 4 < 2 then FAT_EOC else Reached(k, i)
  }

  ghost predicate ByWrites(p: seq<Vol>, k: nat) {
    forall i :: 0 <= i < |p| - 1 ==> p[i + 1] == AllocWrite(p[i], k, i)
  }

  function PlanLength(m: nat): nat {
    if m == 0 then 1 else 4 * m - 1
  }

  lemma {:induction false} PlanByWrites(v: Vol, k: nat, m: nat)
    ensures |AllocPlan(v, k, m)| == PlanLength(m)
    ensures ByWrites(AllocPlan(v, k, m), k)
  {
    hide RoundPlan, LinkPlan, ByWrites;
    ByWritesNone(v, k);
    if m > 0 {
      PlanByWrites(v, k, m - 1);
      RoundByWrites(AllocPlan(v, k, m - 1), k, m);
    }
  }

  lemma ByWritesNone(v: Vol, k: nat)
    ensures ByWrites([v], k)
  {
  }

  lemma RoundByWrites(p: seq<Vol>, k: nat, m: nat)
    requires m > 0 && |p| == PlanLength(m - 1) && ByWrites(p, k)
    ensures ByWrites(RoundPlan(p, k, m), k)
  {
    hide AllocWrite, SetEntry, ByWrites, Target, Value, Then, EntryPlan, PlanLength;
    RoundTargets(k, m);
    if m > 1 {
      EntryByWrites(p, k, k + m - 2, k + m - 1);
    }
    EntryByWrites(LinkPlan(p, k, m), k, k + m - 1, FAT_EOC);
  }

  lemma RoundTargets(k: nat, m: nat)
    requires m > 0
    ensures PlanLength(m) == PlanLength(m - 1) + if m == 1 then 2 else 4
    ensures PlanLength(m) % 2 == 1 && PlanLength(m - 1) % 2 == 1
    ensures m > 1 ==> Target(k, PlanLength(m - 1) - 1) == k + m - 2 && Value(k, PlanLength(m - 1) - 1) == k + m - 1
    ensures Target(k, PlanLength(m) - 3) == k + m - 1 && Value(k, PlanLength(m) - 3) == FAT_EOC
  {
    hide Target, Value, PlanLength;
    Lengths(m);
    Lengths(m - 1);
    TargetsAt(k, m - 1);
    if m > 1 {
      TargetsAt(k, m - 2);
    }
  }

  lemma Lengths(m: nat)
    ensures PlanLength(m) % 2 == 1
    ensures PlanLength(m) == if m == 0 then 1 else 4 * (m - 1) + 3
  {
    if m > 0 {
      Odd(2 * m - 1);
    }
  }

  lemma Odd(q: nat)
    ensures (2 * q + 1) % 2 == 1
  {
  }

  lemma TargetsAt(k: nat, q: nat)
    ensures Target(k, 4 * q) == k + q && Value(k, 4 * q) == FAT_EOC
    ensures Target(k, 4 * q + 2) == k + q && Value(k, 4 * q + 2) == k + q + 1
  {
    assert 4 * q / 4 == q && 4 * q % 4 == 0 && (4 * q + 2) / 4 == q && (4 * q + 2) % 4 == 2;
  }

  lemma EntryByWrites(p: seq<Vol>, k: nat, c: nat, value: nat)
    requires p != [] && ByWrites(p, k) && |p| % 2 == 1
    requires c == Target(k, |p| - 1) && value == Value(k, |p| - 1)
    ensures ByWrites(Then(p, EntryPlan(Last(p), c, value)), k)
  {
    hide SetEntry, ByWrites, Target, Value;
    SameTarget(k, |p| - 1);
    var q := Then(p, EntryPlan(Last(p), c, value));
    assert p <= q;
    var i := |p| - 1;
    assert q[i + 1] == AllocWrite(q[i], k, i);
    assert q[i + 2] == AllocWrite(q[i + 1], k, i + 1);
    ByWritesMore(p, q, k);
  }

  lemma SameTarget(k: nat, i: nat)
    requires i % 2 == 0
    ensures Target(k, i + 1) == Target(k, i) && Value(k, i + 1) == Value(k, i)
  {
    Phases(i);
  }

  lemma ByWritesMore(p: seq<Vol>, q: seq<Vol>, k: nat)
    requires p != [] && ByWrites(p, k) && p <= q && |q| == |p| + 2
    requires q[|p|] == AllocWrite(q[|p| - 1], k, |p| - 1) && q[|p| + 1] == AllocWrite(q[|p|], k, |p|)
    ensures ByWrites(q, k)
  {
    hide AllocWrite;
    forall i | 0 <= i < |q| - 1
      ensures q[i + 1] == AllocWrite(q[i], k, i)
    {
      if i < |p| - 1 {
        assert p[i + 1] == AllocWrite(p[i], k, i);
      }
    }
  }

  // ---------------------------------------------------------------- links on the way

  /** The clusters below `l` are in use; those from `k` on are linked in order, and the last of them
      is the end of the chain, or names the free cluster `l`. */
  ghost predicate Linking(w: Vol, k: nat, l: nat, half: bool) {
    && k <= l && Bump(w, l)
    && (forall c :: k <= c < l - 1 ==> Entry(w, 0, c) == c + 1)
    && (l > k ==> Entry(w, 0, l - 1) == if half then l else FAT_EOC)
  }

  /** The next write names clusters of the disk only. */
  predicate WriteFits(k: nat, i: nat) {
    Reached(k, i) < CLUSTER_END || (i % 4 == 1 && Reached(k, i) == CLUSTER_END)
  }

  lemma LinkingNext(w: Vol, k: nat, i: nat)
    requires Linking(w, k, Reached(k, i), HalfLinked(i)) && k >= 3 && WriteFits(k, i)
    ensures Linking(AllocWrite(w, k, i), k, Reached(k, i + 1), HalfLinked(i + 1))
  {
    hide SetEntry, Linking, Reached, HalfLinked, Target, Value, WriteFits;
    var l := Reached(k, i);
    Counters(k, i);
    InRange(k, i);
    if i % 4 == 0 {
      MarkNext(w, k, l, HalfLinked(i));
    } else if i % 4 == 2 {
      LinkNext(w, k, l);
    } else {
      SecondCopy(w, k, l, HalfLinked(i), Target(k, i), Value(k, i));
    }
  }

  /** How the counters move with the i-th write. */
  lemma Counters(k: nat, i: nat)
    ensures Reached(k, i + 1) == Reached(k, i) + if i % 4 == 0 then 1 else 0
    ensures i % 4 == 0 ==>
      && i % 2 == 0 && !HalfLinked(i + 1) && (HalfLinked(i) || Reached(k, i) == k)
      && Target(k, i) == Reached(k, i) && Value(k, i) == FAT_EOC
    ensures i % 4 == 2 ==>
      && i % 2 == 0 && !HalfLinked(i) && HalfLinked(i + 1) && k < Reached(k, i)
      && Target(k, i) == Reached(k, i) - 1 && Value(k, i) == Reached(k, i)
    ensures i % 4 != 0 && i % 4 != 2 ==>
      i % 2 == 1 && HalfLinked(i + 1) == HalfLinked(i) && k < Reached(k, i) && Target(k, i) == Reached(k, i) - 1
  {
    Phases(i);
  }

  lemma Phases(i: nat)
    ensures (i + 1) / 4 == i / 4 + if i % 4 == 3 then 1 else 0
    ensures (i + 1) % 4 == if i % 4 == 3 then 0 else i % 4 + 1
    ensures i % 2 == if i % 4 == 0 || i % 4 == 2 then 0 else 1
  {
  }

  lemma InRange(k: nat, i: nat)
    requires k >= 3 && WriteFits(k, i)
    ensures i % 4 != 1 ==> Reached(k, i) < CLUSTER_END
    ensures 2 <= Target(k, i) && Value(k, i) % ENTRY_LIMIT != FAT_FREE
  {
  }

  lemma MarkNext(w: Vol, k: nat, l: nat, half: bool)
    requires Linking(w, k, l, half) && 3 <= k && l < CLUSTER_END && (half || l == k)
    ensures Linking(SetEntry(w, 0, l, FAT_EOC), k, l + 1, false)
  {
    hide SetEntry, Entry, Bump;
    BumpStep(w, l, 0, l, FAT_EOC);
    forall d | 2 <= d < CLUSTER_END
      ensures Entry(SetEntry(w, 0, l, FAT_EOC), 0, d) == if d == l then FAT_EOC else Entry(w, 0, d)
    {
      EntryIsolation(w, 0, l, FAT_EOC, 0, d);
    }
  }

  lemma LinkNext(w: Vol, k: nat, l: nat)
    requires Linking(w, k, l, false) && 3 <= k < l < CLUSTER_END
    ensures Linking(SetEntry(w, 0, l - 1, l), k, l, true)
  {
    hide SetEntry, Entry, Bump;
    BumpStep(w, l, 0, l - 1, l);
    forall d | 2 <= d < CLUSTER_END
      ensures Entry(SetEntry(w, 0, l - 1, l), 0, d) == if d == l - 1 then l else Entry(w, 0, d)
    {
      EntryIsolation(w, 0, l - 1, l, 0, d);
    }
    var w' := SetEntry(w, 0, l - 1, l);
    forall c | k <= c < l - 1
      ensures Entry(w', 0, c) == c + 1
    {
      assert Entry(w, 0, c) == c + 1;
    }
  }

  lemma SecondCopy(w: Vol, k: nat, l: nat, half: bool, c: nat, value: nat)
    requires Linking(w, k, l, half) && 3 <= k && 2 <= c < l && value % ENTRY_LIMIT != FAT_FREE
    ensures Linking(SetEntry(w, 1, c, value), k, l, half)
  {
    hide SetEntry, Entry, Bump;
    BumpRange(w, l);
    BumpStep(w, l, 1, c, value);
    forall d | 2 <= d < CLUSTER_END
      ensures Entry(SetEntry(w, 1, c, value), 0, d) == Entry(w, 0, d)
    {
      EntryIsolation(w, 1, c, value, 0, d);
    }
  }

  lemma LinkingStart(v: Vol, k: nat)
    requires Bump(v, k)
    ensures Linking(v, k, Reached(k, 0), HalfLinked(0)) && k >= 3
  {
    hide Bump, Entry;
    BumpRange(v, k);
  }

  lemma {:induction false} AllocLinking(v: Vol, k: nat, m: nat, i: nat)
    requires Bump(v, k) && k + m <= CLUSTER_END && i < PlanLength(m)
    ensures |AllocPlan(v, k, m)| == PlanLength(m)
    ensures Linking(AllocPlan(v, k, m)[i], k, Reached(k, i), HalfLinked(i))
  {
    hide Bump, Entry, AllocPlan, AllocWrite, Linking, HalfLinked;
    PlanByWrites(v, k, m);
    LinkingStart(v, k);
    if i > 0 {
      AllocLinking(v, k, m, i - 1);
      assert AllocPlan(v, k, m)[i - 1 + 1] == AllocWrite(AllocPlan(v, k, m)[i - 1], k, i - 1);
      LinkingNext(AllocPlan(v, k, m)[i - 1], k, i - 1);
    }
  }

  /** A cluster that was free is in use and linked to a cluster that is free. */
  ghost predicate Dangles(v: Vol, w: Vol) {
    exists c :: 2 <= c < CLUSTER_END && DanglesAt(v, w, c)
  }

  ghost predicate DanglesAt(v: Vol, w: Vol, c: nat) {
    && Entry(v, 0, c) == FAT_FREE && Entry(w, 0, c) != FAT_FREE
    && ValidCluster(Entry(w, 0, c)) && Entry(w, 0, Entry(w, 0, c)) == FAT_FREE
  }

  lemma LinkingDangles(v: Vol, w: Vol, k: nat, l: nat, half: bool)
    requires Bump(v, k) && Linking(w, k, l, half) && (half ==> k < l < CLUSTER_END)
    ensures Dangles(v, w) <==> half
  {
    hide Entry;
    if half {
      assert DanglesAt(v, w, l - 1);
    }
  }

  // ---------------------------------------------------------------- the two copies on the way

  ghost predicate Mirrored(v: Vol) {
    v.fats[0] == v.fats[1]
  }

  /** After an even number of writes the copies are equal; after an odd one they are not, and the next
      write makes them so. */
  ghost predicate Mirroring(w: Vol, k: nat, i: nat) {
    if i % 2 == 0 then Mirrored(w) else !Mirrored(w) && Mirrored(AllocWrite(w, k, i))
  }

  lemma MirroringNext(w: Vol, k: nat, i: nat)
    requires Mirroring(w, k, i) && Linking(w, k, Reached(k, i), HalfLinked(i)) && k >= 3 && WriteFits(k, i)
    ensures Mirroring(AllocWrite(w, k, i), k, i + 1)
  {
    hide SetEntry, Target, Value, Linking, HalfLinked, Reached, Mirrored;
    if i % 2 == 0 {
      SameTarget(k, i);
      NewValue(w, k, i);
      PairMirrors(w, Target(k, i), Value(k, i));
    }
  }

  /** Every write to copy 1 changes the entry. */
  lemma NewValue(w: Vol, k: nat, i: nat)
    requires Linking(w, k, Reached(k, i), HalfLinked(i)) && k >= 3 && WriteFits(k, i) && i % 2 == 0
    ensures Target(k, i) < FAT_ENTRIES && Entry(w, 0, Target(k, i)) != Value(k, i) % ENTRY_LIMIT
  {
    hide Entry, Linking;
    LastLink(w, k, Reached(k, i), HalfLinked(i));
  }

  lemma LastLink(w: Vol, k: nat, l: nat, half: bool)
    requires Linking(w, k, l, half)
    ensures l < CLUSTER_END ==> Entry(w, 0, l) == FAT_FREE
    ensures l > k ==> Entry(w, 0, l - 1) == if half then l else FAT_EOC
  {
    hide Entry;
    assert ValidCluster(l) || l == CLUSTER_END;
  }

  /** A new value set in one copy makes equal copies differ; set in both, it leaves them equal. */
  lemma PairMirrors(w: Vol, c: nat, value: nat)
    requires Mirrored(w) && c < FAT_ENTRIES && Entry(w, 0, c) != value % ENTRY_LIMIT
    ensures var w' := SetEntry(w, 0, c, value); !Mirrored(w') && Mirrored(SetEntry(w', 1, c, value))
  {
    hide Merge;
    assert Merge(w.fats[0][c], value) % ENTRY_LIMIT == value % ENTRY_LIMIT;
  }

  lemma {:induction false} AllocMirroring(v: Vol, k: nat, m: nat, i: nat)
    requires Bump(v, k) && k + m <= CLUSTER_END && i < PlanLength(m) && Mirrored(v)
    ensures |AllocPlan(v, k, m)| == PlanLength(m)
    ensures Mirroring(AllocPlan(v, k, m)[i], k, i)
  {
    hide Bump, Entry, AllocPlan, AllocWrite, Linking, HalfLinked, Mirroring;
    PlanByWrites(v, k, m);
    if i > 0 {
      AllocMirroring(v, k, m, i - 1);
      AllocLinking(v, k, m, i - 1);
      BumpRange(v, k);
      assert AllocPlan(v, k, m)[i - 1 + 1] == AllocWrite(AllocPlan(v, k, m)[i - 1], k, i - 1);
      MirroringNext(AllocPlan(v, k, m)[i - 1], k, i - 1);
    } else {
      MirroringStart(v, k);
    }
  }

  lemma MirroringMeans(w: Vol, k: nat, i: nat)
    requires Mirroring(w, k, i)
    ensures Mirrored(w) <==> i % 2 == 0
  {
    hide Mirrored;
  }

  lemma MirroringStart(v: Vol, k: nat)
    requires Mirrored(v)
    ensures Mirroring(v, k, 0)
  {
  }

  // ---------------------------------------------------------------- the whole call

  /** Only the allocation part of a call changes the FAT. */
  lemma PlanFats(v: Vol, k: nat, n: nat, name: seq<u8>, data: seq<u8>, i: nat)
    requires InvAt(v, k, n) && k <= CLUSTER_END && |name| == NAME_LENGTH && i < |FilePlan(v, k, n, name, data)|
    ensures var a := AllocPart(v, k, data);
      |FilePlan(v, k, n, name, data)| >= |a|
      && FilePlan(v, k, n, name, data)[i].fats == (if i < |a| then a[i] else Last(a)).fats
  {
    hide InvAt, FilePlan, AllocPart, BodyPlan, DataPart, Fits, Answer, SetSlot, ClustersFor, FilesTo, Kept, Chained,
         Contents;
    var a, body := AllocPart(v, k, data), BodyPlan(v, k, data);
    PlanIndex(v, k, n, name, data, i);
    BodyExtends(v, k, n, name, data);
    if i < |a| {
    } else if i < |body| {
      BodyFats(v, k, n, data, i);
    } else {
      BodyDone(v, k, n, data);
      EntryFrame(Last(body), k, n, name, k, |data|);
    }
  }

  lemma BodyExtends(v: Vol, k: nat, n: nat, name: seq<u8>, data: seq<u8>)
    requires k <= CLUSTER_END && |name| == NAME_LENGTH
    ensures AllocPart(v, k, data) <= BodyPlan(v, k, data) <= FilePlan(v, k, n, name, data)
  {
    hide AllocPart, DataPart, SetSlot;
  }

  lemma BodyFats(v: Vol, k: nat, n: nat, data: seq<u8>, i: nat)
    requires InvAt(v, k, n) && k <= CLUSTER_END && |AllocPart(v, k, data)| <= i < |BodyPlan(v, k, data)|
    ensures BodyPlan(v, k, data)[i].fats == Last(AllocPart(v, k, data)).fats
  {
    hide InvAt, AllocPart, DataPart, ClustersFor, FilesTo, Kept;
    var a := AllocPart(v, k, data);
    var d := DataPart(Last(a), k, data);
    assert BodyPlan(v, k, data)[i] == d[i - |a| + 1];
    DataPartSafe(v, k, n, data, BodyPlan(v, k, data)[i]);
  }

  /** The clusters the call takes. */
  function Taken(k: nat, data: seq<u8>): nat
    requires k <= CLUSTER_END
  {
    Available(k, ClustersFor(|data|))
  }

  lemma AllocPartIs(v: Vol, k: nat, data: seq<u8>)
    requires Bump(v, k)
    ensures AllocPart(v, k, data) == AllocPlan(v, k, Taken(k, data)) && k + Taken(k, data) <= CLUSTER_END
    ensures |AllocPart(v, k, data)| == PlanLength(Taken(k, data))
    ensures Taken(k, data) == Min(ClustersFor(|data|), |FreeClusters(v)|)
  {
    hide Bump, FreeClusters, AllocPlan;
    BumpRange(v, k);
    BumpFreeCount(v, k);
    PlanByWrites(v, k, Taken(k, data));
  }

  /** After `i` sector writes the FAT is as some state of the allocation left it. */
  lemma PlanIsAllocation(v: Vol, k: nat, n: nat, name: seq<u8>, data: seq<u8>, i: nat)
    requires InvAt(v, k, n) && k <= CLUSTER_END && |name| == NAME_LENGTH && i < |FilePlan(v, k, n, name, data)|
    ensures var m := Taken(k, data);
      var j := Min(i, PlanLength(m) - 1);
      && Bump(v, k) && k >= 3 && k + m <= CLUSTER_END
      && |AllocPart(v, k, data)| == |AllocPlan(v, k, m)| == PlanLength(m) > j
      && FilePlan(v, k, n, name, data)[i].fats == AllocPlan(v, k, m)[j].fats
  {
    hide InvAt, Bump, FilePlan, AllocPart, AllocPlan, FreeClusters, Taken, FilesTo;
    InvBump(v, k, n);
    AllocPartIs(v, k, data);
    PlanFats(v, k, n, name, data, i);
  }

  /** How many sectors an uninterrupted call writes: two for each end mark and each link, eight for each
      cluster the data reaches, and one for the directory. */
  lemma WritesOfCall(v: Vol, k: nat, n: nat, name: seq<u8>, data: seq<u8>)
    requires InvAt(v, k, n) && k <= CLUSTER_END && |name| == NAME_LENGTH
    ensures var writes, free, m := |FilePlan(v, k, n, name, data)| - 1, |FreeClusters(v)|, ClustersFor(|data|);
      match Answer(k, n, data)
      case Success(_) => writes == 4 * m - 2 + (|data| + 4095) / 4096 * 8 + 1
      case Failure(DirectoryFull) => writes == 4 * m - 2 + (|data| + 4095) / 4096 * 8
      case Failure(_) => writes == if free == 0 then 0 else 4 * free - 2
  {
    hide InvAt, Bump, AllocPlan, DataPlan, FreeClusters, ClustersFor, SetSlot, FilesTo, Available;
    InvBump(v, k, n);
    BumpFreeCount(v, k);
    AllocPartIs(v, k, data);
    AllocPartLength(k, data);
    DataFits(data);
  }

  lemma AllocPartLength(k: nat, data: seq<u8>)
    requires k <= CLUSTER_END
    ensures Taken(k, data) == if Fits(k, data) then ClustersFor(|data|) else CLUSTER_END - k
  {
    hide ClustersFor;
  }

  /** Started on equal copies and stopped after `i` of its sector writes, a call has left equal copies
      exactly when it stopped between two entries or after the last entry. */
  lemma CopiesEqualExactlyWhen(v: Vol, k: nat, n: nat, name: seq<u8>, data: seq<u8>, i: nat)
    requires InvAt(v, k, n) && k <= CLUSTER_END && |name| == NAME_LENGTH && Mirrored(v)
    requires i < |FilePlan(v, k, n, name, data)|
    ensures Mirrored(FilePlan(v, k, n, name, data)[i]) <==> i % 2 == 0 || i >= |AllocPart(v, k, data)| - 1
  {
    hide InvAt, Bump, FilePlan, AllocPart, AllocPlan, Mirrored, Mirroring, Taken;
    PlanIsAllocation(v, k, n, name, data, i);
    var m := Taken(k, data);
    var j := Min(i, PlanLength(m) - 1);
    AllocMirroring(v, k, m, j);
    MirroringMeans(AllocPlan(v, k, m)[j], k, j);
    MirroredByFats(FilePlan(v, k, n, name, data)[i], AllocPlan(v, k, m)[j]);
  }

  lemma MirroredByFats(w: Vol, u: Vol)
    requires w.fats == u.fats
    ensures Mirrored(w) == Mirrored(u)
  {
  }

  /** Stopped after `i` of its sector writes, a call has left a cluster in use that is linked to a free
      one exactly when it stopped between a link and the end mark after it. */
  lemma DanglesExactlyWhen(v: Vol, k: nat, n: nat, name: seq<u8>, data: seq<u8>, i: nat)
    requires InvAt(v, k, n) && k <= CLUSTER_END && |name| == NAME_LENGTH
    requires i < |FilePlan(v, k, n, name, data)|
    ensures Dangles(v, FilePlan(v, k, n, name, data)[i]) <==> HalfLinked(i) && i < |AllocPart(v, k, data)|
  {
    hide InvAt, Bump, FilePlan, AllocPart, AllocPlan, Linking, Taken, Dangles;
    PlanIsAllocation(v, k, n, name, data, i);
    var m := Taken(k, data);
    var j := Min(i, PlanLength(m) - 1);
    AllocLinking(v, k, m, j);
    LinkingDangles(v, AllocPlan(v, k, m)[j], k, Reached(k, j), HalfLinked(j));
    DanglesByFats(v, FilePlan(v, k, n, name, data)[i], AllocPlan(v, k, m)[j]);
  }

  lemma DanglesByFats(v: Vol, w: Vol, u: Vol)
    requires w.fats == u.fats
    ensures Dangles(v, w) <==> Dangles(v, u)
  {
    assert forall c {:trigger Entry(w, 0, c)} {:trigger Entry(u, 0, c)} :: Entry(w, 0, c) == Entry(u, 0, c);
    assert forall c {:trigger DanglesAt(v, w, c)} {:trigger DanglesAt(v, u, c)} ::
      DanglesAt(v, w, c) <==> DanglesAt(v, u, c);
  }

  /** What a caller can tell beforehand: some interruption of the call leaves a link to a free cluster
      exactly when the data needs two clusters or more and as many are free; and some interruption
      makes equal copies differ exactly when any cluster is free. */
  lemma InterruptionsCanHarm(v: Vol, k: nat, n: nat, name: seq<u8>, data: seq<u8>)
    requires InvAt(v, k, n) && k <= CLUSTER_END && |name| == NAME_LENGTH
    ensures var plan := FilePlan(v, k, n, name, data);
      && ((exists i :: 0 <= i < |plan| && Dangles(v, plan[i])) <==>
            ClustersFor(|data|) >= 2 && |FreeClusters(v)| >= 2)
      && (Mirrored(v) ==>
            ((exists i :: 0 <= i < |plan| && !Mirrored(plan[i])) <==> |FreeClusters(v)| >= 1))
  {
    hide InvAt, Bump, FilePlan, AllocPart, FreeClusters, FilesTo, Dangles, Mirrored;
    InvBump(v, k, n);
    AllocPartIs(v, k, data);
    var plan := FilePlan(v, k, n, name, data);
    PlanFats(v, k, n, name, data, 0);
    forall i: nat | i < |plan|
      ensures Dangles(v, plan[i]) <==> HalfLinked(i) && i < |AllocPart(v, k, data)|
      ensures Mirrored(v) ==> (Mirrored(plan[i]) <==> i % 2 == 0 || i >= |AllocPart(v, k, data)| - 1)
    {
      DanglesExactlyWhen(v, k, n, name, data, i);
      if Mirrored(v) {
        CopiesEqualExactlyWhen(v, k, n, name, data, i);
      }
    }
    if Taken(k, data) >= 1 {
      assert |plan| > 1 && (Mirrored(v) ==> !Mirrored(plan[1]));
    }
    if Taken(k, data) >= 2 {
      assert |plan| > 3 && Dangles(v, plan[3]);
    }
  }

  // ---------------------------------------------------------------- differences found and left

  /** A complete call ends with equal copies exactly when the copies it found agree in all entries but
      those of the clusters it takes, and there in the reserved bits: it mends no other difference. */
  lemma CompleteCallMirrorsExactlyWhen(v: Vol, k: nat, n: nat, name: seq<u8>, data: seq<u8>)
    requires InvAt(v, k, n) && k <= CLUSTER_END && |name| == NAME_LENGTH
    ensures Mirrored(Last(FilePlan(v, k, n, name, data))) <==>
      forall c :: 0 <= c < FAT_ENTRIES ==>
        if k <= c < k + Taken(k, data) then v.fats[0][c] / ENTRY_LIMIT == v.fats[1][c] / ENTRY_LIMIT
        else v.fats[0][c] == v.fats[1][c]
  {
    hide InvAt, Bump, FilePlan, AllocPart, AllocPlan, FreeClusters, Taken, FilesTo, Mirrored;
    InvBump(v, k, n);
    AllocPartIs(v, k, data);
    var m, plan := Taken(k, data), FilePlan(v, k, n, name, data);
    PlanFats(v, k, n, name, data, |plan| - 1);
    var u := Last(AllocPlan(v, k, m));
    forall c | 0 <= c < FAT_ENTRIES
      ensures u.fats[0][c] == u.fats[1][c] <==>
        if k <= c < k + m then v.fats[0][c] / ENTRY_LIMIT == v.fats[1][c] / ENTRY_LIMIT
        else v.fats[0][c] == v.fats[1][c]
    {
      AllocatedEntry(v, k, m, c);
    }
    SameFats(u);
    MirroredByFats(Last(plan), u);
  }

  lemma SameFats(u: Vol)
    ensures Mirrored(u) <==> forall c :: 0 <= c < FAT_ENTRIES ==> u.fats[0][c] == u.fats[1][c]
  {
  }

  lemma AllocatedEntry(v: Vol, k: nat, m: nat, c: nat)
    requires Bump(v, k) && k + m <= CLUSTER_END && c < FAT_ENTRIES
    ensures var u := Last(AllocPlan(v, k, m));
      u.fats[0][c] == u.fats[1][c] <==>
        if k <= c < k + m then v.fats[0][c] / ENTRY_LIMIT == v.fats[1][c] / ENTRY_LIMIT
        else v.fats[0][c] == v.fats[1][c]
  {
    hide Bump, AllocPlan;
    AllocPlanAllocates(v, k, m);
    if k <= c < k + m {
      AllocLinks(v, k, m, 0, c - k);
      AllocLinks(v, k, m, 1, c - k);
    }
  }
}
