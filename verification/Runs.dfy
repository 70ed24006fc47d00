/** Whole runs of write_file calls, finished, failed or cut short by a crash, from `format` on. */
module Runs {
  import opened Results
  import opened Words
  import opened Geometry
  import opened Traces
  import opened Volume
  import opened Fat
  import opened Names
  import opened Directory
  import opened Files
  import opened FileSystem
  import opened Interrupted
  import opened Format

  /** One call of write_file: it stopped after `writes` sector writes, and answered Ok or not (or, the
      machine having crashed, not at all). */
  datatype Call = Call(name: string, data: seq<u8>, writes: nat, ok: bool)

  ghost predicate CallAt(v: Vol, k: nat, n: nat, c: Call, w: Vol) {
    && InvAt(v, k, n) && k <= CLUSTER_END
    && var plan := FilePlan(v, k, n, ShortName(c.name), c.data);
       && c.writes < |plan| && w == plan[c.writes]
       && (c.ok <==> Answer(k, n, c.data).Success? && c.writes == |plan| - 1)
  }

  ghost predicate Step(v: Vol, c: Call, w: Vol) {
    exists k: nat, n: nat :: CallAt(v, k, n, c, w)
  }

  /** Every call of the method is such a step, and so is every crash between two of its writes. */
  lemma OutcomeIsStep(before: seq<Vol>, now: seq<Vol>, v: Vol, k: nat, n: nat, name: string, data: seq<u8>,
                      r: Result<()>, i: nat)
    requires InvAt(v, k, n) && k <= CLUSTER_END && FileOutcome(before, now, v, k, n, ShortName(name), data, r)
    requires before != [] && |before| <= i + 1 && i < |now|
    ensures i < |now| - 1 ==> Step(v, Call(name, data, i + 1 - |before|, false), now[i])
    ensures i == |now| - 1 ==> Step(v, Call(name, data, i + 1 - |before|, r.Success?), now[i])
  {
    hide InvAt, FilePlan, Answer, ShortName, Ran;
    var plan := FilePlan(v, k, n, ShortName(name), data);
    RanLast(before, now, plan);
    var c := Call(name, data, i + 1 - |before|, r.Success? && i == |now| - 1);
    assert i + 1 == |before| ==> now[i] == plan[0] by {
      RanFirst(before, now, plan);
    }
    AnswerError(k, n, data);
    assert CallAt(v, k, n, c, now[i]);
  }

  lemma AnswerError(k: nat, n: nat, data: seq<u8>)
    ensures Answer(k, n, data) != Failure(AtaError)
  {
  }

  /** A run: calls one after the other, each stopped where it may. */
  ghost predicate Run(vs: seq<Vol>, calls: seq<Call>) {
    && |vs| == |calls| + 1
    && forall i :: 0 <= i < |calls| ==> Step(vs[i], calls[i], vs[i + 1])
  }

  /** The files a run of calls is meant to leave. */
  function Replay(calls: seq<Call>): seq<File> {
    if calls == [] then []
    else
      var c := Last(calls);
      Replay(calls[..|calls| - 1]) +
      if c.ok && Occupies(ShortName(c.name)) then [File(ShortName(c.name), c.data)] else []
  }

  /** Refinement over whole runs: whatever calls succeeded, failed or were cut short by a crash, the
      invariant holds and the volume lists exactly the files of the successful calls, in order. */
  lemma {:induction false} RunRefines(vs: seq<Vol>, calls: seq<Call>)
    requires Run(vs, calls) && Inv(vs[0]) && Listing(vs[0]) == []
    ensures Inv(Last(vs)) && Listing(Last(vs)) == Replay(calls)
  {
    hide InvAt, Inv, Listing, FilePlan, Answer, ShortName, Occupies;
    if calls != [] {
      var n := |calls| - 1;
      RunRefines(vs[..n + 1], calls[..n]);
      var k: nat, m: nat :| CallAt(vs[n], k, m, calls[n], vs[n + 1]);
      StepListing(vs[n], k, m, calls[n], vs[n + 1]);
    }
  }

  lemma StepListing(v: Vol, k: nat, n: nat, c: Call, w: Vol)
    requires CallAt(v, k, n, c, w)
    ensures Inv(w)
    ensures Listing(w) == Listing(v) +
      if c.ok && Occupies(ShortName(c.name)) then [File(ShortName(c.name), c.data)] else []
  {
    hide InvAt, Inv, Listing, FilePlan, Answer, ShortName, Occupies;
    WriteIsAtomic(v, k, n, ShortName(c.name), c.data, c.writes);
  }

  /** After any run, looking a name up gives the data of the first successful call with that short
      name, or nothing if there was none. */
  lemma {:induction false} FirstWriterWins(calls: seq<Call>, name: seq<u8>, i: nat)
    requires |name| == NAME_LENGTH
    requires forall j :: 0 <= j < |calls| && j < i ==>
      !(calls[j].ok && ShortName(calls[j].name) == name && Occupies(name))
    requires i < |calls| ==> calls[i].ok && ShortName(calls[i].name) == name && Occupies(name)
    ensures Lookup(Replay(calls), name) == if i < |calls| then Success(calls[i].data) else Failure(NotFound)
  {
    hide ShortName, Occupies;
    if calls != [] {
      var c, rest := Last(calls), calls[..|calls| - 1];
      FirstWriterWins(rest, name, i);
      LookupAppend(Replay(rest), File(ShortName(c.name), c.data), name);
      assert Replay(rest) + [] == Replay(rest);
    }
  }

  /** From `format` on: the volume lists exactly the files of the calls that succeeded, and a name is
      answered by the first of them that occupies it. */
  lemma RunsFromFormat(vs: seq<Vol>, calls: seq<Call>, name: seq<u8>, i: nat)
    requires Run(vs, calls) && Formatted(vs[0]) && |name| == NAME_LENGTH
    requires forall j :: 0 <= j < |calls| && j < i ==>
      !(calls[j].ok && ShortName(calls[j].name) == name && Occupies(name))
    requires i < |calls| ==> calls[i].ok && ShortName(calls[i].name) == name && Occupies(name)
    ensures Inv(Last(vs)) && Listing(Last(vs)) == Replay(calls)
    ensures Lookup(Listing(Last(vs)), name) == if i < |calls| then Success(calls[i].data) else Failure(NotFound)
  {
    hide Step, InvAt, Formatted, FilesTo, ShortName, Occupies;
    FormattedIsEmpty(vs[0]);
    RunRefines(vs, calls);
    FirstWriterWins(calls, name, i);
  }

  // ---------------------------------------------------------------- space and mirroring over runs

  /** The call was not interrupted. */
  ghost predicate CompleteAt(v: Vol, k: nat, n: nat, c: Call, w: Vol) {
    CallAt(v, k, n, c, w) && c.writes == |FilePlan(v, k, n, ShortName(c.name), c.data)| - 1
  }

  ghost predicate Completed(v: Vol, c: Call, w: Vol) {
    exists k: nat, n: nat :: CompleteAt(v, k, n, c, w)
  }

  ghost predicate CompleteRun(vs: seq<Vol>, calls: seq<Call>) {
    && |vs| == |calls| + 1
    && forall i :: 0 <= i < |calls| ==> Completed(vs[i], calls[i], vs[i + 1])
  }

  /** Of `free` clusters, those that a sequence of calls leaves: each takes what its data needs, or all
      there are. */
  function Remaining(free: nat, calls: seq<Call>): nat {
    if calls == [] then free
    else
      var rest, m := Remaining(free, calls[..|calls| - 1]), ClustersFor(|Last(calls).data|);
      if rest < m then 0 else rest - m
  }

  lemma CompleteStep(v: Vol, k: nat, n: nat, c: Call, w: Vol)
    requires CompleteAt(v, k, n, c, w)
    ensures Inv(w)
    ensures var free, m := |FreeClusters(v)|, ClustersFor(|c.data|);
      |FreeClusters(w)| == if free < m then 0 else free - m
    ensures Mirrored(v) ==> Mirrored(w)
  {
    hide InvAt, Inv, Listing, FilePlan, Answer, ShortName, Occupies, FreeClusters, ClustersFor;
    StepListing(v, k, n, c, w);
    SpaceAccounting(v, k, n, ShortName(c.name), c.data);
    if Mirrored(v) {
      MirrorsStayEqual(v, k, n, ShortName(c.name), c.data);
    }
  }

  /** Over every run of uninterrupted calls the copies stay equal, and the space taken is that of the
      data, whatever the calls answered. */
  lemma {:induction false} CompleteRunAccounts(vs: seq<Vol>, calls: seq<Call>)
    requires CompleteRun(vs, calls) && Inv(vs[0])
    ensures Inv(Last(vs)) && |FreeClusters(Last(vs))| == Remaining(|FreeClusters(vs[0])|, calls)
    ensures Mirrored(vs[0]) ==> Mirrored(Last(vs))
  {
    hide InvAt, Inv, CompleteAt, FreeClusters, ClustersFor, Mirrored;
    if calls != [] {
      var i := |calls| - 1;
      CompleteRunAccounts(vs[..i + 1], calls[..i]);
      assert Completed(vs[i], calls[i], vs[i + 1]);
      var k: nat, n: nat :| CompleteAt(vs[i], k, n, calls[i], vs[i + 1]);
      CompleteStep(vs[i], k, n, calls[i], vs[i + 1]);
    }
  }

  lemma CompleteRunFromFormat(vs: seq<Vol>, calls: seq<Call>)
    requires CompleteRun(vs, calls) && Formatted(vs[0])
    ensures Mirrored(Last(vs)) && |FreeClusters(Last(vs))| == Remaining(TOTAL_CLUSTERS - 1, calls)
  {
    hide Completed, Formatted, FreeClusters, Remaining, Bump;
    FormattedIsEmpty(vs[0]);
    InvBump(vs[0], 3, 0);
    InvIntro(vs[0], 3, 0);
    BumpFreeCount(vs[0], 3);
    CompleteRunAccounts(vs, calls);
  }

  lemma FullStep(v: Vol, k: nat, n: nat, c: Call, w: Vol)
    requires CallAt(v, k, n, c, w) && |FreeClusters(v)| == 0
    ensures !c.ok && w == v
  {
    hide InvAt, Bump, FreeClusters;
    InvBump(v, k, n);
    BumpFreeCount(v, k);
    FullPlan(v, k, n, ShortName(c.name), c.data);
  }

  /** On a full disk nothing ever succeeds or changes again. */
  lemma {:induction false} FullForEver(vs: seq<Vol>, calls: seq<Call>, i: nat, j: nat)
    requires Run(vs, calls) && i <= j < |vs| && |FreeClusters(vs[i])| == 0
    ensures vs[j] == vs[i]
    ensures forall l :: i <= l < j ==> !calls[l].ok
    decreases j - i
  {
    hide CallAt, FreeClusters;
    if i < j {
      FullForEver(vs, calls, i, j - 1);
      assert Step(vs[j - 1], calls[j - 1], vs[j]);
      var k: nat, n: nat :| CallAt(vs[j - 1], k, n, calls[j - 1], vs[j]);
      FullStep(vs[j - 1], k, n, calls[j - 1], vs[j]);
    }
  }

  /** After an uninterrupted call was answered "disk full", no later call of the run is answered Ok and
      the volume stays as it is. */
  lemma DiskFullIsFinal(vs: seq<Vol>, calls: seq<Call>, i: nat, k: nat, n: nat, j: nat)
    requires Run(vs, calls) && i < j < |vs| && CompleteAt(vs[i], k, n, calls[i], vs[i + 1])
    requires Answer(k, n, calls[i].data) == Failure(DiskFull)
    ensures vs[j] == vs[i + 1]
    ensures forall l :: i < l < j ==> !calls[l].ok
  {
    hide Step, InvAt, FilePlan, Answer, FreeClusters, ClustersFor, ShortName, Inv;
    CompleteStep(vs[i], k, n, calls[i], vs[i + 1]);
    SpaceAccounting(vs[i], k, n, ShortName(calls[i].name), calls[i].data);
    FullForEver(vs, calls, i + 1, j);
  }
}
