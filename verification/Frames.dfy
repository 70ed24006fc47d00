/** Physical frames: the allocator over the boot memory map, and the mapping of the kernel heap. */
module Frames {

  const PAGE: nat := 4096
  const HEAP_START: nat := 0x4444_4444_0000
  const HEAP_SIZE: nat := 100 * 1024

  datatype Region = Region(start: nat, end: nat, usable: bool)
  datatype Option<+T> = None | Some(value: T)

  // ---------------------------------------------------------------- the stream of usable frames

  /** (lo..hi).step_by(4096) */
  function StepBy(lo: nat, hi: nat): seq<nat>
    decreases if lo < hi then hi - lo else 0
  {
    if lo >= hi then [] else [lo] + StepBy(lo + PAGE, hi)
  }

  /** PhysFrame::containing_address: the start of the frame. */
  function Containing(address: nat): nat {
    address - address % PAGE
  }

  function FramesOf(addresses: seq<nat>): (frames: seq<nat>)
    ensures |frames| == |addresses|
  {
    seq<nat>(|addresses|, i requires 0 <= i < |addresses| => Containing(addresses[i]))
  }

  function UsableFrames(memoryMap: seq<Region>): seq<nat> {
    if memoryMap == [] then []
    else
      (if memoryMap[0].usable then FramesOf(StepBy(memoryMap[0].start, memoryMap[0].end)) else [])
      + UsableFrames(memoryMap[1..])
  }

  /** The boot loader's regions consist of whole frames and do not overlap. */
  ghost predicate ProperMap(memoryMap: seq<Region>) {
    && (forall i :: 0 <= i < |memoryMap| ==>
          var r := memoryMap[i]; r.start <= r.end && r.start % PAGE == 0 && r.end % PAGE == 0)
    && (forall i, j :: 0 <= i < j < |memoryMap| ==>
          memoryMap[i].end <= memoryMap[j].start || memoryMap[j].end <= memoryMap[i].start)
  }

  /** `frame` is a whole frame of a usable region. */
  ghost predicate UsableFrame(memoryMap: seq<Region>, frame: nat) {
    frame % PAGE == 0
    && exists i :: 0 <= i < |memoryMap| && memoryMap[i].usable && memoryMap[i].start <= frame < memoryMap[i].end
  }

  lemma {:induction false} StepByIndexed(lo: nat, hi: nat)
    requires lo % PAGE == 0 && hi % PAGE == 0 && lo <= hi
    ensures |StepBy(lo, hi)| * PAGE == hi - lo
    ensures forall k :: 0 <= k < |StepBy(lo, hi)| ==> StepBy(lo, hi)[k] == lo + k * PAGE
    decreases hi - lo
  {
    if lo < hi {
      StepByIndexed(lo + PAGE, hi);
      assert forall k :: 0 < k < |StepBy(lo, hi)| ==> StepBy(lo, hi)[k] == StepBy(lo + PAGE, hi)[k - 1];
    }
  }

  lemma RegionFrames(lo: nat, hi: nat, k: nat)
    requires lo % PAGE == 0 && hi % PAGE == 0 && lo <= hi && k < |FramesOf(StepBy(lo, hi))|
    ensures FramesOf(StepBy(lo, hi))[k] == lo + k * PAGE && lo <= lo + k * PAGE < hi && (lo + k * PAGE) % PAGE == 0
  {
    StepByIndexed(lo, hi);
    assert (lo + k * PAGE) % PAGE == 0;
  }

  /** Every frame of the stream is a whole frame of a usable region. */
  lemma {:induction false} StreamIsUsable(memoryMap: seq<Region>, k: nat)
    requires ProperMap(memoryMap) && k < |UsableFrames(memoryMap)|
    ensures UsableFrame(memoryMap, UsableFrames(memoryMap)[k])
  {
    hide StepBy, FramesOf;
    var r, rest := memoryMap[0], memoryMap[1..];
    var mine := if r.usable then FramesOf(StepBy(r.start, r.end)) else [];
    if k < |mine| {
      RegionFrames(r.start, r.end, k);
    } else {
      StreamIsUsable(rest, k - |mine|);
      var i :| 0 <= i < |rest| && rest[i].usable
               && rest[i].start <= UsableFrames(memoryMap)[k] < rest[i].end;
      assert memoryMap[i + 1] == rest[i];
    }
  }

  /** Every whole frame of a usable region is in the stream. */
  lemma {:induction false} StreamIsComplete(memoryMap: seq<Region>, frame: nat)
    requires ProperMap(memoryMap) && UsableFrame(memoryMap, frame)
    ensures frame in UsableFrames(memoryMap)
  {
    hide StepBy, FramesOf;
    var r, rest := memoryMap[0], memoryMap[1..];
    if r.usable && r.start <= frame < r.end {
      var k := (frame - r.start) / PAGE;
      FrameIndex(r.start, r.end, frame);
      assert UsableFrames(memoryMap)[k] == FramesOf(StepBy(r.start, r.end))[k];
    } else {
      var i :| 0 <= i < |memoryMap| && memoryMap[i].usable && memoryMap[i].start <= frame < memoryMap[i].end;
      assert rest[i - 1] == memoryMap[i];
      StreamIsComplete(rest, frame);
    }
  }

  lemma FrameIndex(lo: nat, hi: nat, frame: nat)
    requires lo % PAGE == 0 && hi % PAGE == 0 && frame % PAGE == 0 && lo <= frame < hi
    ensures var k := (frame - lo) / PAGE;
      k < |FramesOf(StepBy(lo, hi))| && FramesOf(StepBy(lo, hi))[k] == frame
  {
    StepByIndexed(lo, hi);
    var k := (frame - lo) / PAGE;
    assert lo + k * PAGE == frame;
    RegionFrames(lo, hi, k);
  }

  ghost predicate FrameOf(memoryMap: seq<Region>, a: int, frame: nat)
    requires 0 <= a < |memoryMap|
  {
    memoryMap[a].usable && memoryMap[a].start <= frame < memoryMap[a].end
  }

  /** `f` lies in an earlier region of the map than `g`, or in the same one below it. */
  ghost predicate InOrder(memoryMap: seq<Region>, f: nat, g: nat) {
    exists a, b ::
      0 <= a <= b < |memoryMap| && FrameOf(memoryMap, a, f) && FrameOf(memoryMap, b, g) && (a == b ==> f < g)
  }

  /** The frames come region by region in the order of the map, and within a region by address. */
  lemma {:induction false} StreamIsOrdered(memoryMap: seq<Region>, j: nat, k: nat)
    requires ProperMap(memoryMap) && j < k < |UsableFrames(memoryMap)|
    ensures InOrder(memoryMap, UsableFrames(memoryMap)[j], UsableFrames(memoryMap)[k])
  {
    hide StepBy, FramesOf, ProperMap, InOrder, FrameOf, UsableFrame;
    var r, rest := memoryMap[0], memoryMap[1..];
    var mine := if r.usable then FramesOf(StepBy(r.start, r.end)) else [];
    var f, g := UsableFrames(memoryMap)[j], UsableFrames(memoryMap)[k];
    ProperParts(memoryMap);
    if j >= |mine| {
      StreamIsOrdered(rest, j - |mine|, k - |mine|);
      LaterInOrder(memoryMap, f, g);
    } else {
      RegionFrames(r.start, r.end, j);
      if k < |mine| {
        RegionFrames(r.start, r.end, k);
      } else {
        StreamIsUsable(rest, k - |mine|);
      }
      FirstInOrder(memoryMap, f, g);
    }
  }

  lemma ProperParts(memoryMap: seq<Region>)
    requires ProperMap(memoryMap) && memoryMap != []
    ensures ProperMap(memoryMap[1..])
    ensures var r := memoryMap[0]; r.start <= r.end && r.start % PAGE == 0 && r.end % PAGE == 0
  {
  }

  lemma LaterInOrder(memoryMap: seq<Region>, f: nat, g: nat)
    requires memoryMap != [] && InOrder(memoryMap[1..], f, g)
    ensures InOrder(memoryMap, f, g)
  {
    var rest := memoryMap[1..];
    var a, b :| 0 <= a <= b < |rest| && FrameOf(rest, a, f) && FrameOf(rest, b, g) && (a == b ==> f < g);
    assert FrameOf(memoryMap, a + 1, f) && FrameOf(memoryMap, b + 1, g);
  }

  lemma FirstInOrder(memoryMap: seq<Region>, f: nat, g: nat)
    requires memoryMap != [] && memoryMap[0].usable && memoryMap[0].start <= f < memoryMap[0].end
    requires (f < g < memoryMap[0].end) || UsableFrame(memoryMap[1..], g)
    ensures InOrder(memoryMap, f, g)
  {
    var rest := memoryMap[1..];
    assert FrameOf(memoryMap, 0, f);
    if f < g < memoryMap[0].end {
      assert FrameOf(memoryMap, 0, g);
    } else {
      var b :| 0 <= b < |rest| && rest[b].usable && rest[b].start <= g < rest[b].end;
      assert FrameOf(memoryMap, b + 1, g);
    }
  }

  /** No frame occurs twice in the stream. */
  lemma StreamIsDistinct(memoryMap: seq<Region>, j: nat, k: nat)
    requires ProperMap(memoryMap) && j < k < |UsableFrames(memoryMap)|
    ensures UsableFrames(memoryMap)[j] != UsableFrames(memoryMap)[k]
  {
    hide UsableFrames;
    StreamIsOrdered(memoryMap, j, k);
  }

  // ---------------------------------------------------------------- the allocator

  function NthFrame(frames: seq<nat>, n: nat): Option<nat> {
    if n < |frames| then Some(frames[n]) else None
  }

  class BootInfoFrameAllocator {
    const memoryMap: seq<Region>
    var next: nat

    constructor (memoryMap: seq<Region>)
      ensures this.memoryMap == memoryMap && next == 0
    {
      this.memoryMap := memoryMap;
      next := 0;
    }

    method AllocateFrame() returns (frame: Option<nat>)
      modifies this`next
      ensures frame == NthFrame(UsableFrames(memoryMap), old(next)) && next == old(next) + 1
    {
      frame := NthFrame(UsableFrames(memoryMap), next);
      next := next + 1;
    }
  }

  /** The answers of successive calls: the frames of the stream, each once, and then none for ever. */
  lemma AllocationsDistinct(memoryMap: seq<Region>, j: nat, k: nat)
    requires ProperMap(memoryMap) && j < k
    ensures var a, b := NthFrame(UsableFrames(memoryMap), j), NthFrame(UsableFrames(memoryMap), k);
      (a.None? ==> b.None?) && (b.Some? ==> a.Some? && a != b && UsableFrame(memoryMap, a.value))
  {
    if k < |UsableFrames(memoryMap)| {
      StreamIsDistinct(memoryMap, j, k);
      StreamIsUsable(memoryMap, j);
    }
  }

  /** Every usable frame is the answer of some call. */
  lemma EveryFrameIsHandedOut(memoryMap: seq<Region>, frame: nat)
    requires ProperMap(memoryMap) && UsableFrame(memoryMap, frame)
    ensures exists n: nat :: NthFrame(UsableFrames(memoryMap), n) == Some(frame)
  {
    hide UsableFrames, ProperMap, UsableFrame;
    StreamIsComplete(memoryMap, frame);
    var n :| 0 <= n < |UsableFrames(memoryMap)| && UsableFrames(memoryMap)[n] == frame;
    assert NthFrame(UsableFrames(memoryMap), n) == Some(frame);
  }

  // ---------------------------------------------------------------- the kernel heap

  /** Levels of the page table below the root: the tables that mapping one page may need. */
  const MAX_TABLES: nat := 3

  datatype MapError = FrameAllocationFailed | Refused
  datatype MapResult = Mapped | MapFailed(error: MapError)

  /** The page mapper of the library, as far as frames are concerned: a page is mapped to the frame
      given, and missing page tables are made from frames of the allocator. */
  class Mapper {
    var pages: map<nat, nat>
    var tables: set<nat>
    /** How often the mapper refused a page for a reason of its own. */
    ghost var refusals: nat

    /** Every frame handed to the mapper came from the first `n` answers of the allocator, no two
        pages share one, and none is a page table. */
    ghost predicate Separate(memoryMap: seq<Region>, n: nat)
      reads this
    {
      var given := UsableFrames(memoryMap)[..Bound(n, |UsableFrames(memoryMap)|)];
      && (forall p :: p in pages ==> pages[p] in given && pages[p] !in tables)
      && (forall p, q :: p in pages && q in pages && p != q ==> pages[p] != pages[q])
      && (forall f :: f in tables ==> f in given)
    }

    method MapTo(page: nat, frame: nat, frames: BootInfoFrameAllocator) returns (r: MapResult)
      requires ProperMap(frames.memoryMap) && frames.next > 0
      requires Separate(frames.memoryMap, frames.next - 1) && page !in pages
      requires NthFrame(UsableFrames(frames.memoryMap), frames.next - 1) == Some(frame)
      modifies this, frames`next
      ensures frames.next >= old(frames.next) && Separate(frames.memoryMap, frames.next)
      ensures pages == if r.Mapped? then old(pages)[page := frame] else old(pages)
      ensures frames.next <= old(frames.next) + MAX_TABLES && old(tables) <= tables
      ensures frames.next - old(frames.next) ==
              |tables| - |old(tables)| + if r == MapFailed(FrameAllocationFailed) then 1 else 0
      ensures r == MapFailed(FrameAllocationFailed) <==> frames.next > |UsableFrames(frames.memoryMap)|
      ensures refusals == old(refusals) + if r == MapFailed(Refused) then 1 else 0
    {
      hide UsableFrames, ProperMap;
      GivenGrows(frames.memoryMap, frames.next - 1);
      var refused: bool := *;
      if refused {
        refusals := refusals + 1;
        return MapFailed(Refused);
      }
      var missing :| 0 <= missing <= MAX_TABLES;
      for i := 0 to missing
        invariant pages == old(pages) && refusals == old(refusals) && frames.next == old(frames.next) + i
        invariant frames.next <= |UsableFrames(frames.memoryMap)|
        invariant old(tables) <= tables && |tables| == |old(tables)| + i
        invariant Separate(frames.memoryMap, frames.next)
        invariant frame !in tables && forall p :: p in pages ==> pages[p] != frame
        invariant frame in UsableFrames(frames.memoryMap)[..Bound(frames.next, |UsableFrames(frames.memoryMap)|)]
      {
        var table := frames.AllocateFrame();
        GivenGrows(frames.memoryMap, frames.next - 1);
        if table.None? {
          return MapFailed(FrameAllocationFailed);
        }
        tables := tables + {table.value};
      }
      pages := pages[page := frame];
      return Mapped;
    }
  }

  function Bound(n: nat, limit: nat): (b: nat)
    ensures b <= limit && b <= n
  {
    if n <= limit then n else limit
  }

  /** The next answer of the allocator is not among the earlier ones. */
  lemma GivenGrows(memoryMap: seq<Region>, n: nat)
    requires ProperMap(memoryMap)
    ensures var frames := UsableFrames(memoryMap);
      var before, after := frames[..Bound(n, |frames|)], frames[..Bound(n + 1, |frames|)];
      match NthFrame(frames, n)
      case None => after == before
      case Some(f) => after == before + [f] && f !in before
  {
    var frames := UsableFrames(memoryMap);
    if n < |frames| && frames[n] in frames[..n] {
      var j :| 0 <= j < n && frames[..n][j] == frames[n];
      StreamIsDistinct(memoryMap, j, n);
    }
  }

  function FirstHeapPage(): nat {
    Containing(HEAP_START)
  }

  function LastHeapPage(): nat {
    Containing(HEAP_START + HEAP_SIZE - 1)
  }

  const HEAP_PAGES: nat := HEAP_SIZE / PAGE

  /** The pages of the inclusive range cover exactly the heap. */
  lemma HeapPagesCoverHeap(address: nat)
    ensures FirstHeapPage() <= address < LastHeapPage() + 4096 <==>
            0x4444_4444_0000 <= address < 0x4444_4444_0000 + 100 * 1024
  {
  }

  lemma HeapHasPages()
    ensures FirstHeapPage() % PAGE == 0 && LastHeapPage() == FirstHeapPage() + (HEAP_PAGES - 1) * PAGE
  {
  }

  /** One round of init_heap: a frame for the page, then its mapping. */
  method MapNextPage(mapper: Mapper, page: nat, frames: BootInfoFrameAllocator) returns (r: MapResult)
    requires ProperMap(frames.memoryMap) && mapper.Separate(frames.memoryMap, frames.next) && page !in mapper.pages
    modifies mapper, frames`next
    ensures mapper.Separate(frames.memoryMap, frames.next)
    ensures forall p :: p in mapper.pages <==> p in old(mapper.pages) || (r.Mapped? && p == page)
    ensures forall p :: p in old(mapper.pages) ==> mapper.pages[p] == old(mapper.pages)[p]
    ensures frames.next <= old(frames.next) + 1 + MAX_TABLES
    ensures r.Mapped? ==> frames.next - old(frames.next) == 1 + |mapper.tables| - |old(mapper.tables)|
    ensures r == MapFailed(FrameAllocationFailed) <==> frames.next > |UsableFrames(frames.memoryMap)|
    ensures mapper.refusals == old(mapper.refusals) + if r == MapFailed(Refused) then 1 else 0
    ensures r.Mapped? || r == MapFailed(FrameAllocationFailed) || r == MapFailed(Refused)
  {
    hide UsableFrames, ProperMap;
    GivenGrows(frames.memoryMap, frames.next);
    var frame := frames.AllocateFrame();
    if frame.None? {
      return MapFailed(FrameAllocationFailed);
    }
    r := mapper.MapTo(page, frame.value, frames);
    assert r.Mapped? || r.error.FrameAllocationFailed? || r.error.Refused?;
  }

  /** After a successful call every page of the heap has a frame of its own, taken from the stream of
      usable frames and shared with no other page and no page table. The call fails only when the
      stream ran out or the mapper refused, so it succeeds where enough frames are left. */
  method InitHeap(mapper: Mapper, frames: BootInfoFrameAllocator) returns (r: MapResult)
    requires ProperMap(frames.memoryMap) && mapper.Separate(frames.memoryMap, frames.next)
    requires forall p :: FirstHeapPage() <= p <= LastHeapPage() ==> p !in mapper.pages
    modifies mapper, frames`next
    ensures mapper.Separate(frames.memoryMap, frames.next)
    ensures r.Mapped? ==> forall p :: FirstHeapPage() <= p <= LastHeapPage() && p % PAGE == 0 ==> p in mapper.pages
    ensures forall p :: p in old(mapper.pages) ==> p in mapper.pages && mapper.pages[p] == old(mapper.pages)[p]
    ensures r == MapFailed(FrameAllocationFailed) <==> frames.next > |UsableFrames(frames.memoryMap)|
    ensures mapper.refusals == old(mapper.refusals) + if r == MapFailed(Refused) then 1 else 0
    ensures (mapper.refusals == old(mapper.refusals)
             && old(frames.next) + HEAP_PAGES * (1 + MAX_TABLES) <= |UsableFrames(frames.memoryMap)|) ==>
              r.Mapped?
    ensures r.Mapped? ==>
      frames.next - old(frames.next) == HEAP_PAGES + |mapper.tables| - |old(mapper.tables)| && HEAP_PAGES == 25
  {
    hide UsableFrames, ProperMap, FirstHeapPage, LastHeapPage, Mapper.Separate;
    HeapHasPages();
    var page := FirstHeapPage();
    ghost var done := 0;
    while page <= LastHeapPage()
      invariant page == FirstHeapPage() + done * PAGE && done <= HEAP_PAGES
      invariant mapper.refusals == old(mapper.refusals)
      invariant frames.next <= old(frames.next) + done * (1 + MAX_TABLES)
      invariant frames.next - old(frames.next) == done + |mapper.tables| - |old(mapper.tables)|
      invariant done > 0 ==> frames.next <= |UsableFrames(frames.memoryMap)|
      invariant mapper.Separate(frames.memoryMap, frames.next)
      invariant forall p :: FirstHeapPage() <= p < page && p % PAGE == 0 ==> p in mapper.pages
      invariant forall p :: page <= p <= LastHeapPage() ==> p !in mapper.pages
      invariant forall p :: p in old(mapper.pages) ==> p in mapper.pages && mapper.pages[p] == old(mapper.pages)[p]
      decreases LastHeapPage() + PAGE - page
    {
      r := MapNextPage(mapper, page, frames);
      if r.MapFailed? {
        return;
      }
      page := page + PAGE;
      done := done + 1;
    }
    return Mapped;
  }
}
