/** The round-robin scheduler over saved contexts, its memory-separation invariant, and whole runs of
    the machine. */
module Scheduler {
  import opened Traces
  import opened Context

  // ---------------------------------------------------------------- the machine and its tasks

  /** The stack region of a task: bytes lo to hi - 1. */
  datatype Stack = Stack(lo: nat, hi: nat)

  /** The whole machine: `saved[t]` is the rsp field of task t's context. */
  datatype System = System(m: Machine, saved: seq<u64>, current: nat, stacks: seq<Stack>)

  predicate Apart(a: Stack, b: Stack) {
    a.hi <= b.lo || b.hi <= a.lo
  }

  /** A frame for the suspended task t lies whole on its own stack. */
  predicate FrameInside(s: System, t: nat)
    requires t < |s.saved| == |s.stacks|
  {
    s.stacks[t].lo <= s.saved[t] && s.saved[t] + FRAME <= s.stacks[t].hi < ADDRESS_LIMIT && s.saved[t] % WORD == 0
  }

  /** Every task has its own stack; the running task is on its own with room for a frame; every
      suspended task has a whole frame on its own. */
  ghost predicate Inv(s: System) {
    && s.current < |s.saved| == |s.stacks|
    && (forall t, u :: 0 <= t < u < |s.stacks| ==> Apart(s.stacks[t], s.stacks[u]))
    && (forall t :: 0 <= t < |s.saved| && t != s.current ==> FrameInside(s, t))
    && s.stacks[s.current].lo + FRAME <= s.m.rsp <= s.stacks[s.current].hi < ADDRESS_LIMIT
    && s.m.rsp % WORD == 0
  }

  /** What the suspended task t will see when it is resumed. */
  function Pending(s: System, t: nat): Snapshot
    requires t < |s.saved| && s.saved[t] + FRAME < ADDRESS_LIMIT
  {
    FrameAt(s.m.mem, s.saved[t])
  }

  /** The system as `init` leaves it, with one task, the caller, satisfies the invariant. */
  lemma InitialInv(m: Machine, stack: Stack)
    requires stack.lo + FRAME <= m.rsp <= stack.hi < ADDRESS_LIMIT && m.rsp % WORD == 0
    ensures Inv(System(m, [0], 0, [stack]))
  {
  }

  // ---------------------------------------------------------------- steps

  /** The running task computes: any registers, any memory but the other tasks' stacks, and a stack
      pointer that stays on its stack. */
  ghost predicate Computes(s: System, w: System) {
    && w.saved == s.saved && w.current == s.current && w.stacks == s.stacks
    && (forall t, a :: 0 <= t < |s.stacks| && t != s.current && s.stacks[t].lo <= a < s.stacks[t].hi ==>
          Load(w.m.mem, a) == Load(s.m.mem, a))
    && (s.current < |s.stacks| ==> s.stacks[s.current].lo + FRAME <= w.m.rsp <= s.stacks[s.current].hi)
    && w.m.rsp % WORD == 0
  }

  function NextIndex(current: nat, n: nat): (next: nat)
    requires n > 0
    ensures next < n
    ensures current < n ==> next == if current + 1 == n then 0 else current + 1
  {
    assert n % n == 0;
    (current + 1) % n
  }

  /** The timer calls schedule(), whose call of switch_to will return to `site`. */
  function Tick(s: System, site: u64): System
    requires Inv(s)
  {
    if |s.saved| < 2 then s
    else
      var next := NextIndex(s.current, |s.saved|);
      assert FrameInside(s, next);
      System(Switch(Call(s.m, site), s.saved[next]), s.saved[s.current := s.m.rsp - FRAME], next, s.stacks)
  }

  /** A new task with its own stack enters at `entry`. */
  function Spawn(s: System, stack: Stack, entry: u64): System
    requires FRAME <= stack.hi < ADDRESS_LIMIT
  {
    System(s.m.(mem := FreshStack(s.m.mem, stack.hi, entry)), s.saved + [stack.hi - FRAME], s.current,
           s.stacks + [stack])
  }

  predicate FreeStack(s: System, stack: Stack) {
    && stack.lo + FRAME <= stack.hi < ADDRESS_LIMIT && stack.hi % WORD == 0
    && forall t :: 0 <= t < |s.stacks| ==> Apart(s.stacks[t], stack)
  }

  datatype Event =
    | Run
    | Timer(site: u64)
    | NewTask(stack: Stack, entry: u64)

  ghost predicate Next(s: System, e: Event, w: System)
    requires Inv(s)
  {
    match e
    case Run => Computes(s, w)
    case Timer(site) => w == Tick(s, site)
    case NewTask(stack, entry) => FreeStack(s, stack) && w == Spawn(s, stack, entry)
  }

  // ---------------------------------------------------------------- what every step keeps

  lemma NextInRange(s: System)
    requires Inv(s) && |s.saved| >= 2
    ensures var next := NextIndex(s.current, |s.saved|);
      next < |s.saved| && next != s.current && FrameInside(s, next)
  {
  }

  /** A timer tick suspends the running task with a frame of exactly what it was, resumes the next
      one with exactly its frame, and touches no other task's frame. */
  lemma TickSwitches(s: System, site: u64)
    requires Inv(s) && |s.saved| >= 2
    ensures var w, next := Tick(s, site), NextIndex(s.current, |s.saved|);
      && Inv(w) && w.current == next != s.current && next < |s.saved| && s.saved[next] + FRAME < ADDRESS_LIMIT
      && Pending(w, s.current) == Snapshot(s.m.regs, site, s.m.rsp)
      && w.m.Live() == Pending(s, next)
      && forall t :: 0 <= t < |s.saved| && t != s.current && t != next ==>
           FrameInside(w, t) && w.saved[t] == s.saved[t] && Pending(w, t) == Pending(s, t)
  {
    hide Switch, Call, NextIndex;
    NextInRange(s);
    var next := NextIndex(s.current, |s.saved|);
    var w := Tick(s, site);
    SwitchSavesAndRestores(s.m, site, s.saved[next]);
    forall t | 0 <= t < |s.saved| && t != s.current
      ensures FrameInside(s, t) && FrameAt(w.m.mem, s.saved[t]) == FrameAt(s.m.mem, s.saved[t])
    {
      FrameApart(s, t, w.m.mem);
    }
    forall t | 0 <= t < |s.saved| && t != next
      ensures FrameInside(w, t)
    {
      if t != s.current {
        assert w.saved[t] == s.saved[t];
      }
    }
  }

  /** Writes between the running task's stack pointer and the room below it reach no other frame. */
  lemma FrameApart(s: System, t: nat, mem: Memory)
    requires Inv(s) && t < |s.saved| && t != s.current
    requires forall a :: a < s.m.rsp - FRAME || s.m.rsp <= a ==> Load(mem, a) == Load(s.m.mem, a)
    ensures FrameInside(s, t) && FrameAt(mem, s.saved[t]) == FrameAt(s.m.mem, s.saved[t])
  {
    hide Load;
    assert Apart(s.stacks[t], s.stacks[s.current]) by {
      if t < s.current {
      } else {
        assert Apart(s.stacks[s.current], s.stacks[t]);
      }
    }
  }

  lemma ComputesKeeps(s: System, w: System, t: nat)
    requires Inv(s) && Computes(s, w) && t < |s.saved| && t != s.current
    ensures FrameInside(s, t) && w.saved[t] == s.saved[t] && Pending(w, t) == Pending(s, t)
  {
    hide Load;
  }

  lemma SpawnKeeps(s: System, stack: Stack, entry: u64)
    requires Inv(s) && FreeStack(s, stack)
    ensures var w, n := Spawn(s, stack, entry), |s.saved|;
      && Inv(w) && w.saved[n] + FRAME < ADDRESS_LIMIT
      && Pending(w, n) == Snapshot(ZERO_REGS, entry, stack.hi)
      && w.m.Live() == s.m.Live()
      && forall t :: 0 <= t < n && t != s.current ==>
           FrameInside(s, t) && w.saved[t] == s.saved[t] && Pending(w, t) == Pending(s, t)
  {
    hide FreshStack, Load;
    var w, n := Spawn(s, stack, entry), |s.saved|;
    FreshStackFrame(s.m.mem, stack.hi, entry);
    forall t | 0 <= t < n && t != s.current
      ensures FrameInside(s, t) && FrameAt(w.m.mem, s.saved[t]) == FrameAt(s.m.mem, s.saved[t])
    {
      assert Apart(s.stacks[t], stack);
    }
    forall t | 0 <= t < |w.saved| && t != w.current
      ensures FrameInside(w, t)
    {
      if t < n {
        assert FrameInside(s, t);
      }
    }
  }

  /** Every step keeps the invariant, and a task that is suspended before and after it keeps its frame. */
  lemma StepKeeps(s: System, e: Event, w: System)
    requires Inv(s) && Next(s, e, w)
    ensures Inv(w) && |w.saved| >= |s.saved|
    ensures forall t :: 0 <= t < |s.saved| && t != s.current && t != w.current ==>
      s.saved[t] + FRAME < ADDRESS_LIMIT && w.saved[t] + FRAME < ADDRESS_LIMIT && Pending(w, t) == Pending(s, t)
  {
    hide FrameAt, Switch, Call, FreshStack;
    match e
    case Run =>
      assert Inv(w) by {
        ComputesInv(s, w);
      }
      forall t | 0 <= t < |s.saved| && t != s.current
        ensures FrameInside(s, t) && w.saved[t] == s.saved[t] && Pending(w, t) == Pending(s, t)
      {
        ComputesKeeps(s, w, t);
      }
    case Timer(site) =>
      if |s.saved| >= 2 {
        TickSwitches(s, site);
      }
    case NewTask(stack, entry) =>
      SpawnKeeps(s, stack, entry);
  }

  lemma ComputesInv(s: System, w: System)
    requires Inv(s) && Computes(s, w)
    ensures Inv(w)
  {
    hide Load;
    forall t | 0 <= t < |w.saved| && t != w.current
      ensures FrameInside(w, t)
    {
      assert FrameInside(s, t);
    }
  }

  // ---------------------------------------------------------------- whole runs

  ghost predicate Execution(ss: seq<System>, es: seq<Event>) {
    && |ss| == |es| + 1
    && (forall i :: 0 <= i < |ss| ==> Inv(ss[i]))
    && (forall i :: 0 <= i < |es| ==> Next(ss[i], es[i], ss[i + 1]))
  }

  /** The invariant needs to hold at the start only. */
  lemma {:induction false} RunsAreSafe(ss: seq<System>, es: seq<Event>, i: nat)
    requires |ss| == |es| + 1 && Inv(ss[0]) && i < |ss|
    requires forall j :: 0 <= j < |es| ==> Inv(ss[j]) ==> Next(ss[j], es[j], ss[j + 1])
    ensures Inv(ss[i])
  {
    hide Inv, Next;
    if i > 0 {
      RunsAreSafe(ss, es, i - 1);
      StepKeeps(ss[i - 1], es[i - 1], ss[i]);
    }
  }

  /** Task t is suspended in all states from i to j. */
  ghost predicate SuspendedFrom(ss: seq<System>, t: nat, i: nat, j: nat)
    requires i <= j < |ss|
  {
    forall l :: i <= l <= j ==> t < |ss[l].saved| && ss[l].current != t
  }

  lemma {:induction false} SuspendedKeepsFrame(ss: seq<System>, es: seq<Event>, t: nat, i: nat, j: nat)
    requires Execution(ss, es) && i <= j < |ss| && SuspendedFrom(ss, t, i, j)
    ensures t < |ss[i].saved| && t < |ss[j].saved|
    ensures ss[i].saved[t] + FRAME < ADDRESS_LIMIT && ss[j].saved[t] + FRAME < ADDRESS_LIMIT
    ensures Pending(ss[j], t) == Pending(ss[i], t)
    decreases j - i
  {
    hide FrameAt, Next;
    assert FrameInside(ss[i], t) && FrameInside(ss[j], t);
    if i < j {
      StepKeeps(ss[j - 1], es[j - 1], ss[j]);
      SuspendedKeepsFrame(ss, es, t, i, j - 1);
    }
  }

  lemma Resumed(ss: seq<System>, es: seq<Event>, t: nat, j: nat)
    requires Execution(ss, es) && j < |es| && t < |ss[j].saved| && ss[j].current != t && ss[j + 1].current == t
    ensures es[j].Timer? && ss[j].saved[t] + FRAME < ADDRESS_LIMIT && ss[j + 1].m.Live() == Pending(ss[j], t)
  {
    hide FrameAt, Switch, Call, FreshStack;
    assert Next(ss[j], es[j], ss[j + 1]);
    if es[j].Timer? && |ss[j].saved| >= 2 {
      TickSwitches(ss[j], es[j].site);
    }
  }

  /** Safety of context switching over whole runs: when a task that was switched out at step i is
      running again, first after step j, its callee-saved registers, its stack pointer and the place
      where it goes on are those it had at step i, whatever the other tasks did and however many
      tasks were spawned in between. */
  lemma SwitchIsTransparent(ss: seq<System>, es: seq<Event>, t: nat, i: nat, j: nat)
    requires Execution(ss, es) && i < j < |es|
    requires ss[i].current == t && SuspendedFrom(ss, t, i + 1, j) && ss[j + 1].current == t
    ensures es[i].Timer? && ss[j + 1].m.Live() == Snapshot(ss[i].m.regs, es[i].site, ss[i].m.rsp)
  {
    hide FrameAt, Switch, Call, FreshStack;
    assert Next(ss[i], es[i], ss[i + 1]);
    assert ss[i + 1].current != t;
    if es[i].Timer? && |ss[i].saved| >= 2 {
      TickSwitches(ss[i], es[i].site);
    }
    SuspendedKeepsFrame(ss, es, t, i + 1, j);
    Resumed(ss, es, t, j);
  }

  /** A task spawned at step i starts, first after step j, at its entry point with zeroed registers
      and an empty stack. */
  lemma FirstRunStartsAtEntry(ss: seq<System>, es: seq<Event>, t: nat, i: nat, j: nat)
    requires Execution(ss, es) && i < j < |es| && es[i].NewTask? && t == |ss[i].saved|
    requires SuspendedFrom(ss, t, i + 1, j) && ss[j + 1].current == t
    ensures var live := ss[j + 1].m.Live();
      live.regs == Regs(0, 0, 0, 0, 0, 0) && live.ip == es[i].entry && live.rsp == es[i].stack.hi
  {
    hide FrameAt, Switch, Call, FreshStack;
    assert Next(ss[i], es[i], ss[i + 1]);
    SpawnKeeps(ss[i], es[i].stack, es[i].entry);
    SuspendedKeepsFrame(ss, es, t, i + 1, j);
    Resumed(ss, es, t, j);
  }

  /** With no second task, a timer tick leaves the machine and the scheduler exactly as they were. */
  lemma LoneTaskIsUndisturbed(ss: seq<System>, es: seq<Event>, i: nat)
    requires Execution(ss, es) && i < |es| && es[i].Timer? && |ss[i].saved| < 2
    ensures ss[i + 1] == ss[i]
  {
    hide Inv;
    assert Next(ss[i], es[i], ss[i + 1]);
  }

  /** No step writes to what a task that is suspended before it has on its stack, and a tick writes
      nothing above the stack pointer of the task it suspends. */
  lemma StepKeepsStack(s: System, e: Event, w: System, t: nat, a: nat)
    requires Inv(s) && Next(s, e, w) && t < |s.saved|
    requires s.stacks[t].lo <= a < s.stacks[t].hi
    requires t != s.current || (e.Timer? && a >= s.m.rsp)
    ensures t < |w.stacks| && w.stacks[t] == s.stacks[t] && Load(w.m.mem, a) == Load(s.m.mem, a)
  {
    hide FrameAt, FrameInside, Load, Switch, Call, FreshStack, NextIndex;
    match e
    case Run =>
    case Timer(site) =>
      if |s.saved| >= 2 {
        NextInRange(s);
        SwitchSavesAndRestores(s.m, site, s.saved[NextIndex(s.current, |s.saved|)]);
        StacksApart(s, t, s.current);
      }
    case NewTask(stack, entry) =>
      FreshStackFrame(s.m.mem, stack.hi, entry);
      assert Apart(s.stacks[t], stack);
  }

  lemma StacksApart(s: System, t: nat, u: nat)
    requires Inv(s) && t < |s.stacks| && u < |s.stacks|
    ensures t == u || Apart(s.stacks[t], s.stacks[u])
  {
    if t < u {
      assert Apart(s.stacks[t], s.stacks[u]);
    } else if u < t {
      assert Apart(s.stacks[u], s.stacks[t]);
    }
  }

  /** While a task is switched out, and when it is resumed, every word it had on its stack is what it was. */
  lemma {:induction false} StackIsKept(ss: seq<System>, es: seq<Event>, t: nat, i: nat, j: nat, a: nat)
    requires Execution(ss, es) && i <= j < |es| && es[i].Timer?
    requires ss[i].current == t && (i < j ==> SuspendedFrom(ss, t, i + 1, j))
    requires ss[i].m.rsp <= a < ss[i].stacks[t].hi
    ensures t < |ss[j + 1].stacks| && ss[j + 1].stacks[t] == ss[i].stacks[t]
    ensures Load(ss[j + 1].m.mem, a) == Load(ss[i].m.mem, a)
    decreases j
  {
    hide Next, Load;
    if i < j {
      StackIsKept(ss, es, t, i, j - 1, a);
    }
    StepKeepsStack(ss[j], es[j], ss[j + 1], t, a);
  }

  // ---------------------------------------------------------------- fairness

  /** Ticks until task t runs next, with task c running now among n. */
  function Distance(c: nat, n: nat, t: nat): (d: nat)
    requires c < n && t < n
    ensures 1 <= d <= n
  {
    if t > c then t - c else t + n - c
  }

  lemma TickDistance(c: nat, n: nat, t: nat)
    requires c < n && t < n
    ensures NextIndex(c, n) == t <==> Distance(c, n, t) == 1
    ensures Distance(NextIndex(c, n), n, t) == if Distance(c, n, t) == 1 then n else Distance(c, n, t) - 1
  {
    hide NextIndex;
  }

  /** How often task t gets its turn in the next `ticks` ticks. */
  function Turns(c: nat, n: nat, ticks: nat, t: nat): nat
    requires c < n && t < n
    decreases ticks
  {
    if ticks == 0 then 0
    else (if NextIndex(c, n) == t then 1 else 0) + Turns(NextIndex(c, n), n, ticks - 1, t)
  }

  /** The same, by distance alone. */
  function TurnsAt(d: nat, n: nat, ticks: nat): nat
    requires 1 <= d <= n
    decreases ticks
  {
    if ticks == 0 then 0
    else if d == 1 then 1 + TurnsAt(n, n, ticks - 1)
    else TurnsAt(d - 1, n, ticks - 1)
  }

  lemma {:induction false} TurnsByDistance(c: nat, n: nat, ticks: nat, t: nat)
    requires c < n && t < n
    ensures Turns(c, n, ticks, t) == TurnsAt(Distance(c, n, t), n, ticks)
    decreases ticks
  {
    hide NextIndex, Distance;
    if ticks > 0 {
      TickDistance(c, n, t);
      TurnsByDistance(NextIndex(c, n), n, ticks - 1, t);
    }
  }

  lemma {:induction false} TurnsClose(d: nat, e: nat, n: nat, ticks: nat)
    requires 1 <= d <= e <= n
    ensures TurnsAt(e, n, ticks) <= TurnsAt(d, n, ticks) <= TurnsAt(e, n, ticks) + 1
    decreases ticks
  {
    if ticks > 0 {
      if d > 1 {
        TurnsClose(d - 1, e - 1, n, ticks - 1);
      } else if e > 1 {
        TurnsClose(e - 1, n, n, ticks - 1);
      }
    }
  }

  lemma {:induction false} TurnsUpTo(d: nat, n: nat, ticks: nat)
    requires 1 <= d <= n
    ensures ticks < d ==> TurnsAt(d, n, ticks) == 0
    ensures d <= ticks <= n ==> TurnsAt(d, n, ticks) == 1
    decreases ticks
  {
    if ticks > 0 {
      if d > 1 {
        TurnsUpTo(d - 1, n, ticks - 1);
      } else {
        TurnsUpTo(n, n, ticks - 1);
      }
    }
  }

  /** Timer ticks, and new tasks, among the events i to j - 1. */
  function Timers(es: seq<Event>, i: nat, j: nat): nat
    requires i <= j <= |es|
    decreases j - i
  {
    if i == j then 0 else (if es[i].Timer? then 1 else 0) + Timers(es, i + 1, j)
  }

  function Spawns(es: seq<Event>, i: nat, j: nat): nat
    requires i <= j <= |es|
    decreases j - i
  {
    if i == j then 0 else (if es[i].NewTask? then 1 else 0) + Spawns(es, i + 1, j)
  }

  /** The ticks among them that gave task t its turn. */
  function TurnsIn(ss: seq<System>, es: seq<Event>, i: nat, j: nat, t: nat): nat
    requires i <= j <= |es| && |ss| == |es| + 1
    decreases j - i
  {
    if i == j then 0
    else (if es[i].Timer? && ss[i + 1].current == t then 1 else 0) + TurnsIn(ss, es, i + 1, j, t)
  }

  /** What an event does to the current task and to the number of tasks. */
  lemma StepIndices(s: System, e: Event, w: System)
    requires Inv(s) && Next(s, e, w)
    ensures s.current < |s.saved|
    ensures |w.saved| == |s.saved| + if e.NewTask? then 1 else 0
    ensures w.current == if e.Timer? then NextIndex(s.current, |s.saved|) else s.current
  {
    hide Switch, Call, FreshStack, FrameAt, NextIndex;
  }

  lemma {:induction false} TurnsOfRun(ss: seq<System>, es: seq<Event>, i: nat, j: nat, t: nat)
    requires Execution(ss, es) && i <= j <= |es| && Spawns(es, i, j) == 0 && t < |ss[i].saved|
    ensures ss[i].current < |ss[i].saved|
    ensures TurnsIn(ss, es, i, j, t) == Turns(ss[i].current, |ss[i].saved|, Timers(es, i, j), t)
    decreases j - i
  {
    hide Next, NextIndex;
    assert Inv(ss[i]);
    if i < j {
      StepIndices(ss[i], es[i], ss[i + 1]);
      TurnsOfRun(ss, es, i + 1, j, t);
    }
  }

  /** Over any stretch of a run without new tasks, the turns of two tasks differ by at most one, and
      as many ticks as there are tasks give each task exactly one turn. */
  lemma RoundRobinIsFair(ss: seq<System>, es: seq<Event>, i: nat, j: nat, t: nat, u: nat)
    requires Execution(ss, es) && i <= j <= |es| && Spawns(es, i, j) == 0
    requires t < |ss[i].saved| && u < |ss[i].saved|
    ensures -1 <= TurnsIn(ss, es, i, j, t) - TurnsIn(ss, es, i, j, u) <= 1
    ensures Timers(es, i, j) == |ss[i].saved| ==> TurnsIn(ss, es, i, j, t) == 1
  {
    hide Next, Inv, NextIndex, Distance;
    var c, n, ticks := ss[i].current, |ss[i].saved|, Timers(es, i, j);
    TurnsOfRun(ss, es, i, j, t);
    TurnsOfRun(ss, es, i, j, u);
    TurnsByDistance(c, n, ticks, t);
    TurnsByDistance(c, n, ticks, u);
    var d, e := Distance(c, n, t), Distance(c, n, u);
    if d <= e {
      TurnsClose(d, e, n, ticks);
    } else {
      TurnsClose(e, d, n, ticks);
    }
    TurnsUpTo(d, n, ticks);
  }

  lemma {:induction false} Waiting(ss: seq<System>, es: seq<Event>, i: nat, j: nat, t: nat)
    requires Execution(ss, es) && i <= j <= |es| && t < |ss[i].saved| && TurnsIn(ss, es, i, j, t) == 0
    ensures ss[i].current < |ss[i].saved| && ss[j].current < |ss[j].saved| && t < |ss[j].saved|
    ensures Timers(es, i, j) + Distance(ss[j].current, |ss[j].saved|, t)
            <= Distance(ss[i].current, |ss[i].saved|, t) + Spawns(es, i, j)
    decreases j - i
  {
    hide Next, NextIndex;
    assert Inv(ss[i]) && Inv(ss[j]);
    if i < j {
      StepIndices(ss[i], es[i], ss[i + 1]);
      TickDistance(ss[i].current, |ss[i].saved|, t);
      Waiting(ss, es, i + 1, j, t);
    }
  }

  /** No task waits for longer than a full round plus one tick for every task spawned meanwhile. */
  lemma NoStarvation(ss: seq<System>, es: seq<Event>, i: nat, j: nat, t: nat)
    requires Execution(ss, es) && i <= j <= |es| && t < |ss[i].saved|
    requires Timers(es, i, j) >= |ss[i].saved| + Spawns(es, i, j)
    ensures TurnsIn(ss, es, i, j, t) >= 1
  {
    hide Next, Inv;
    if TurnsIn(ss, es, i, j, t) == 0 {
      Waiting(ss, es, i, j, t);
    }
  }

  /** A new task joins after all others: which of two older tasks comes first does not change. */
  lemma SpawnKeepsOrder(c: nat, n: nat, t: nat, u: nat)
    requires c < n && t < n && u < n
    ensures Distance(c, n, t) < Distance(c, n, u) <==> Distance(c, n + 1, t) < Distance(c, n + 1, u)
    ensures t != c && t > c ==> Distance(c, n + 1, t) < Distance(c, n + 1, n)
    ensures t <= c ==> Distance(c, n + 1, n) < Distance(c, n + 1, t)
  {
  }

  // ---------------------------------------------------------------- the code

  ghost function SavedOf(contexts: seq<TaskContext>): (s: seq<u64>)
    reads contexts
    ensures |s| == |contexts| && forall i :: 0 <= i < |s| ==> s[i] == contexts[i].rsp
  {
    if contexts == [] then [] else SavedOf(contexts[..|contexts| - 1]) + [Last(contexts).rsp]
  }

  class RoundRobin {
    var contexts: seq<TaskContext>
    var current: nat

    constructor (first: TaskContext)
      ensures contexts == [first] && current == 0
    {
      contexts := [first];
      current := 0;
    }

    ghost predicate Valid()
      reads this`contexts
    {
      forall i, j :: 0 <= i < j < |contexts| ==> contexts[i] != contexts[j]
    }

    ghost function Saved(): seq<u64>
      reads this`contexts, contexts
    {
      SavedOf(contexts)
    }
  }

  class Kernel {
    const cpu: Cpu
    var scheduler: RoundRobin?

    constructor (cpu: Cpu)
      ensures this.cpu == cpu && scheduler == null
    {
      this.cpu := cpu;
      scheduler := null;
    }

    /** The kernel as a system whose tasks have the given stacks. */
    ghost function Abstract(stacks: seq<Stack>): System
      requires scheduler != null
      reads this, cpu, scheduler, scheduler.contexts
    {
      System(cpu.State(), scheduler.Saved(), scheduler.current, stacks)
    }

    /** The running flow of control becomes task 0. */
    method Init(ghost stack: Stack)
      modifies this`scheduler
      ensures fresh(scheduler) && fresh(scheduler.contexts) && scheduler.Valid()
      ensures Abstract([stack]) == System(old(cpu.State()), [0], 0, [stack])
    {
      var first := new TaskContext(0);
      scheduler := new RoundRobin(first);
    }

    /** Registers a task. Without a scheduler the source panics: the answer is then `false`. */
    method SpawnContext(context: TaskContext) returns (ok: bool)
      requires scheduler != null ==> scheduler.Valid() && context !in scheduler.contexts
      modifies scheduler
      ensures ok <==> scheduler != null
      ensures ok ==>
        && scheduler.Valid()
        && scheduler.contexts == old(scheduler.contexts) + [context]
        && scheduler.current == old(scheduler.current)
        && scheduler.Saved() == old(scheduler.Saved()) + [context.rsp]
    {
      if scheduler == null {
        return false;
      }
      scheduler.contexts := scheduler.contexts + [context];
      return true;
    }

    /** Task::new and spawn: a stack of its own, a frame that enters at `entry`, and a context for it. */
    method NewTask(stack: Stack, entry: u64, ghost stacks: seq<Stack>) returns (ok: bool)
      requires FRAME <= stack.hi < ADDRESS_LIMIT
      requires scheduler != null ==> scheduler.Valid()
      modifies scheduler, cpu
      ensures ok <==> scheduler != null
      ensures ok ==> scheduler.Valid() && Abstract(stacks + [stack]) == Spawn(old(Abstract(stacks)), stack, entry)
    {
      hide FreshStack;
      var context := cpu.InitTaskStack(stack.hi, entry);
      ok := SpawnContext(context);
    }

    /** The timer handler's call; `site` is where the call of switch_to returns to. */
    method Schedule(site: u64, ghost stacks: seq<Stack>)
      requires scheduler != null ==> scheduler.Valid() && Inv(Abstract(stacks))
      modifies scheduler, cpu, if scheduler != null then scheduler.contexts else []
      ensures scheduler != null ==> scheduler.Valid() && scheduler.contexts == old(scheduler.contexts)
      ensures scheduler != null ==> Abstract(stacks) == Tick(old(Abstract(stacks)), site)
      ensures scheduler == old(scheduler)
      ensures scheduler == null || |scheduler.contexts| < 2 ==> cpu.State() == old(cpu.State())
      ensures scheduler != null && |scheduler.contexts| < 2 ==>
        scheduler.Saved() == old(scheduler.Saved()) && scheduler.current == old(scheduler.current)
    {
      hide Switch, NextIndex;
      if scheduler == null {
        return;
      }
      if |scheduler.contexts| < 2 {
        return;
      }
      NextInRange(Abstract(stacks));
      var current := scheduler.current;
      var next := NextIndex(current, |scheduler.contexts|);
      scheduler.current := next;
      var currentPtr := scheduler.contexts[current];
      var nextPtr := scheduler.contexts[next];

      cpu.PushWord(site);
      cpu.SwitchTo(currentPtr, nextPtr);
      assert scheduler.Saved() == old(scheduler.Saved())[current := old(cpu.rsp) - FRAME];
    }
  }
}
