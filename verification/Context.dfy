/** Saved register frames on task stacks, and the switch from one stack to another. */
module Context {

  type u64 = x: int | 0 <= x < 0x1_0000_0000_0000_0000

  const WORD: nat := 8
  /** Six callee-saved registers and the return address. */
  const FRAME: nat := 7 * WORD
  const ADDRESS_LIMIT: nat := 0x1_0000_0000_0000_0000

  /** The callee-saved registers of the System V AMD64 ABI (section 3.2.1), without rsp. */
  datatype Regs = Regs(rbp: u64, rbx: u64, r12: u64, r13: u64, r14: u64, r15: u64)

  const ZERO_REGS: Regs := Regs(0, 0, 0, 0, 0, 0)

  /** All that a suspended task gets back: its registers, where it goes on, and its stack pointer. */
  datatype Snapshot = Snapshot(regs: Regs, ip: u64, rsp: u64)

  /** Word memory; the addresses used are multiples of eight. */
  type Memory = map<u64, u64>

  datatype Machine = Machine(regs: Regs, rsp: u64, rip: u64, mem: Memory) {
    /** What the running task sees. */
    function Live(): Snapshot {
      Snapshot(regs, rip, rsp)
    }
  }

  function Load(mem: Memory, a: int): u64 {
    if 0 <= a < ADDRESS_LIMIT && a in mem then mem[a] else 0
  }

  /** The frame saved at `sp`, lowest address first: r15, r14, r13, r12, rbx, rbp, return address. */
  function FrameAt(mem: Memory, sp: u64): Snapshot
    requires sp + FRAME < ADDRESS_LIMIT
  {
    Snapshot(Regs(Load(mem, sp + 40), Load(mem, sp + 32), Load(mem, sp + 24),
                  Load(mem, sp + 16), Load(mem, sp + 8), Load(mem, sp)),
             Load(mem, sp + 48), sp + FRAME)
  }

  // ---------------------------------------------------------------- instructions

  function Push(m: Machine, x: u64): Machine
    requires m.rsp >= WORD
  {
    m.(rsp := m.rsp - WORD, mem := m.mem[m.rsp - WORD := x])
  }

  /** The instructions of switch_to, up to and after the change of stack. */
  function PushRegs(m: Machine): Machine
    requires m.rsp >= 6 * WORD
  {
    Push(Push(Push(Push(Push(Push(m, m.regs.rbp), m.regs.rbx), m.regs.r12), m.regs.r13), m.regs.r14), m.regs.r15)
  }

  function PopRegsAndReturn(m: Machine): Machine
    requires m.rsp + FRAME < ADDRESS_LIMIT
  {
    var f := FrameAt(m.mem, m.rsp);
    Machine(f.regs, f.rsp, f.ip, m.mem)
  }

  /** switch_to with the next task's stack pointer being `next`. */
  function Switch(m: Machine, next: u64): Machine
    requires m.rsp >= 6 * WORD && next + FRAME < ADDRESS_LIMIT
  {
    PopRegsAndReturn(PushRegs(m).(rsp := next))
  }

  /** What a call of switch_to that will return to `site` saves. */
  function Call(m: Machine, site: u64): Machine
    requires m.rsp >= WORD
  {
    Push(m, site)
  }

  /** A switch leaves, on the stack it came from, a frame with the registers, the return address and
      the stack pointer of the suspended task; it takes those of the other frame; and it writes no
      word outside its own frame. */
  lemma SwitchSavesAndRestores(m: Machine, site: u64, next: u64)
    requires FRAME <= m.rsp && next + FRAME < ADDRESS_LIMIT
    ensures var w := Switch(Call(m, site), next);
      && FrameAt(w.mem, m.rsp - FRAME) == Snapshot(m.regs, site, m.rsp)
      && w.Live() == FrameAt(w.mem, next)
      && forall a :: a < m.rsp - FRAME || m.rsp <= a ==> Load(w.mem, a) == Load(m.mem, a)
  {
    hide PushRegs, Push;
    PushedMemory(m, site);
  }

  lemma PushedMemory(m: Machine, site: u64)
    requires FRAME <= m.rsp
    ensures var p, sp := PushRegs(Call(m, site)), m.rsp;
      && p.rsp == sp - FRAME
      && p.mem == m.mem[sp - 8 := site][sp - 16 := m.regs.rbp][sp - 24 := m.regs.rbx][sp - 32 := m.regs.r12]
                       [sp - 40 := m.regs.r13][sp - 48 := m.regs.r14][sp - 56 := m.regs.r15]
  {
  }

  /** The frame init_task_stack builds. */
  function FreshStack(mem: Memory, top: u64, entry: u64): Memory
    requires top >= FRAME
  {
    mem[top - 8 := entry][top - 16 := 0][top - 24 := 0][top - 32 := 0][top - 40 := 0][top - 48 := 0][top - 56 := 0]
  }

  /** A fresh stack looks like a suspended task about to enter `entry`, with zeroed registers and the
      stack pointer back at the top. */
  lemma FreshStackFrame(mem: Memory, top: u64, entry: u64)
    requires top >= FRAME
    ensures FrameAt(FreshStack(mem, top, entry), top - FRAME) == Snapshot(ZERO_REGS, entry, top)
    ensures forall a :: a < top - FRAME || top <= a ==> Load(FreshStack(mem, top, entry), a) == Load(mem, a)
  {
  }

  lemma PushKeeps(m: Machine, x: u64)
    requires m.rsp >= WORD
    ensures Push(m, x).regs == m.regs && Push(m, x).rsp == m.rsp - WORD
  {
  }

  lemma PushRegsKeep(m: Machine)
    requires m.rsp >= 6 * WORD
    ensures PushRegs(m).rsp == m.rsp - 6 * WORD
  {
  }

  // ---------------------------------------------------------------- the code

  class TaskContext {
    var rsp: u64

    constructor (rsp: u64)
      ensures this.rsp == rsp
    {
      this.rsp := rsp;
    }
  }

  class Cpu {
    var rbp: u64
    var rbx: u64
    var r12: u64
    var r13: u64
    var r14: u64
    var r15: u64
    var rsp: u64
    var rip: u64
    var mem: Memory

    function State(): Machine
      reads this
    {
      Machine(Regs(rbp, rbx, r12, r13, r14, r15), rsp, rip, mem)
    }

    method PushWord(x: u64)
      requires rsp >= WORD
      modifies this
      ensures State() == Push(old(State()), x)
    {
      rsp := rsp - WORD;
      mem := mem[rsp := x];
    }

    method PopWord() returns (x: u64)
      requires rsp + WORD < ADDRESS_LIMIT
      modifies this`rsp
      ensures x == Load(mem, old(rsp)) && rsp == old(rsp) + WORD
    {
      x := Load(mem, rsp);
      rsp := rsp + WORD;
    }

    /** push rbp; push rbx; push r12; push r13; push r14; push r15 */
    method SaveRegs()
      requires 6 * WORD <= rsp
      modifies this
      ensures State() == PushRegs(old(State()))
    {
      hide Push;
      ghost var m := State();
      PushKeeps(m, rbp);
      PushWord(rbp);
      PushKeeps(State(), rbx);
      PushWord(rbx);
      PushKeeps(State(), r12);
      PushWord(r12);
      PushKeeps(State(), r13);
      PushWord(r13);
      PushKeeps(State(), r14);
      PushWord(r14);
      PushKeeps(State(), r15);
      PushWord(r15);
    }

    /** pop r15; pop r14; pop r13; pop r12; pop rbx; pop rbp; ret */
    method RestoreRegs()
      requires rsp + FRAME < ADDRESS_LIMIT
      modifies this
      ensures State() == PopRegsAndReturn(old(State()))
    {
      hide Load;
      ghost var sp := rsp;
      r15 := PopWord();
      r14 := PopWord();
      r13 := PopWord();
      r12 := PopWord();
      rbx := PopWord();
      rbp := PopWord();
      rip := PopWord();
      assert State() == PopRegsAndReturn(Machine(State().regs, sp, rip, mem));
    }

    method SwitchTo(current: TaskContext, next: TaskContext)
      requires 6 * WORD <= rsp && current != next && next.rsp + FRAME < ADDRESS_LIMIT
      modifies this, current
      ensures State() == Switch(old(State()), old(next.rsp))
      ensures current.rsp == old(rsp) - 6 * WORD
    {
      hide PushRegs;
      PushRegsKeep(State());
      SaveRegs();
      current.rsp := rsp;
      rsp := next.rsp;
      RestoreRegs();
    }

    method InitTaskStack(stackTop: u64, entry: u64) returns (context: TaskContext)
      requires stackTop >= FRAME
      modifies this`mem
      ensures fresh(context) && context.rsp == stackTop - FRAME
      ensures mem == FreshStack(old(mem), stackTop, entry)
    {
      var sp := stackTop;
      sp := sp - WORD;
      mem := mem[sp := entry];
      ghost var m0 := mem;
      for i := 0 to 6
        invariant sp == stackTop - WORD - i * WORD
        invariant mem == Zeroed(m0, sp, i)
      {
        sp := sp - WORD;
        mem := mem[sp := 0];
        ZeroedNext(m0, sp, i);
      }
      assert mem == FreshStack(old(mem), stackTop, entry);
      context := new TaskContext(sp);
    }
  }

  /** `m` with the `n` words from `sp` on set to zero. */
  ghost function Zeroed(m: Memory, sp: u64, n: nat): Memory
    requires sp + n * WORD < ADDRESS_LIMIT
    decreases n
  {
    if n == 0 then m else Zeroed(m, sp + WORD, n - 1)[sp := 0]
  }

  lemma ZeroedNext(m: Memory, sp: u64, n: nat)
    requires sp + (n + 1) * WORD < ADDRESS_LIMIT
    ensures Zeroed(m, sp, n + 1) == Zeroed(m, sp + WORD, n)[sp := 0]
  {
  }
}
