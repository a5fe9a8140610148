/** The stack switch of coroutine.h on a register-and-stack machine: `co_switch` as the
    sequence of pushes, swaps and pops it is, the first frame that `start_coroutine`
    builds, and what any number of switches between two stacks preserves. Words are
    addressed by the byte address of their first byte; code addresses are words too. */
module Coroutine {
  import opened VmLayout

  /** Callee-saved registers, section 3.2.1 of the System V AMD64 ABI. */
  datatype Regs = Regs(rbx: int, rbp: int, r12: int, r13: int, r14: int, r15: int)

  type Memory = map<int, int>

  datatype Machine = Machine(regs: Regs, rax: int, rdi: int, rsp: int, rip: int, mem: Memory)

  /** Where and with what a suspended side goes on. */
  datatype Context = Context(regs: Regs, rsp: int, rip: int)

  function Load(mem: Memory, a: int): int { if a in mem then mem[a] else 0 }

  function Push(m: Machine, v: int): Machine { m.(rsp := m.rsp - 8, mem := m.mem[m.rsp - 8 := v]) }

  /** The context that the six pops and the `ret` take from a frame at sp. */
  function FrameAt(mem: Memory, sp: int): (c: Context)
    ensures c.rsp == sp + 56
  {
    Context(Regs(Load(mem, sp + 40), Load(mem, sp + 32), Load(mem, sp + 24),
                 Load(mem, sp + 16), Load(mem, sp + 8), Load(mem, sp)),
            sp + 56, Load(mem, sp + 48))
  }

  function ContextOf(m: Machine): Context { Context(m.regs, m.rsp, m.rip) }

  function Pushed(m: Machine): Memory {
    var s := m.rsp;
    m.mem[s - 8 := m.regs.rbx][s - 16 := m.regs.rbp][s - 24 := m.regs.r12]
         [s - 32 := m.regs.r13][s - 40 := m.regs.r14][s - 48 := m.regs.r15]
  }

  /** Effect of `co_switch` entered with the address of the stack cell in rdi: the own
      frame is stored, the cell swapped, and the other side's frame taken. */
  function Switch(m: Machine): Machine {
    var other := Load(Pushed(m), m.rdi);
    var mem := Pushed(m)[m.rdi := m.rsp - 48];
    var c := FrameAt(mem, other);
    Machine(c.regs, other, m.rdi, c.rsp, c.rip, mem)
  }

  /** Effect of the stores in `start_coroutine`: nine words below the top of the new stack,
      and the cell pointing at the lowest. */
  function BuildFrame(mem: Memory, co: int, callEntry: int, preCallEntry: int): Memory {
    var top := Load(mem, co);
    mem[top - 8 := co][top - 16 := callEntry][top - 24 := preCallEntry]
       [top - 32 := 0][top - 40 := 0][top - 48 := 0][top - 56 := 0][top - 64 := 0][top - 72 := 0]
       [co := top - 72]
  }

  /** The processor, instruction by instruction. */
  class Cpu {
    var rax: int
    var rbx: int
    var rbp: int
    var rdi: int
    var r12: int
    var r13: int
    var r14: int
    var r15: int
    var rsp: int
    var rip: int
    var mem: Memory

    ghost function State(): Machine
      reads this
    {
      Machine(Regs(rbx, rbp, r12, r13, r14, r15), rax, rdi, rsp, rip, mem)
    }

    method PushWord(v: int)
      modifies this`rsp, this`mem
      ensures rsp == old(rsp) - 8 && mem == old(mem)[rsp := v]
    {
      rsp := rsp - 8;
      mem := mem[rsp := v];
    }

    method PopWord() returns (v: int)
      modifies this`rsp
      ensures v == Load(mem, old(rsp)) && rsp == old(rsp) + 8
    {
      v := Load(mem, rsp);
      rsp := rsp + 8;
    }

    method SaveRegisters()
      modifies this`rsp, this`mem
      ensures rsp == old(rsp) - 48 && mem == Pushed(old(State()))
    {
      PushWord(rbx);
      PushWord(rbp);
      PushWord(r12);
      PushWord(r13);
      PushWord(r14);
      PushWord(r15);
    }

    method RestoreRegisters()
      modifies this
      ensures mem == old(mem) && rax == old(rax) && rdi == old(rdi)
      ensures ContextOf(State()) == FrameAt(mem, old(rsp))
    {
      hide Load;
      r15 := PopWord();
      r14 := PopWord();
      r13 := PopWord();
      r12 := PopWord();
      rbp := PopWord();
      rbx := PopWord();
      rip := PopWord();  // ret
    }

    /** The sixteen instructions of `co_switch`. */
    method CoSwitch()
      modifies this
      ensures State() == Switch(old(State()))
    {
      hide Load, Pushed;
      SaveRegisters();
      rax := Load(mem, rdi);
      mem := mem[rdi := rsp];
      rsp := rax;
      RestoreRegisters();
    }

    /** `pre_call_entry` up to its call. */
    method PreCallEntry(returnAddress: int)
      modifies this
      ensures State() == EnterCoroutine(old(State()), returnAddress)
    {
      rax := PopWord();
      rdi := PopWord();
      PushWord(returnAddress);
      rip := rax;
    }

    /** The stores of `start_coroutine`, which precede its call of `co_switch`. */
    method PrepareStack(co: int, callEntry: int, preCallEntry: int)
      modifies this`mem
      ensures mem == BuildFrame(old(mem), co, callEntry, preCallEntry)
    {
      var stack := Load(mem, co);
      stack := stack - 8;
      mem := mem[stack := co];
      stack := stack - 8;
      mem := mem[stack := callEntry];  // 16-byte aligned
      stack := stack - 8;
      mem := mem[stack := preCallEntry];
      stack := stack - 8;
      mem := mem[stack := 0];
      stack := stack - 8;
      mem := mem[stack := 0];
      stack := stack - 8;
      mem := mem[stack := 0];
      stack := stack - 8;
      mem := mem[stack := 0];
      stack := stack - 8;
      mem := mem[stack := 0];
      stack := stack - 8;
      mem := mem[stack := 0];
      mem := mem[co := stack];
    }
  }

  function EnterCoroutine(m: Machine, returnAddress: int): Machine {
    var popped := m.(rax := Load(m.mem, m.rsp), rdi := Load(m.mem, m.rsp + 8), rsp := m.rsp + 16);
    Push(popped, returnAddress).(rip := popped.rax)
  }

  // ---------------------------------------------------------------- two stacks

  datatype Region = Region(lo: int, hi: int) {
    predicate Has(a: int) { lo <= a < hi }
    /** A switch entered at rsp stores into this region only, return address included. */
    predicate Holds(rsp: int) { lo <= rsp - 48 && rsp + 8 <= hi }
  }

  /** Both memories hold the same words in the region. */
  ghost predicate SameIn(r: Region, a: Memory, b: Memory) {
    forall x: int {:trigger Load(b, x)} :: r.Has(x) ==> Load(a, x) == Load(b, x)
  }

  predicate Apart(r: Region, a: int) { a + 8 <= r.lo || r.hi <= a }

  /** Switching away stores a frame from which exactly the caller's context can be taken. */
  lemma SwitchSaves(m: Machine, own: Region)
    requires own.Holds(m.rsp) && Apart(own, m.rdi)
    ensures var after := Switch(m).mem;
      && Load(after, m.rdi) == m.rsp - 48
      && FrameAt(after, m.rsp - 48) == Context(m.regs, m.rsp + 8, Load(m.mem, m.rsp))
  {
  }

  /** Outside its own region and the cell, a switch changes nothing. */
  lemma SwitchWritesOwnRegion(m: Machine, own: Region, x: int)
    requires own.Holds(m.rsp) && !own.Has(x) && x != m.rdi
    ensures Load(Switch(m).mem, x) == Load(m.mem, x)
  {
  }

  /** Switching resumes exactly the frame the cell pointed at. */
  lemma SwitchResumes(m: Machine, own: Region, other: Region, c: Context)
    requires own.Holds(m.rsp) && Apart(own, m.rdi) && Apart(other, m.rdi)
    requires own.hi <= other.lo || other.hi <= own.lo
    requires var sp := Load(m.mem, m.rdi); other.lo <= sp && sp + 56 <= other.hi && FrameAt(m.mem, sp) == c
    ensures ContextOf(Switch(m)) == c
  {
    hide Switch, FrameAt, Load;
    SwitchTakesFrame(m, own);
    forall x: int | other.Has(x)
      ensures Load(m.mem, x) == Load(Switch(m).mem, x)
    {
      SwitchWritesOwnRegion(m, own, x);
    }
    SameFrame(other, m.mem, Switch(m).mem, Load(m.mem, m.rdi));
  }

  lemma SwitchTakesFrame(m: Machine, own: Region)
    requires own.Holds(m.rsp) && Apart(own, m.rdi)
    ensures ContextOf(Switch(m)) == FrameAt(Switch(m).mem, Load(m.mem, m.rdi))
  {
  }

  lemma SameFrame(r: Region, a: Memory, b: Memory, sp: int)
    requires SameIn(r, a, b) && r.lo <= sp && sp + 56 <= r.hi
    ensures FrameAt(a, sp) == FrameAt(b, sp)
  {
    hide Load;
    assert forall x: int :: sp <= x < sp + 56 ==> r.Has(x);
  }

  /** Machines as they enter `co_switch` for the first, second, ... time; even entries are
      made by one side, odd ones by the other. Between two of them only the side that was
      resumed acts: it changes any register and any memory except the suspended side's
      region and the cell. */
  ghost predicate PingPong(even: Region, odd: Region, cell: int, ms: seq<Machine>) {
    && (even.hi <= odd.lo || odd.hi <= even.lo)
    && Apart(even, cell) && Apart(odd, cell)
    && (forall i :: 0 <= i < |ms| ==> ms[i].rdi == cell && SideOf(even, odd, i).Holds(ms[i].rsp))
    && (forall i :: 0 <= i < |ms| - 1 ==>
         && SameIn(SideOf(even, odd, i), Switch(ms[i]).mem, ms[i + 1].mem)
         && Load(ms[i + 1].mem, cell) == Load(Switch(ms[i]).mem, cell))
  }

  function SideOf(even: Region, odd: Region, i: int): Region { if i % 2 == 0 then even else odd }

  /** For any number of switches, the side that switched away at i comes back at i + 1 with
      the rbx, rbp, r12 to r15, stack pointer and return address it had. */
  lemma EachSideResumes(even: Region, odd: Region, cell: int, ms: seq<Machine>, i: nat)
    requires PingPong(even, odd, cell, ms) && i + 1 < |ms|
    ensures ContextOf(Switch(ms[i + 1])) == Context(ms[i].regs, ms[i].rsp + 8, Load(ms[i].mem, ms[i].rsp))
  {
    var own, other := SideOf(even, odd, i + 1), SideOf(even, odd, i);
    var m := ms[i];
    hide Switch, FrameAt, Load, SameIn;
    SwitchSaves(m, other);
    SameFrame(other, Switch(m).mem, ms[i + 1].mem, m.rsp - 48);
    SwitchResumes(ms[i + 1], own, other, Context(m.regs, m.rsp + 8, Load(m.mem, m.rsp)));
  }
}
