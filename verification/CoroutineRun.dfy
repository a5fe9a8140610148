/** A whole life of one coroutine: the host's loop in `code_runner`, `start_coroutine`,
    `pre_call_entry`, `call_entry`, and an entry body that yields any number of times and
    returns. Control follows the return addresses that are really in memory, so the
    theorems below rest on the frames surviving every switch and every piece of arbitrary
    code run in between. */
module CoroutineRun {
  import opened VmLayout
  import opened Coroutine

  // Code addresses. AFTER_* and IN_* are return addresses of calls.
  const HOST_BEGIN := 1
  const AFTER_START := 2
  const HOST_TEST := 3
  const AFTER_LOOP := 4
  const HOST_DONE := 5
  const PRE_CALL_ENTRY := 6
  const CALL_ENTRY := 7
  const AFTER_FIRST_SWITCH := 8
  const ENTRY := 9
  const AFTER_YIELD := 10
  const AFTER_ENTRY := 11
  const AFTER_LAST_SWITCH := 12
  const UD2 := 13

  predicate IsHostCode(rip: int) { HOST_BEGIN <= rip <= HOST_DONE }

  /** The Coroutine record (stack, entry, terminated and private_data, eight bytes each),
      the host's stack below it, and the coroutine's stack. */
  datatype Layout = Layout(co: int, host: Region, stack: Region) {
    predicate Valid() {
      && (host.hi <= stack.lo || stack.hi <= host.lo)
      && (co + 32 <= host.lo || host.hi <= co) && (co + 32 <= stack.lo || stack.hi <= co)
      && host.lo + 64 <= host.hi && stack.lo + 128 <= stack.hi
      && stack.hi % 16 == 0
    }
    function Record(): Region { Region(co, co + 32) }
    /** Stack pointer with which the entry body is entered and from which it returns. */
    function EntryRsp(): int { stack.hi - 24 }
  }

  datatype Sys = Sys(
    m: Machine,
    left: nat,                              // yields the body has yet to make
    hostCtx: Context, coCtx: Context,       // what each side last switched away with
    calls: seq<int>, arg: int,              // arguments of the calls of entry; the last one
    entryRegs: Regs,                        // callee-saved registers at that call
    returned: bool,                         // entry has returned
    loops: nat)                             // switches made by the loop in code_runner

  function Leaving(m: Machine, ret: int): Context { Context(m.regs, m.rsp, ret) }

  /** `call co_switch` with return address ret. */
  function CallSwitch(m: Machine, ret: int): Machine { Switch(Push(m, ret)) }

  function Ret(m: Machine): Machine { m.(rip := Load(m.mem, m.rsp), rsp := m.rsp + 8) }

  function Begin(L: Layout, s: Sys): Sys {
    var m := s.m.(mem := BuildFrame(s.m.mem, L.co, CALL_ENTRY, PRE_CALL_ENTRY), rdi := L.co);
    s.(m := CallSwitch(m, AFTER_START), hostCtx := Leaving(m, AFTER_START),
       coCtx := FrameAt(m.mem, Load(m.mem, L.co)))
  }

  function LoopSwitch(L: Layout, s: Sys): Sys {
    var m := s.m.(rdi := L.co);
    s.(m := CallSwitch(m, AFTER_LOOP), hostCtx := Leaving(m, AFTER_LOOP), loops := s.loops + 1)
  }

  /** `call_entry` keeps its parameter in rbx, whose old value it saves. */
  function FirstSwitch(s: Sys): Sys {
    var m := Push(s.m, s.m.regs.rbx).(regs := s.m.regs.(rbx := s.m.rdi));
    s.(m := CallSwitch(m, AFTER_FIRST_SWITCH), coCtx := Leaving(m, AFTER_FIRST_SWITCH))
  }

  function CallEntry(s: Sys): Sys {
    var co := s.m.regs.rbx;
    s.(m := Push(s.m, AFTER_ENTRY).(rdi := co, rip := Load(s.m.mem, co + 8)),
       calls := s.calls + [co], arg := co, entryRegs := s.m.regs)
  }

  function Yield(s: Sys): Sys {
    var m := s.m.(rdi := s.arg);
    s.(m := CallSwitch(m, AFTER_YIELD), coCtx := Leaving(m, AFTER_YIELD), left := if s.left > 0 then s.left - 1 else 0)
  }

  function Terminate(s: Sys): Sys {
    var co := s.m.regs.rbx;
    var m := s.m.(mem := s.m.mem[co + 16 := 1], rdi := co);
    s.(m := CallSwitch(m, AFTER_LAST_SWITCH), coCtx := Leaving(m, AFTER_LAST_SWITCH))
  }

  predicate CanStep(L: Layout, s: Sys) {
    && s.m.rip != HOST_DONE && s.m.rip != UD2
    // a body that returns has restored rsp and the callee-saved registers
    && (s.m.rip == ENTRY && s.left == 0 ==> s.m.rsp == L.EntryRsp() && s.m.regs == s.entryRegs)
  }

  function Step(L: Layout, s: Sys): Sys
    requires CanStep(L, s)
  {
    var rip := s.m.rip;
    if rip == HOST_BEGIN then Begin(L, s)
    else if rip == AFTER_START || rip == AFTER_LOOP then s.(m := s.m.(rip := HOST_TEST))
    else if rip == HOST_TEST then
      if Load(s.m.mem, L.co + 16) == 0 then LoopSwitch(L, s) else s.(m := s.m.(rip := HOST_DONE))
    else if rip == PRE_CALL_ENTRY then s.(m := EnterCoroutine(s.m, UD2))
    else if rip == CALL_ENTRY then FirstSwitch(s)
    else if rip == AFTER_FIRST_SWITCH then CallEntry(s)
    else if rip == ENTRY then if s.left > 0 then Yield(s) else s.(m := Ret(s.m), returned := true)
    else if rip == AFTER_YIELD then s.(m := s.m.(rip := ENTRY))
    else if rip == AFTER_ENTRY then Terminate(s)
    else s.(m := Ret(Ret(s.m)))  // AFTER_LAST_SWITCH: rbx is popped, then the return address
  }

  /** Arbitrary code of the side that runs: any register, and any memory except the
      Coroutine record and the other side's stack; the body also leaves the frames above
      its own alone. */
  ghost predicate Act(L: Layout, s: Sys, t: Sys) {
    && t == s.(m := t.m) && t.m.rip == s.m.rip
    && SameIn(L.Record(), s.m.mem, t.m.mem)
    && if IsHostCode(s.m.rip) then
         SameIn(L.stack, s.m.mem, t.m.mem) && L.host.lo + 56 <= t.m.rsp <= L.host.hi
       else
         && s.m.rip == ENTRY
         && SameIn(L.host, s.m.mem, t.m.mem)
         && SameIn(Region(L.EntryRsp(), L.stack.hi), s.m.mem, t.m.mem)
         && L.stack.lo + 56 <= t.m.rsp <= L.EntryRsp()
  }

  ghost predicate Init(L: Layout, k: nat, s: Sys) {
    && L.Valid() && s.m.rip == HOST_BEGIN && L.host.lo + 56 <= s.m.rsp <= L.host.hi
    && Load(s.m.mem, L.co) == L.stack.hi && Load(s.m.mem, L.co + 8) == ENTRY && Load(s.m.mem, L.co + 16) == 0
    && s.left == k && s.calls == [] && !s.returned && s.loops == 0
  }

  ghost predicate IsTrace(L: Layout, k: nat, ss: seq<Sys>) {
    && |ss| > 0 && Init(L, k, ss[0])
    && forall i :: 0 <= i < |ss| - 1 ==> Act(L, ss[i], ss[i + 1]) || (CanStep(L, ss[i]) && ss[i + 1] == Step(L, ss[i]))
  }

  // ---------------------------------------------------------------- the invariant

  /** Position, stack contents and history that belong together for a coroutine that
      stands at rip with these registers, running or suspended. */
  predicate CoStands(L: Layout, k: nat, s: Sys, rip: int, regs: Regs, rsp: int) {
    var hi := L.stack.hi;
    var mem := s.m.mem;
    && L.stack.lo <= rsp - 56
    && s.returned == (rip == AFTER_ENTRY || rip == AFTER_LAST_SWITCH)
    && s.calls == (if rip == PRE_CALL_ENTRY || rip == CALL_ENTRY || rip == AFTER_FIRST_SWITCH then [] else [L.co])
    && (rip == PRE_CALL_ENTRY ==> rsp == hi - 16 && Load(mem, hi - 16) == CALL_ENTRY && Load(mem, hi - 8) == L.co && s.left == k)
    && (rip != PRE_CALL_ENTRY ==> Load(mem, hi - 8) == UD2)
    && (rip == CALL_ENTRY ==> rsp == hi - 8 && s.left == k)
    && (rip == AFTER_FIRST_SWITCH ==> rsp == hi - 16 && regs.rbx == L.co && s.left == k)
    && (rip == ENTRY || rip == AFTER_YIELD ==>
         rsp <= hi - 24 && Load(mem, hi - 24) == AFTER_ENTRY && s.entryRegs.rbx == L.co && s.arg == L.co && s.left <= k)
    && (rip == AFTER_ENTRY || rip == AFTER_LAST_SWITCH ==> rsp == hi - 16 && regs.rbx == L.co && s.left == 0)
    && PRE_CALL_ENTRY <= rip <= AFTER_LAST_SWITCH
  }

  /** Loop switches made when a coroutine is suspended at rip. */
  function LoopsAt(k: nat, left: nat, rip: int): int {
    if rip == PRE_CALL_ENTRY || rip == CALL_ENTRY || rip == AFTER_FIRST_SWITCH then 0
    else if rip == AFTER_LAST_SWITCH then k + 1
    else k - left
  }

  predicate HostRuns(L: Layout, k: nat, s: Sys) {
    var sp := Load(s.m.mem, L.co);
    var c := s.coCtx;
    && FrameAt(s.m.mem, sp) == c && sp + 56 <= L.stack.hi
    && CoStands(L, k, s, c.rip, c.regs, c.rsp)
    && (c.rip == AFTER_FIRST_SWITCH || c.rip == AFTER_YIELD || c.rip == AFTER_LAST_SWITCH)
    && s.loops == LoopsAt(k, s.left, c.rip)
    && Load(s.m.mem, L.co + 16) == (if c.rip == AFTER_LAST_SWITCH then 1 else 0)
    && (s.m.rip == AFTER_START ==> c.rip == AFTER_FIRST_SWITCH)
    && (s.m.rip == HOST_DONE ==> c.rip == AFTER_LAST_SWITCH)
    && s.m.rip != HOST_BEGIN
    && L.host.lo + 56 <= s.m.rsp <= L.host.hi
  }

  predicate CoRuns(L: Layout, k: nat, s: Sys) {
    var sp := Load(s.m.mem, L.co);
    var rip := s.m.rip;
    && FrameAt(s.m.mem, sp) == s.hostCtx && L.host.lo <= sp && sp + 56 <= L.host.hi
    && CoStands(L, k, s, rip, s.m.regs, s.m.rsp)
    && rip != AFTER_LAST_SWITCH
    && s.hostCtx.rip == (if rip == PRE_CALL_ENTRY || rip == CALL_ENTRY then AFTER_START else AFTER_LOOP)
    && s.loops == (if rip == PRE_CALL_ENTRY || rip == CALL_ENTRY then 0 else if rip == AFTER_ENTRY then k + 1 else k - s.left + 1)
    && Load(s.m.mem, L.co + 16) == 0
    && (rip == CALL_ENTRY ==> s.m.rdi == L.co)
  }

  ghost predicate Inv(L: Layout, k: nat, s: Sys) {
    && L.Valid() && Load(s.m.mem, L.co + 8) == ENTRY
    && (Init(L, k, s) || if IsHostCode(s.m.rip) then HostRuns(L, k, s) else CoRuns(L, k, s))
  }

  /** `call co_switch` stores just below rsp, resumes the other frame, and leaves every
      other word but the cell as it was. */
  lemma CallSwitchEffect(L: Layout, m: Machine, ret: int, c: Context)
    requires L.Valid() && m.rdi == L.co
    requires (L.host.lo + 56 <= m.rsp <= L.host.hi) || (L.stack.lo + 56 <= m.rsp <= L.stack.hi)
    requires FrameAt(m.mem, Load(m.mem, L.co)) == c
    requires var sp := Load(m.mem, L.co); (sp + 56 <= m.rsp - 56 || m.rsp <= sp) && (sp + 56 <= L.co || L.co + 8 <= sp)
    ensures var after := CallSwitch(m, ret);
      && ContextOf(after) == c && after.rdi == L.co
      && Load(after.mem, L.co) == m.rsp - 56
      && FrameAt(after.mem, m.rsp - 56) == Leaving(m, ret)
      && (forall x: int :: !(m.rsp - 56 <= x < m.rsp) && x != L.co ==> Load(after.mem, x) == Load(m.mem, x))
  {
    var p := Push(m, ret);
    var own := Region(m.rsp - 56, m.rsp);
    var sp := Load(m.mem, L.co);
    var other := Region(sp, sp + 56);
    assert FrameAt(p.mem, sp) == c && Load(p.mem, L.co) == sp;
    SwitchSaves(p, own);
    SwitchResumes(p, own, other, c);
    forall x: int | !(m.rsp - 56 <= x < m.rsp) && x != L.co
      ensures Load(CallSwitch(m, ret).mem, x) == Load(m.mem, x)
    {
      SwitchWritesOwnRegion(p, own, x);
    }
  }

  lemma StoreElsewhere(mem: Memory, a: int, v: int, sp: int)
    requires a < sp || sp + 56 <= a
    ensures FrameAt(mem[a := v], sp) == FrameAt(mem, sp)
    ensures Load(mem[a := v], a) == v
    ensures forall x: int :: x != a ==> Load(mem[a := v], x) == Load(mem, x)
  {
  }

  lemma FirstFrame(L: Layout, k: nat, s: Sys)
    requires Init(L, k, s)
    ensures var mem := BuildFrame(s.m.mem, L.co, CALL_ENTRY, PRE_CALL_ENTRY);
      && Load(mem, L.co) == L.stack.hi - 72
      && FrameAt(mem, L.stack.hi - 72) == Context(Regs(0, 0, 0, 0, 0, 0), L.stack.hi - 16, PRE_CALL_ENTRY)
      && Load(mem, L.stack.hi - 16) == CALL_ENTRY && Load(mem, L.stack.hi - 8) == L.co
      && Load(mem, L.co + 8) == ENTRY && Load(mem, L.co + 16) == 0
  {
  }

  lemma BeginKeepsInv(L: Layout, k: nat, s: Sys)
    requires Init(L, k, s) && Load(s.m.mem, L.co + 8) == ENTRY
    ensures Inv(L, k, Begin(L, s)) && ContextOf(Begin(L, s).m) == Begin(L, s).coCtx
  {
    hide FrameAt, CallSwitch, Load, BuildFrame;
    FirstFrame(L, k, s);
    var m := s.m.(mem := BuildFrame(s.m.mem, L.co, CALL_ENTRY, PRE_CALL_ENTRY), rdi := L.co);
    CallSwitchEffect(L, m, AFTER_START, Context(Regs(0, 0, 0, 0, 0, 0), L.stack.hi - 16, PRE_CALL_ENTRY));
  }

  lemma LoopSwitchKeepsInv(L: Layout, k: nat, s: Sys)
    requires L.Valid() && Load(s.m.mem, L.co + 8) == ENTRY
    requires s.m.rip == HOST_TEST && HostRuns(L, k, s) && Load(s.m.mem, L.co + 16) == 0
    ensures CoRuns(L, k, LoopSwitch(L, s)) && Load(LoopSwitch(L, s).m.mem, L.co + 8) == ENTRY &&
      ContextOf(LoopSwitch(L, s).m) == s.coCtx
  {
    hide FrameAt, CallSwitch, Load;
    CallSwitchEffect(L, s.m.(rdi := L.co), AFTER_LOOP, s.coCtx);
  }

  lemma FirstSwitchKeepsInv(L: Layout, k: nat, s: Sys)
    requires L.Valid() && Load(s.m.mem, L.co + 8) == ENTRY
    requires s.m.rip == CALL_ENTRY && CoRuns(L, k, s)
    ensures HostRuns(L, k, FirstSwitch(s)) && Load(FirstSwitch(s).m.mem, L.co + 8) == ENTRY &&
      ContextOf(FirstSwitch(s).m) == s.hostCtx
  {
    hide FrameAt, CallSwitch, Load;
    var m := Push(s.m, s.m.regs.rbx).(regs := s.m.regs.(rbx := s.m.rdi));
    StoreElsewhere(s.m.mem, s.m.rsp - 8, s.m.regs.rbx, Load(s.m.mem, L.co));
    CallSwitchEffect(L, m, AFTER_FIRST_SWITCH, s.hostCtx);
  }

  lemma YieldKeepsInv(L: Layout, k: nat, s: Sys)
    requires L.Valid() && Load(s.m.mem, L.co + 8) == ENTRY
    requires s.m.rip == ENTRY && CoRuns(L, k, s) && s.left > 0
    ensures HostRuns(L, k, Yield(s)) && Load(Yield(s).m.mem, L.co + 8) == ENTRY &&
      ContextOf(Yield(s).m) == s.hostCtx
  {
    hide FrameAt, CallSwitch, Load;
    CallSwitchEffect(L, s.m.(rdi := s.arg), AFTER_YIELD, s.hostCtx);
  }

  lemma TerminateKeepsInv(L: Layout, k: nat, s: Sys)
    requires L.Valid() && Load(s.m.mem, L.co + 8) == ENTRY
    requires s.m.rip == AFTER_ENTRY && CoRuns(L, k, s)
    ensures HostRuns(L, k, Terminate(s)) && Load(Terminate(s).m.mem, L.co + 8) == ENTRY &&
      ContextOf(Terminate(s).m) == s.hostCtx
  {
    hide FrameAt, CallSwitch, Load;
    var m := s.m.(mem := s.m.mem[L.co + 16 := 1], rdi := L.co);
    StoreElsewhere(s.m.mem, L.co + 16, 1, Load(s.m.mem, L.co));
    CallSwitchEffect(L, m, AFTER_LAST_SWITCH, s.hostCtx);
  }

  /** One word is pushed and control goes on inside the coroutine. */
  lemma EnteringKeepsInv(L: Layout, k: nat, s: Sys)
    requires L.Valid() && Load(s.m.mem, L.co + 8) == ENTRY && CoRuns(L, k, s)
    requires s.m.rip == PRE_CALL_ENTRY || s.m.rip == AFTER_FIRST_SWITCH
    ensures CoRuns(L, k, Step(L, s)) && Load(Step(L, s).m.mem, L.co + 8) == ENTRY
  {
    hide FrameAt, Load;
    var sp := Load(s.m.mem, L.co);
    if s.m.rip == PRE_CALL_ENTRY {
      StoreElsewhere(s.m.mem, s.m.rsp + 8, UD2, sp);
    } else {
      StoreElsewhere(s.m.mem, s.m.rsp - 8, AFTER_ENTRY, sp);
    }
  }

  lemma BodyKeepsInv(L: Layout, k: nat, s: Sys)
    requires L.Valid() && Load(s.m.mem, L.co + 8) == ENTRY && CoRuns(L, k, s) && CanStep(L, s)
    requires s.m.rip == AFTER_YIELD || (s.m.rip == ENTRY && s.left == 0)
    ensures CoRuns(L, k, Step(L, s)) && Load(Step(L, s).m.mem, L.co + 8) == ENTRY
  {
    hide FrameAt, Load;
  }

  lemma StepKeepsInv(L: Layout, k: nat, s: Sys)
    requires Inv(L, k, s) && CanStep(L, s)
    ensures Inv(L, k, Step(L, s))
  {
    hide FrameAt, Load, Begin, LoopSwitch, FirstSwitch, CallEntry, Yield, Terminate, EnterCoroutine, Ret;
    var rip := s.m.rip;
    if rip == HOST_BEGIN {
      BeginKeepsInv(L, k, s);
    } else if rip == HOST_TEST && Load(s.m.mem, L.co + 16) == 0 {
      LoopSwitchKeepsInv(L, k, s);
    } else if rip == CALL_ENTRY {
      FirstSwitchKeepsInv(L, k, s);
    } else if rip == ENTRY && s.left > 0 {
      YieldKeepsInv(L, k, s);
    } else if rip == AFTER_ENTRY {
      TerminateKeepsInv(L, k, s);
    } else if rip == PRE_CALL_ENTRY || rip == AFTER_FIRST_SWITCH {
      EnteringKeepsInv(L, k, s);
    } else if !IsHostCode(rip) {
      BodyKeepsInv(L, k, s);
    }
  }

  lemma ActKeepsInv(L: Layout, k: nat, s: Sys, t: Sys)
    requires Inv(L, k, s) && Act(L, s, t)
    ensures Inv(L, k, t)
  {
  }

  lemma {:induction false} TraceInv(L: Layout, k: nat, ss: seq<Sys>, i: nat)
    requires IsTrace(L, k, ss) && i < |ss|
    ensures Inv(L, k, ss[i])
  {
    hide Act, CanStep, Step, HostRuns, CoRuns;
    if i > 0 {
      TraceInv(L, k, ss, i - 1);
      if Act(L, ss[i - 1], ss[i]) {
        ActKeepsInv(L, k, ss[i - 1], ss[i]);
      } else {
        StepKeepsInv(L, k, ss[i - 1]);
      }
    }
  }

  // ---------------------------------------------------------------- theorems

  /** Over every trace: the `ud2` after the call in `pre_call_entry` is never reached and
      `call_entry` never returns; `terminated` is 1 only after entry has returned; entry
      is called at most once, with its own record; and the coroutine code enters
      `call_entry` with rsp + 8 a multiple of 16, as section 3.2.2 of the ABI asks. */
  lemma TraceIsSafe(L: Layout, k: nat, ss: seq<Sys>, i: nat)
    requires IsTrace(L, k, ss) && i < |ss|
    ensures ss[i].m.rip != UD2 && ss[i].m.rip != AFTER_LAST_SWITCH
    ensures Load(ss[i].m.mem, L.co + 16) != 0 ==> ss[i].returned
    ensures ss[i].calls == [] || ss[i].calls == [L.co]
    ensures ss[i].returned ==> ss[i].calls == [L.co]
    ensures ss[i].m.rip == CALL_ENTRY ==> (ss[i].m.rsp + 8) % 16 == 0 && ss[i].m.rdi == L.co
  {
    TraceInv(L, k, ss, i);
    hide FrameAt, Load, Step;
  }

  /** For a body that yields k times, the host's loop ends after exactly k + 1 switches,
      entry has been called exactly once and has returned. */
  lemma LoopEndsAfterAllYields(L: Layout, k: nat, ss: seq<Sys>, i: nat)
    requires IsTrace(L, k, ss) && i < |ss| && ss[i].m.rip == HOST_DONE
    ensures ss[i].loops == k + 1 && ss[i].calls == [L.co] && ss[i].returned && ss[i].left == 0
  {
    TraceInv(L, k, ss, i);
    hide FrameAt, Load, Step;
  }

  /** A step from one side's code to the other's resumes the other exactly with the
      registers, stack pointer and return address it last switched away with. */
  lemma CrossingResumes(L: Layout, k: nat, ss: seq<Sys>, i: nat)
    requires IsTrace(L, k, ss) && i + 1 < |ss| && ss[i].m.rip != HOST_BEGIN
    ensures IsHostCode(ss[i].m.rip) && !IsHostCode(ss[i + 1].m.rip) ==> ContextOf(ss[i + 1].m) == ss[i].coCtx
    ensures !IsHostCode(ss[i].m.rip) && IsHostCode(ss[i + 1].m.rip) ==> ContextOf(ss[i + 1].m) == ss[i].hostCtx
  {
    TraceInv(L, k, ss, i);
    StepCrosses(L, k, ss[i], ss[i + 1]);
  }

  lemma StepCrosses(L: Layout, k: nat, s: Sys, t: Sys)
    requires Inv(L, k, s) && s.m.rip != HOST_BEGIN && (Act(L, s, t) || (CanStep(L, s) && t == Step(L, s)))
    ensures IsHostCode(s.m.rip) && !IsHostCode(t.m.rip) ==> ContextOf(t.m) == s.coCtx
    ensures !IsHostCode(s.m.rip) && IsHostCode(t.m.rip) ==> ContextOf(t.m) == s.hostCtx
  {
    hide FrameAt, Load, Begin, LoopSwitch, FirstSwitch, Yield, Terminate;
    var rip := s.m.rip;
    if CanStep(L, s) && t == Step(L, s) {
      if rip == HOST_TEST && Load(s.m.mem, L.co + 16) == 0 {
        LoopSwitchKeepsInv(L, k, s);
      } else if rip == CALL_ENTRY {
        FirstSwitchKeepsInv(L, k, s);
      } else if rip == ENTRY && s.left > 0 {
        YieldKeepsInv(L, k, s);
      } else if rip == AFTER_ENTRY {
        TerminateKeepsInv(L, k, s);
      } else if rip == PRE_CALL_ENTRY || rip == AFTER_FIRST_SWITCH {
        EnteringKeepsInv(L, k, s);
      } else if !IsHostCode(rip) {
        BodyKeepsInv(L, k, s);
      }
    }
  }

  /** Steps of the switching code still to come. */
  function Rank(s: Sys): nat {
    10 * s.left + (
    var rip, co := s.m.rip, s.coCtx.rip;
    if rip == HOST_BEGIN then 16 else if rip == PRE_CALL_ENTRY then 15 else if rip == CALL_ENTRY then 14
    else if rip == AFTER_START then 13 else if rip == AFTER_FIRST_SWITCH then 11
    else if rip == HOST_TEST then if co == AFTER_FIRST_SWITCH then 12 else if co == AFTER_YIELD then 8 else 1
    else if rip == AFTER_LOOP then if co == AFTER_FIRST_SWITCH then 13 else if co == AFTER_YIELD then 9 else 2
    else if rip == AFTER_YIELD then 7 else if rip == ENTRY then 6 else if rip == AFTER_ENTRY then 5 else 0)
  }

  lemma StepLowersRank(L: Layout, k: nat, s: Sys)
    requires Inv(L, k, s) && CanStep(L, s)
    ensures Rank(Step(L, s)) < Rank(s)
  {
    hide FrameAt, Load, CallSwitch, EnterCoroutine, BuildFrame;
    if s.m.rip == HOST_BEGIN {
      BeginKeepsInv(L, k, s);
      BeginGoesToFrame(L, k, s);
    } else if s.m.rip == PRE_CALL_ENTRY || s.m.rip == AFTER_FIRST_SWITCH {
      EnteringKeepsInv(L, k, s);
      EnteringGoesOn(L, k, s);
    } else if s.m.rip == HOST_TEST && Load(s.m.mem, L.co + 16) == 0 {
      LoopSwitchKeepsInv(L, k, s);
    } else if s.m.rip == CALL_ENTRY {
      FirstSwitchKeepsInv(L, k, s);
    } else if s.m.rip == ENTRY && s.left > 0 {
      YieldKeepsInv(L, k, s);
    } else if s.m.rip == AFTER_ENTRY {
      TerminateKeepsInv(L, k, s);
    }
  }

  lemma EnteringGoesOn(L: Layout, k: nat, s: Sys)
    requires L.Valid() && Load(s.m.mem, L.co + 8) == ENTRY && CoRuns(L, k, s)
    requires s.m.rip == PRE_CALL_ENTRY || s.m.rip == AFTER_FIRST_SWITCH
    ensures Step(L, s).m.rip == (if s.m.rip == PRE_CALL_ENTRY then CALL_ENTRY else ENTRY) && Step(L, s).left == s.left
  {
    hide FrameAt, Load;
  }

  lemma BeginGoesToFrame(L: Layout, k: nat, s: Sys)
    requires Init(L, k, s)
    ensures Begin(L, s).coCtx.rip == PRE_CALL_ENTRY && Begin(L, s).left == s.left
  {
    FirstFrame(L, k, s);
    hide FrameAt, Load, CallSwitch, BuildFrame;
  }

  function CodeSteps(L: Layout, ss: seq<Sys>): nat
    requires |ss| > 0
  {
    if |ss| == 1 then 0
    else CodeSteps(L, ss[..|ss| - 1]) + (if CanStep(L, ss[|ss| - 2]) && ss[|ss| - 1] == Step(L, ss[|ss| - 2]) then 1 else 0)
  }

  /** Between begin and any point of any trace the switching code has made at most
      10k + 16 steps, however much arbitrary code ran in between. */
  lemma {:induction false} TraceIsBounded(L: Layout, k: nat, ss: seq<Sys>)
    requires IsTrace(L, k, ss)
    ensures CodeSteps(L, ss) + Rank(ss[|ss| - 1]) <= 10 * k + 16
  {
    hide Inv, Act, CanStep, Step, Rank;
    var n := |ss| - 1;
    if n == 0 {
      StartRank(L, k, ss[0]);
    } else {
      assert IsTrace(L, k, ss[..n]);
      TraceIsBounded(L, k, ss[..n]);
      TraceInv(L, k, ss, n - 1);
      if CanStep(L, ss[n - 1]) && ss[n] == Step(L, ss[n - 1]) {
        StepLowersRank(L, k, ss[n - 1]);
      } else {
        ActKeepsRank(L, ss[n - 1], ss[n]);
      }
    }
  }

  lemma StartRank(L: Layout, k: nat, s: Sys)
    requires Init(L, k, s)
    ensures Rank(s) == 10 * k + 16
  {
  }

  lemma ActKeepsRank(L: Layout, s: Sys, t: Sys)
    requires Act(L, s, t)
    ensures Rank(t) == Rank(s)
  {
  }

  /** Nothing gets stuck before the host is done: the code can step, or the body can do
      what the ABI obliges it to and then step. */
  lemma TraceCanGoOn(L: Layout, k: nat, ss: seq<Sys>) returns (t: Sys)
    requires IsTrace(L, k, ss) && ss[|ss| - 1].m.rip != HOST_DONE
    ensures t == ss[|ss| - 1] || Act(L, ss[|ss| - 1], t)
    ensures CanStep(L, t)
  {
    var s := ss[|ss| - 1];
    TraceInv(L, k, ss, |ss| - 1);
    TraceIsSafe(L, k, ss, |ss| - 1);
    hide FrameAt, Load, Step;
    t := if s.m.rip == ENTRY then s.(m := s.m.(regs := s.entryRegs, rsp := L.EntryRsp())) else s;
  }
}
