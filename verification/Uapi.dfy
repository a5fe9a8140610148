/** One open device file (uapi.c): the ready flag, the requests served on it, and its whole
    life from open to release. What the requests do is stated as steps of the flat model;
    what they hold of the kernel is stated by comparing the kernel before and after. */
module Uapi {
  import opened VmLayout
  import opened Kernel
  import opened LinearMemory
  import opened Kapi
  import opened Vm
  import opened RunPlan
  import opened FlatModel
  import RunProtocol
  import RunTheorems
  import VectoredIo

  /** Data copied from user space has 32-bit length. */
  predicate WellFormed(call: Call) { call.Write? ==> |call.landed| < U32 }

  lemma LiveSize(ee: Engine)
    requires ee.Live()
    ensures |ee.mem.Flat()| == ee.mem.memoryBound <= STATIC_MEMORY_AVAILABLE
    ensures ee.mem.memoryBase == 0 <==> ee.mem.memoryBound == 0
    ensures ee.mem.leaked != {} <==> ee.mem.everUntidy
  {
  }

  /** Base and bound of a live engine are what the iovec loops assume. */
  lemma LiveContext(ee: Engine)
    requires ee.Live()
    ensures VectoredIo.Context(ee.mem.memoryBase, ee.mem.memoryBound)
  {
    hide Consistent;
    if ee.mem.memoryBase != 0 {
      ee.mem.AllMapped();
    }
  }

  ghost function WorldOf(k: Machine): World
    reads k`buffers, k`pages, k`pageTable, k`readOnly, k`nx, k`instances
  {
    World(k.buffers, k.pages, k.pageTable, k.readOnly, k.nx, k.instances)
  }

  ghost function MarkOf(k: Machine): Mark
    reads k`mapErrors, k`refusals
  {
    Mark(k.mapErrors, k.refusals)
  }

  class Session {
    const k: Machine
    const reg: Registry
    var ready: bool
    var ee: Engine
    ghost const base: World                  // the kernel when the file was opened
    ghost var stranded: multiset<Instance>   // instances lost by failed loads
    ghost var mapFailures: nat               // grows that failed in their mapping step

    /** The kernel apart from this session. */
    ghost function Outside(): World
      reads this`stranded
    {
      base.(instances := base.instances + stranded)
    }

    /** A ready session has a live engine whose books start from what was there without
        it. */
    ghost predicate Sound()
      reads this, k`ram, k`pages, k`pageTable, k`buffers, k`readOnly, k`instances
      reads ee, ee.mem, ee.mem.memoryPages, ee.resolver, ee.resolver.instances, ee.importedFuncs
    {
      && ee.k == k && ready && ee.Live() && ee.outside == Outside()
      && (mapFailures > 0 <==> ee.mem.leaked != {})
    }

    /** Between requests: when not ready the session owns nothing; when ready its code is
        executable. */
    ghost predicate Valid()
      reads this, k`ram, k`pages, k`pageTable, k`buffers, k`readOnly, k`instances, k`nx
      reads ee, ee.mem, ee.mem.memoryPages, ee.resolver, ee.resolver.instances, ee.importedFuncs
    {
      && k.Valid() && ee.k == k
      && (!ready ==> WorldOf(k) == Outside() && mapFailures == 0)
      && (ready ==> Sound() && ee.Executable())
    }

    ghost function State(): (f: Flat)
      reads this`ready, this`ee, ee, ee.mem, ee.mem.k`ram, ee.mem.k`pageTable, ee.importedFuncs
      ensures f.Ready? <==> ready
    {
      if ready then Ready(ee.mem.Flat(), ee.importedFuncs[..]) else Closed
    }

    /** `wd_open`. */
    constructor (k: Machine, reg: Registry)
      requires k.Valid()
      ensures Valid() && this.k == k && this.reg == reg && State() == Closed
      ensures fresh(ee) && fresh(ee.mem) && fresh(ee.mem.memoryPages)
      ensures base == WorldOf(k) && stranded == multiset{} && mapFailures == 0
    {
      this.k := k;
      this.reg := reg;
      ready := false;
      ee := new Engine(k);
      base := WorldOf(k);
      stranded, mapFailures := multiset{}, 0;
    }

    /** `handle_wasm_load_code`. */
    method DoLoad(req: LoadRequest, ghost e: Event) returns (reply: Reply)
      requires Valid() && reg.Valid() && e.providers == reg.Contents()
      modifies this`ready, this`ee, this`stranded
      modifies k`pages, k`pageTable, k`mapErrors, k`refusals, k`buffers, k`ram, k`readOnly, k`instances
      ensures Valid() && old(MarkOf(k)).UpTo(MarkOf(k))
      ensures FlatLoad(old(State()), e.providers, req, k.refusals > old(k.refusals), reply, State())
      ensures stranded == old(stranded) + LostBy(old(State()), e, Load(req), k.refusals > old(k.refusals))
      ensures ee == old(ee) || (fresh(ee) && fresh(ee.mem) && fresh(ee.mem.memoryPages))
    {
      hide Valid, State, Registry.Valid, Loadable, Lost, FlatLoad, LostBy, LoadedState;
      ghost var f := State();
      if ready {
        LoadRefused(f, e, req, false);
        return Einval;
      }
      var fault := k.CopyFaults();
      if fault {
        LoadRefused(f, e, req, true);
        return Efault;
      }
      var ok := LoadEngine(req, e);
      if !ok {
        LoadFails(f, e, req, k.refusals > old(k.refusals));
        return LoadFailed;
      }
      LoadSucceeds(f, e, req);
      return Done;
    }

    method LoadEngine(req: LoadRequest, ghost e: Event) returns (ok: bool)
      requires Valid() && !ready && reg.Valid() && e.providers == reg.Contents()
      modifies this`ready, this`ee, this`stranded
      modifies k`pages, k`pageTable, k`mapErrors, k`refusals, k`buffers, k`ram, k`readOnly, k`instances
      ensures Valid() && ready == ok && old(MarkOf(k)).UpTo(MarkOf(k))
      ensures ok <==> Loadable(e.providers, req) && k.refusals == old(k.refusals)
      ensures ok ==> State() == LoadedState(e.providers, req) && stranded == old(stranded)
      ensures !ok ==> State() == Closed && stranded == old(stranded) + Lost(e.providers, req, k.refusals > old(k.refusals))
      ensures fresh(ee) && fresh(ee.mem) && fresh(ee.mem.memoryPages)
    {
      hide Valid, Sound, State, Engine.Live, View, Registry.Valid, Registry.Contents, Loadable, Machine.Valid, Engine.Executable,
           Lost, LoadedState;
      OwnsNothing();
      ee, ok := Engine.Load(k, reg, req);
      if ok {
        ready := true;
        NowReady();
      } else {
        stranded := stranded + Lost(e.providers, req, k.refusals > old(k.refusals));
        StillClosed();
      }
    }

    lemma OwnsNothing()
      requires Valid() && !ready
      ensures k.Valid() && WorldOf(k) == Outside() && mapFailures == 0 && State() == Closed
    {
    }

    lemma StillClosed()
      requires !ready && k.Valid() && ee.k == k && WorldOf(k) == Outside() && mapFailures == 0
      ensures Valid() && State() == Closed
    {
    }

    lemma NowReady()
      requires ready && k.Valid() && ee.k == k && ee.Live() && ee.Executable() && ee.outside == Outside() && mapFailures == 0
      requires ee.mem.leaked == {} && ee.mem.Flat() == (if ee.request.WantsMemory() then ee.request.memory else [])
      ensures Valid() && Loadable(ee.providers, ee.request) && State() == LoadedState(ee.providers, ee.request)
    {
      hide Engine.Executable, Machine.Valid, View;
      EngineImports(ee);
    }

    /** memory.grow by the guest of a running session. */
    method GuestGrows(pages: U32Word) returns (r: int)
      requires Sound()
      modifies this`mapFailures, k`pages, k`pageTable, k`mapErrors, k`refusals, ee.mem, ee.mem.memoryPages
      ensures Sound() && ee.mem.memoryPages == old(ee.mem.memoryPages) && old(MarkOf(k)).UpTo(MarkOf(k))
      ensures FlatGrow(old(State()), pages, k.refusals > old(k.refusals), r, State())
      ensures mapFailures - old(mapFailures) == k.mapErrors - old(k.mapErrors)
    {
      hide View, Engine.Live;
      LiveSize(ee);
      ghost var how;
      r, how := ee.Grow(pages);
      LiveSize(ee);
      assert how != Granted ==> ee.mem.Flat()[..ee.mem.memoryBound] == ee.mem.Flat();
      if how == MapFailed {
        mapFailures := mapFailures + 1;
      }
    }

    /** A store of the guest, which its compiled bounds check lets through in range only. */
    method GuestStores(offset: U32Word, data: seq<Byte>)
      requires Sound()
      modifies k`ram
      ensures Sound()
      ensures var f := old(State());
        State() == if InRange(f.bytes, offset, |data|) then f.(bytes := Splice(f.bytes, offset, data)) else f
    {
      hide View, Books, Without, Owed, Consistent, Engine.Guarded, Engine.BufferBooks, Engine.InstanceBooks, Engine.Wired, Engine.CodeLoaded;
      LiveSize(ee);
      if |data| < U32 {
        var _ := ee.mem.HostWrite(offset, data);
      }
    }

    /** One move of a run. */
    method PlayMove(cfg: RunProtocol.Config, s: RunProtocol.State, m: Move) returns (t: RunProtocol.State, r: int)
      requires Sound() && k.nx == s.nx
      modifies this`mapFailures, k`ram, k`nx, k`pages, k`pageTable, k`mapErrors, k`refusals, ee.mem, ee.mem.memoryPages
      ensures Sound() && ee.mem.memoryPages == old(ee.mem.memoryPages) && old(MarkOf(k)).UpTo(MarkOf(k))
      ensures t == Advance(cfg, s, m) && k.nx == t.nx
      ensures FlatMove(old(State()), cfg, s, m, k.refusals > old(k.refusals), r, State())
      ensures mapFailures - old(mapFailures) == k.mapErrors - old(k.mapErrors)
    {
      hide Sound, State, RunProtocol.Apply, RunProtocol.Enabled, FlatGrow;
      r := 0;
      if !Possible(cfg, s, m) {
        return s, 0;
      }
      t := Perform(k, cfg, s, ActionOf(m));
      match m {
        case Sched(_) =>
        case GuestGrow(pages) => r := GuestGrows(pages);
        case GuestStore(offset, data) => GuestStores(offset, data);
      }
    }

    /** The moves of a plan. */
    method PlayPlan(cfg: RunProtocol.Config, plan: seq<Move>) returns (s: RunProtocol.State, ghost t: Trace)
      requires Sound() && k.nx == cfg.nx0 && cfg.Valid()
      modifies this`mapFailures, k`ram, k`nx, k`pages, k`pageTable, k`mapErrors, k`refusals, ee.mem, ee.mem.memoryPages
      ensures Sound() && ee.mem.memoryPages == old(ee.mem.memoryPages)
      ensures s == Play(cfg, plan) && k.nx == s.nx
      ensures t.Trace? && t.cfg == cfg && FlatPlay(old(State()), plan, t)
      ensures t.log[0] == old(MarkOf(k)) && t.log[|plan|] == MarkOf(k) && t.fs[|plan|] == State()
      ensures mapFailures - old(mapFailures) == k.mapErrors - old(k.mapErrors) && old(MarkOf(k)).UpTo(MarkOf(k))
    {
      hide Sound, State, RunProtocol.Apply, RunProtocol.Enabled, FlatMove, FlatPlay, Play, Advance;
      ghost var f := State();
      SoundIsReady();
      StartNx(cfg);
      s := Start(cfg);
      t := Trace(cfg, [f], [MarkOf(k)], []);
      EmptyPlay(f, cfg, MarkOf(k));
      assert plan[..0] == [];
      var i := 0;
      while i < |plan|
        invariant 0 <= i <= |plan| && Sound() && ee.mem.memoryPages == old(ee.mem.memoryPages) && ready == old(ready) && ee == old(ee) && ee.mem == old(ee.mem)
        invariant s == Play(cfg, plan[..i]) && k.nx == s.nx
        invariant t.Trace? && t.cfg == cfg && |t.fs| == |t.log| == i + 1 && FlatPlay(f, plan[..i], t)
        invariant t.log[0] == old(MarkOf(k)) && t.log[i] == MarkOf(k) && t.fs[i] == State()
        invariant mapFailures - old(mapFailures) == k.mapErrors - old(k.mapErrors) && old(MarkOf(k)).UpTo(MarkOf(k))
      {
        ghost var r;
        PlayMore(cfg, plan, i);
        s, r := PlayMove(cfg, s, plan[i]);
        PlayExtends(f, plan[..i], t, plan[i], MarkOf(k), r, State());
        assert plan[..i + 1] == plan[..i] + [plan[i]];
        t := Trace(cfg, t.fs + [State()], t.log + [MarkOf(k)], t.grown + [r]);
        i := i + 1;
      }
      assert plan[..i] == plan;
    }

    lemma SoundIsReady()
      requires Sound()
      ensures ready
    {
    }

    lemma BeginsSound()
      requires Valid() && ready
      ensures Sound() && k.nx == Outside().nx && CodePages(ee.code, ee.codeLen) !! k.nx
    {
    }

    lemma EndsValid()
      requires Sound() && k.nx == Outside().nx && CodePages(ee.code, ee.codeLen) !! k.nx
      ensures Valid()
    {
    }

    /** Between requests every byte of a ready session's code is on an executable page. */
    lemma CodeIsExecutable(a: nat)
      requires Valid() && ready && ee.code <= a < ee.code + ee.codeSize
      ensures PageOf(a) !in k.nx
    {
      ee.CodeBytesExecutable(a);
    }

    /** `handle_wasm_run_code`, from the caller's entry until all three threads are done. */
    method DoRun(paramCount: nat, plan: seq<Move>) returns (reply: Reply, ghost t: Trace)
      requires Valid()
      modifies this`mapFailures, k`ram, k`nx, k`pages, k`pageTable, k`mapErrors, k`refusals, ee.mem, ee.mem.memoryPages
      ensures Valid() && ee.mem.memoryPages == old(ee.mem.memoryPages) && old(MarkOf(k)).UpTo(MarkOf(k)) && k.nx == old(k.nx)
      ensures FlatRunCode(old(State()), paramCount, plan, t, old(MarkOf(k)), MarkOf(k), reply, State())
      ensures t.Trace? ==> t.cfg == RunProtocol.Config(paramCount, ee.code, ee.codeLen, old(k.nx))
      ensures mapFailures - old(mapFailures) == k.mapErrors - old(k.mapErrors)
    {
      hide Valid, State, FlatPlay, Final;
      var fault := k.CopyFaults();
      if fault {
        return Efault, NotRun;
      }
      if !ready {
        return Einval, NotRun;
      }
      reply, t := RunThreads(paramCount, plan);
    }

    /** The run of a ready session. */
    method RunThreads(paramCount: nat, plan: seq<Move>) returns (reply: Reply, ghost t: Trace)
      requires Valid() && ready
      modifies this`mapFailures, k`ram, k`nx, k`pages, k`pageTable, k`mapErrors, k`refusals, ee.mem, ee.mem.memoryPages
      ensures Valid() && ee.mem.memoryPages == old(ee.mem.memoryPages) && old(MarkOf(k)).UpTo(MarkOf(k)) && k.nx == old(k.nx)
      ensures FlatRunCode(old(State()), paramCount, plan, t, old(MarkOf(k)), MarkOf(k), reply, State())
      ensures t.Trace? && t.cfg == RunProtocol.Config(paramCount, ee.code, ee.codeLen, old(k.nx))
      ensures mapFailures - old(mapFailures) == k.mapErrors - old(k.mapErrors)
    {
      hide Valid, Sound, State, FlatPlay, Finish, RunProtocol.Inv, Play, CodePages;
      BeginsSound();
      var cfg := RunProtocol.Config(paramCount, ee.code, ee.codeLen, k.nx);
      var s;
      s, t := PlayPlan(cfg, plan);
      TraceShape(old(State()), plan, t);
      PlayInv(cfg, plan);
      var end := FinishRun(k, cfg, s);
      EndsValid();
      if !RunTheorems.RunnerExists(end) {
        return RunFailed, t;
      }
      var copyFault := k.CopyFaults();
      return if copyFault then Efault else Ran(end.result.success, end.result.retval), t;
    }

    /** `handle_wasm_read_memory`. */
    method DoRead(offset: U32Word, len: U32Word) returns (reply: Reply)
      requires Valid()
      modifies k`refusals
      ensures Valid() && old(k.refusals) <= k.refusals
      ensures FlatRead(old(State()), offset, len, k.refusals > old(k.refusals), reply, State())
    {
      hide View, Books, Without, Owed, Consistent, Engine.Guarded, Engine.BufferBooks, Engine.InstanceBooks, Engine.Wired, Engine.CodeLoaded;
      var requestFault := k.CopyFaults();
      if requestFault {
        return Efault;
      }
      if !ready {
        return Einval;
      }
      var ok, data := ee.mem.HostRead(offset, len);
      if !ok {
        return Einval;
      }
      var fault := k.CopyFaults();
      return if fault then Efault else Data(data);
    }

    /** `handle_wasm_write_memory`. */
    method DoWrite(offset: U32Word, landed: seq<Byte>, fault: bool) returns (reply: Reply)
      requires Valid() && |landed| < U32
      modifies k`ram, k`refusals
      ensures Valid() && old(k.refusals) <= k.refusals
      ensures FlatWrite(old(State()), offset, landed, fault, k.refusals > old(k.refusals), reply, State())
    {
      hide View, Books, Without, Owed, Consistent, Engine.Guarded, Engine.BufferBooks, Engine.InstanceBooks, Engine.Wired, Engine.CodeLoaded;
      var requestFault := k.CopyFaults();
      if requestFault {
        return Efault;
      }
      if !ready {
        return Einval;
      }
      var ok := ee.mem.HostWrite(offset, landed);
      if !ok {
        return Einval;
      }
      return if fault then Efault else Done;
    }

    /** `wd_ioctl`: one request. */
    method Serve(call: Call) returns (reply: Reply, ghost e: Event)
      requires Valid() && reg.Valid() && WellFormed(call)
      modifies this, k, ee.mem, ee.mem.memoryPages
      ensures Valid() && old(MarkOf(k)).UpTo(MarkOf(k)) && e.providers == old(reg.Contents())
      ensures FlatStep(old(State()), e, call, old(MarkOf(k)), MarkOf(k), reply, State())
      ensures e.trace.Trace? ==> e.trace.cfg == RunProtocol.Config(e.trace.cfg.paramCount, ee.code, ee.codeLen, old(k.nx))
      ensures ee == old(ee) || fresh(ee)
      ensures ee.mem == old(ee.mem) || fresh(ee.mem)
      ensures ee.mem.memoryPages == old(ee.mem.memoryPages) || fresh(ee.mem.memoryPages)
      ensures stranded == old(stranded) + LostBy(old(State()), e, call, k.refusals > old(k.refusals))
      ensures mapFailures == old(mapFailures) + if call.Run? then k.mapErrors - old(k.mapErrors) else 0
    {
      hide Valid, State, Registry.Valid, Registry.Contents, FlatLoad, FlatRunCode, FlatRead, FlatWrite, Lost;
      e := Event(reg.Contents(), NotRun);
      match call {
        case Load(req) => reply := DoLoad(req, e);
        case Run(paramCount, plan) =>
          ghost var t;
          reply, t := DoRun(paramCount, plan);
          e := e.(trace := t);
        case Read(offset, len) => reply := DoRead(offset, len);
        case Write(offset, landed, fault) => reply := DoWrite(offset, landed, fault);
      }
    }

    /** Changes of the registry by others, then a request: the changes reach neither the
        engine's memory nor the imports it resolved. */
    method Turn(change: seq<RegistryCall>, call: Call) returns (d: seq<bool>, reply: Reply, ghost e: Event)
      requires Valid() && reg.Valid() && WellFormed(call)
      modifies this, k, ee.mem, ee.mem.memoryPages, reg, set x | x in reg.ring
      ensures Valid() && old(MarkOf(k)).UpTo(MarkOf(k))
      ensures reg.Valid() && fresh(NodeSet(reg.ring) - old(NodeSet(reg.ring)))
      ensures |d| == |change| && e.providers == reg.Contents() == Replay(old(reg.Contents()), change, d)
      ensures FlatStep(old(State()), e, call, old(MarkOf(k)), MarkOf(k), reply, State())
      ensures ee == old(ee) || fresh(ee)
      ensures ee.mem == old(ee.mem) || fresh(ee.mem)
      ensures ee.mem.memoryPages == old(ee.mem.memoryPages) || fresh(ee.mem.memoryPages)
      ensures stranded == old(stranded) + LostBy(old(State()), e, call, k.refusals > old(k.refusals))
      ensures mapFailures == old(mapFailures) + if call.Run? then k.mapErrors - old(k.mapErrors) else 0
    {
      hide Valid, State, Registry.Valid, Registry.Contents, FlatStep, LostBy, Replay, NodeSet;
      d := reg.Serve(change);
      reply, e := Serve(call);
    }

    /** `wd_release`. */
    method Release() returns (ghost leaked: set<nat>)
      requires Valid()
      modifies k`pages, k`pageTable, k`buffers, k`instances, k`readOnly
      ensures k.Valid() && k.buffers == base.buffers && k.pageTable == base.pageTable && k.readOnly == base.readOnly && k.nx == base.nx
      ensures k.instances == base.instances + stranded
      ensures k.pages == base.pages + leaked && leaked !! base.pages
      ensures leaked != {} <==> mapFailures > 0
    {
      hide Engine.Live;
      leaked := {};
      if ready {
        leaked := ee.mem.leaked;
        ee.Destroy();
      }
    }
  }

  function ProvidersBefore(first: seq<Provider>, es: seq<Event>, i: nat): seq<Provider>
    requires i <= |es|
  {
    if i == 0 then first else es[i - 1].providers
  }

  ghost predicate FollowsAt(first: seq<Provider>, changes: seq<seq<RegistryCall>>, done: seq<seq<bool>>, es: seq<Event>, i: nat)
    requires i < |es| == |done| <= |changes|
  {
    |done[i]| == |changes[i]| && es[i].providers == Replay(ProvidersBefore(first, es, i), changes[i], done[i])
  }

  /** Before each request other kernel modules may register and deregister providers. */
  ghost predicate ProvidersFollow(first: seq<Provider>, changes: seq<seq<RegistryCall>>, done: seq<seq<bool>>, es: seq<Event>) {
    |done| == |es| <= |changes| && forall i: nat :: i < |es| ==> FollowsAt(first, changes, done, es, i)
  }

  lemma ProvidersExtend(first: seq<Provider>, changes: seq<seq<RegistryCall>>, done: seq<seq<bool>>, es: seq<Event>, d: seq<bool>, e: Event)
    requires ProvidersFollow(first, changes, done, es) && |es| < |changes| && |d| == |changes[|es|]|
    requires e.providers == Replay(ProvidersBefore(first, es, |es|), changes[|es|], d)
    ensures ProvidersFollow(first, changes, done + [d], es + [e])
  {
    hide Replay;
    forall i: nat | i < |es + [e]|
      ensures FollowsAt(first, changes, done + [d], es + [e], i)
    {
      assert i < |es| ==> FollowsAt(first, changes, done, es, i);
    }
  }

  /** What is known of a session's past: a run of the flat model from a closed session,
      whose failures and losses account for what is missing. */
  ghost predicate History(first: seq<Provider>, calls: seq<Call>, changes: seq<seq<RegistryCall>>, done: seq<seq<bool>>,
                          fs: seq<Flat>, es: seq<Event>, log: seq<Mark>, replies: seq<Reply>, unmapped: bool, lost: multiset<Instance>) {
    && FlatRun(fs, es, calls, log, replies) && fs[0] == Closed
    && ProvidersFollow(first, changes, done, es)
    && (unmapped <==> AnyRunMapFailed(calls, log))
    && lost == TotalLost(fs, es, calls, log, |calls|)
  }

  lemma HistoryBegins(first: seq<Provider>, changes: seq<seq<RegistryCall>>, m: Mark)
    ensures History(first, [], changes, [], [Closed], [], [m], [], false, multiset{})
  {
    EmptyRun(m);
  }

  lemma HistoryExtends(first: seq<Provider>, calls: seq<Call>, changes: seq<seq<RegistryCall>>, done: seq<seq<bool>>,
                       fs: seq<Flat>, es: seq<Event>, log: seq<Mark>, replies: seq<Reply>, unmapped: bool, lost: multiset<Instance>,
                       call: Call, d: seq<bool>, e: Event, next: Mark, reply: Reply, f': Flat)
    requires History(first, calls, changes, done, fs, es, log, replies, unmapped, lost)
    requires |es| == |calls| < |changes| && |d| == |changes[|es|]| && |fs| == |log| == |calls| + 1
    requires e.providers == Replay(ProvidersBefore(first, es, |es|), changes[|es|], d)
    requires log[|calls|].UpTo(next) && FlatStep(fs[|calls|], e, call, log[|calls|], next, reply, f')
    ensures var unmapped' := unmapped || (call.Run? && log[|calls|].mapErrors < next.mapErrors);
      var lost' := lost + LostBy(fs[|calls|], e, call, log[|calls|].refusals < next.refusals);
      History(first, calls + [call], changes, done + [d], fs + [f'], es + [e], log + [next], replies + [reply], unmapped', lost')
  {
    hide FlatStep, FlatRun, ProvidersFollow, AnyRunMapFailed, TotalLost, LostBy, Replay;
    ProvidersExtend(first, changes, done, es, d, e);
    RunExtends(fs, es, calls, log, replies, e, call, next, reply, f');
    LostExtends(fs, es, calls, log, e, call, next, f');
  }

  /** The whole life of a session, for every sequence of requests, every change of the
      registry before each, every schedule of its runs and every choice of the kernel. The
      requests are steps of the flat model. After release every buffer, area, resolver
      array, mapping and guard page is back where it was and the code pages had become
      executable again before their buffer was freed; frames are missing exactly when the
      kernel failed to map a range during some run, and the instances left unreleased are
      exactly those that loads lost to a failing provider. That nothing is freed that is
      not held is the precondition of each free. */
  method Lifetime(k: Machine, reg: Registry, calls: seq<Call>, changes: seq<seq<RegistryCall>>)
    returns (replies: seq<Reply>, done: seq<seq<bool>>, ghost fs: seq<Flat>, ghost es: seq<Event>, ghost log: seq<Mark>, ghost leaked: set<nat>)
    requires k.Valid() && reg.Valid() && |changes| == |calls| && forall c :: c in calls ==> WellFormed(c)
    modifies k, reg, set x | x in reg.ring
    ensures FlatRun(fs, es, calls, log, replies) && fs[0] == Closed
    ensures ProvidersFollow(old(reg.Contents()), changes, done, es)
    ensures log[0] == old(MarkOf(k)) && log[|calls|] == MarkOf(k)
    ensures k.Valid() && k.buffers == old(k.buffers) && k.pageTable == old(k.pageTable) && k.readOnly == old(k.readOnly) && k.nx == old(k.nx)
    ensures k.pages == old(k.pages) + leaked && leaked !! old(k.pages)
    ensures leaked != {} <==> AnyRunMapFailed(calls, log)
    ensures k.instances == old(k.instances) + TotalLost(fs, es, calls, log, |calls|)
  {
    hide Session.Valid, Session.State, Registry.Valid, Registry.Contents, FlatStep, LostBy, History, Replay;
    ghost var first := reg.Contents();
    var s := new Session(k, reg);
    replies, done, fs, es, log := [], [], [Closed], [], [MarkOf(k)];
    HistoryBegins(first, changes, MarkOf(k));
    var i := 0;
    assert calls[..0] == [];
    while i < |calls|
      invariant 0 <= i <= |calls| && |es| == i && |fs| == |log| == i + 1
      invariant fresh(s) && fresh(s.ee.mem) && fresh(s.ee.mem.memoryPages) && fresh(s.ee)
      invariant s.Valid() && s.k == k && s.reg == reg && s.base == old(WorldOf(k))
      invariant reg.Valid() && fresh(NodeSet(reg.ring) - old(NodeSet(reg.ring))) && reg.Contents() == ProvidersBefore(first, es, i)
      invariant fs[i] == s.State() && log[0] == old(MarkOf(k)) && log[i] == MarkOf(k)
      invariant History(first, calls[..i], changes, done, fs, es, log, replies, s.mapFailures > 0, s.stranded)
    {
      ghost var unmapped, lost := s.mapFailures > 0, s.stranded;
      var d, reply, e := s.Turn(changes[i], calls[i]);
      HistoryExtends(first, calls[..i], changes, done, fs, es, log, replies, unmapped, lost, calls[i], d, e, MarkOf(k), reply, s.State());
      assert calls[..i + 1] == calls[..i] + [calls[i]];
      replies, done, fs, es, log := replies + [reply], done + [d], fs + [s.State()], es + [e], log + [MarkOf(k)];
      i := i + 1;
    }
    assert calls[..i] == calls;
    HistoryMeans(first, calls, changes, done, fs, es, log, replies, s.mapFailures > 0, s.stranded);
    leaked := s.Release();
  }

  lemma HistoryMeans(first: seq<Provider>, calls: seq<Call>, changes: seq<seq<RegistryCall>>, done: seq<seq<bool>>,
                     fs: seq<Flat>, es: seq<Event>, log: seq<Mark>, replies: seq<Reply>, unmapped: bool, lost: multiset<Instance>)
    requires History(first, calls, changes, done, fs, es, log, replies, unmapped, lost)
    ensures FlatRun(fs, es, calls, log, replies) && fs[0] == Closed && ProvidersFollow(first, changes, done, es)
    ensures unmapped <==> AnyRunMapFailed(calls, log)
    ensures lost == TotalLost(fs, es, calls, log, |calls|)
  {
  }

  lemma StartNx(cfg: RunProtocol.Config)
    ensures Start(cfg).nx == cfg.nx0 && Play(cfg, []) == Start(cfg)
  {
  }

  lemma PlayMore(cfg: RunProtocol.Config, plan: seq<Move>, i: nat)
    requires i < |plan|
    ensures Play(cfg, plan[..i + 1]) == Advance(cfg, Play(cfg, plan[..i]), plan[i])
  {
    hide Advance;
    assert plan[..i + 1][..i] == plan[..i];
  }

  lemma LoadRefused(f: Flat, e: Event, req: LoadRequest, refused: bool)
    requires f.Ready? != refused
    ensures FlatLoad(f, e.providers, req, refused, if refused then Efault else Einval, f)
    ensures LostBy(f, e, Load(req), refused) == multiset{}
  {
  }

  lemma LoadFails(f: Flat, e: Event, req: LoadRequest, refused: bool)
    requires f.Closed? && (!Loadable(e.providers, req) || refused)
    ensures FlatLoad(f, e.providers, req, refused, LoadFailed, f)
    ensures LostBy(f, e, Load(req), refused) == Lost(e.providers, req, refused)
  {
  }

  lemma LoadSucceeds(f: Flat, e: Event, req: LoadRequest)
    requires f.Closed? && Loadable(e.providers, req)
    ensures LostBy(f, e, Load(req), false) == multiset{}
    ensures FlatLoad(f, e.providers, req, false, Done, LoadedState(e.providers, req))
  {
  }

  /** The import table of a live engine is that of the providers at its load. */
  lemma EngineImports(ee: Engine)
    requires ee.Live()
    ensures Loadable(ee.providers, ee.request) && FirstFailing(ee.providers) == |ee.providers|
    ensures ee.importedFuncs[..] == ImportTable(InstancesOf(ee.providers, |ee.providers|), ee.request)
  {
  }
}
