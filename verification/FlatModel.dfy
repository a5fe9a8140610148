/** A session as its user sees it: closed, or a growable byte sequence with a table of
    resolved imports. Requests are steps of this model, sequences of requests are runs of
    it, and the lemmas say what every run guarantees. */
module FlatModel {
  import opened VmLayout
  import opened Kernel
  import opened Kapi
  import opened Vm
  import opened RunPlan
  import RunProtocol
  import RunTheorems

  /** The requests of the device. landed is what a copy from user space leaves behind,
      whether or not it faults; plan is the schedule of a run and what its guest does. */
  datatype Call =
    | Load(req: LoadRequest)
    | Run(paramCount: nat, plan: seq<Move>)
    | Read(offset: U32Word, len: U32Word)
    | Write(offset: U32Word, landed: seq<Byte>, fault: bool)

  datatype Reply = Done | Einval | Efault | LoadFailed | RunFailed | Ran(success: bool, retval: nat) | Data(bytes: seq<Byte>)

  datatype Flat = Closed | Ready(bytes: seq<Byte>, imports: seq<nat>)

  /** Failures the kernel has had so far: in mapping a range, and of any kind. */
  datatype Mark = Mark(mapErrors: nat, refusals: nat) {
    predicate UpTo(m: Mark) { mapErrors <= m.mapErrors && refusals <= m.refusals }
  }

  /** A run inside a request: the states before, between and after the moves of its plan,
      the kernel's failures at those points, and what memory.grow returned. */
  datatype Trace = NotRun | Trace(cfg: RunProtocol.Config, fs: seq<Flat>, log: seq<Mark>, grown: seq<int>)

  /** What a request meets: the registered providers, and the run it makes, if any. */
  datatype Event = Event(providers: seq<Provider>, trace: Trace)

  // ---------------------------------------------------------------- steps

  predicate InRange(bytes: seq<Byte>, offset: nat, len: nat) { offset < |bytes| && offset + len <= |bytes| }

  /** Memory and imports right after a load. */
  ghost function LoadedState(providers: seq<Provider>, req: LoadRequest): (f: Flat)
    requires Loadable(providers, req)
    ensures f.Ready?
  {
    Ready(if req.WantsMemory() then req.memory else [], ImportTable(InstancesOf(providers, |providers|), req))
  }

  /** A load succeeds exactly on a closed session, with a request that the registered
      providers and the limits allow, when the kernel refuses nothing. */
  ghost predicate FlatLoad(f: Flat, providers: seq<Provider>, req: LoadRequest, refused: bool, reply: Reply, f': Flat) {
    if f.Ready? then reply == Einval && f' == f
    else if Loadable(providers, req) && !refused then reply == Done && f' == LoadedState(providers, req)
    else (reply == LoadFailed || (reply == Efault && refused)) && f' == f
  }

  /** memory.grow: the old size and new bytes behind the old ones, or -1 and no change. */
  ghost predicate FlatGrow(f: Flat, pages: nat, refused: bool, r: int, f': Flat)
    requires f.Ready?
  {
    if f.bytes == [] || |f.bytes| + pages * WASM_PAGE > STATIC_MEMORY_AVAILABLE || refused then r == -1 && f' == f
    else
      && f'.Ready? && f'.imports == f.imports && r == |f.bytes| / WASM_PAGE
      && f.bytes <= f'.bytes && |f'.bytes| == |f.bytes| + pages * WASM_PAGE
  }

  /** A move at protocol state s; the guest acts only when it is running. */
  ghost predicate FlatMove(f: Flat, cfg: RunProtocol.Config, s: RunProtocol.State, m: Move, refused: bool, r: int, f': Flat)
    requires f.Ready?
  {
    if m.Sched? || !Possible(cfg, s, m) then f' == f
    else if m.GuestGrow? then FlatGrow(f, m.pages, refused, r, f')
    else f' == if InRange(f.bytes, m.offset, |m.data|) then f.(bytes := Splice(f.bytes, m.offset, m.data)) else f
  }

  ghost predicate Refused(log: seq<Mark>, i: nat)
    requires i + 1 < |log|
  {
    log[i].refusals < log[i + 1].refusals
  }

  ghost predicate FlatPlay(f: Flat, plan: seq<Move>, t: Trace)
    requires t.Trace?
  {
    && |t.fs| == |plan| + 1 == |t.log| && |t.grown| == |plan| && t.fs[0] == f
    && (forall i :: 0 <= i < |t.fs| ==> t.fs[i].Ready?)
    && forall i :: 0 <= i < |plan| ==>
         && t.log[i].UpTo(t.log[i + 1])
         && FlatMove(t.fs[i], t.cfg, Play(t.cfg, plan[..i]), plan[i], Refused(t.log, i), t.grown[i], t.fs[i + 1])
  }

  /** What a run request answers when it has come to its end. */
  ghost function Answer(end: RunProtocol.State, refused: bool): Reply {
    if !RunTheorems.RunnerExists(end) then RunFailed
    else if refused then Efault
    else Ran(end.result.success, end.result.retval)
  }

  /** A run request: refused, or a complete run of the protocol whose guest steps act on
      the bytes, and whose outcome is the answer unless that cannot be copied. */
  ghost predicate FlatRunCode(f: Flat, paramCount: nat, plan: seq<Move>, t: Trace, before: Mark, after: Mark, reply: Reply, f': Flat) {
    if f.Closed? || t.NotRun? then
      && t.NotRun? && f' == f
      && reply == (if before.refusals < after.refusals then Efault else Einval) && (reply == Einval ==> f.Closed?)
    else
      && FlatPlay(f, plan, t) && t.cfg.Valid() && t.cfg.paramCount == paramCount
      && t.log[0] == before && t.log[|plan|].UpTo(after) && f' == t.fs[|plan|]
      && reply == Answer(Final(t.cfg, plan), t.log[|plan|].refusals < after.refusals)
  }

  /** A read or write whose request or buffer cannot be copied is a fault; one that faults
      while bytes land in guest memory leaves those bytes there. */
  ghost predicate FlatRead(f: Flat, offset: nat, len: nat, refused: bool, reply: Reply, f': Flat) {
    && f' == f
    && reply == if refused then Efault else if f.Ready? && InRange(f.bytes, offset, len) then Data(f.bytes[offset..offset + len]) else Einval
  }

  ghost predicate FlatWrite(f: Flat, offset: nat, landed: seq<Byte>, fault: bool, refused: bool, reply: Reply, f': Flat) {
    if refused then reply == Efault && f' == f
    else if f.Ready? && InRange(f.bytes, offset, |landed|)
    then reply == (if fault then Efault else Done) && f' == f.(bytes := Splice(f.bytes, offset, landed))
    else reply == Einval && f' == f
  }

  ghost predicate FlatStep(f: Flat, e: Event, call: Call, before: Mark, after: Mark, reply: Reply, f': Flat) {
    var refused := before.refusals < after.refusals;
    match call
    case Load(req) => FlatLoad(f, e.providers, req, refused, reply, f')
    case Run(paramCount, plan) => FlatRunCode(f, paramCount, plan, e.trace, before, after, reply, f')
    case Read(offset, len) => FlatRead(f, offset, len, refused, reply, f')
    case Write(offset, landed, fault) => FlatWrite(f, offset, landed, fault, refused, reply, f')
  }

  /** fs[0], then calls and replies leading from each fs[i] to fs[i + 1], with the kernel's
      failures before and after each call in the log. */
  ghost predicate FlatRun(fs: seq<Flat>, es: seq<Event>, calls: seq<Call>, log: seq<Mark>, replies: seq<Reply>) {
    && |fs| == |calls| + 1 == |replies| + 1 == |log| && |es| == |calls|
    && (forall i :: 0 <= i < |calls| ==> log[i].UpTo(log[i + 1]))
    && forall i :: 0 <= i < |calls| ==> FlatStep(fs[i], es[i], calls[i], log[i], log[i + 1], replies[i], fs[i + 1])
  }

  // ---------------------------------------------------------------- frames and instances left behind

  /** Request i is a run during which mapping a range failed. */
  ghost predicate RunMapFailed(calls: seq<Call>, log: seq<Mark>, i: nat)
    requires i < |calls| < |log|
  {
    calls[i].Run? && log[i].mapErrors < log[i + 1].mapErrors
  }

  ghost predicate AnyRunMapFailed(calls: seq<Call>, log: seq<Mark>)
    requires |calls| < |log|
  {
    exists i: nat :: i < |calls| && RunMapFailed(calls, log, i)
  }

  /** Instances that a request leaves unreleased. */
  ghost function LostBy(f: Flat, e: Event, call: Call, refused: bool): multiset<Instance> {
    if call.Load? && f.Closed? then Lost(e.providers, call.req, refused) else multiset{}
  }

  ghost function TotalLost(fs: seq<Flat>, es: seq<Event>, calls: seq<Call>, log: seq<Mark>, n: nat): multiset<Instance>
    requires n <= |calls| == |es| && |calls| < |fs| && |calls| < |log|
  {
    if n == 0 then multiset{}
    else TotalLost(fs, es, calls, log, n - 1) + LostBy(fs[n - 1], es[n - 1], calls[n - 1], Refused(log, n - 1))
  }

  /** Request i is a load on a closed session, within limits and unrefused, that meets a
      failing provider behind one whose instance has a release callback. */
  ghost predicate LosesAt(fs: seq<Flat>, es: seq<Event>, calls: seq<Call>, log: seq<Mark>, i: nat)
    requires i < |calls| == |es| && |calls| < |fs| && |calls| < |log|
  {
    && calls[i].Load? && fs[i].Closed? && calls[i].req.WithinLimits() && !Refused(log, i)
    && FirstFailing(es[i].providers) < |es[i].providers|
    && exists j :: 0 <= j < FirstFailing(es[i].providers) && es[i].providers[j].instance.value.hasRelease
  }

  /** Over a whole run, instances are left behind exactly when some request loses one. */
  lemma {:induction false} LostIff(fs: seq<Flat>, es: seq<Event>, calls: seq<Call>, log: seq<Mark>, n: nat)
    requires n <= |calls| == |es| && |calls| < |fs| && |calls| < |log|
    ensures TotalLost(fs, es, calls, log, n) != multiset{} <==> exists i: nat :: i < n && LosesAt(fs, es, calls, log, i)
  {
    hide LosesAt, Stranded, Refused;
    if n > 0 {
      LostIff(fs, es, calls, log, n - 1);
      LosesIff(fs, es, calls, log, n - 1);
      EmptySum(TotalLost(fs, es, calls, log, n - 1), LostBy(fs[n - 1], es[n - 1], calls[n - 1], Refused(log, n - 1)));
    }
  }

  lemma LosesIff(fs: seq<Flat>, es: seq<Event>, calls: seq<Call>, log: seq<Mark>, i: nat)
    requires i < |calls| == |es| && |calls| < |fs| && |calls| < |log|
    ensures LosesAt(fs, es, calls, log, i) <==> LostBy(fs[i], es[i], calls[i], Refused(log, i)) != multiset{}
  {
    hide Stranded, FirstFailing;
    StrandedIff(es[i].providers);
  }

  lemma EmptySum(a: multiset<Instance>, b: multiset<Instance>)
    ensures a + b == multiset{} <==> a == multiset{} && b == multiset{}
  {
    if a != multiset{} {
      var x :| x in a;
      assert x in a + b;
    }
    if b != multiset{} {
      var x :| x in b;
      assert x in a + b;
    }
  }

  // ---------------------------------------------------------------- building runs

  lemma EmptyRun(m: Mark)
    ensures FlatRun([Closed], [], [], [m], []) && !AnyRunMapFailed([], [m]) && TotalLost([Closed], [], [], [m], 0) == multiset{}
  {
  }

  lemma RunExtends(fs: seq<Flat>, es: seq<Event>, calls: seq<Call>, log: seq<Mark>, replies: seq<Reply>,
                   e: Event, call: Call, next: Mark, reply: Reply, f': Flat)
    requires FlatRun(fs, es, calls, log, replies)
    requires log[|calls|].UpTo(next) && FlatStep(fs[|calls|], e, call, log[|calls|], next, reply, f')
    ensures FlatRun(fs + [f'], es + [e], calls + [call], log + [next], replies + [reply])
    ensures AnyRunMapFailed(calls + [call], log + [next])
      <==> AnyRunMapFailed(calls, log) || (call.Run? && log[|calls|].mapErrors < next.mapErrors)
  {
    hide FlatStep;
    var n, calls', log' := |calls|, calls + [call], log + [next];
    assert forall i: nat :: i < n ==> RunMapFailed(calls', log', i) == RunMapFailed(calls, log, i);
    assert RunMapFailed(calls', log', n) <==> call.Run? && log[n].mapErrors < next.mapErrors;
  }

  lemma {:induction false} LostSame(fs: seq<Flat>, es: seq<Event>, calls: seq<Call>, log: seq<Mark>,
                                    e: Event, call: Call, next: Mark, f': Flat, n: nat)
    requires n <= |calls| == |es| && |fs| == |log| == |calls| + 1
    ensures TotalLost(fs + [f'], es + [e], calls + [call], log + [next], n) == TotalLost(fs, es, calls, log, n)
  {
    hide LostBy;
    if n > 0 {
      LostSame(fs, es, calls, log, e, call, next, f', n - 1);
    }
  }

  lemma LostExtends(fs: seq<Flat>, es: seq<Event>, calls: seq<Call>, log: seq<Mark>, e: Event, call: Call, next: Mark, f': Flat)
    requires |calls| == |es| && |fs| == |log| == |calls| + 1
    ensures TotalLost(fs + [f'], es + [e], calls + [call], log + [next], |calls| + 1)
      == TotalLost(fs, es, calls, log, |calls|) + LostBy(fs[|calls|], e, call, log[|calls|].refusals < next.refusals)
  {
    hide LostBy;
    LostSame(fs, es, calls, log, e, call, next, f', |calls|);
  }

  lemma EmptyPlay(f: Flat, cfg: RunProtocol.Config, m: Mark)
    requires f.Ready?
    ensures FlatPlay(f, [], Trace(cfg, [f], [m], []))
  {
  }

  lemma PlayExtends(f: Flat, plan: seq<Move>, t: Trace, m: Move, next: Mark, r: int, f': Flat)
    requires t.Trace? && FlatPlay(f, plan, t) && f'.Ready?
    requires t.log[|plan|].UpTo(next)
    requires FlatMove(t.fs[|plan|], t.cfg, Play(t.cfg, plan), m, t.log[|plan|].refusals < next.refusals, r, f')
    ensures FlatPlay(f, plan + [m], Trace(t.cfg, t.fs + [f'], t.log + [next], t.grown + [r]))
  {
    hide FlatMove, Play;
    var plan', t' := plan + [m], Trace(t.cfg, t.fs + [f'], t.log + [next], t.grown + [r]);
    forall i | 0 <= i < |plan'|
      ensures t'.log[i].UpTo(t'.log[i + 1])
      ensures FlatMove(t'.fs[i], t'.cfg, Play(t'.cfg, plan'[..i]), plan'[i], Refused(t'.log, i), t'.grown[i], t'.fs[i + 1])
    {
      assert plan'[..i] == plan[..i];
      assert i == |plan| ==> plan[..i] == plan;
    }
  }

  // ---------------------------------------------------------------- what every run guarantees

  predicate Overlaps(a: nat, n: nat, b: nat, m: nat) { a < b + m && b < a + n }

  /** A write, or a guest store during a run, that may reach bytes [o, o + n). */
  predicate Touches(call: Call, o: nat, n: nat) {
    match call
    case Write(offset, landed, _) => Overlaps(o, n, offset, |landed|)
    case Run(_, plan) => exists i :: 0 <= i < |plan| && Stores(plan[i], o, n)
    case _ => false
  }

  predicate Stores(m: Move, o: nat, n: nat) { m.GuestStore? && Overlaps(o, n, m.offset, |m.data|) }

  lemma MoveKeeps(f: Flat, cfg: RunProtocol.Config, s: RunProtocol.State, m: Move, refused: bool, r: int, f': Flat)
    requires f.Ready? && f'.Ready? && FlatMove(f, cfg, s, m, refused, r, f')
    ensures |f.bytes| <= |f'.bytes| && f'.imports == f.imports
    ensures forall o: nat, n: nat :: o + n <= |f.bytes| && !Stores(m, o, n) ==> f'.bytes[o..o + n] == f.bytes[o..o + n]
  {
    hide Possible;
  }

  lemma {:induction false} PlayKeeps(f: Flat, plan: seq<Move>, t: Trace, i: nat, o: nat, n: nat)
    requires f.Ready? && t.Trace? && FlatPlay(f, plan, t) && i <= |plan|
    ensures |f.bytes| <= |t.fs[i].bytes| && t.fs[i].imports == f.imports
    ensures o + n <= |f.bytes| && (forall j :: 0 <= j < i ==> !Stores(plan[j], o, n)) ==> t.fs[i].bytes[o..o + n] == f.bytes[o..o + n]
  {
    hide FlatMove, Stores;
    if i > 0 {
      PlayKeeps(f, plan, t, i - 1, o, n);
      MoveKeeps(t.fs[i - 1], t.cfg, Play(t.cfg, plan[..i - 1]), plan[i - 1], Refused(t.log, i - 1), t.grown[i - 1], t.fs[i]);
    }
  }

  lemma StepKeeps(f: Flat, e: Event, call: Call, before: Mark, after: Mark, reply: Reply, f': Flat, o: nat, n: nat)
    requires FlatStep(f, e, call, before, after, reply, f') && f.Ready?
    ensures f'.Ready? && |f.bytes| <= |f'.bytes| && f'.imports == f.imports
    ensures o + n <= |f.bytes| && !Touches(call, o, n) ==> f'.bytes[o..o + n] == f.bytes[o..o + n]
  {
    hide FlatPlay, Final, Stores, Loadable, ImportTable;
    if call.Run? && e.trace.Trace? {
      var plan, t := call.plan, e.trace;
      TraceShape(f, plan, t);
      PlayKeeps(f, plan, t, |plan|, o, n);
    }
  }

  lemma TraceShape(f: Flat, plan: seq<Move>, t: Trace)
    requires t.Trace?
    ensures FlatPlay(f, plan, t) ==> |t.fs| == |plan| + 1 == |t.log| && t.fs[|plan|].Ready?
  {
  }

  /** The engine stays until release, and its memory never shrinks: an offset and length
      that were in range stay in range. */
  lemma {:induction false} MemoryNeverShrinks(
    fs: seq<Flat>, es: seq<Event>, calls: seq<Call>, log: seq<Mark>, replies: seq<Reply>, i: nat, j: nat)
    requires FlatRun(fs, es, calls, log, replies) && i <= j < |fs| && fs[i].Ready?
    ensures fs[j].Ready? && |fs[i].bytes| <= |fs[j].bytes|
    ensures forall o: nat, n: nat :: InRange(fs[i].bytes, o, n) ==> InRange(fs[j].bytes, o, n)
    decreases j
  {
    hide FlatStep;
    if i < j {
      MemoryNeverShrinks(fs, es, calls, log, replies, i, j - 1);
      StepKeeps(fs[j - 1], es[j - 1], calls[j - 1], log[j - 1], log[j], replies[j - 1], fs[j], 0, 0);
    }
  }

  /** The imports of a loaded engine stay what the load resolved, whatever providers the
      later requests meet. */
  lemma {:induction false} ImportsNeverChange(
    fs: seq<Flat>, es: seq<Event>, calls: seq<Call>, log: seq<Mark>, replies: seq<Reply>, i: nat, j: nat)
    requires FlatRun(fs, es, calls, log, replies) && i < j < |fs|
    requires calls[i].Load? && replies[i] == Done
    ensures fs[j].Ready? && FirstFailing(es[i].providers) == |es[i].providers|
    ensures fs[j].imports == ImportTable(InstancesOf(es[i].providers, |es[i].providers|), calls[i].req)
    decreases j
  {
    assert FlatStep(fs[i], es[i], calls[i], log[i], log[i + 1], replies[i], fs[i + 1]);
    hide FlatStep, ImportTable, InstancesOf, FirstFailing;
    if i + 1 < j {
      ImportsNeverChange(fs, es, calls, log, replies, i, j - 1);
      StepKeeps(fs[j - 1], es[j - 1], calls[j - 1], log[j - 1], log[j], replies[j - 1], fs[j], 0, 0);
    }
  }

  /** Bytes that nothing in between stores to are the same later, whatever grows happened. */
  lemma {:induction false} BytesPersist(
    fs: seq<Flat>, es: seq<Event>, calls: seq<Call>, log: seq<Mark>, replies: seq<Reply>, i: nat, j: nat, o: nat, n: nat)
    requires FlatRun(fs, es, calls, log, replies) && i <= j < |fs| && fs[i].Ready? && o + n <= |fs[i].bytes|
    requires forall l :: i <= l < j ==> !Touches(calls[l], o, n)
    ensures fs[j].Ready? && o + n <= |fs[j].bytes| && fs[j].bytes[o..o + n] == fs[i].bytes[o..o + n]
    decreases j
  {
    hide FlatStep, Touches;
    if i < j {
      BytesPersist(fs, es, calls, log, replies, i, j - 1, o, n);
      StepKeeps(fs[j - 1], es[j - 1], calls[j - 1], log[j - 1], log[j], replies[j - 1], fs[j], o, n);
    }
  }

  /** What was written is read back by any later read inside the written range, as long as
      nothing in between stores to what is read. */
  lemma WriteIsReadBack(
    fs: seq<Flat>, es: seq<Event>, calls: seq<Call>, log: seq<Mark>, replies: seq<Reply>, i: nat, j: nat)
    requires FlatRun(fs, es, calls, log, replies) && i < j < |calls|
    requires calls[i].Write? && replies[i] == Done && calls[j].Read? && replies[j].Data?
    requires calls[i].offset <= calls[j].offset && calls[j].offset + calls[j].len <= calls[i].offset + |calls[i].landed|
    requires forall l :: i < l < j ==> !Touches(calls[l], calls[j].offset, calls[j].len)
    ensures var at := calls[j].offset - calls[i].offset;
      replies[j].bytes == calls[i].landed[at..at + calls[j].len]
  {
    hide Touches;
    var o, n := calls[j].offset, calls[j].len;
    assert FlatStep(fs[i], es[i], calls[i], log[i], log[i + 1], replies[i], fs[i + 1]);
    BytesPersist(fs, es, calls, log, replies, i + 1, j, o, n);
    assert fs[i + 1].bytes[o..o + n] == calls[i].landed[o - calls[i].offset..o - calls[i].offset + n];
    assert FlatStep(fs[j], es[j], calls[j], log[j], log[j + 1], replies[j], fs[j + 1]);
  }

  // ---------------------------------------------------------------- when nothing is refused

  /** Equal but for the bytes, which a grow may bring in arbitrarily. */
  predicate SameShape(f: Flat, g: Flat) {
    f.Ready? == g.Ready? && (f.Ready? ==> |f.bytes| == |g.bytes| && f.imports == g.imports)
  }
  predicate SameReply(r: Reply, s: Reply) { r == s || (r.Data? && s.Data? && |r.bytes| == |s.bytes|) }

  lemma MovesAgree(f: Flat, g: Flat, cfg: RunProtocol.Config, cfg': RunProtocol.Config, s: RunProtocol.State, s': RunProtocol.State,
                   m: Move, r: int, r': int, f': Flat, g': Flat)
    requires f.Ready? && g.Ready? && SameShape(f, g) && cfg.paramCount == cfg'.paramCount && Alike(s, s')
    requires FlatMove(f, cfg, s, m, false, r, f') && FlatMove(g, cfg', s', m, false, r', g')
    ensures SameShape(f', g')
  {
    StepAlike(cfg, cfg', s, s', ActionOf(m));
    hide RunProtocol.Enabled, RunProtocol.Apply;
  }

  lemma {:induction false} PlaysAgree(f: Flat, g: Flat, plan: seq<Move>, t: Trace, u: Trace, n: nat)
    requires f.Ready? && g.Ready? && SameShape(f, g) && t.Trace? && u.Trace? && t.cfg.paramCount == u.cfg.paramCount
    requires FlatPlay(f, plan, t) && FlatPlay(g, plan, u) && n <= |plan|
    requires forall i: nat :: i < n ==> !Refused(t.log, i) && !Refused(u.log, i)
    ensures SameShape(t.fs[n], u.fs[n])
  {
    hide FlatMove, SameShape;
    if n > 0 {
      PlaysAgree(f, g, plan, t, u, n - 1);
      assert !Refused(t.log, n - 1) && !Refused(u.log, n - 1);
      PlayAlike(t.cfg, u.cfg, plan[..n - 1]);
      MovesAgree(t.fs[n - 1], u.fs[n - 1], t.cfg, u.cfg, Play(t.cfg, plan[..n - 1]), Play(u.cfg, plan[..n - 1]),
                 plan[n - 1], t.grown[n - 1], u.grown[n - 1], t.fs[n], u.fs[n]);
    }
  }

  /** No failure between the ends of a log means none anywhere in it. */
  lemma {:induction false} QuietLog(log: seq<Mark>, i: nat, n: nat)
    requires i <= n < |log| && forall l :: 0 <= l < n ==> log[l].UpTo(log[l + 1])
    ensures log[i].refusals <= log[n].refusals
  {
    if i < n {
      QuietLog(log, i, n - 1);
      assert log[n - 1].UpTo(log[n]);
    }
  }

  lemma TraceQuiet(f: Flat, plan: seq<Move>, t: Trace, i: nat)
    requires t.Trace? && FlatPlay(f, plan, t) && t.log[0].refusals == t.log[|plan|].refusals && i < |plan|
    ensures !Refused(t.log, i)
  {
    hide FlatMove;
    QuietLog(t.log, 0, i);
    QuietLog(t.log, i + 1, |plan|);
    assert t.log[i].UpTo(t.log[i + 1]);
  }

  lemma RunsAgree(f: Flat, g: Flat, paramCount: nat, plan: seq<Move>, t: Trace, u: Trace, before: Mark, after: Mark, before': Mark, after': Mark,
                  reply: Reply, reply': Reply, f': Flat, g': Flat)
    requires SameShape(f, g) && before.refusals == after.refusals && before'.refusals == after'.refusals
    requires FlatRunCode(f, paramCount, plan, t, before, after, reply, f') && FlatRunCode(g, paramCount, plan, u, before', after', reply', g')
    ensures reply == reply' && SameShape(f', g')
  {
    hide FlatPlay, Final;
    if f.Ready? {
      TraceShape(f, plan, t);
      TraceShape(g, plan, u);
      TraceGrows(f, plan, t);
      TraceGrows(g, plan, u);
      forall i: nat | i < |plan|
        ensures !Refused(t.log, i) && !Refused(u.log, i)
      {
        TraceQuiet(f, plan, t, i);
        TraceQuiet(g, plan, u, i);
      }
      PlaysAgree(f, g, plan, t, u, |plan|);
      FinalAlike(t.cfg, u.cfg, plan);
    }
  }

  lemma TraceGrows(f: Flat, plan: seq<Move>, t: Trace)
    requires t.Trace? && FlatPlay(f, plan, t)
    ensures t.log[0].refusals <= t.log[|plan|].refusals
  {
    hide FlatMove;
    QuietLog(t.log, 0, |plan|);
  }

  lemma StepsAgree(f: Flat, g: Flat, e: Event, e': Event, call: Call, before: Mark, after: Mark, before': Mark, after': Mark,
                   reply: Reply, reply': Reply, f': Flat, g': Flat)
    requires SameShape(f, g) && e.providers == e'.providers && before.refusals == after.refusals && before'.refusals == after'.refusals
    requires FlatStep(f, e, call, before, after, reply, f') && FlatStep(g, e', call, before', after', reply', g')
    ensures SameReply(reply, reply') && SameShape(f', g')
  {
    hide Loadable, FlatRunCode, ImportTable;
    if call.Run? {
      RunsAgree(f, g, call.paramCount, call.plan, e.trace, e'.trace, before, after, before', after', reply, reply', f', g');
    }
  }

  /** As long as the kernel refuses nothing, the requests and the registered providers
      alone decide the replies, the imports and the memory size: two runs of the same
      requests agree on them. */
  lemma {:induction false} UnrefusedRunsAgree(
    fs: seq<Flat>, gs: seq<Flat>, es: seq<Event>, es': seq<Event>, calls: seq<Call>, log: seq<Mark>, log': seq<Mark>,
    replies: seq<Reply>, replies': seq<Reply>, n: nat)
    requires FlatRun(fs, es, calls, log, replies) && FlatRun(gs, es', calls, log', replies') && n <= |calls|
    requires forall i: nat :: i < n ==> es[i].providers == es'[i].providers
    requires fs[0] == gs[0] && forall i: nat :: i < n ==> !Refused(log, i) && !Refused(log', i)
    ensures SameShape(fs[n], gs[n]) && forall i: nat :: i < n ==> SameReply(replies[i], replies'[i])
  {
    hide FlatStep, SameReply;
    if n > 0 {
      UnrefusedRunsAgree(fs, gs, es, es', calls, log, log', replies, replies', n - 1);
      assert !Refused(log, n - 1) && !Refused(log', n - 1) && log[n - 1].UpTo(log[n]) && log'[n - 1].UpTo(log'[n]);
      StepsAgree(fs[n - 1], gs[n - 1], es[n - 1], es'[n - 1], calls[n - 1], log[n - 1], log[n], log'[n - 1], log'[n],
                 replies[n - 1], replies'[n - 1], fs[n], gs[n]);
    }
  }
}
