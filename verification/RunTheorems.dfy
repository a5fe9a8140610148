/** What the run protocol guarantees over every run: lifetime of the on-stack task,
    values handed back, progress, file references and page permissions. */
module RunTheorems {
  import opened VmLayout
  import opened RunProtocol

  lemma {:induction false} RunInv(cfg: Config, ss: seq<State>, aa: seq<Action>, i: nat)
    requires IsRun(cfg, ss, aa) && i < |ss|
    ensures Inv(cfg, ss[i])
  {
    if i > 0 {
      RunInv(cfg, ss, aa, i - 1);
      StepKeepsInv(cfg, ss[i - 1], aa[i - 1]);
    }
  }

  predicate RunnerExists(s: State) { !s.r.Absent? }

  /** Both threads have made their last access. */
  predicate Quiet(s: State) { s.r.Dead? && s.f.Gone? }

  lemma LeftMeansQuiet(cfg: Config, s: State)
    requires Inv(cfg, s) && RunnerExists(s) && PastEndDown(s.c)
    ensures Quiet(s) && s.task.finalizeRet == ExitCode(s.outcome) && s.task.ret == ReturnValue(s.outcome)
  {
    assert s.task.finalizerEnd.ups == 1;
  }

  /** Facts about s that still hold in a later state t. */
  predicate Kept(s: State, t: State) {
    && (s.c.Left? ==> t.c.Left?)
    && (RunnerExists(s) ==> RunnerExists(t))
    && (Quiet(s) ==> Quiet(t) && t.task.ret == s.task.ret && t.task.finalizeRet == s.task.finalizeRet && t.outcome == s.outcome)
  }

  lemma {:induction false} Stable(cfg: Config, ss: seq<State>, aa: seq<Action>, i: nat, j: nat)
    requires IsRun(cfg, ss, aa) && i <= j < |ss|
    ensures Kept(ss[i], ss[j])
    decreases j
  {
    hide Apply, Enabled, Kept, Inv;
    if i < j {
      Stable(cfg, ss, aa, i, j - 1);
      RunInv(cfg, ss, aa, j - 1);
      StepStable(cfg, ss[j - 1], aa[j - 1]);
      KeptIsTransitive(ss[i], ss[j - 1], ss[j]);
    } else {
      KeptIsReflexive(ss[i]);
    }
  }

  lemma KeptIsReflexive(s: State)
    ensures Kept(s, s)
  {
  }

  lemma KeptIsTransitive(s: State, t: State, u: State)
    requires Kept(s, t) && Kept(t, u)
    ensures Kept(s, u)
  {
  }

  lemma StepStable(cfg: Config, s: State, a: Action)
    requires Core(s) && Enabled(cfg, s, a)
    ensures Kept(s, Apply(cfg, s, a))
  {
  }

  /** Task lifetime: once the call has returned, and both threads had been created, the
      runner is dead, the finalizer is gone, and no later step of any thread touches the
      record that was on the caller's stack. */
  lemma NoTouchAfterReturn(cfg: Config, ss: seq<State>, aa: seq<Action>, i: nat, j: nat)
    requires IsRun(cfg, ss, aa) && i <= j < |aa|
    requires ss[i].c.Left? && RunnerExists(ss[i])
    ensures Quiet(ss[j]) && !TouchesTask(ss[j], aa[j])
  {
    RunInv(cfg, ss, aa, j);
    Stable(cfg, ss, aa, i, j);
    LeftMeansQuiet(cfg, ss[j]);
  }

  /** No continuation of the schedule aa touches the task record after the call has returned. */
  ghost predicate SafeForever(cfg: Config, aa: seq<Action>) {
    forall ss': seq<State>, aa': seq<Action>, j: nat ::
      IsRun(cfg, ss', aa') && aa <= aa' && |aa| <= j < |aa'| && ss'[j].c.Left? ==> !TouchesTask(ss'[j], aa'[j])
  }

  lemma {:induction false} SameScheduleSameStates(
    cfg: Config, ss: seq<State>, aa: seq<Action>, ss': seq<State>, aa': seq<Action>, i: nat)
    requires IsRun(cfg, ss, aa) && IsRun(cfg, ss', aa') && aa <= aa' && i <= |aa|
    ensures ss[i] == ss'[i]
  {
    if i > 0 {
      SameScheduleSameStates(cfg, ss, aa, ss', aa', i - 1);
      assert aa[i - 1] == aa'[i - 1];
    }
  }

  lemma Extend(cfg: Config, ss: seq<State>, aa: seq<Action>, a: Action)
    requires IsRun(cfg, ss, aa) && Enabled(cfg, ss[|aa|], a)
    ensures IsRun(cfg, ss + [Apply(cfg, ss[|aa|], a)], aa + [a])
  {
  }

  predicate Aborting(s: State) {
    && !RunnerExists(s) && s.f.DownStart?
    && (s.c.SetShouldNotRun? || (s.task.shouldNotRun && (s.c.UpToAbort? || s.c.PutFiles? || s.c.Left?)))
  }

  /** From the failed creation the caller may run to its return while the finalizer is
      still about to take its first semaphore. */
  lemma {:induction false} AbortOvertakesFinalizer(cfg: Config, ss: seq<State>, aa: seq<Action>)
    returns (ss': seq<State>, aa': seq<Action>)
    requires IsRun(cfg, ss, aa)
    requires Aborting(ss[|aa|])
    ensures IsRun(cfg, ss', aa') && aa <= aa'
    ensures var s := ss'[|aa'|]; s.c.Left? && s.f.DownStart? && s.task.finalizerStart.value > 0
    decreases CallerRank(ss[|aa|].c)
  {
    RunInv(cfg, ss, aa, |aa|);
    var s := ss[|aa|];
    if s.c.Left? {
      ss', aa' := ss, aa;
    } else {
      Extend(cfg, ss, aa, Caller(true));
      ss', aa' := AbortOvertakesFinalizer(cfg, ss + [Apply(cfg, s, Caller(true))], aa + [Caller(true)]);
    }
  }

  lemma NoTouchOnceCreated(cfg: Config, ss: seq<State>, aa: seq<Action>, i: nat, j: nat)
    requires IsRun(cfg, ss, aa) && i <= j < |aa| && RunnerExists(ss[i]) && ss[j].c.Left?
    ensures !TouchesTask(ss[j], aa[j])
  {
    Stable(cfg, ss, aa, i, j);
    NoTouchAfterReturn(cfg, ss, aa, j, j);
  }

  lemma FailedCreationIsUnsafe(cfg: Config, ss: seq<State>, aa: seq<Action>)
    requires IsRun(cfg, ss, aa) && Aborting(ss[|aa|])
    ensures !SafeForever(cfg, aa)
  {
    var ss', aa' := AbortOvertakesFinalizer(cfg, ss, aa);
    Extend(cfg, ss', aa', Finalizer);
    var ss2, aa2 := ss' + [Apply(cfg, ss'[|aa'|], Finalizer)], aa' + [Finalizer];
    assert TouchesTask(ss2[|aa'|], aa2[|aa'|]);
    hide IsRun, Apply, TouchesTask;
    assert IsRun(cfg, ss2, aa2) && aa <= aa2 && ss2[|aa'|].c.Left?;
  }

  lemma CreationDecides(cfg: Config, s: State, ok: bool)
    requires Inv(cfg, s) && s.c.SpawnRunner? && Enabled(cfg, s, Caller(ok))
    ensures var t := Apply(cfg, s, Caller(ok)); if ok then RunnerExists(t) else Aborting(t)
  {
  }

  /** The exact condition for task lifetime, decided the moment `kthread_create` returns:
      every continuation is free of late accesses if and only if the runner was created. */
  lemma SafeIffRunnerCreated(cfg: Config, ss: seq<State>, aa: seq<Action>)
    requires IsRun(cfg, ss, aa) && |aa| > 0
    requires ss[|aa| - 1].c.SpawnRunner? && aa[|aa| - 1].Caller?
    ensures aa[|aa| - 1].ok <==> SafeForever(cfg, aa)
  {
    var n := |aa| - 1;
    RunInv(cfg, ss, aa, n);
    CreationDecides(cfg, ss[n], aa[n].ok);
    hide Inv, Apply, Enabled, TouchesTask, Aborting;
    if aa[n].ok {
      forall ss': seq<State>, aa': seq<Action>, j: nat
        | IsRun(cfg, ss', aa') && aa <= aa' && |aa| <= j < |aa'| && ss'[j].c.Left?
        ensures !TouchesTask(ss'[j], aa'[j])
      {
        SameScheduleSameStates(cfg, ss, aa, ss', aa', |aa|);
        NoTouchOnceCreated(cfg, ss', aa', |aa|, j);
      }
    } else {
      FailedCreationIsUnsafe(cfg, ss, aa);
    }
  }

  /** A run that returns before the creation point never had a thread to touch the task record. */
  lemma EarlyReturnIsSafe(cfg: Config, ss: seq<State>, aa: seq<Action>, j: nat)
    requires IsRun(cfg, ss, aa) && j < |aa|
    requires ss[j].c.Left? && !RunnerExists(ss[j]) && !ss[j].task.shouldNotRun
    ensures !TouchesTask(ss[j], aa[j])
  {
    RunInv(cfg, ss, aa, j);
  }

  /** The finalizer stops only a runner that is known, referenced and past its first
      semaphore, so the stop bit never pre-empts the thread function; the caller's kill
      also goes to a referenced thread. */
  lemma StopIsTimely(cfg: Config, ss: seq<State>, aa: seq<Action>, i: nat)
    requires IsRun(cfg, ss, aa) && i < |ss|
    ensures ss[i].f.Stop? || ss[i].f.AwaitExit? ==>
      ss[i].task.runnerTs && PastExecUp(ss[i].r) && ss[i].thread.refs == 1
    ensures ss[i].r.Woken? ==> !ss[i].thread.stopRequested
    ensures ss[i].c.Kill? ==> ss[i].thread.refs == 1
  {
    RunInv(cfg, ss, aa, i);
    if ss[i].f.Stop? {
      StopAfterStart(ss[i]);
    }
    hide Enabled, Apply;
  }

  lemma StopAfterStart(s: State)
    requires Core(s) && s.f.Stop?
    ensures RunnerExists(s) && PastFinalizerUp(s.c) && PastExecUp(s.r)
  {
    assert s.task.finalizerStart.ups == 1;
    assert s.task.execStart.ups == 1;
  }

  /** The caller reads `finalize_ret` and `ret` only when they hold the runner's own
      outcome, and no later step changes either. */
  lemma CallerReadsFinalValues(cfg: Config, ss: seq<State>, aa: seq<Action>, i: nat, j: nat)
    requires IsRun(cfg, ss, aa) && i <= j < |ss|
    requires ss[i].c.ReadFinalizeRet? || ss[i].c.ReadRet?
    ensures ss[i].task.finalizeRet == ExitCode(ss[i].outcome) && ss[i].task.ret == ReturnValue(ss[i].outcome)
    ensures ss[j].task.finalizeRet == ss[i].task.finalizeRet && ss[j].task.ret == ss[i].task.ret
    ensures ss[j].outcome == ss[i].outcome
  {
    RunInv(cfg, ss, aa, i);
    LeftMeansQuiet(cfg, ss[i]);
    Stable(cfg, ss, aa, i, j);
  }

  /** What the user is told, as a function of how the guest ended: success with the
      returned value, success with 0 when the guest exited with status 0 or was never
      entered, and failure with 0 for any other exit. */
  lemma ResultIsTheOutcome(cfg: Config, ss: seq<State>, aa: seq<Action>, i: nat)
    requires IsRun(cfg, ss, aa) && i < |ss| && ss[i].c.Left? && RunnerExists(ss[i])
    ensures ss[i].result == match ss[i].outcome
      case NotCalled => Result(true, 0)
      case Returned(v) => Result(true, v)
      case Exited(status) => Result(status == 0, 0)
      case Killed(_) => Result(false, 0)
  {
    RunInv(cfg, ss, aa, i);
    LeftMeansQuiet(cfg, ss[i]);
  }

  lemma SemaphoresAreBinary(cfg: Config, ss: seq<State>, aa: seq<Action>, i: nat)
    requires IsRun(cfg, ss, aa) && i < |ss|
    ensures ss[i].task.execStart.value <= ss[i].task.execStart.ups <= 1
    ensures ss[i].task.finalizerStart.value <= ss[i].task.finalizerStart.ups <= 1
    ensures ss[i].task.finalizerEnd.value <= ss[i].task.finalizerEnd.ups <= 1
  {
    RunInv(cfg, ss, aa, i);
  }

  // ---------------------------------------------------------------- progress

  predicate Finished(s: State) { s.c.Left? && (s.r.Absent? || s.r.Dead?) && (s.f.Unborn? || s.f.Gone?) }

  predicate Advances(a: Action) { !a.Signal? && !a.GuestStep? }

  /** A step that is enabled in every unfinished state the protocol can reach. */
  function NextMove(cfg: Config, s: State): Action {
    if !s.c.Left? && !s.c.DownExecStart? && !s.c.WaitEnd? then Caller(true)
    else if s.r.InGuest? then GuestEnd(Exited(0))
    else if RunnerExists(s) && !s.r.Created? && !s.r.Dead? then Runner(!s.r.CheckParams? || cfg.paramCount == 0)
    else if s.f.Unborn? || s.f.Gone? || (s.f.DownStart? && s.task.finalizerStart.value == 0) then Caller(true)
    else Finalizer
  }

  /** Deadlock freedom, in every run including the error branches: some advancing step is
      enabled exactly until all three threads are done. */
  lemma NoDeadlock(cfg: Config, ss: seq<State>, aa: seq<Action>, i: nat)
    requires IsRun(cfg, ss, aa) && i < |ss|
    ensures Finished(ss[i]) <==> forall a :: Enabled(cfg, ss[i], a) ==> !Advances(a)
  {
    RunInv(cfg, ss, aa, i);
    if !Finished(ss[i]) {
      NextMoveEnabled(cfg, ss[i]);
      assert Advances(NextMove(cfg, ss[i]));
    }
  }

  lemma NextMoveEnabled(cfg: Config, s: State)
    requires Inv(cfg, s) && !Finished(s)
    ensures Enabled(cfg, s, NextMove(cfg, s))
  {
  }

  function CallerRank(c: CallerPc): nat {
    match c
    case Enter => 16 case GetFile(i) => if i < 2 then 15 - i else 13 case InitSemaphores => 12
    case SpawnFinalizer => 11 case SpawnRunner => 10
    case SetShouldNotRun => 6 case UpToAbort => 5 case PutFiles(left) => left + 1
    case SetRunnerTs => 9 case Wake => 8 case DownExecStart => 7 case UpFinalizerStart => 6
    case MakeNx => 8 case MarkNx => 7 case Kill => 6 case WaitEnd => 5
    case ReadFinalizeRet => 4 case ReadRet => 3 case PutRunner => 2 case RestoreX => 1 case Left => 0
  }
  function RunnerRank(r: RunnerPc): nat {
    match r
    case Absent => 14 case Created => 14 case Woken => 13 case UpExecStart => 12 case Unshare => 11
    case GetFd(i) => if i < 3 then 10 - 2 * i else 6 case Install(i) => if i < 3 then 9 - 2 * i else 5
    case PutBack(next, stop) => if next <= stop then 2 + stop - next else 2
    case CheckParams => 4 case InGuest => 3 case StoreRet(_) => 2 case Finish => 1 case Dead(_) => 0
  }
  function FinalizerRank(f: FinalizerPc): nat {
    match f
    case Unborn => 6 case DownStart => 6 case CheckShouldRun => 5 case Stop => 4 case AwaitExit => 3
    case StoreCode(_) => 2 case UpEnd => 1 case Gone => 0
  }
  function Rank(s: State): nat { CallerRank(s.c) + RunnerRank(s.r) + FinalizerRank(s.f) }

  /** What a step may add to the rank: a guest step nothing, an interruption three (the
      three statements of the retry), and every other step takes at least one away. */
  function Allowance(a: Action): int { if a.Signal? then 3 else if a.GuestStep? then 0 else -1 }

  lemma StepLowersRank(cfg: Config, s: State, a: Action)
    requires Core(s) && Enabled(cfg, s, a)
    ensures Rank(Apply(cfg, s, a)) <= Rank(s) + Allowance(a)
  {
    match a
    case Caller(ok) =>
      if InSetup(s.c) {
        SetupLowersRank(cfg, s, ok);
      } else {
        MainLowersRank(cfg, s);
      }
      hide Enabled, Apply, CallerRank, RunnerRank, FinalizerRank;
    case Runner(ok) => RunnerLowersRank(cfg, s, ok);
    case _ =>
  }

  lemma SetupLowersRank(cfg: Config, s: State, ok: bool)
    requires Core(s) && InSetup(s.c) && Enabled(cfg, s, Caller(ok))
    ensures Rank(CallerSetup(cfg, s, ok)) < Rank(s)
  {
    assert s.r.Absent? && (BeforeThreads(s.c) ==> s.f.Unborn?);
    hide Core;
  }

  lemma MainLowersRank(cfg: Config, s: State)
    requires !InSetup(s.c) && Enabled(cfg, s, Caller(true))
    ensures Rank(CallerMain(cfg, s)) < Rank(s)
  {
  }

  lemma RunnerLowersRank(cfg: Config, s: State, ok: bool)
    requires RunnerShape(s) && Enabled(cfg, s, Runner(ok))
    ensures Rank(RunnerStep(cfg, s, ok)) < Rank(s)
  {
  }

  function Budget(aa: seq<Action>): nat {
    if aa == [] then 0
    else Budget(aa[..|aa| - 1]) + (var a := aa[|aa| - 1]; if a.Signal? then 4 else if a.GuestStep? then 1 else 0)
  }

  /** Termination of every schedule: a run has at most 36 steps, plus one for each guest
      step, plus four for each signal. With NoDeadlock, every run that cannot go on has
      finished. */
  lemma {:induction false} RunIsBounded(cfg: Config, ss: seq<State>, aa: seq<Action>)
    requires IsRun(cfg, ss, aa)
    ensures |aa| + Rank(ss[|aa|]) <= 36 + Budget(aa)
  {
    if aa != [] {
      var n := |aa| - 1;
      assert IsRun(cfg, ss[..n + 1], aa[..n]);
      RunIsBounded(cfg, ss[..n + 1], aa[..n]);
      RunInv(cfg, ss, aa, n);
      StepLowersRank(cfg, ss[n], aa[n]);
    }
  }

  // ---------------------------------------------------------------- resources

  /** No reference to a standard file is dropped twice, and when the call has returned and
      the runner is gone each one taken has been consumed exactly once. */
  lemma FilesConsumedOnce(cfg: Config, ss: seq<State>, aa: seq<Action>, i: nat, n: nat)
    requires IsRun(cfg, ss, aa) && i < |ss| && n < 3
    ensures var x := ss[i].files.At(n); x.put + x.installed <= x.taken <= 1
    ensures ss[i].c.Left? ==> var x := ss[i].files.At(n); x.put + x.installed == x.taken
    ensures ss[i].c.Left? && RunnerExists(ss[i]) ==> ss[i].files.At(n).taken == 1
  {
    RunInv(cfg, ss, aa, i);
    assert FileOk(ss[i], n);
    if ss[i].c.Left? && RunnerExists(ss[i]) {
      LeftMeansQuiet(cfg, ss[i]);
    }
  }

  /** Whatever signals arrived, when the call has returned exactly the pages that were not
      executable before are not executable; during the call only code pages differ. */
  lemma CodeExecutableAfterRun(cfg: Config, ss: seq<State>, aa: seq<Action>, i: nat)
    requires IsRun(cfg, ss, aa) && i < |ss|
    ensures ss[i].c.Left? ==> ss[i].nx == cfg.nx0
    ensures ss[i].nx == cfg.nx0 || ss[i].nx == cfg.nx0 + CodePages(cfg.code, cfg.codeLen)
    ensures ss[i].c.Kill? ==> CodePages(cfg.code, cfg.codeLen) <= ss[i].nx
  {
    RunInv(cfg, ss, aa, i);
  }
}
