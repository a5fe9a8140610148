/** The run protocol of uapi.c: the caller (`handle_wasm_run_code`), the runner kthread
    (`code_runner`, `code_runner_inner`) and the finalizer kthread (`task_finalizer`)
    share a task record on the caller's stack and hand off through three semaphores.
    Every statement that touches shared state is one atomic step; a run is any
    interleaving of such steps, with signals arriving any number of times. */
module RunProtocol {
  import opened VmLayout

  /** What does not change during one call: the request's parameter count, the code
      buffer, and the pages that were not executable before the call. */
  datatype Config = Config(paramCount: nat, code: nat, codeLen: U32Word, nx0: set<nat>) {
    ghost predicate Valid() { nx0 !! CodePages(code, codeLen) }
  }

  /** How the guest's part ended. NotCalled: the runner finished without entering it. */
  datatype Outcome = NotCalled | Returned(value: nat) | Exited(status: int) | Killed(signal: int)

  datatype CallerPc =
    | Enter | GetFile(i: nat) | InitSemaphores | SpawnFinalizer | SpawnRunner
    | SetShouldNotRun | UpToAbort | PutFiles(left: nat)
    | SetRunnerTs | Wake | DownExecStart | UpFinalizerStart | WaitEnd
    | MakeNx | MarkNx | Kill | ReadFinalizeRet | ReadRet | PutRunner | RestoreX | Left

  datatype RunnerPc =
    | Absent | Created | Woken | UpExecStart | Unshare | GetFd(i: nat) | Install(i: nat)
    | PutBack(next: nat, stop: nat) | CheckParams | InGuest | StoreRet(value: nat)
    | Finish | Dead(code: int)

  datatype FinalizerPc = Unborn | DownStart | CheckShouldRun | Stop | AwaitExit | StoreCode(code: int) | UpEnd | Gone

  /** One standard file: references taken, dropped by fput, given to the runner's table. */
  datatype FileRef = FileRef(taken: nat, put: nat, installed: nat) {
    function Take(): FileRef { this.(taken := taken + 1) }
    function Put(): FileRef { this.(put := put + 1) }
    function Install(): FileRef { this.(installed := installed + 1) }
  }

  /** stdin, stdout and stderr, addressed by file number. */
  datatype Files = Files(stdin: FileRef, stdout: FileRef, stderr: FileRef) {
    function At(i: nat): FileRef { if i == 0 then stdin else if i == 1 then stdout else stderr }
    function With(i: nat, x: FileRef): Files {
      if i == 0 then this.(stdin := x) else if i == 1 then this.(stdout := x) else this.(stderr := x)
    }
  }

  datatype Sem = Sem(value: nat, ups: nat) {
    function Up(): Sem { Sem(value + 1, ups + 1) }
    function Down(): Sem requires value > 0 { Sem(value - 1, ups) }
  }

  /** `struct code_runner_task`, on the caller's stack (its file fields are in State.files). */
  datatype Task = Task(
    execStart: Sem, finalizerStart: Sem, finalizerEnd: Sem,
    runnerTs: bool, shouldNotRun: bool, ret: nat, finalizeRet: int)

  /** The runner's task_struct: stop bit, and references that keep it valid. */
  datatype Thread = Thread(stopRequested: bool, refs: nat)

  datatype Result = Result(success: bool, retval: nat)

  datatype State = State(
    c: CallerPc, r: RunnerPc, f: FinalizerPc,
    task: Task, thread: Thread, files: Files,
    madeNx: bool, nx: set<nat>,
    outcome: Outcome, result: Result)

  datatype Action =
    | Caller(ok: bool) | Signal | Runner(ok: bool) | GuestStep | GuestEnd(outcome: Outcome) | Finalizer

  const EINTR: int := 4
  const NoSem := Sem(0, 0)

  function Init(cfg: Config): State {
    State(Enter, Absent, Unborn, Task(NoSem, NoSem, NoSem, false, false, 0, 0), Thread(false, 0),
          Files(FileRef(0, 0, 0), FileRef(0, 0, 0), FileRef(0, 0, 0)),
          false, cfg.nx0, NotCalled, Result(false, 0))
  }

  predicate CallerMayFail(c: CallerPc) {
    c.Enter? || c.GetFile? || c.SpawnFinalizer? || c.SpawnRunner?
  }

  predicate RunnerMayFail(r: RunnerPc) { r.Unshare? || r.GetFd? }

  predicate Enabled(cfg: Config, s: State, a: Action) {
    match a
    case Caller(ok) =>
      && (ok || CallerMayFail(s.c))
      && !s.c.Left?
      && (s.c.DownExecStart? ==> s.task.execStart.value > 0)
      && (s.c.WaitEnd? ==> s.task.finalizerEnd.value > 0)
      && (s.c.GetFile? ==> s.c.i < 3) && (s.c.PutFiles? ==> s.c.left <= 3)
    case Signal => s.c.WaitEnd? && s.task.finalizerEnd.value == 0  // an available count is taken first
    case Runner(ok) =>
      && (ok || RunnerMayFail(s.r) || (s.r.CheckParams? && cfg.paramCount != 0))
      && (s.r.CheckParams? && ok ==> cfg.paramCount == 0)
      && !s.r.Absent? && !s.r.Created? && !s.r.InGuest? && !s.r.Dead?
      && (s.r.GetFd? ==> s.r.i < 3) && (s.r.Install? ==> s.r.i < 3)
      && (s.r.PutBack? ==> s.r.next < s.r.stop <= 3 || s.r.next == s.r.stop)
    case GuestStep => s.r.InGuest?
    case GuestEnd(o) => s.r.InGuest? && !o.NotCalled? && (o.Killed? ==> o.signal != 0)
    case Finalizer =>
      && !s.f.Unborn? && !s.f.Gone?
      && (s.f.DownStart? ==> s.task.finalizerStart.value > 0)
      && (s.f.AwaitExit? ==> s.r.Dead?)
  }

  /** Up to the creation of both threads, and the error exits on the way. */
  function CallerSetup(cfg: Config, s: State, ok: bool): State
    requires InSetup(s.c) && Enabled(cfg, s, Caller(ok))
  {
    match s.c
    case Enter => s.(c := if ok then GetFile(0) else Left)
    case GetFile(i) =>
      if ok then
        s.(files := s.files.With(i, s.files.At(i).Take()),
           c := if i == 2 then InitSemaphores else GetFile(i + 1))
      else s.(c := PutFiles(i))
    case InitSemaphores => s.(task := s.task.(execStart := NoSem, finalizerStart := NoSem, finalizerEnd := NoSem), c := SpawnFinalizer)
    case SpawnFinalizer => if ok then s.(f := DownStart, c := SpawnRunner) else s.(c := PutFiles(3))
    case SpawnRunner => if ok then s.(r := Created, thread := Thread(false, 1), c := SetRunnerTs) else s.(c := SetShouldNotRun)
    case SetShouldNotRun => s.(task := s.task.(shouldNotRun := true), c := UpToAbort)
    case UpToAbort => s.(task := s.task.(finalizerStart := s.task.finalizerStart.Up()), c := PutFiles(3))
    case PutFiles(left) => if left == 0 then s.(c := Left)
      else s.(files := s.files.With(left - 1, s.files.At(left - 1).Put()), c := PutFiles(left - 1))
  }

  /** From the creation of both threads to the return of the call. */
  function CallerMain(cfg: Config, s: State): State
    requires !InSetup(s.c) && Enabled(cfg, s, Caller(true))
  {
    match s.c
    case SetRunnerTs => s.(task := s.task.(runnerTs := true), c := Wake)
    case Wake => s.(r := if s.r.Created? then Woken else s.r, c := DownExecStart)
    case DownExecStart => s.(task := s.task.(execStart := s.task.execStart.Down()), c := UpFinalizerStart)
    case UpFinalizerStart => s.(task := s.task.(finalizerStart := s.task.finalizerStart.Up()), c := WaitEnd)
    case WaitEnd => s.(task := s.task.(finalizerEnd := s.task.finalizerEnd.Down()), c := ReadFinalizeRet)
    case MakeNx => s.(nx := s.nx + CodePages(cfg.code, cfg.codeLen), c := MarkNx)
    case MarkNx => s.(madeNx := true, c := Kill)
    case Kill => s.(c := WaitEnd)
    case ReadFinalizeRet =>
      if s.task.finalizeRet != 0 then s.(result := Result(false, 0), c := PutRunner) else s.(c := ReadRet)
    case ReadRet => s.(result := Result(true, s.task.ret), c := PutRunner)
    case PutRunner => s.(thread := s.thread.(refs := if s.thread.refs > 0 then s.thread.refs - 1 else 0), c := RestoreX)
    case RestoreX => s.(nx := if s.madeNx then s.nx - CodePages(cfg.code, cfg.codeLen) else s.nx, c := Left)
  }

  function RunnerStep(cfg: Config, s: State, ok: bool): State
    requires Enabled(cfg, s, Runner(ok))
  {
    match s.r
    case Woken => s.(r := if s.thread.stopRequested then Dead(-EINTR) else UpExecStart)  // kthread() tests the stop bit first
    case UpExecStart => s.(task := s.task.(execStart := s.task.execStart.Up()), r := Unshare)
    case Unshare => s.(r := if ok then GetFd(0) else PutBack(0, 3))
    case GetFd(i) => s.(r := if ok then Install(i) else PutBack(0, 3 - i))
    case Install(i) =>
      s.(files := s.files.With(i, s.files.At(i).Install()),
         r := if i == 2 then CheckParams else GetFd(i + 1))
    case PutBack(next, stop) =>
      if next == stop then s.(r := Finish)
      else s.(files := s.files.With(2 - next, s.files.At(2 - next).Put()), r := PutBack(next + 1, stop))
    case CheckParams => s.(r := if ok then InGuest else Finish)
    case StoreRet(v) => s.(task := s.task.(ret := v), r := Finish)
    case Finish => s.(r := Dead(0))
  }

  function FinalizerStep(cfg: Config, s: State): State
    requires Enabled(cfg, s, Finalizer)
  {
    match s.f
    case DownStart => s.(task := s.task.(finalizerStart := s.task.finalizerStart.Down()), f := CheckShouldRun)
    case CheckShouldRun => s.(f := if s.task.shouldNotRun then Gone else Stop)
    case Stop => s.(thread := s.thread.(stopRequested := true), f := AwaitExit)
    case AwaitExit => s.(f := StoreCode(s.r.code))
    case StoreCode(code) => s.(task := s.task.(finalizeRet := code), f := UpEnd)
    case UpEnd => s.(task := s.task.(finalizerEnd := s.task.finalizerEnd.Up()), f := Gone)
  }

  function Apply(cfg: Config, s: State, a: Action): State
    requires Enabled(cfg, s, a)
  {
    match a
    case Caller(ok) => if InSetup(s.c) then CallerSetup(cfg, s, ok) else CallerMain(cfg, s)
    case Signal => s.(c := MakeNx)
    case Runner(ok) => RunnerStep(cfg, s, ok)
    case GuestStep => s
    case GuestEnd(o) =>
      s.(outcome := o,
         r := match o case Returned(v) => StoreRet(v) case Exited(e) => Dead(e) case Killed(k) => Dead(k))
    case Finalizer => FinalizerStep(cfg, s)
  }

  /** A kthread's step that reads or writes the task record or the request, both of which
      live on the caller's stack. */
  predicate TouchesTask(s: State, a: Action) {
    match a
    case Runner(_) => s.r.Woken? || s.r.UpExecStart? || s.r.Install? || s.r.PutBack? || s.r.CheckParams? || s.r.StoreRet?
    case Finalizer => !s.f.AwaitExit?
    case _ => false
  }

  /** ss[0], aa[0], ss[1], aa[1], ... is an execution from the start of the call. */
  ghost predicate IsRun(cfg: Config, ss: seq<State>, aa: seq<Action>) {
    && cfg.Valid()
    && |ss| == |aa| + 1
    && ss[0] == Init(cfg)
    && forall i :: 0 <= i < |aa| ==> Enabled(cfg, ss[i], aa[i]) && ss[i + 1] == Apply(cfg, ss[i], aa[i])
  }

  // ---------------------------------------------------------------- the invariant

  /** How far the caller has come; the retry loop stays at one stage. */
  function CallerStage(c: CallerPc): nat {
    match c
    case Enter => 0 case GetFile(_) => 1 case InitSemaphores => 2 case SpawnFinalizer => 3
    case SpawnRunner => 4 case SetShouldNotRun => 5 case UpToAbort => 6 case PutFiles(_) => 7
    case SetRunnerTs => 8 case Wake => 9 case DownExecStart => 10 case UpFinalizerStart => 11
    case WaitEnd => 12 case MakeNx => 12 case MarkNx => 12 case Kill => 12
    case ReadFinalizeRet => 13 case ReadRet => 14 case PutRunner => 15 case RestoreX => 16 case Left => 17
  }
  predicate InSetup(c: CallerPc) { CallerStage(c) <= 7 }
  predicate BeforeThreads(c: CallerPc) { CallerStage(c) <= 3 }
  predicate PastExecDown(c: CallerPc) { CallerStage(c) >= 11 }
  predicate PastFinalizerUp(c: CallerPc) { CallerStage(c) >= 12 }
  predicate PastEndDown(c: CallerPc) { CallerStage(c) >= 13 }

  function RunnerStage(r: RunnerPc): nat {
    match r
    case Absent => 0 case Created => 1 case Woken => 2 case UpExecStart => 3
    case Unshare => 4 case GetFd(_) => 5 case Install(_) => 5 case PutBack(_, _) => 6
    case CheckParams => 7 case InGuest => 8 case StoreRet(_) => 9 case Finish => 10 case Dead(_) => 11
  }
  predicate PastExecUp(r: RunnerPc) { RunnerStage(r) >= 4 }

  function Bit(b: bool): nat { if b then 1 else 0 }

  /** References to standard file i used up by a runner that stands at r. */
  function Installed(r: RunnerPc, i: nat): nat {
    match r
    case GetFd(n) => Bit(i < n)
    case Install(n) => Bit(i < n)
    case PutBack(_, stop) => Bit(i + stop < 3)
    case CheckParams => 1 case InGuest => 1 case StoreRet(_) => 1
    case _ => 0
  }
  function PutByRunner(r: RunnerPc, i: nat): nat {
    match r case PutBack(next, _) => Bit(i + next >= 3) case _ => 0
  }

  predicate FileOk(s: State, i: nat) { Accounted(s.c, s.r, i, s.files.At(i)) }

  /** The references to file i are those taken and not yet used at these two positions. */
  predicate Accounted(c: CallerPc, r: RunnerPc, i: nat, x: FileRef) {
    if r.Absent? then
      match c
      case Enter => x == FileRef(0, 0, 0)
      case GetFile(n) => x == FileRef(Bit(i < n), 0, 0)
      case PutFiles(left) => if i < left then x == FileRef(1, 0, 0) else x.taken == x.put <= 1 && x.installed == 0
      case Left => x.taken == x.put <= 1 && x.installed == 0
      case _ => x == FileRef(1, 0, 0)
    else if r.Finish? || r.Dead? then x.taken == 1 == x.put + x.installed
    else x == FileRef(1, PutByRunner(r, i), Installed(r, i))
  }

  predicate RunnerShape(s: State) {
    && (s.r.GetFd? || s.r.Install? ==> s.r.i < 3)
    && (s.r.PutBack? ==> s.r.next <= s.r.stop <= 3)
    && (s.c.GetFile? ==> s.c.i < 3)
    && (s.c.PutFiles? ==> s.c.left <= 3)
  }

  /** Hand-off: each semaphore's value is its single up minus its single down. */
  predicate ExecStartOk(s: State) {
    && s.task.execStart.ups == Bit(PastExecUp(s.r))
    && s.task.execStart.value == s.task.execStart.ups - Bit(!s.r.Absent? && PastExecDown(s.c))
  }
  predicate FinalizerStartOk(s: State) {
    && s.task.finalizerStart.ups == Bit(if s.r.Absent? then s.task.shouldNotRun && !s.c.UpToAbort? else PastFinalizerUp(s.c))
    && s.task.finalizerStart.value == s.task.finalizerStart.ups - Bit(!s.f.Unborn? && !s.f.DownStart?)
  }
  predicate FinalizerEndOk(s: State) {
    && s.task.finalizerEnd.ups == Bit(s.f.Gone? && !s.task.shouldNotRun)
    && s.task.finalizerEnd.value == s.task.finalizerEnd.ups - Bit(!s.r.Absent? && PastEndDown(s.c))
  }

  predicate Lifetimes(s: State) {
    && (s.r.Absent? ==>
         && !s.task.runnerTs && !s.thread.stopRequested && s.task.ret == 0
         && (BeforeThreads(s.c) ==> s.f.Unborn?)
         && (s.c.SpawnRunner? || s.c.SetShouldNotRun? || s.c.UpToAbort? ==> s.f.DownStart?)
         && (s.f.Unborn? || s.f.DownStart? || ((s.f.CheckShouldRun? || s.f.Gone?) && s.task.shouldNotRun))
         && (s.task.shouldNotRun ==> !s.f.Unborn? && (s.c.UpToAbort? || s.c.PutFiles? || s.c.Left?))
         && (InSetup(s.c) || s.c.Left?)
         && (s.f.DownStart? ==> s.c.SpawnRunner? || s.c.SetShouldNotRun? || s.task.shouldNotRun))
    && (!s.r.Absent? ==>
         && !s.task.shouldNotRun && !s.f.Unborn?
         && !InSetup(s.c)
         && (s.c.SetRunnerTs? || s.c.Wake? <==> s.r.Created?)
         && (s.task.runnerTs <==> !s.c.SetRunnerTs?)
         && s.thread.refs == Bit(!s.c.RestoreX? && !s.c.Left?))
    && (s.thread.stopRequested <==> s.f.AwaitExit? || s.f.StoreCode? || s.f.UpEnd? || (s.f.Gone? && !s.task.shouldNotRun))
    && (s.thread.stopRequested ==> PastExecUp(s.r))
    && (s.f.StoreCode? ==> s.r == Dead(s.f.code))
    && (s.f.UpEnd? || (s.f.Gone? && !s.task.shouldNotRun) ==> s.r == Dead(s.task.finalizeRet))
  }

  function ExitCode(o: Outcome): int {
    match o case NotCalled => 0 case Returned(_) => 0 case Exited(e) => e case Killed(k) => k
  }
  function ReturnValue(o: Outcome): nat {
    match o case Returned(v) => v case _ => 0
  }

  predicate Results(s: State) {
    && (s.outcome.NotCalled? || s.r.StoreRet? || s.r.Finish? || s.r.Dead?)
    && (s.r.StoreRet? ==> s.outcome == Returned(s.r.value) && s.task.ret == 0)
    && (s.r.Finish? ==> s.outcome.NotCalled? || s.outcome.Returned?)
    && (s.r.Finish? || s.r.Dead? ==> s.task.ret == ReturnValue(s.outcome))
    && (s.r.Dead? ==> s.r.code == ExitCode(s.outcome))
    && (!s.r.Finish? && !s.r.Dead? ==> s.task.ret == 0)
    && (s.outcome.Killed? ==> s.outcome.signal != 0)
    && (s.c.ReadRet? ==> s.task.finalizeRet == 0)
    && (!s.r.Absent? && (s.c.PutRunner? || s.c.RestoreX? || s.c.Left?) ==>
         s.result.success == (s.task.finalizeRet == 0) && s.result.retval == if s.result.success then s.task.ret else 0)
  }

  ghost predicate Permissions(cfg: Config, s: State) {
    && s.nx == (if !s.c.Left? && (s.madeNx || s.c.MarkNx?) then cfg.nx0 + CodePages(cfg.code, cfg.codeLen) else cfg.nx0)
    && (s.madeNx ==> PastFinalizerUp(s.c))
    && (s.c.Kill? ==> s.madeNx)
  }

  predicate HandOff(s: State) { RunnerShape(s) && ExecStartOk(s) && FinalizerStartOk(s) && FinalizerEndOk(s) }

  predicate Core(s: State) { HandOff(s) && Lifetimes(s) }

  ghost predicate Inv(cfg: Config, s: State) {
    && cfg.Valid() && Core(s) && Results(s) && Permissions(cfg, s)
    && FileOk(s, 0) && FileOk(s, 1) && FileOk(s, 2)
  }

  lemma CallerSetupKeepsHandOff(cfg: Config, s: State, ok: bool)
    requires Core(s) && Enabled(cfg, s, Caller(ok)) && InSetup(s.c)
    ensures HandOff(CallerSetup(cfg, s, ok))
  {
  }

  lemma CallerSetupKeepsLifetimes(cfg: Config, s: State, ok: bool)
    requires Core(s) && Enabled(cfg, s, Caller(ok)) && InSetup(s.c)
    ensures Lifetimes(CallerSetup(cfg, s, ok))
  {
  }

  lemma CallerSetupKeepsResults(cfg: Config, s: State, ok: bool)
    requires cfg.Valid() && Core(s) && Permissions(cfg, s) && Results(s) && Enabled(cfg, s, Caller(ok)) && InSetup(s.c)
    ensures var t := CallerSetup(cfg, s, ok); Permissions(cfg, t) && Results(t)
  {
  }

  lemma CallerSetupKeepsFile(cfg: Config, s: State, ok: bool, i: nat)
    requires RunnerShape(s) && s.r.Absent? && InSetup(s.c)
    requires i < 3 && FileOk(s, i) && Enabled(cfg, s, Caller(ok))
    ensures FileOk(CallerSetup(cfg, s, ok), i)
  {
    if i == 0 {
    } else if i == 1 {
    } else {
      assert i == 2;
    }
  }

  lemma CallerMainKeepsHandOff(cfg: Config, s: State)
    requires Core(s) && Enabled(cfg, s, Caller(true)) && !InSetup(s.c)
    ensures HandOff(CallerMain(cfg, s))
  {
    CallerMainKeepsShape(cfg, s);
    CallerMainKeepsSemaphores(cfg, s);
    hide CallerMain, Enabled, Lifetimes;
  }

  lemma CallerMainKeepsShape(cfg: Config, s: State)
    requires RunnerShape(s) && Enabled(cfg, s, Caller(true)) && !InSetup(s.c)
    ensures RunnerShape(CallerMain(cfg, s))
  {
  }

  lemma CallerMainKeepsSemaphores(cfg: Config, s: State)
    requires Core(s) && Enabled(cfg, s, Caller(true)) && !InSetup(s.c)
    ensures var t := CallerMain(cfg, s); ExecStartOk(t) && FinalizerStartOk(t) && FinalizerEndOk(t)
  {
  }

  lemma CallerMainKeepsLifetimes(cfg: Config, s: State)
    requires Core(s) && Enabled(cfg, s, Caller(true)) && !InSetup(s.c)
    ensures Lifetimes(CallerMain(cfg, s))
  {
  }

  lemma CallerMainKeepsResults(cfg: Config, s: State)
    requires cfg.Valid() && Core(s) && Permissions(cfg, s) && Results(s) && Enabled(cfg, s, Caller(true)) && !InSetup(s.c)
    ensures var t := CallerMain(cfg, s); Permissions(cfg, t) && Results(t)
  {
  }

  lemma CallerMainKeepsFile(cfg: Config, s: State, i: nat)
    requires !s.r.Absent? && !InSetup(s.c) && FileOk(s, i) && Enabled(cfg, s, Caller(true))
    ensures FileOk(CallerMain(cfg, s), i)
  {
    var t := CallerMain(cfg, s);
    assert t.files == s.files && (t.r == s.r || (s.r.Created? && t.r.Woken?));
    hide CallerMain, Enabled;
  }

  lemma RunnerKeepsHandOff(cfg: Config, s: State, ok: bool)
    requires Core(s) && Enabled(cfg, s, Runner(ok))
    ensures HandOff(RunnerStep(cfg, s, ok))
  {
    RunnerKeepsShape(cfg, s, ok);
    RunnerKeepsSemaphores(cfg, s, ok);
    hide RunnerStep, Enabled, Lifetimes;
  }

  lemma RunnerKeepsShape(cfg: Config, s: State, ok: bool)
    requires RunnerShape(s) && Enabled(cfg, s, Runner(ok))
    ensures RunnerShape(RunnerStep(cfg, s, ok))
  {
  }

  lemma RunnerKeepsSemaphores(cfg: Config, s: State, ok: bool)
    requires Core(s) && Enabled(cfg, s, Runner(ok))
    ensures var t := RunnerStep(cfg, s, ok); ExecStartOk(t) && FinalizerStartOk(t) && FinalizerEndOk(t)
  {
  }

  lemma RunnerKeepsLifetimes(cfg: Config, s: State, ok: bool)
    requires Core(s) && Enabled(cfg, s, Runner(ok))
    ensures Lifetimes(RunnerStep(cfg, s, ok))
  {
  }

  lemma RunnerKeepsResults(cfg: Config, s: State, ok: bool)
    requires cfg.Valid() && Core(s) && Permissions(cfg, s) && Results(s) && Enabled(cfg, s, Runner(ok))
    ensures var t := RunnerStep(cfg, s, ok); Permissions(cfg, t) && Results(t)
  {
  }

  lemma RunnerInstallKeepsFile(cfg: Config, s: State, ok: bool, i: nat)
    requires RunnerShape(s) && i < 3 && FileOk(s, i) && Enabled(cfg, s, Runner(ok))
    requires s.r.GetFd? || s.r.Install?
    ensures FileOk(RunnerStep(cfg, s, ok), i)
  {
    if i == 0 {
    } else if i == 1 {
    } else {
      assert i == 2;
    }
  }

  lemma RunnerPutKeepsFile(cfg: Config, s: State, ok: bool, i: nat)
    requires RunnerShape(s) && i < 3 && FileOk(s, i) && Enabled(cfg, s, Runner(ok)) && s.r.PutBack?
    ensures FileOk(RunnerStep(cfg, s, ok), i)
  {
    if i == 0 {
    } else if i == 1 {
    } else {
      assert i == 2;
    }
  }

  lemma RunnerKeepsFile(cfg: Config, s: State, ok: bool, i: nat)
    requires RunnerShape(s) && i < 3 && FileOk(s, i) && Enabled(cfg, s, Runner(ok))
    requires s.r.Woken? ==> !s.thread.stopRequested
    ensures FileOk(RunnerStep(cfg, s, ok), i)
  {
    if s.r.PutBack? {
      RunnerPutKeepsFile(cfg, s, ok, i);
    } else if s.r.GetFd? || s.r.Install? {
      RunnerInstallKeepsFile(cfg, s, ok, i);
    }
  }

  lemma FinalizerKeepsCore(cfg: Config, s: State)
    requires Core(s) && Enabled(cfg, s, Finalizer)
    ensures Core(FinalizerStep(cfg, s))
  {
  }

  lemma FinalizerKeepsResults(cfg: Config, s: State)
    requires cfg.Valid() && Core(s) && Permissions(cfg, s) && Results(s) && Enabled(cfg, s, Finalizer)
    ensures Permissions(cfg, FinalizerStep(cfg, s)) && Results(FinalizerStep(cfg, s))
  {
  }

  lemma FinalizerKeepsFiles(cfg: Config, s: State)
    requires Enabled(cfg, s, Finalizer)
    ensures forall i :: FileOk(s, i) <==> FileOk(FinalizerStep(cfg, s), i)
  {
    hide Accounted;
  }

  lemma FinalizerKeepsInv(cfg: Config, s: State)
    requires Inv(cfg, s) && Enabled(cfg, s, Finalizer)
    ensures Inv(cfg, FinalizerStep(cfg, s))
  {
    FinalizerKeepsCore(cfg, s);
    FinalizerKeepsResults(cfg, s);
    FinalizerKeepsFiles(cfg, s);
    hide Core, Results, Permissions, FinalizerStep, FileOk;
  }

  lemma GuestKeepsCore(cfg: Config, s: State, a: Action)
    requires Core(s) && Enabled(cfg, s, a) && (a.GuestEnd? || a.GuestStep? || a.Signal?)
    ensures Core(Apply(cfg, s, a))
  {
  }

  lemma GuestKeepsRest(cfg: Config, s: State, a: Action)
    requires Core(s) && Results(s) && Permissions(cfg, s)
    requires Enabled(cfg, s, a) && (a.GuestEnd? || a.GuestStep? || a.Signal?)
    ensures Results(Apply(cfg, s, a)) && Permissions(cfg, Apply(cfg, s, a))
    ensures forall i :: i < 3 && FileOk(s, i) ==> FileOk(Apply(cfg, s, a), i)
  {
  }

  lemma GuestKeepsInv(cfg: Config, s: State, a: Action)
    requires Inv(cfg, s) && Enabled(cfg, s, a) && (a.GuestEnd? || a.GuestStep? || a.Signal?)
    ensures Inv(cfg, Apply(cfg, s, a))
  {
    GuestKeepsCore(cfg, s, a);
    GuestKeepsRest(cfg, s, a);
    hide Core, Results, Permissions, FileOk, Enabled, Apply;
  }

  lemma CallerKeepsInv(cfg: Config, s: State, ok: bool)
    requires Inv(cfg, s) && Enabled(cfg, s, Caller(ok))
    ensures Inv(cfg, Apply(cfg, s, Caller(ok)))
  {
    assert RunnerShape(s) && (InSetup(s.c) <==> s.r.Absent?);
    hide HandOff, Lifetimes, Results, Permissions, FileOk, CallerSetup, CallerMain, RunnerShape;
    if InSetup(s.c) {
      CallerSetupKeepsHandOff(cfg, s, ok);
      CallerSetupKeepsLifetimes(cfg, s, ok);
      CallerSetupKeepsResults(cfg, s, ok);
      CallerSetupKeepsFile(cfg, s, ok, 0);
      CallerSetupKeepsFile(cfg, s, ok, 1);
      CallerSetupKeepsFile(cfg, s, ok, 2);
    } else {
      CallerMainKeepsHandOff(cfg, s);
      CallerMainKeepsLifetimes(cfg, s);
      CallerMainKeepsResults(cfg, s);
      CallerMainKeepsFile(cfg, s, 0);
      CallerMainKeepsFile(cfg, s, 1);
      CallerMainKeepsFile(cfg, s, 2);
    }
  }

  lemma WokenNotStopped(s: State)
    requires Core(s)
    ensures RunnerShape(s) && (s.r.Woken? ==> !s.thread.stopRequested)
  {
  }

  lemma RunnerKeepsInv(cfg: Config, s: State, ok: bool)
    requires Inv(cfg, s) && Enabled(cfg, s, Runner(ok))
    ensures Inv(cfg, Apply(cfg, s, Runner(ok)))
  {
    hide HandOff, Lifetimes, Results, Permissions, FileOk, RunnerStep, RunnerShape, Enabled;
    WokenNotStopped(s);
    RunnerKeepsHandOff(cfg, s, ok);
    RunnerKeepsLifetimes(cfg, s, ok);
    RunnerKeepsResults(cfg, s, ok);
    RunnerKeepsFile(cfg, s, ok, 0);
    RunnerKeepsFile(cfg, s, ok, 1);
    RunnerKeepsFile(cfg, s, ok, 2);
  }

  lemma StepKeepsInv(cfg: Config, s: State, a: Action)
    requires Inv(cfg, s) && Enabled(cfg, s, a)
    ensures Inv(cfg, Apply(cfg, s, a))
  {
    hide Inv, Enabled;
    match a
    case Caller(ok) => CallerKeepsInv(cfg, s, ok);
    case Runner(ok) => RunnerKeepsInv(cfg, s, ok);
    case Finalizer => FinalizerKeepsInv(cfg, s);
    case _ => GuestKeepsInv(cfg, s, a);
  }
}
