/** Complete runs of the protocol, as one session request executes them. A plan says which
    thread moves next and what the guest does; a move that is not possible where it stands
    is passed over, and when the plan is used up the threads go on until all are done. So
    every plan gives a complete run, and every complete run has a plan. */
module RunPlan {
  import opened VmLayout
  import opened Kernel
  import opened RunProtocol
  import opened RunTheorems

  /** A step of the protocol, or a guest step that grows or stores to linear memory. */
  datatype Move = Sched(a: Action) | GuestGrow(pages: U32Word) | GuestStore(offset: U32Word, data: seq<Byte>)

  function ActionOf(m: Move): Action { if m.Sched? then m.a else GuestStep }

  predicate Possible(cfg: Config, s: State, m: Move) { Enabled(cfg, s, ActionOf(m)) }

  function Advance(cfg: Config, s: State, m: Move): State {
    if Possible(cfg, s, m) then Apply(cfg, s, ActionOf(m)) else s
  }

  /** A call that has read its request and found the session ready. */
  function Start(cfg: Config): State { Apply(cfg, Init(cfg), Caller(true)) }

  function Play(cfg: Config, plan: seq<Move>): State {
    if plan == [] then Start(cfg) else Advance(cfg, Play(cfg, plan[..|plan| - 1]), plan[|plan| - 1])
  }

  ghost function Finish(cfg: Config, s: State): State
    requires Inv(cfg, s)
    decreases Rank(s)
  {
    if Finished(s) then s
    else
      OnwardStep(cfg, s);
      Finish(cfg, Apply(cfg, s, NextMove(cfg, s)))
  }

  ghost function Final(cfg: Config, plan: seq<Move>): State
    requires cfg.Valid()
  {
    PlayInv(cfg, plan);
    Finish(cfg, Play(cfg, plan))
  }

  lemma OnwardStep(cfg: Config, s: State)
    requires Inv(cfg, s) && !Finished(s)
    ensures Enabled(cfg, s, NextMove(cfg, s)) && Inv(cfg, Apply(cfg, s, NextMove(cfg, s)))
    ensures Rank(Apply(cfg, s, NextMove(cfg, s))) < Rank(s)
  {
    NextMoveEnabled(cfg, s);
    StepKeepsInv(cfg, s, NextMove(cfg, s));
    StepLowersRank(cfg, s, NextMove(cfg, s));
    hide Apply, Enabled;
  }

  lemma StartInv(cfg: Config)
    requires cfg.Valid()
    ensures Inv(cfg, Start(cfg))
  {
    assert Inv(cfg, Init(cfg));
    StepKeepsInv(cfg, Init(cfg), Caller(true));
  }

  lemma AdvanceInv(cfg: Config, s: State, m: Move)
    requires Inv(cfg, s)
    ensures Inv(cfg, Advance(cfg, s, m))
  {
    hide Inv, Apply, Enabled;
    if Possible(cfg, s, m) {
      StepKeepsInv(cfg, s, ActionOf(m));
    }
  }

  lemma {:induction false} PlayInv(cfg: Config, plan: seq<Move>)
    requires cfg.Valid()
    ensures Inv(cfg, Play(cfg, plan))
  {
    hide Inv, Advance, Start;
    if plan == [] {
      StartInv(cfg);
    } else {
      PlayInv(cfg, plan[..|plan| - 1]);
      AdvanceInv(cfg, Play(cfg, plan[..|plan| - 1]), plan[|plan| - 1]);
    }
  }

  // ---------------------------------------------------------------- plans and runs

  lemma {:induction false} PlayIsRun(cfg: Config, plan: seq<Move>) returns (ss: seq<State>, aa: seq<Action>)
    requires cfg.Valid()
    ensures IsRun(cfg, ss, aa) && ss[|aa|] == Play(cfg, plan)
  {
    hide Apply, Enabled;
    if plan == [] {
      assert Enabled(cfg, Init(cfg), Caller(true)) by { EnterEnabled(cfg); }
      ss, aa := [Init(cfg), Start(cfg)], [Caller(true)];
    } else {
      var m := plan[|plan| - 1];
      ss, aa := PlayIsRun(cfg, plan[..|plan| - 1]);
      if Possible(cfg, ss[|aa|], m) {
        Extend(cfg, ss, aa, ActionOf(m));
        ss, aa := ss + [Apply(cfg, ss[|aa|], ActionOf(m))], aa + [ActionOf(m)];
      }
    }
  }

  lemma EnterEnabled(cfg: Config)
    ensures Enabled(cfg, Init(cfg), Caller(true))
  {
  }

  lemma {:induction false} FinishIsRun(cfg: Config, ss: seq<State>, aa: seq<Action>) returns (ss': seq<State>, aa': seq<Action>)
    requires IsRun(cfg, ss, aa) && Inv(cfg, ss[|aa|])
    ensures IsRun(cfg, ss', aa') && ss'[|aa'|] == Finish(cfg, ss[|aa|]) && Finished(ss'[|aa'|])
    decreases Rank(ss[|aa|])
  {
    hide Apply, Enabled, Inv, NextMove, Rank;
    var s := ss[|aa|];
    if Finished(s) {
      ss', aa' := ss, aa;
    } else {
      OnwardStep(cfg, s);
      Extend(cfg, ss, aa, NextMove(cfg, s));
      ss', aa' := FinishIsRun(cfg, ss + [Apply(cfg, s, NextMove(cfg, s))], aa + [NextMove(cfg, s)]);
    }
  }

  /** Every plan ends as a complete run of the protocol ends. */
  lemma PlanIsRun(cfg: Config, plan: seq<Move>) returns (ss: seq<State>, aa: seq<Action>)
    requires cfg.Valid()
    ensures IsRun(cfg, ss, aa) && ss[|aa|] == Final(cfg, plan) && Finished(ss[|aa|])
  {
    hide Apply, Enabled, Inv;
    PlayInv(cfg, plan);
    ss, aa := PlayIsRun(cfg, plan);
    ss, aa := FinishIsRun(cfg, ss, aa);
  }

  function Scheduled(aa: seq<Action>): seq<Move> {
    if aa == [] then [] else Scheduled(aa[..|aa| - 1]) + [Sched(aa[|aa| - 1])]
  }

  /** Every run from there on is the play of its own schedule. */
  lemma {:induction false} RunIsPlay(cfg: Config, ss: seq<State>, aa: seq<Action>)
    requires IsRun(cfg, ss, aa) && |aa| > 0 && aa[0] == Caller(true)
    ensures Play(cfg, Scheduled(aa[1..])) == ss[|aa|]
  {
    hide Apply, Enabled;
    var n := |aa| - 1;
    if n == 0 {
      assert aa[1..] == [];
    } else {
      assert IsRun(cfg, ss[..n + 1], aa[..n]);
      RunIsPlay(cfg, ss[..n + 1], aa[..n]);
      assert aa[1..][..n - 1] == aa[..n][1..];
      assert Scheduled(aa[1..])[..n - 1] == Scheduled(aa[..n][1..]) by { ScheduledLength(aa[1..]); ScheduledLength(aa[..n][1..]); }
    }
  }

  lemma {:induction false} ScheduledLength(aa: seq<Action>)
    ensures |Scheduled(aa)| == |aa|
  {
    if aa != [] {
      ScheduledLength(aa[..|aa| - 1]);
    }
  }

  /** Every complete run whose call got past its checks is the run of some plan. */
  lemma RunHasPlan(cfg: Config, ss: seq<State>, aa: seq<Action>) returns (plan: seq<Move>)
    requires IsRun(cfg, ss, aa) && |aa| > 0 && aa[0] == Caller(true) && Finished(ss[|aa|])
    ensures Final(cfg, plan) == ss[|aa|]
  {
    hide Apply, Enabled, Inv;
    plan := Scheduled(aa[1..]);
    RunIsPlay(cfg, ss, aa);
    PlayInv(cfg, plan);
  }

  // ---------------------------------------------------------------- permissions

  lemma {:induction false} FinishQuiet(cfg: Config, s: State)
    requires Inv(cfg, s)
    ensures Inv(cfg, Finish(cfg, s)) && Finished(Finish(cfg, s))
    decreases Rank(s)
  {
    hide Apply, Enabled, Inv, NextMove, Rank;
    if !Finished(s) {
      OnwardStep(cfg, s);
      FinishQuiet(cfg, Apply(cfg, s, NextMove(cfg, s)));
    }
  }

  /** A call that is over has left the permissions as they were. */
  lemma FinishedRestores(cfg: Config, s: State)
    requires Inv(cfg, s) && Finished(s)
    ensures s.nx == cfg.nx0
  {
  }

  /** One step, with its permission calls made on the kernel. */
  method Perform(k: Machine, cfg: Config, s: State, a: Action) returns (t: State)
    requires Enabled(cfg, s, a) && k.nx == s.nx
    modifies k`nx
    ensures t == Apply(cfg, s, a) && k.nx == t.nx
  {
    t := Apply(cfg, s, a);
    if a.Caller? && s.c.MakeNx? {
      k.SetMemoryNx(PageOf(cfg.code), RoundUpToPageSize(cfg.codeLen) / PAGE_SIZE);
    }
    if a.Caller? && s.c.RestoreX? && s.madeNx {
      k.SetMemoryX(PageOf(cfg.code), RoundUpToPageSize(cfg.codeLen) / PAGE_SIZE);
    }
  }

  /** The threads go on until all are done. */
  method FinishRun(k: Machine, cfg: Config, s: State) returns (end: State)
    requires Inv(cfg, s) && k.nx == s.nx
    modifies k`nx
    ensures end == Finish(cfg, s) && k.nx == cfg.nx0
  {
    hide Apply, Enabled, Inv, NextMove, Rank;
    end := s;
    while !Finished(end)
      invariant Inv(cfg, end) && k.nx == end.nx && Finish(cfg, end) == Finish(cfg, s)
      decreases Rank(end)
    {
      OnwardStep(cfg, end);
      end := Perform(k, cfg, end, NextMove(cfg, end));
    }
    FinishedRestores(cfg, end);
  }

  // ---------------------------------------------------------------- independence of addresses

  /** Equal but for the permissions of pages. */
  predicate Alike(s: State, t: State) { t == s.(nx := t.nx) }

  lemma StepAlike(cfg: Config, cfg': Config, s: State, t: State, a: Action)
    requires cfg.paramCount == cfg'.paramCount && Alike(s, t)
    ensures Enabled(cfg, s, a) <==> Enabled(cfg', t, a)
    ensures Enabled(cfg, s, a) ==> Alike(Apply(cfg, s, a), Apply(cfg', t, a))
  {
    if Enabled(cfg, s, a) {
      match a
      case Caller(ok) => CallerAlike(cfg, cfg', s, t, ok);
      case Runner(ok) => RunnerAlike(cfg, cfg', s, t, ok);
      case _ =>
    }
    hide CallerSetup, CallerMain, RunnerStep;
  }

  lemma CallerAlike(cfg: Config, cfg': Config, s: State, t: State, ok: bool)
    requires Alike(s, t) && Enabled(cfg, s, Caller(ok)) && Enabled(cfg', t, Caller(ok))
    ensures if InSetup(s.c) then Alike(CallerSetup(cfg, s, ok), CallerSetup(cfg', t, ok)) else Alike(CallerMain(cfg, s), CallerMain(cfg', t))
  {
  }

  lemma RunnerAlike(cfg: Config, cfg': Config, s: State, t: State, ok: bool)
    requires Alike(s, t) && Enabled(cfg, s, Runner(ok)) && Enabled(cfg', t, Runner(ok))
    ensures Alike(RunnerStep(cfg, s, ok), RunnerStep(cfg', t, ok))
  {
  }

  lemma {:induction false} PlayAlike(cfg: Config, cfg': Config, plan: seq<Move>)
    requires cfg.paramCount == cfg'.paramCount
    ensures Alike(Play(cfg, plan), Play(cfg', plan))
  {
    if plan == [] {
    } else {
      hide Apply, Enabled, Start;
      var n := |plan| - 1;
      PlayAlike(cfg, cfg', plan[..n]);
      StepAlike(cfg, cfg', Play(cfg, plan[..n]), Play(cfg', plan[..n]), ActionOf(plan[n]));
    }
  }

  lemma {:induction false} FinishAlike(cfg: Config, cfg': Config, s: State, t: State)
    requires cfg.paramCount == cfg'.paramCount && Alike(s, t) && Inv(cfg, s) && Inv(cfg', t)
    ensures Alike(Finish(cfg, s), Finish(cfg', t))
    decreases Rank(s)
  {
    hide Apply, Enabled, Inv;
    if !Finished(s) {
      OnwardStep(cfg, s);
      OnwardStep(cfg', t);
      StepAlike(cfg, cfg', s, t, NextMove(cfg, s));
      FinishAlike(cfg, cfg', Apply(cfg, s, NextMove(cfg, s)), Apply(cfg', t, NextMove(cfg', t)));
    }
  }

  /** What a run does, apart from page permissions, does not depend on where the code is. */
  lemma FinalAlike(cfg: Config, cfg': Config, plan: seq<Move>)
    requires cfg.paramCount == cfg'.paramCount && cfg.Valid() && cfg'.Valid()
    ensures Alike(Final(cfg, plan), Final(cfg', plan))
  {
    hide Apply, Enabled, Inv;
    PlayInv(cfg, plan);
    PlayInv(cfg', plan);
    PlayAlike(cfg, cfg', plan);
    FinishAlike(cfg, cfg', Play(cfg, plan), Play(cfg', plan));
  }
}
