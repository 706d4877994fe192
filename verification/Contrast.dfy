/**
 What the consuming wait loses.  It keeps the value it was waiting for, so the register's token is
 gone for good; the write-back wait leaves it for the other waiters.
 */
module Contrast {
  import opened Words
  import opened Protocol
  import opened Counting
  import opened Invariant
  import opened Preservation

  // ----- a lost token never comes back

  lemma DeadStaysDeadTask(cfg: Config, s: State, i: nat, r: Reg)
    requires i < |s.tasks| && Tokens(s, r) == 0
    ensures Tokens(DoTask(cfg, s, i), r) == 0
  {
    var t, s' := s.tasks[i], DoTask(cfg, s, i);
    CountBounds(Holding(r), s.tasks);
    assert !Is(Holding(r), t);
    CountUpdate(Holding(r), s.tasks, i, s'.tasks[i]);
    if IsRead(t.pc) {
      ReadTakes(cfg, t, s.regs.Get(TaskAccess(cfg, t).reg), r);
    } else if IsWrite(t.pc) {
      WriteGives(cfg, t, r);
    }
  }

  lemma DeadStaysDead(cfg: Config, s: State, step: Step, r: Reg)
    requires Enabled(cfg, s, step) && Tokens(s, r) == 0
    ensures Tokens(Do(cfg, s, step), r) == 0
  {
    match step
    case TaskStep(i) => DeadStaysDeadTask(cfg, s, i, r);
    case CallBarrier(i, fifo) => CountUpdate(Holding(r), s.tasks, i, s.tasks[i].(pc := LockRelease, fifo := fifo));
    case CallExit(i) => CountUpdate(Holding(r), s.tasks, i, s.tasks[i].(pc := LockExit));
    case _ =>
  }

  /** Once a register has no token it reads 0 in every later state, whoever runs. */
  lemma {:induction false} LostForever(cfg: Config, states: seq<State>, steps: seq<Step>, k: nat, l: nat, r: Reg)
    requires IsRun(cfg, states, steps) && k <= l < |states| && Tokens(states[k], r) == 0
    ensures Tokens(states[l], r) == 0 && states[l].regs.Get(r) == 0
  {
    if k < l {
      LostForever(cfg, states, steps, k, l - 1, r);
      assert Follows(cfg, states[l - 1], steps[l - 1], states[l]);
      DeadStaysDead(cfg, states[l - 1], steps[l - 1], r);
    }
  }

  // ----- a consuming wait that matches loses the token

  /** Step `k` is a wait of task `i` that finds the value it waits for, and keeps it. */
  ghost predicate ConsumesAt(cfg: Config, states: seq<State>, steps: seq<Step>, k: nat, i: nat) {
    && IsRun(cfg, states, steps) && k < |steps| && steps[k] == TaskStep(i)
    && i < |states[k].tasks| && i < |states[k + 1].tasks|
    && cfg.wait == Consuming
    && ((states[k].tasks[i].pc.WaitRead? && states[k + 1].tasks[i].pc.Running?)
        || (states[k].tasks[i].pc.AwaitRead? && states[k + 1].tasks[i].pc.RelockFifo?))
  }

  lemma MatchLosesToken(cfg: Config, s: State, i: nat)
    requires Inv(cfg, s) && i < |s.tasks| && IsRead(s.tasks[i].pc) && cfg.wait == Consuming
    requires (s.tasks[i].pc.WaitRead? && DoTask(cfg, s, i).tasks[i].pc.Running?)
             || (s.tasks[i].pc.AwaitRead? && DoTask(cfg, s, i).tasks[i].pc.RelockFifo?)
    ensures TaskAccess(cfg, s.tasks[i]).Read?
    ensures Tokens(DoTask(cfg, s, i), TaskAccess(cfg, s.tasks[i]).reg) == 0
  {
    var t, s' := s.tasks[i], DoTask(cfg, s, i);
    var r := TaskAccess(cfg, t).reg;
    assert Tokens(s, r) <= 1;
    CountUpdate(Holding(r), s.tasks, i, s'.tasks[i]);
  }

  /** When a waiter takes the release value, the release register reads 0 ever after. */
  lemma ReleaseConsumed(cfg: Config, states: seq<State>, steps: seq<Step>, k: nat, i: nat, l: nat)
    requires cfg.Valid() && ConsumesAt(cfg, states, steps, k, i) && k < l < |states|
    requires states[k].tasks[i].pc.WaitRead?
    ensures states[l].regs.release == 0
  {
    RunInv(cfg, states, steps, k);
    assert Follows(cfg, states[k], steps[k], states[k + 1]);
    MatchLosesToken(cfg, states[k], i);
    LostForever(cfg, states, steps, k + 1, l, Release);
  }

  /**
   `mango_wait(fifo, READ)` followed by `mango_lock(fifo)`: with the consuming wait the task spins
   in the lock for the rest of the run.
   */
  lemma FifoConsumed(cfg: Config, states: seq<State>, steps: seq<Step>, k: nat, i: nat, l: nat)
    requires cfg.Valid() && ConsumesAt(cfg, states, steps, k, i) && k < l < |states|
    requires states[k].tasks[i].pc.AwaitRead?
    ensures states[l].regs.fifo == 0
    ensures i < |states[l].tasks| && states[l].tasks[i].pc.RelockFifo?
  {
    RunInv(cfg, states, steps, k);
    assert Follows(cfg, states[k], steps[k], states[k + 1]);
    MatchLosesToken(cfg, states[k], i);
    SpinsForever(cfg, states, steps, k + 1, i, l);
  }

  lemma {:induction false} SpinsForever(cfg: Config, states: seq<State>, steps: seq<Step>, k: nat, i: nat, l: nat)
    requires IsRun(cfg, states, steps) && k <= l < |states| && Tokens(states[k], Fifo) == 0
    requires i < |states[k].tasks| && states[k].tasks[i].pc.RelockFifo?
    ensures states[l].regs.fifo == 0
    ensures i < |states[l].tasks| && states[l].tasks[i].pc.RelockFifo?
  {
    hide Do;
    hide Enabled;
    hide Init;
    LostForever(cfg, states, steps, k, l, Fifo);
    if k < l {
      SpinsForever(cfg, states, steps, k, i, l - 1);
      assert Follows(cfg, states[l - 1], steps[l - 1], states[l]);
      SpinsOnZero(cfg, states[l - 1], steps[l - 1], i);
    }
  }

  lemma SpinsOnZero(cfg: Config, s: State, step: Step, i: nat)
    requires Enabled(cfg, s, step) && i < |s.tasks| && s.tasks[i].pc.RelockFifo? && s.regs.fifo == 0
    ensures var s' := Do(cfg, s, step); i < |s'.tasks| && s'.tasks[i].pc.RelockFifo?
  {
  }

  // ----- at most two barrier calls return

  /** Barrier calls that have returned, over all tasks. */
  function Returns(ts: seq<Task>): nat {
    if ts == [] then 0 else Returns(ts[1..]) + ts[0].rounds
  }

  lemma {:induction false} ReturnsUpdate(ts: seq<Task>, i: nat, t: Task)
    requires i < |ts|
    ensures Returns(ts[i := t]) + ts[i].rounds == Returns(ts) + t.rounds
  {
    if i == 0 {
      assert ts[0 := t][1..] == ts[1..];
    } else {
      assert ts[i := t][1..] == ts[1..][i - 1 := t];
      ReturnsUpdate(ts[1..], i - 1, t);
    }
  }

  lemma {:induction false} ReturnsUniform(ts: seq<Task>, rounds: nat)
    requires forall j :: 0 <= j < |ts| ==> ts[j].rounds == rounds
    ensures Returns(ts) == |ts| * rounds
  {
    if ts != [] {
      ReturnsUniform(ts[1..], rounds);
    }
  }

  /** While the release token lives, only the serial task of round 0 can have returned; one waiter may follow. */
  ghost predicate FewReturns(s: State) {
    && s.releases <= 1
    && (if Tokens(s, Release) == 1 then Returns(s.tasks) == s.releases
        else Tokens(s, Release) == 0 && Returns(s.tasks) == 2)
  }

  lemma FewReturnsTask(cfg: Config, s: State, i: nat)
    requires Inv(cfg, s) && cfg.wait == Consuming && cfg.ntasks >= 2
    requires FewReturns(s) && i < |s.tasks|
    ensures FewReturns(DoTask(cfg, s, i))
  {
    var t, s' := s.tasks[i], DoTask(cfg, s, i);
    ReturnsUpdate(s.tasks, i, s'.tasks[i]);
    if Tokens(s, Release) == 0 {
      DeadStaysDeadTask(cfg, s, i, Release);
      DeadReturnsNobody(cfg, s, i);
    } else if IsRead(t.pc) {
      FewReturnsRead(cfg, s, i);
    } else if IsWrite(t.pc) {
      FewReturnsWrite(cfg, s, i);
    }
  }

  lemma DeadReturnsNobody(cfg: Config, s: State, i: nat)
    requires i < |s.tasks| && Tokens(s, Release) == 0
    ensures DoTask(cfg, s, i).tasks[i].rounds == s.tasks[i].rounds && DoTask(cfg, s, i).releases == s.releases
  {
    CountBounds(Holding(Release), s.tasks);
    assert !Is(Holding(Release), s.tasks[i]);
  }

  lemma FewReturnsRead(cfg: Config, s: State, i: nat)
    requires Inv(cfg, s) && cfg.wait == Consuming && FewReturns(s) && Tokens(s, Release) == 1
    requires i < |s.tasks| && IsRead(s.tasks[i].pc)
    ensures FewReturns(DoTask(cfg, s, i))
  {
    var t, s' := s.tasks[i], DoTask(cfg, s, i);
    var v := ReadEffect(cfg, s, i);
    assert TaskOk(cfg, s.last, s.releases, t);
    ReturnsUpdate(s.tasks, i, s'.tasks[i]);
    if t.pc.WaitRead? && s'.tasks[i].pc.Running? {
      MatchLosesToken(cfg, s, i);
    } else {
      NoMatchKeepsToken(cfg, s, i);
    }
  }

  lemma NoMatchKeepsToken(cfg: Config, s: State, i: nat)
    requires i < |s.tasks| && IsRead(s.tasks[i].pc)
    requires !(s.tasks[i].pc.WaitRead? && DoTask(cfg, s, i).tasks[i].pc.Running?)
    ensures Tokens(DoTask(cfg, s, i), Release) == Tokens(s, Release)
    ensures DoTask(cfg, s, i).tasks[i].rounds == s.tasks[i].rounds
  {
    var s' := DoTask(cfg, s, i);
    CountUpdate(Holding(Release), s.tasks, i, s'.tasks[i]);
  }

  lemma FewReturnsWrite(cfg: Config, s: State, i: nat)
    requires Inv(cfg, s) && cfg.wait == Consuming && cfg.ntasks >= 2 && FewReturns(s) && Tokens(s, Release) == 1
    requires i < |s.tasks| && IsWrite(s.tasks[i].pc)
    ensures FewReturns(DoTask(cfg, s, i))
  {
    var t, s' := s.tasks[i], DoTask(cfg, s, i);
    var reg, v := WriteEffect(cfg, s, i);
    WritesNonZero(cfg, s, s', i, reg, v);
    WriteGives(cfg, t, Release);
    CountUpdate(Holding(Release), s.tasks, i, s'.tasks[i]);
    ReturnsUpdate(s.tasks, i, s'.tasks[i]);
    assert TaskOk(cfg, s.last, s.releases, t);
    if t.pc.WriteFlip? {
      SerialAlone(cfg, s, i);
      ReturnsUniform(s.tasks, s.releases);
    } else if t.pc.WaitWrite? {
      ConsumedNeverPutBack(cfg, s, i);
    }
  }

  /** A consuming waiter puts back only values it does not wait for. */
  lemma ConsumedNeverPutBack(cfg: Config, s: State, i: nat)
    requires Inv(cfg, s) && i < |s.tasks| && s.tasks[i].pc.WaitWrite? && cfg.wait == Consuming
    ensures s.tasks[i].value != s.tasks[i].go
  {
    assert TaskOk(cfg, s.last, s.releases, s.tasks[i]);
  }

  lemma FewReturnsStep(cfg: Config, s: State, step: Step)
    requires Inv(cfg, s) && Enabled(cfg, s, step) && cfg.wait == Consuming && cfg.ntasks >= 2
    requires FewReturns(s)
    ensures FewReturns(Do(cfg, s, step))
  {
    hide Inv;
    match step
    case TaskStep(i) => FewReturnsTask(cfg, s, i);
    case CallBarrier(i, fifo) =>
      ReturnsUpdate(s.tasks, i, s.tasks[i].(pc := LockRelease, fifo := fifo));
      CountUpdate(Holding(Release), s.tasks, i, s.tasks[i].(pc := LockRelease, fifo := fifo));
    case CallExit(i) =>
      ReturnsUpdate(s.tasks, i, s.tasks[i].(pc := LockExit));
      CountUpdate(Holding(Release), s.tasks, i, s.tasks[i].(pc := LockExit));
    case _ =>
  }

  lemma InitFew(cfg: Config, s: State)
    requires cfg.Valid() && Init(cfg, s)
    ensures Inv(cfg, s) && FewReturns(s) && forall r: Reg :: Tokens(s, r) == 1
  {
    InitInv(cfg, s);
    ReturnsUniform(s.tasks, 0);
    forall r: Reg ensures Tokens(s, r) == 1 {
      CountBounds(Holding(r), s.tasks);
    }
  }

  /**
   With the consuming wait and two or more tasks, at most two barrier calls ever return, however
   long the run and whatever the tasks do.
   */
  lemma {:induction false} AtMostTwoReturns(cfg: Config, states: seq<State>, steps: seq<Step>, k: nat)
    requires cfg.Valid() && IsRun(cfg, states, steps) && k < |states|
    requires cfg.wait == Consuming && cfg.ntasks >= 2
    ensures FewReturns(states[k])
    ensures Returns(states[k].tasks) <= 2
  {
    hide Inv;
    hide Tokens;
    if k == 0 {
      InitFew(cfg, states[0]);
    } else {
      AtMostTwoReturns(cfg, states, steps, k - 1);
      RunInv(cfg, states, steps, k - 1);
      assert Follows(cfg, states[k - 1], steps[k - 1], states[k]);
      FewReturnsStep(cfg, states[k - 1], steps[k - 1]);
    }
  }

  /** So N tasks of R barriers each never all exit, unless N*R is at most 2. */
  lemma ConsumingNeverCompletes(cfg: Config, states: seq<State>, steps: seq<Step>, k: nat)
    requires cfg.Valid() && IsRun(cfg, states, steps) && k < |states|
    requires cfg.wait == Consuming && cfg.ntasks >= 2 && cfg.program.Rounds? && cfg.ntasks * cfg.program.rounds > 2
    ensures exists i :: 0 <= i < |states[k].tasks| && !states[k].tasks[i].pc.Exited?
  {
    var s := states[k];
    AtMostTwoReturns(cfg, states, steps, k);
    RunInv(cfg, states, steps, k);
    if forall i :: 0 <= i < |s.tasks| ==> s.tasks[i].pc.Exited? {
      forall i | 0 <= i < |s.tasks| ensures s.tasks[i].rounds == cfg.program.rounds {
        assert TaskOk(cfg, s.last, s.releases, s.tasks[i]);
      }
      ReturnsUniform(s.tasks, cfg.program.rounds);
    }
  }
}
