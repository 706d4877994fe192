/**
 Progress of every run, whatever the schedule: steps that only spin change nothing that counts, and
 of the others there are no more than the program, the tasks and the chunks allow for.
 */
module Spinning {
  import opened Words
  import opened Protocol
  import opened Counting
  import opened Invariant
  import opened Preservation
  import opened FifoRounds
  import opened Progress

  // ----- spinning

  /** A task's next access finds a lock taken or a wait not over, or puts back what such a wait found. */
  predicate TaskSpins(t: Task, regs: Regs) {
    match t.pc
    case WaitRead => regs.release != t.go
    case WaitWrite => t.value != t.go
    case AwaitRead => regs.fifo != READ
    case AwaitWrite => t.value != READ
    case LockRelease => regs.release == 0
    case LockBarrier => regs.barrier == 0
    case LockFifo => regs.fifo == 0
    case RelockFifo => regs.fifo == 0
    case LockReset => regs.barrier == 0
    case LockFlip => regs.release == 0
    case LockExit => regs.exit == 0
    case _ => false
  }

  predicate JoinSpins(j: Joiner, regs: Regs) {
    match j
    case JoinRead => regs.exit != READ
    case JoinWrite(v) => v != READ
    case Joined => false
  }

  predicate HostSpins(h: Host, regs: Regs) {
    match h
    case HostRead => regs.fifo != WRITE
    case HostBack(_) => true
    case _ => false
  }

  /** The step is one more turn of a loop that waits. */
  predicate Spins(s: State, step: Step) {
    match step
    case TaskStep(i) => i < |s.tasks| && TaskSpins(s.tasks[i], s.regs)
    case JoinStep => JoinSpins(s.joiner, s.regs)
    case HostStep => HostSpins(s.host, s.regs)
    case _ => false
  }

  // ----- the potential

  /** Values about to be put back by waits that did not find what they wait for. */
  function PutBacks(s: State): nat {
    Count(Restoring, s.tasks) + Bit(s.joiner.JoinWrite? && s.joiner.value != READ) + Bit(s.host.HostBack?)
  }

  /** The work that remains, not counting what only undoes a failed wait. */
  function Potential(cfg: Config, s: State): int
    requires cfg.program.Rounds?
  {
    Work(cfg, s) - PutBacks(s)
  }

  lemma {:induction false} RestoringIsWork(r: nat, ts: seq<Task>)
    requires forall i :: 0 <= i < |ts| ==> ts[i].rounds <= r
    ensures Count(Restoring, ts) <= TasksWork(r, ts)
  {
    if ts != [] {
      RestoringIsWork(r, ts[1..]);
    }
  }

  lemma PotentialNatural(cfg: Config, s: State)
    requires Inv(cfg, s) && cfg.program.Rounds?
    ensures Potential(cfg, s) >= 0
  {
    forall i | 0 <= i < |s.tasks| ensures s.tasks[i].rounds <= cfg.program.rounds {
      assert TaskOk(cfg, s.last, s.releases, s.tasks[i]);
    }
    RestoringIsWork(cfg.program.rounds, s.tasks);
  }

  lemma {:induction false} RestoringHolds(ts: seq<Task>)
    ensures Count(Restoring, ts) <= Count(Holding(Release), ts) + Count(Holding(Fifo), ts)
  {
    if ts != [] {
      RestoringHolds(ts[1..]);
    }
  }

  /** One for the release register, one for the FIFO's and one for the exit register at most. */
  lemma FewPutBacks(cfg: Config, s: State)
    requires Inv(cfg, s)
    ensures PutBacks(s) <= 3
  {
    RestoringHolds(s.tasks);
    assert Tokens(s, Release) <= 1 && Tokens(s, Fifo) <= 1;
  }

  // ----- one step

  function TaskLoad(r: nat, t: Task): int {
    TaskWork(r, t) - Bit(Is(Restoring, t))
  }

  lemma ReadLoad(cfg: Config, last: Regs, releases: nat, t: Task, regs: Regs)
    requires cfg.program.Rounds? && IsRead(t.pc) && TaskOk(cfg, last, releases, t) && TaskAccess(cfg, t).Read?
    ensures var t', r := AfterRead(cfg, t, regs.Get(TaskAccess(cfg, t).reg)), cfg.program.rounds;
            if TaskSpins(t, regs) then TaskLoad(r, t') == TaskLoad(r, t) else TaskLoad(r, t') < TaskLoad(r, t)
  {
  }

  lemma WriteLoad(cfg: Config, last: Regs, releases: nat, t: Task, regs: Regs)
    requires cfg.program.Rounds? && IsWrite(t.pc) && TaskOk(cfg, last, releases, t)
    ensures var t', r := AfterWrite(t), cfg.program.rounds;
            if TaskSpins(t, regs) then TaskLoad(r, t') == TaskLoad(r, t) else TaskLoad(r, t') < TaskLoad(r, t)
  {
  }

  /** Nothing but task `i` counts. */
  lemma LoadChange(cfg: Config, s: State, s': State, i: nat, t': Task)
    requires cfg.program.Rounds? && i < |s.tasks| && s'.tasks == s.tasks[i := t']
    requires s'.joiner == s.joiner && s'.host == s.host && s'.delivered == s.delivered
    ensures var r := cfg.program.rounds;
            Potential(cfg, s') - Potential(cfg, s) == TaskLoad(r, t') - TaskLoad(r, s.tasks[i])
  {
    TasksWorkUpdate(cfg.program.rounds, s.tasks, i, t');
    CountUpdate(Restoring, s.tasks, i, t');
  }

  /** What a step does to the potential: a spin leaves it as it is and any other step lowers it. */
  ghost predicate Counts(cfg: Config, s: State, step: Step)
    requires cfg.program.Rounds? && Enabled(cfg, s, step)
  {
    var s' := Do(cfg, s, step);
    if Spins(s, step) then Potential(cfg, s') == Potential(cfg, s) else Potential(cfg, s') < Potential(cfg, s)
  }

  lemma TaskCounts(cfg: Config, s: State, i: nat)
    requires Inv(cfg, s) && cfg.program.Rounds? && Enabled(cfg, s, TaskStep(i))
    ensures Counts(cfg, s, TaskStep(i))
  {
    var t := s.tasks[i];
    assert TaskOk(cfg, s.last, s.releases, t);
    hide Inv;
    hide TaskOk;
    hide Potential;
    hide TaskLoad;
    if IsRead(t.pc) {
      ReadTakes(cfg, t, 0, Exit);
      var t' := AfterRead(cfg, t, s.regs.Get(TaskAccess(cfg, t).reg));
      ReadLoad(cfg, s.last, s.releases, t, s.regs);
      LoadChange(cfg, s, DoTask(cfg, s, i), i, t');
    } else {
      WriteGives(cfg, t, Exit);
      WriteLoad(cfg, s.last, s.releases, t, s.regs);
      LoadChange(cfg, s, DoTask(cfg, s, i), i, AfterWrite(t));
    }
  }

  lemma CallCounts(cfg: Config, s: State, step: Step)
    requires Inv(cfg, s) && cfg.program.Rounds? && Enabled(cfg, s, step) && (step.CallBarrier? || step.CallExit?)
    ensures Counts(cfg, s, step)
  {
    var t, s' := s.tasks[step.i], Do(cfg, s, step);
    assert TaskOk(cfg, s.last, s.releases, t);
    hide Inv;
    hide Potential;
    LoadChange(cfg, s, s', step.i, s'.tasks[step.i]);
  }

  lemma JoinCounts(cfg: Config, s: State)
    requires Inv(cfg, s) && cfg.program.Rounds? && Enabled(cfg, s, JoinStep)
    ensures Counts(cfg, s, JoinStep)
  {
  }

  lemma HostCounts(cfg: Config, s: State, step: Step)
    requires Inv(cfg, s) && cfg.program.Rounds? && Enabled(cfg, s, step) && (step.HostStep? || step.HostByte?)
    ensures Counts(cfg, s, step)
  {
  }

  /** Under either wait, no step raises the potential, and exactly the spins leave it as it is. */
  lemma StepCounts(cfg: Config, s: State, step: Step)
    requires Inv(cfg, s) && cfg.program.Rounds? && Enabled(cfg, s, step)
    ensures Counts(cfg, s, step)
  {
    hide Counts;
    match step
    case TaskStep(i) => TaskCounts(cfg, s, i);
    case CallBarrier(i, fifo) => CallCounts(cfg, s, step);
    case CallExit(i) => CallCounts(cfg, s, step);
    case JoinStep => JoinCounts(cfg, s);
    case HostStep => HostCounts(cfg, s, step);
    case HostByte => HostCounts(cfg, s, step);
  }

  // ----- whole runs

  /** How many of the first `n` steps of a run are not spins. */
  function Advances(states: seq<State>, steps: seq<Step>, n: nat): nat
    requires n <= |steps| < |states|
  {
    if n == 0 then 0 else Advances(states, steps, n - 1) + if Spins(states[n - 1], steps[n - 1]) then 0 else 1
  }

  lemma {:induction false} RunPotential(cfg: Config, states: seq<State>, steps: seq<Step>, n: nat)
    requires cfg.Valid() && cfg.program.Rounds? && IsRun(cfg, states, steps) && n <= |steps|
    ensures Advances(states, steps, n) + Potential(cfg, states[n]) <= Potential(cfg, states[0])
  {
    hide Potential;
    hide Spins;
    hide Do;
    hide Enabled;
    hide Init;
    hide Inv;
    if n > 0 {
      RunPotential(cfg, states, steps, n - 1);
      RunInv(cfg, states, steps, n - 1);
      assert Follows(cfg, states[n - 1], steps[n - 1], states[n]);
      StepCounts(cfg, states[n - 1], steps[n - 1]);
    }
  }

  lemma {:induction false} FreshWork(r: nat, ts: seq<Task>)
    requires forall i :: 0 <= i < |ts| ==> ts[i].pc.Running? && ts[i].rounds == 0
    ensures TasksWork(r, ts) == |ts| * (16 * r + 15) && Count(Restoring, ts) == 0
  {
    if ts != [] {
      FreshWork(r, ts[1..]);
      assert TaskWork(r, ts[0]) == 16 * r + 15;
    }
  }

  lemma {:induction false} ChunksWorkIs(size: nat, chunks: nat)
    ensures ChunksWork(size, chunks) == chunks * (size + 4)
  {
    if chunks > 0 {
      ChunksWorkIs(size, chunks - 1);
    }
  }

  lemma FreshPotential(cfg: Config, s: State)
    requires Init(cfg, s) && cfg.program.Rounds?
    ensures Potential(cfg, s) == cfg.ntasks * (16 * cfg.program.rounds + 15) + 2 + |cfg.chunks| * (cfg.size + 4)
  {
    FreshWork(cfg.program.rounds, s.tasks);
    ChunksWorkIs(cfg.size, |cfg.chunks|);
    hide TasksWork;
    hide ChunksWork;
  }

  /**
   In every run of N tasks of R barriers, under either wait and whatever the schedule, at most
   N(16R + 15) + 2 steps are not spins, plus size + 4 for each chunk.
   */
  lemma AdvancesBounded(cfg: Config, states: seq<State>, steps: seq<Step>)
    requires cfg.Valid() && cfg.program.Rounds? && IsRun(cfg, states, steps)
    ensures Advances(states, steps, |steps|) <=
            cfg.ntasks * (16 * cfg.program.rounds + 15) + 2 + |cfg.chunks| * (cfg.size + 4)
  {
    hide Potential;
    hide Inv;
    hide Advances;
    hide Follows;
    RunPotential(cfg, states, steps, |steps|);
    RunInv(cfg, states, steps, |steps|);
    PotentialNatural(cfg, states[|steps|]);
    FreshPotential(cfg, states[0]);
  }

  // ----- an advance is always near

  lemma SpinFinishesNothing(cfg: Config, s: State, step: Step)
    requires Enabled(cfg, s, step) && Spins(s, step)
    ensures Final(Do(cfg, s, step)) ==> Final(s)
  {
    if step.TaskStep? {
      assert !Do(cfg, s, step).tasks[step.i].pc.Exited?;
    }
  }

  /**
   From every unfinished state, putting back at most what failed waits hold makes a step that is not a
   spin possible.
   */
  lemma {:induction false} AdvanceNear(cfg: Config, s: State) returns (steps: seq<Step>, end: State, step: Step)
    requires Sound(cfg, s) && Bounded(cfg) && cfg.wait == WriteBack && !Final(s)
    ensures Leads(cfg, s, steps, end) && |steps| <= PutBacks(s)
    ensures Enabled(cfg, end, step) && !Spins(end, step)
    decreases Work(cfg, s)
  {
    hide Inv;
    hide Spins;
    hide PutBacks;
    WorkNatural(cfg, s);
    WriteBackAlive(cfg, s);
    FedNotStarved(cfg, s);
    step := UsefulStep(cfg, s, -1);
    if Spins(s, step) {
      var s' := Do(cfg, s, step);
      StepCounts(cfg, s, step);
      StepKeepsInv(cfg, s, step);
      StepKeepsPlanned(cfg, s, step);
      SpinFinishesNothing(cfg, s, step);
      var first, rest := step, [];
      rest, end, step := AdvanceNear(cfg, s');
      steps := [first] + rest;
      assert steps[1..] == rest;
    } else {
      steps, end := [], s;
    }
  }

  /**
   With the write-back wait, in every state of every run either all is finished or, after at most
   three steps, a step is possible that is not a spin.  So a run that goes on for ever without
   finishing spins for ever although it could at any time do otherwise.
   */
  lemma RunAdvances(cfg: Config, states: seq<State>, taken: seq<Step>, k: nat)
    returns (steps: seq<Step>, end: State, step: Step)
    requires cfg.Valid() && Bounded(cfg) && cfg.wait == WriteBack && IsRun(cfg, states, taken) && k < |states|
    requires !Final(states[k])
    ensures Leads(cfg, states[k], steps, end) && |steps| <= 3
    ensures Enabled(cfg, end, step) && !Spins(end, step)
  {
    RunInv(cfg, states, taken, k);
    RunPlanned(cfg, states, taken, k);
    FewPutBacks(cfg, states[k]);
    steps, end, step := AdvanceNear(cfg, states[k]);
  }
}
