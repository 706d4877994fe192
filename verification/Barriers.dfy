/** What the invariant means for barriers, the serial section and join, in every state of every run. */
module Barriers {
  import opened Words
  import opened Protocol
  import opened Counting
  import opened Invariant
  import opened Preservation

  /** Barrier rounds a task has entered: those it has left, plus the one it is inside. */
  function Entered(t: Task): nat {
    t.rounds + Bit(!t.pc.Running? && !InExit(t.pc))
  }

  /**
   No task leaves a round before every task has entered it, so completed rounds differ by at
   most one; a task that is a round behind is still waiting inside the barrier, and the release
   register's value is the very one it waits for: the flip has not been missed.
   */
  lemma BarrierSafety(cfg: Config, states: seq<State>, steps: seq<Step>, k: nat, i: nat, j: nat)
    requires cfg.Valid() && IsRun(cfg, states, steps) && k < |states|
    requires i < cfg.ntasks && j < cfg.ntasks
    ensures |states[k].tasks| == cfg.ntasks
    ensures var a, b, s := states[k].tasks[i], states[k].tasks[j], states[k];
            && a.rounds <= Entered(b)
            && a.rounds <= b.rounds + 1
            && (a.rounds == b.rounds + 1 ==>
                  InWait(b.pc) && b.go == s.last.release && (s.regs.release == 0 || s.regs.release == b.go))
  {
    RunInv(cfg, states, steps, k);
    var s := states[k];
    assert TaskOk(cfg, s.last, s.releases, s.tasks[i]) && TaskOk(cfg, s.last, s.releases, s.tasks[j]);
    assert Tokens(s, Release) <= 1;
    assert s.regs.Get(Release) == 0 || s.regs.Get(Release) == s.last.Get(Release);
  }

  /** A waiting task's value is in the release register exactly when its round has been released. */
  lemma ReleaseSeenExactly(cfg: Config, states: seq<State>, steps: seq<Step>, k: nat, i: nat)
    requires cfg.Valid() && IsRun(cfg, states, steps) && k < |states| && i < cfg.ntasks
    ensures |states[k].tasks| == cfg.ntasks
    ensures var t := states[k].tasks[i];
            InWait(t.pc) ==> (t.go == states[k].last.release <==> t.rounds < states[k].releases)
  {
    RunInv(cfg, states, steps, k);
    assert TaskOk(cfg, states[k].last, states[k].releases, states[k].tasks[i]);
  }

  /**
   The serial section: while a task is in the else branch, every other task is inside the same
   round of the barrier, past its signal and not released.
   */
  lemma SerialSection(cfg: Config, states: seq<State>, steps: seq<Step>, k: nat, i: nat)
    requires cfg.Valid() && IsRun(cfg, states, steps) && k < |states|
    requires i < |states[k].tasks| && InSerial(states[k].tasks[i].pc)
    ensures forall j :: 0 <= j < |states[k].tasks| && j != i ==>
              var t := states[k].tasks[j];
              InWait(t.pc) && t.rounds == states[k].tasks[i].rounds && t.go != states[k].last.release
  {
    RunInv(cfg, states, steps, k);
    var s := states[k];
    SerialAlone(cfg, s, i);
    forall j | 0 <= j < |s.tasks| && j != i
      ensures InWait(s.tasks[j].pc) && s.tasks[j].rounds == s.tasks[i].rounds && s.tasks[j].go != s.last.release
    {
      assert TaskOk(cfg, s.last, s.releases, s.tasks[j]);
    }
  }

  /** In a round that all tasks have signalled and nobody released, exactly one task takes the else branch. */
  lemma OneSerialTask(cfg: Config, states: seq<State>, steps: seq<Step>, k: nat) returns (i: nat)
    requires cfg.Valid() && IsRun(cfg, states, steps) && k < |states| && cfg.ntasks > 0
    requires forall j :: 0 <= j < |states[k].tasks| ==> Is(Arrived(states[k].releases), states[k].tasks[j])
    ensures i < |states[k].tasks| && InSerial(states[k].tasks[i].pc)
    ensures forall j :: 0 <= j < |states[k].tasks| && InSerial(states[k].tasks[j].pc) ==> j == i
  {
    RunInv(cfg, states, steps, k);
    i := SerialTask(cfg, states[k]);
    SerialAlone(cfg, states[k], i);
  }

  lemma SerialTask(cfg: Config, s: State) returns (i: nat)
    requires Inv(cfg, s) && cfg.ntasks > 0
    requires forall j :: 0 <= j < |s.tasks| ==> Is(Arrived(s.releases), s.tasks[j])
    ensures i < |s.tasks| && InSerial(s.tasks[i].pc)
  {
    CountBounds(Arrived(s.releases), s.tasks);
    CountBounds(Serial, s.tasks);
    i :| 0 <= i < |s.tasks| && Is(Serial, s.tasks[i]);
  }

  /** The register values: N+1 minus the arrivals (or N+1 once reset), and N+1 minus the exits. */
  lemma LogicalValues(cfg: Config, states: seq<State>, steps: seq<Step>, k: nat)
    requires cfg.Valid() && IsRun(cfg, states, steps) && k < |states|
    ensures var s := states[k];
            && s.last.exit == cfg.ntasks + 1 - Count(Finished, s.tasks)
            && ((forall i :: 0 <= i < |s.tasks| ==> !Is(PastReset, s.tasks[i])) ==>
                  s.last.barrier == cfg.ntasks + 1 - Count(Arrived(s.releases), s.tasks))
            && ((exists i :: 0 <= i < |s.tasks| && Is(PastReset, s.tasks[i])) ==> s.last.barrier == cfg.ntasks + 1)
            && forall i :: 0 <= i < |s.tasks| ==>
                 (s.tasks[i].pc.DropBarrier? ==> s.tasks[i].value >= 2)
                 && (s.tasks[i].pc.DropExit? ==> s.tasks[i].value >= 2)
  {
    var s := states[k];
    RunInv(cfg, states, steps, k);
    CountBounds(PastReset, s.tasks);
    forall i | 0 <= i < |s.tasks|
      ensures s.tasks[i].pc.DropBarrier? ==> s.tasks[i].value >= 2
      ensures s.tasks[i].pc.DropExit? ==> s.tasks[i].value >= 2
    {
      if s.tasks[i].pc.DropBarrier? {
        SignalValue(cfg, s, i);
      } else if s.tasks[i].pc.DropExit? {
        ExitValue(cfg, s, i);
      }
    }
  }

  /**
   What the registers can be read as, in numbers: 0 while somebody holds them; 2 or 1 for the release, by
   the parity of the rounds released; and for the FIFO's event 2 when a chunk is wanted, 1 when it is
   there and 3 when it has been taken.
   */
  lemma RegisterValues(cfg: Config, states: seq<State>, steps: seq<Step>, k: nat)
    requires cfg.Valid() && IsRun(cfg, states, steps) && k < |states|
    ensures var s := states[k];
            && (s.regs.release == 0 || s.regs.release == 2 - s.releases % 2)
            && (s.regs.exit == 0 || s.regs.exit == cfg.ntasks + 1 - Count(Finished, s.tasks))
            && (s.regs.barrier == 0 || 1 <= s.regs.barrier <= cfg.ntasks + 1)
            && s.regs.fifo <= 3
            && (s.regs.fifo == 1 ==> s.delivered == s.accepted + 1)
            && (s.regs.fifo == 2 ==> s.delivered == s.accepted)
            && (s.regs.fifo == 3 ==> s.delivered == s.accepted > 0)
  {
    var s := states[k];
    RunInv(cfg, states, steps, k);
    RegisterIsLast(cfg, s);
  }

  lemma RegisterIsLast(cfg: Config, s: State)
    requires Inv(cfg, s)
    ensures s.regs.exit == 0 || s.regs.exit == s.last.exit
    ensures s.regs.barrier == 0 || s.regs.barrier == s.last.barrier
    ensures s.regs.release == 0 || s.regs.release == s.last.release
    ensures s.regs.fifo == 0 || s.regs.fifo == s.last.fifo
  {
    assert Tokens(s, Exit) <= 1 && s.regs.Get(Exit) == s.regs.exit && s.last.Get(Exit) == s.last.exit;
    assert Tokens(s, Barrier) <= 1 && s.regs.Get(Barrier) == s.regs.barrier && s.last.Get(Barrier) == s.last.barrier;
    assert Tokens(s, Release) <= 1 && s.regs.Get(Release) == s.regs.release && s.last.Get(Release) == s.last.release;
    assert Tokens(s, Fifo) <= 1 && s.regs.Get(Fifo) == s.regs.fifo && s.last.Get(Fifo) == s.last.fifo;
  }

  /**
   Join is exact, under both kinds of wait: the exit register logically holds 1 exactly when every
   task has done its exit decrement, so a joiner that has returned, or is about to, finds them all gone.
   */
  lemma JoinExact(cfg: Config, states: seq<State>, steps: seq<Step>, k: nat)
    requires cfg.Valid() && IsRun(cfg, states, steps) && k < |states|
    ensures var s := states[k];
            && (s.last.exit == READ <==> forall i :: 0 <= i < |s.tasks| ==> s.tasks[i].pc.Exited?)
            && (s.joiner == Joined || s.joiner == JoinWrite(READ) || s.regs.exit == READ ==>
                  forall i :: 0 <= i < |s.tasks| ==> s.tasks[i].pc.Exited?)
  {
    var s := states[k];
    RunInv(cfg, states, steps, k);
    CountBounds(Finished, s.tasks);
    assert Tokens(s, Exit) <= 1;
    assert s.regs.Get(Exit) == 0 || s.regs.Get(Exit) == s.last.Get(Exit);
    assert forall i :: 0 <= i < |s.tasks| ==> (Is(Finished, s.tasks[i]) <==> s.tasks[i].pc.Exited?);
  }

  // ----- tokens

  datatype Thread = TaskThread(i: nat) | JoinThread | HostThread

  ghost predicate ThreadHolds(s: State, th: Thread, r: Reg) {
    match th
    case TaskThread(i) => i < |s.tasks| && Holds(s.tasks[i].pc, r)
    case JoinThread => JoinHolds(s.joiner, r)
    case HostThread => HostHolds(s.host, r)
  }

  /** The value the holder of a register took out of it, where its code still has it. */
  ghost predicate CarriesValue(s: State, th: Thread, v: Word) {
    match th
    case TaskThread(i) =>
      i < |s.tasks| &&
      (match s.tasks[i].pc
       case RestoreRelease => s.tasks[i].go == v
       case DropBarrier => s.tasks[i].value == v
       case WaitWrite => s.tasks[i].value == v
       case RequestChunk => s.tasks[i].value == v
       case AwaitWrite => s.tasks[i].value == v
       case DropExit => s.tasks[i].value == v
       case _ => true)  // the code discards the value
    case JoinThread => s.joiner == JoinWrite(v)
    case HostThread => if s.host.HostBack? then s.host.value == v else v == WRITE
  }

  lemma AtMostOneHolder(s: State, r: Reg, a: Thread, b: Thread)
    requires Tokens(s, r) <= 1 && ThreadHolds(s, a, r) && ThreadHolds(s, b, r)
    ensures a == b && s.regs.Get(r) == 0
  {
    CountBounds(Holding(r), s.tasks);
    if a.TaskThread? && b.TaskThread? && a != b {
      assert Is(Holding(r), s.tasks[a.i]) && Is(Holding(r), s.tasks[b.i]);
      CountUnique(Holding(r), s.tasks, a.i, b.i);
    }
    assert a.TaskThread? ==> Is(Holding(r), s.tasks[a.i]);
    assert b.TaskThread? ==> Is(Holding(r), s.tasks[b.i]);
  }

  /**
   Token discipline.  Under either wait, a register never has two holders and a held register reads
   0; the holder's local is the value last stored, and no stored value is 0.  With the write-back
   wait a register that reads 0 always has a holder.
   */
  lemma TokenDiscipline(cfg: Config, states: seq<State>, steps: seq<Step>, k: nat, r: Reg)
    requires cfg.Valid() && IsRun(cfg, states, steps) && k < |states|
    ensures var s := states[k];
            && s.last.Get(r) != 0
            && (s.regs.Get(r) == 0 || s.regs.Get(r) == s.last.Get(r))
            && (forall a, b :: ThreadHolds(s, a, r) && ThreadHolds(s, b, r) ==> a == b)
            && (forall a :: ThreadHolds(s, a, r) ==> s.regs.Get(r) == 0 && CarriesValue(s, a, s.last.Get(r)))
            && (cfg.wait == WriteBack && s.regs.Get(r) == 0 ==> exists a :: ThreadHolds(s, a, r))
  {
    var s := states[k];
    RunInv(cfg, states, steps, k);
    assert Tokens(s, r) <= 1;
    forall a, b | ThreadHolds(s, a, r) && ThreadHolds(s, b, r) ensures a == b && s.regs.Get(r) == 0 {
      AtMostOneHolder(s, r, a, b);
    }
    forall a | ThreadHolds(s, a, r) ensures CarriesValue(s, a, s.last.Get(r)) {
      if a.TaskThread? {
        assert TaskOk(cfg, s.last, s.releases, s.tasks[a.i]);
      }
    }
    if cfg.wait == WriteBack && s.regs.Get(r) == 0 {
      SomeHolder(s, r);
    }
  }

  lemma SomeHolder(s: State, r: Reg)
    requires Tokens(s, r) == 1 && s.regs.Get(r) == 0
    ensures exists a :: ThreadHolds(s, a, r)
  {
    CountBounds(Holding(r), s.tasks);
    if JoinHolds(s.joiner, r) {
      assert ThreadHolds(s, JoinThread, r);
    } else if HostHolds(s.host, r) {
      assert ThreadHolds(s, HostThread, r);
    } else {
      var i :| 0 <= i < |s.tasks| && Is(Holding(r), s.tasks[i]);
      assert ThreadHolds(s, TaskThread(i), r);
    }
  }

  // ----- overwrite against increment

  /** Whoever is about to write a register finds it at 0. */
  lemma WritesFindZero(cfg: Config, s: State, step: Step)
    requires Inv(cfg, s) && Enabled(cfg, s, step)
    ensures step.TaskStep? && TaskAccess(cfg, s.tasks[step.i]).Write? ==>
            s.regs.Get(TaskAccess(cfg, s.tasks[step.i]).reg) == 0
    ensures step.JoinStep? && JoinAccess(s.joiner).Write? ==> s.regs.exit == 0
    ensures step.HostStep? && HostAccess(s.host).Write? ==> s.regs.fifo == 0
  {
    if step.TaskStep? && TaskAccess(cfg, s.tasks[step.i]).Write? {
      var reg := TaskAccess(cfg, s.tasks[step.i]).reg;
      OnlyHolder(cfg, s, reg, step.i);
    }
    assert Tokens(s, Exit) <= 1 && Tokens(s, Fifo) <= 1;
    assert s.regs.Get(Exit) == s.regs.exit && s.regs.Get(Fifo) == s.regs.fifo;
  }

  /** A task looks at the registers only through what it reads. */
  lemma TaskIgnoresStore(cfg: Config, kind: StoreKind, t: Task, v: Word)
    ensures TaskAccess(cfg.(store := kind), t) == TaskAccess(cfg, t)
    ensures AfterRead(cfg.(store := kind), t, v) == AfterRead(cfg, t, v)
  {
  }

  /** Into a register that reads 0, both kinds of write store the same. */
  lemma StoreIntoZero(kind: StoreKind, v: Word)
    ensures Store(kind, 0, v) == v
  {
  }

  lemma SameTaskStep(cfg: Config, kind: StoreKind, s: State, i: nat)
    requires i < |s.tasks|
    requires TaskAccess(cfg, s.tasks[i]).Write? ==> s.regs.Get(TaskAccess(cfg, s.tasks[i]).reg) == 0
    ensures DoTask(cfg.(store := kind), s, i) == DoTask(cfg, s, i)
  {
    var t := s.tasks[i];
    match TaskAccess(cfg, t)
    case NoAccess => TaskIgnoresStore(cfg, kind, t, 0);
    case Read(r) => TaskIgnoresStore(cfg, kind, t, s.regs.Get(r));
    case Write(r, v) =>
      TaskIgnoresStore(cfg, kind, t, 0);
      StoreIntoZero(kind, v);
      StoreIntoZero(cfg.store, v);
  }

  lemma SameStep(cfg: Config, kind: StoreKind, s: State, step: Step)
    requires Inv(cfg, s) && Enabled(cfg, s, step)
    ensures Follows(cfg.(store := kind), s, step, Do(cfg, s, step))
  {
    WritesFindZero(cfg, s, step);
    match step
    case TaskStep(i) =>
      TaskIgnoresStore(cfg, kind, s.tasks[i], 0);
      SameTaskStep(cfg, kind, s, i);
    case JoinStep => StoreIntoZero(kind, s.last.exit);
    case HostStep => StoreIntoZero(kind, s.last.fifo);
    case _ =>
  }

  /** Every run on overwriting registers is, step for step, a run on incrementing ones, and conversely. */
  lemma StoreKindsIndistinguishable(cfg: Config, states: seq<State>, steps: seq<Step>)
    requires cfg.Valid()
    ensures IsRun(cfg.(store := Overwrite), states, steps) <==> IsRun(cfg.(store := Increment), states, steps)
  {
    if IsRun(cfg.(store := Overwrite), states, steps) {
      SameRun(cfg.(store := Overwrite), Increment, states, steps);
    }
    if IsRun(cfg.(store := Increment), states, steps) {
      SameRun(cfg.(store := Increment), Overwrite, states, steps);
    }
  }

  lemma SameRun(cfg: Config, kind: StoreKind, states: seq<State>, steps: seq<Step>)
    requires cfg.Valid() && IsRun(cfg, states, steps)
    ensures IsRun(cfg.(store := kind), states, steps)
  {
    forall k | 0 <= k < |steps| ensures Follows(cfg.(store := kind), states[k], steps[k], states[k + 1]) {
      assert Follows(cfg, states[k], steps[k], states[k + 1]);
      RunInv(cfg, states, steps, k);
      SameStep(cfg, kind, states[k], steps[k]);
    }
  }
}
