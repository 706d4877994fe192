/** Every step keeps the invariant. */
module Preservation {
  import opened Words
  import opened Protocol
  import opened Counting
  import opened Invariant

  /** The thread that is about to write a register is its only holder, and the register reads 0. */
  lemma OnlyHolder(cfg: Config, s: State, r: Reg, i: nat)
    requires Inv(cfg, s) && i < |s.tasks| && Holds(s.tasks[i].pc, r)
    ensures s.regs.Get(r) == 0
    ensures !JoinHolds(s.joiner, r) && !HostHolds(s.host, r)
    ensures Count(Holding(r), s.tasks) == 1
    ensures forall j :: 0 <= j < |s.tasks| && j != i ==> !Holds(s.tasks[j].pc, r)
  {
    assert Tokens(s, r) <= 1;
    CountBounds(Holding(r), s.tasks);
    assert Is(Holding(r), s.tasks[i]);
    forall j | 0 <= j < |s.tasks| && j != i ensures !Holds(s.tasks[j].pc, r) {
      if Holds(s.tasks[j].pc, r) {
        CountUnique(Holding(r), s.tasks, i, j);
      }
    }
  }

  /** While a task is in the serial section, every task has arrived and no other task is serial. */
  lemma SerialAlone(cfg: Config, s: State, i: nat)
    requires Inv(cfg, s) && i < |s.tasks| && InSerial(s.tasks[i].pc)
    ensures Count(Serial, s.tasks) == 1 && Count(Arrived(s.releases), s.tasks) == cfg.ntasks
    ensures forall j :: 0 <= j < |s.tasks| ==> s.tasks[j].rounds == s.releases
    ensures forall j :: 0 <= j < |s.tasks| && j != i ==> InWait(s.tasks[j].pc)
  {
    CountBounds(Serial, s.tasks);
    CountBounds(Arrived(s.releases), s.tasks);
    assert Is(Serial, s.tasks[i]);
    forall j | 0 <= j < |s.tasks|
      ensures s.tasks[j].rounds == s.releases && (j != i ==> InWait(s.tasks[j].pc))
    {
      assert Is(Arrived(s.releases), s.tasks[j]);
      if j != i && InSerial(s.tasks[j].pc) {
        CountUnique(Serial, s.tasks, i, j);
      }
    }
  }

  /** The parts of the serial section are counted at most once too. */
  lemma SerialParts(cfg: Config, s: State)
    requires Inv(cfg, s)
    ensures Count(Awaiting, s.tasks) <= Count(Securing, s.tasks) <= Count(Serial, s.tasks) <= 1
    ensures Count(PastReset, s.tasks) <= Count(Serial, s.tasks)
    ensures Count(PastAccept, s.tasks) <= Count(Serial, s.tasks)
  {
    CountLe(Awaiting, Securing, s.tasks);
    CountLe(Securing, Serial, s.tasks);
    CountLe(PastReset, Serial, s.tasks);
    CountLe(PastAccept, Serial, s.tasks);
  }

  predicate IsRead(pc: Pc) {
    || pc.LockRelease? || pc.LockBarrier? || pc.WaitRead? || pc.LockFifo? || pc.AwaitRead?
    || pc.RelockFifo? || pc.LockReset? || pc.LockFlip? || pc.LockExit?
  }

  predicate IsWrite(pc: Pc) {
    || pc.RestoreRelease? || pc.DropBarrier? || pc.WaitWrite? || pc.RequestChunk? || pc.AwaitWrite?
    || pc.AcceptChunk? || pc.WriteReset? || pc.WriteFlip? || pc.DropExit?
  }

  // ----- tokens

  /** A read takes the token, if there is one: the task then holds the register, or a consuming wait dropped it. */
  lemma ReadTakes(cfg: Config, t: Task, v: Word, r: Reg)
    requires IsRead(t.pc)
    ensures TaskAccess(cfg, t).Read? && !Holds(t.pc, r)
    ensures v == 0 ==> AfterRead(cfg, t, v) == t
    ensures Holds(AfterRead(cfg, t, v).pc, r) ==> v != 0 && r == TaskAccess(cfg, t).reg
    ensures v != 0 && r == TaskAccess(cfg, t).reg && cfg.wait == WriteBack ==> Holds(AfterRead(cfg, t, v).pc, r)
  {
  }

  /** A write gives the token back. */
  lemma WriteGives(cfg: Config, t: Task, r: Reg)
    requires IsWrite(t.pc)
    ensures TaskAccess(cfg, t).Write? && (Holds(t.pc, r) <==> r == TaskAccess(cfg, t).reg)
    ensures !Holds(AfterWrite(t).pc, r)
  {
  }

  lemma TokensAfterRead(cfg: Config, s: State, i: nat)
    requires TokensOk(cfg, s) && i < |s.tasks| && IsRead(s.tasks[i].pc)
    ensures TokensOk(cfg, DoTask(cfg, s, i))
  {
    var s' := DoTask(cfg, s, i);
    ReadTakes(cfg, s.tasks[i], 0, Exit);
    var reg := TaskAccess(cfg, s.tasks[i]).reg;
    var t' := AfterRead(cfg, s.tasks[i], s.regs.Get(reg));
    assert s'.tasks == s.tasks[i := t'] && s'.regs == s.regs.Set(reg, 0);
    forall r: Reg
      ensures Tokens(s', r) <= 1 && (cfg.wait == WriteBack ==> Tokens(s', r) == 1)
      ensures s'.last.Get(r) != 0 && (s'.regs.Get(r) == 0 || s'.regs.Get(r) == s'.last.Get(r))
    {
      assert Tokens(s, r) <= 1;
      ReadTakes(cfg, s.tasks[i], s.regs.Get(reg), r);
      CountUpdate(Holding(r), s.tasks, i, t');
    }
  }

  // ----- reads

  lemma ReadKeepsTask(cfg: Config, last: Regs, releases: nat, t: Task, v: Word)
    requires IsRead(t.pc) && TaskOk(cfg, last, releases, t)
    requires v == 0 || v == last.Get(TaskAccess(cfg, t).reg)
    requires last.release == ReleaseValue(releases)
    ensures TaskOk(cfg, last, releases, AfterRead(cfg, t, v))
  {
  }

  /** No read signals, resets, releases, accepts or exits. */
  lemma ReadKeepsFeatures(cfg: Config, last: Regs, releases: nat, t: Task, v: Word)
    requires IsRead(t.pc) && TaskOk(cfg, last, releases, t)
    requires v == 0 || v == last.Get(TaskAccess(cfg, t).reg)
    requires last.release == ReleaseValue(releases)
    ensures var t' := AfterRead(cfg, t, v);
            && Is(Arrived(releases), t') == Is(Arrived(releases), t)
            && Is(Serial, t') == Is(Serial, t)
            && Is(PastReset, t') == Is(PastReset, t)
            && Is(Finished, t') == Is(Finished, t)
            && Is(PastAccept, t') == Is(PastAccept, t)
            && (Is(Securing, t) ==> Is(Securing, t'))
            && (Is(Securing, t') && !Is(Securing, t) ==> last.fifo == READ && t.pc.LockFifo?)
            && (Is(Awaiting, t') ==> Is(Awaiting, t))
            && (Is(Awaiting, t) && !Is(Awaiting, t') ==> last.fifo == READ)
  {
  }

  /** `s'` is `s` with task `i` become `t'`; registers aside, nothing else differs. */
  ghost predicate OnlyTask(s: State, s': State, i: nat, t': Task) {
    i < |s.tasks| && s' == s.(tasks := s.tasks[i := t'], regs := s'.regs)
  }

  lemma TasksAfter(cfg: Config, s: State, s': State, i: nat, t': Task)
    requires TasksOk(cfg, s) && OnlyTask(s, s', i, t')
    requires TaskOk(cfg, s.last, s.releases, t')
    ensures TasksOk(cfg, s')
  {
  }

  lemma BarrierAfter(cfg: Config, s: State, s': State, i: nat, t': Task)
    requires BarrierOk(cfg, s) && OnlyTask(s, s', i, t')
    requires Is(Arrived(s.releases), t') == Is(Arrived(s.releases), s.tasks[i])
    requires Is(Serial, t') == Is(Serial, s.tasks[i])
    requires Is(PastReset, t') == Is(PastReset, s.tasks[i])
    requires Is(Finished, t') == Is(Finished, s.tasks[i])
    ensures BarrierOk(cfg, s')
  {
    CountUpdate(Arrived(s.releases), s.tasks, i, t');
    CountUpdate(Serial, s.tasks, i, t');
    CountUpdate(PastReset, s.tasks, i, t');
    CountUpdate(Finished, s.tasks, i, t');
  }

  /** Task `i` becomes `t'` and nothing the FIFO handshake depends on changes, but for the release of its round. */
  ghost predicate SameFifo(s: State, s': State, i: nat, t': Task) {
    && i < |s.tasks| && s'.tasks == s.tasks[i := t']
    && s'.last.fifo == s.last.fifo && s'.host == s.host && s'.delivered == s.delivered && s'.accepted == s.accepted
    && s'.streamed + Bit(Is(PastAccept, t')) == s.streamed + Bit(Is(PastAccept, s.tasks[i]))
    && 0 <= s'.streamed - s.streamed <= s'.releases - s.releases
  }

  lemma FifoAfter(cfg: Config, s: State, s': State, i: nat, t': Task)
    requires FifoOk(cfg, s) && SameFifo(s, s', i, t')
    requires Count(Securing, s.tasks) <= 1
    requires Is(Securing, s.tasks[i]) ==> Is(Securing, t')
    requires Is(Securing, t') && !Is(Securing, s.tasks[i]) ==> s.last.fifo == READ && Count(Securing, s.tasks) == 0
    requires Is(Awaiting, t') != Is(Awaiting, s.tasks[i]) ==> s.last.fifo == READ
    ensures FifoOk(cfg, s')
  {
    CountUpdate(PastAccept, s.tasks, i, t');
    CountUpdate(Securing, s.tasks, i, t');
    CountUpdate(Awaiting, s.tasks, i, t');
  }

  lemma FifoKept(cfg: Config, s: State, s': State, i: nat, t': Task)
    requires Inv(cfg, s) && SameFifo(s, s', i, t')
    requires Is(Securing, s.tasks[i]) ==> Is(Securing, t')
    requires Is(Securing, t') && !Is(Securing, s.tasks[i]) ==> s.last.fifo == READ && s.tasks[i].pc.LockFifo?
    requires Is(Awaiting, t') != Is(Awaiting, s.tasks[i]) ==> s.last.fifo == READ
    ensures FifoOk(cfg, s')
  {
    SerialParts(cfg, s);
    if Is(Securing, t') && !Is(Securing, s.tasks[i]) {
      NotSecuring(cfg, s, i);
    }
    FifoAfter(cfg, s, s', i, t');
  }

  /** A read changes the register and the reading task only; the value read is 0 or the one last stored. */
  lemma ReadEffect(cfg: Config, s: State, i: nat) returns (v: Word)
    requires TokensOk(cfg, s) && i < |s.tasks| && IsRead(s.tasks[i].pc)
    ensures OnlyTask(s, DoTask(cfg, s, i), i, AfterRead(cfg, s.tasks[i], v))
    ensures TaskAccess(cfg, s.tasks[i]).Read?
    ensures v == 0 || v == s.last.Get(TaskAccess(cfg, s.tasks[i]).reg)
  {
    ReadTakes(cfg, s.tasks[i], 0, Exit);
    var reg := TaskAccess(cfg, s.tasks[i]).reg;
    v := s.regs.Get(reg);
    assert Tokens(s, reg) <= 1;
  }

  lemma PreserveRead(cfg: Config, s: State, i: nat)
    requires Inv(cfg, s) && i < |s.tasks| && IsRead(s.tasks[i].pc)
    ensures Inv(cfg, DoTask(cfg, s, i))
  {
    var t, s' := s.tasks[i], DoTask(cfg, s, i);
    var v := ReadEffect(cfg, s, i);
    var t' := AfterRead(cfg, t, v);
    TokensAfterRead(cfg, s, i);
    ReadKeepsTask(cfg, s.last, s.releases, t, v);
    ReadKeepsFeatures(cfg, s.last, s.releases, t, v);
    TasksAfter(cfg, s, s', i, t');
    BarrierAfter(cfg, s, s', i, t');
    FifoKept(cfg, s, s', i, t');
  }

  /** A task that is serial but not in the handshake is alone in the serial section, so nobody is in the handshake. */
  lemma NotSecuring(cfg: Config, s: State, i: nat)
    requires Inv(cfg, s) && i < |s.tasks| && InSerial(s.tasks[i].pc) && !Is(Securing, s.tasks[i])
    ensures Count(Securing, s.tasks) == 0 && Count(Awaiting, s.tasks) == 0
  {
    SerialAlone(cfg, s, i);
    forall j | 0 <= j < |s.tasks| ensures !Is(Securing, s.tasks[j]) && !Is(Awaiting, s.tasks[j]) {
    }
    CountBounds(Securing, s.tasks);
    CountBounds(Awaiting, s.tasks);
  }

  // ----- writes

  /** Task `i` stored `v` in `reg`, which it held and which read 0. */
  ghost predicate Wrote(cfg: Config, s: State, s': State, i: nat, reg: Reg, v: Word) {
    && i < |s.tasks|
    && TaskAccess(cfg, s.tasks[i]) == Write(reg, v)
    && Holds(s.tasks[i].pc, reg) && s.regs.Get(reg) == 0
    && s'.tasks == s.tasks[i := AfterWrite(s.tasks[i])]
    && s'.regs == s.regs.Set(reg, v) && s'.last == s.last.Set(reg, v)
    && s'.joiner == s.joiner && s'.host == s.host && s'.slot == s.slot && s'.delivered == s.delivered
    && s'.accepted == s.accepted + Bit(s.tasks[i].pc.AcceptChunk?)
    && s'.releases == s.releases + Bit(s.tasks[i].pc.WriteFlip?)
    && s'.streamed == s.streamed + Bit(s.tasks[i].pc.WriteFlip? && s.tasks[i].fifo)
  }

  /** What a task write does: the register it goes to is the writer's alone, and reads 0. */
  lemma WriteEffect(cfg: Config, s: State, i: nat) returns (reg: Reg, v: Word)
    requires Inv(cfg, s) && i < |s.tasks| && IsWrite(s.tasks[i].pc)
    ensures Wrote(cfg, s, DoTask(cfg, s, i), i, reg, v)
  {
    WriteGives(cfg, s.tasks[i], Exit);
    reg := TaskAccess(cfg, s.tasks[i]).reg;
    v := TaskAccess(cfg, s.tasks[i]).value;
    WriteGives(cfg, s.tasks[i], reg);
    OnlyHolder(cfg, s, reg, i);
  }

  lemma TokensAfterWrite(cfg: Config, s: State, s': State, i: nat, reg: Reg, v: Word)
    requires TokensOk(cfg, s) && Wrote(cfg, s, s', i, reg, v) && IsWrite(s.tasks[i].pc) && v != 0
    ensures TokensOk(cfg, s')
  {
    var t' := AfterWrite(s.tasks[i]);
    forall r: Reg
      ensures Tokens(s', r) <= 1 && (cfg.wait == WriteBack ==> Tokens(s', r) == 1)
      ensures s'.last.Get(r) != 0 && (s'.regs.Get(r) == 0 || s'.regs.Get(r) == s'.last.Get(r))
    {
      assert Tokens(s, r) <= 1;
      WriteGives(cfg, s.tasks[i], r);
      CountUpdate(Holding(r), s.tasks, i, t');
    }
  }

  /** No task ever stores 0. */
  lemma WritesNonZero(cfg: Config, s: State, s': State, i: nat, reg: Reg, v: Word)
    requires Inv(cfg, s) && Wrote(cfg, s, s', i, reg, v)
    ensures v != 0
  {
    assert TaskOk(cfg, s.last, s.releases, s.tasks[i]);
    assert s.last.Get(reg) != 0;
    if s.tasks[i].pc.DropBarrier? {
      SignalValue(cfg, s, i);
    } else if s.tasks[i].pc.DropExit? {
      ExitValue(cfg, s, i);
    }
  }

  /** When a task signals, the barrier register holds at least 2, and 2 exactly when everybody else has arrived. */
  lemma SignalValue(cfg: Config, s: State, i: nat)
    requires Inv(cfg, s) && i < |s.tasks| && s.tasks[i].pc.DropBarrier?
    ensures s.tasks[i].rounds == s.releases
    ensures Count(Serial, s.tasks) == 0 && Count(PastReset, s.tasks) == 0
    ensures s.tasks[i].value == s.last.barrier == cfg.ntasks + 1 - Count(Arrived(s.releases), s.tasks) >= 2
  {
    assert TaskOk(cfg, s.last, s.releases, s.tasks[i]);
    assert !Is(Arrived(s.releases), s.tasks[i]);
    CountBounds(Arrived(s.releases), s.tasks);
    SerialParts(cfg, s);
  }

  /** When a task leaves, the exit register holds at least 2, and the joiner neither holds it nor has returned. */
  lemma ExitValue(cfg: Config, s: State, i: nat)
    requires Inv(cfg, s) && i < |s.tasks| && s.tasks[i].pc.DropExit?
    ensures s.tasks[i].value == s.last.exit == cfg.ntasks + 1 - Count(Finished, s.tasks) >= 2
    ensures s.joiner == JoinRead
  {
    assert TaskOk(cfg, s.last, s.releases, s.tasks[i]);
    assert !Is(Finished, s.tasks[i]);
    CountBounds(Finished, s.tasks);
    OnlyHolder(cfg, s, Exit, i);
  }

  /** A task that puts a value into a register is left as the invariant has it. */
  lemma WriterOk(cfg: Config, last: Regs, releases: nat, t: Task, reg: Reg, v: Word)
    requires TaskOk(cfg, last, releases, t) && IsWrite(t.pc) && TaskAccess(cfg, t) == Write(reg, v)
    requires last.release == ReleaseValue(releases)
    requires t.pc.WriteFlip? ==> t.rounds == releases
    ensures TaskOk(cfg, last.Set(reg, v), releases + Bit(t.pc.WriteFlip?), AfterWrite(t))
  {
    WriterCarries(cfg, last, t, reg, v);
    hide CarriesOk;
    WriterRounds(cfg, last, releases, t);
  }

  lemma WriterCarries(cfg: Config, last: Regs, t: Task, reg: Reg, v: Word)
    requires CarriesOk(last, t) && IsWrite(t.pc) && TaskAccess(cfg, t) == Write(reg, v)
    ensures CarriesOk(last.Set(reg, v), AfterWrite(t))
  {
  }

  lemma WriterRounds(cfg: Config, last: Regs, releases: nat, t: Task)
    requires TaskOk(cfg, last, releases, t) && IsWrite(t.pc) && last.release == ReleaseValue(releases)
    requires t.pc.WriteFlip? ==> t.rounds == releases
    ensures RoundsOk(cfg, releases + Bit(t.pc.WriteFlip?), AfterWrite(t))
  {
  }

  /** A thread that does not hold the register carries on unaffected by a write to it. */
  lemma OtherOk(cfg: Config, last: Regs, releases: nat, reg: Reg, v: Word, t: Task)
    requires TaskOk(cfg, last, releases, t) && !Holds(t.pc, reg)
    requires reg == Fifo && t.pc.RelockFifo? ==> v == READ
    ensures TaskOk(cfg, last.Set(reg, v), releases, t)
    ensures InWait(t.pc) && t.rounds == releases ==> TaskOk(cfg, last.Set(reg, v), releases + 1, t)
  {
  }

  lemma TasksAfterWrite(cfg: Config, s: State, s': State, i: nat, reg: Reg, v: Word)
    requires Inv(cfg, s) && Wrote(cfg, s, s', i, reg, v) && IsWrite(s.tasks[i].pc)
    ensures TasksOk(cfg, s')
  {
    var t := s.tasks[i];
    OnlyHolder(cfg, s, reg, i);
    if InSerial(t.pc) {
      SerialAlone(cfg, s, i);
    }
    forall j | 0 <= j < |s.tasks| ensures TaskOk(cfg, s'.last, s'.releases, s'.tasks[j]) {
      assert TaskOk(cfg, s.last, s.releases, s.tasks[j]);
      if j == i {
        WriterOk(cfg, s.last, s.releases, t, reg, v);
      } else {
        OtherOk(cfg, s.last, s.releases, reg, v, s.tasks[j]);
      }
    }
  }

  // ----- writes: the barrier's counts

  lemma BarrierCounts(s: State, s': State, i: nat, t': Task)
    requires i < |s.tasks| && s'.tasks == s.tasks[i := t']
    ensures Count(Arrived(s.releases), s'.tasks) + Bit(Is(Arrived(s.releases), s.tasks[i]))
         == Count(Arrived(s.releases), s.tasks) + Bit(Is(Arrived(s.releases), t'))
    ensures Count(Serial, s'.tasks) + Bit(Is(Serial, s.tasks[i])) == Count(Serial, s.tasks) + Bit(Is(Serial, t'))
    ensures Count(PastReset, s'.tasks) + Bit(Is(PastReset, s.tasks[i])) ==
            Count(PastReset, s.tasks) + Bit(Is(PastReset, t'))
    ensures Count(Finished, s'.tasks) + Bit(Is(Finished, s.tasks[i])) ==
            Count(Finished, s.tasks) + Bit(Is(Finished, t'))
  {
    CountUpdate(Arrived(s.releases), s.tasks, i, t');
    CountUpdate(Serial, s.tasks, i, t');
    CountUpdate(PastReset, s.tasks, i, t');
    CountUpdate(Finished, s.tasks, i, t');
  }

  lemma BarrierAfterSignal(cfg: Config, s: State, s': State, i: nat, reg: Reg, v: Word)
    requires Inv(cfg, s) && Wrote(cfg, s, s', i, reg, v) && s.tasks[i].pc.DropBarrier?
    ensures BarrierOk(cfg, s')
  {
    SignalValue(cfg, s, i);
    BarrierCounts(s, s', i, AfterWrite(s.tasks[i]));
  }

  lemma BarrierAfterReset(cfg: Config, s: State, s': State, i: nat, reg: Reg, v: Word)
    requires Inv(cfg, s) && Wrote(cfg, s, s', i, reg, v) && s.tasks[i].pc.WriteReset?
    ensures BarrierOk(cfg, s')
  {
    BarrierCounts(s, s', i, AfterWrite(s.tasks[i]));
  }

  lemma BarrierAfterExit(cfg: Config, s: State, s': State, i: nat, reg: Reg, v: Word)
    requires Inv(cfg, s) && Wrote(cfg, s, s', i, reg, v) && s.tasks[i].pc.DropExit?
    ensures BarrierOk(cfg, s')
  {
    ExitValue(cfg, s, i);
    BarrierCounts(s, s', i, AfterWrite(s.tasks[i]));
  }

  /** The release of a round: nobody has arrived in the next one, and nobody is serial. */
  lemma BarrierAfterFlip(cfg: Config, s: State, s': State, i: nat, reg: Reg, v: Word)
    requires Inv(cfg, s) && Wrote(cfg, s, s', i, reg, v) && s.tasks[i].pc.WriteFlip?
    ensures BarrierOk(cfg, s')
  {
    SerialAlone(cfg, s, i);
    NobodyArrived(cfg, s, s', i);
    SerialParts(cfg, s);
    assert TaskOk(cfg, s.last, s.releases, s.tasks[i]);
    BarrierCounts(s, s', i, AfterWrite(s.tasks[i]));
  }

  lemma NobodyArrived(cfg: Config, s: State, s': State, i: nat)
    requires i < |s.tasks| && s.tasks[i].pc.WriteFlip? && s'.releases == s.releases + 1
    requires s'.tasks == s.tasks[i := AfterWrite(s.tasks[i])]
    requires forall j :: 0 <= j < |s.tasks| ==> s.tasks[j].rounds == s.releases
    ensures Count(Arrived(s'.releases), s'.tasks) == 0
  {
    forall j | 0 <= j < |s'.tasks| ensures !Is(Arrived(s'.releases), s'.tasks[j]) {
    }
    CountBounds(Arrived(s'.releases), s'.tasks);
  }

  lemma BarrierAfterFifo(cfg: Config, s: State, s': State, i: nat, reg: Reg, v: Word)
    requires Inv(cfg, s) && Wrote(cfg, s, s', i, reg, v)
    requires s.tasks[i].pc.RequestChunk? || s.tasks[i].pc.AcceptChunk?
    ensures BarrierOk(cfg, s')
  {
    BarrierCounts(s, s', i, AfterWrite(s.tasks[i]));
  }

  /** Putting back the value just read signals, resets, releases and exits nothing. */
  lemma RestoreKeepsFeatures(cfg: Config, last: Regs, releases: nat, t: Task)
    requires t.pc.RestoreRelease? || t.pc.WaitWrite? || t.pc.AwaitWrite?
    requires TaskOk(cfg, last, releases, t) && last.release == ReleaseValue(releases)
    ensures var t' := AfterWrite(t);
            && Is(Arrived(releases), t') == Is(Arrived(releases), t)
            && Is(Serial, t') == Is(Serial, t)
            && Is(PastReset, t') == Is(PastReset, t)
            && Is(Finished, t') == Is(Finished, t)
    ensures exists r: Reg :: TaskAccess(cfg, t) == Write(r, last.Get(r))
  {
    assert TaskAccess(cfg, t) == Write(Release, last.Get(Release)) || TaskAccess(cfg, t) == Write(Fifo, last.Get(Fifo));
  }

  lemma BarrierAfterRestore(cfg: Config, s: State, s': State, i: nat, reg: Reg, v: Word)
    requires Inv(cfg, s) && Wrote(cfg, s, s', i, reg, v)
    requires s.tasks[i].pc.RestoreRelease? || s.tasks[i].pc.WaitWrite? || s.tasks[i].pc.AwaitWrite?
    ensures BarrierOk(cfg, s')
  {
    assert TaskOk(cfg, s.last, s.releases, s.tasks[i]);
    RestoreKeepsFeatures(cfg, s.last, s.releases, s.tasks[i]);
    BarrierAfter(cfg, s, s', i, AfterWrite(s.tasks[i]));
  }

  lemma BarrierAfterWrite(cfg: Config, s: State, s': State, i: nat, reg: Reg, v: Word)
    requires Inv(cfg, s) && Wrote(cfg, s, s', i, reg, v) && IsWrite(s.tasks[i].pc)
    ensures BarrierOk(cfg, s')
  {
    match s.tasks[i].pc
    case DropBarrier => BarrierAfterSignal(cfg, s, s', i, reg, v);
    case RequestChunk => BarrierAfterFifo(cfg, s, s', i, reg, v);
    case AcceptChunk => BarrierAfterFifo(cfg, s, s', i, reg, v);
    case WriteReset => BarrierAfterReset(cfg, s, s', i, reg, v);
    case WriteFlip => BarrierAfterFlip(cfg, s, s', i, reg, v);
    case DropExit => BarrierAfterExit(cfg, s, s', i, reg, v);
    case _ => BarrierAfterRestore(cfg, s, s', i, reg, v);
  }

  // ----- writes: the FIFO handshake

  /** Asking for a chunk starts a handshake. */
  lemma FifoAfterRequest(cfg: Config, s: State, s': State, i: nat, reg: Reg, v: Word)
    requires Inv(cfg, s) && Wrote(cfg, s, s', i, reg, v) && s.tasks[i].pc.RequestChunk?
    ensures FifoOk(cfg, s')
  {
    var t' := AfterWrite(s.tasks[i]);
    OnlyHolder(cfg, s, Fifo, i);
    assert TaskOk(cfg, s.last, s.releases, s.tasks[i]);
    NotSecuring(cfg, s, i);
    CountUpdate(PastAccept, s.tasks, i, t');
    CountUpdate(Awaiting, s.tasks, i, t');
  }

  /** Storing END_FIFO_OPERATION ends it, with one more chunk taken. */
  lemma FifoAfterAccept(cfg: Config, s: State, s': State, i: nat, reg: Reg, v: Word)
    requires Inv(cfg, s) && Wrote(cfg, s, s', i, reg, v) && s.tasks[i].pc.AcceptChunk?
    ensures FifoOk(cfg, s')
  {
    var t' := AfterWrite(s.tasks[i]);
    OnlyHolder(cfg, s, Fifo, i);
    assert TaskOk(cfg, s.last, s.releases, s.tasks[i]);
    SerialParts(cfg, s);
    CountUpdate(PastAccept, s.tasks, i, t');
    CountUpdate(Securing, s.tasks, i, t');
  }

  lemma FifoAfterWrite(cfg: Config, s: State, s': State, i: nat, reg: Reg, v: Word)
    requires Inv(cfg, s) && Wrote(cfg, s, s', i, reg, v) && IsWrite(s.tasks[i].pc)
    ensures FifoOk(cfg, s')
  {
    if s.tasks[i].pc.RequestChunk? {
      FifoAfterRequest(cfg, s, s', i, reg, v);
    } else if s.tasks[i].pc.AcceptChunk? {
      FifoAfterAccept(cfg, s, s', i, reg, v);
    } else {
      assert TaskOk(cfg, s.last, s.releases, s.tasks[i]);
      FifoKept(cfg, s, s', i, AfterWrite(s.tasks[i]));
    }
  }

  lemma PreserveWrite(cfg: Config, s: State, s': State, i: nat, reg: Reg, v: Word)
    requires Inv(cfg, s) && Wrote(cfg, s, s', i, reg, v) && IsWrite(s.tasks[i].pc)
    ensures Inv(cfg, s')
  {
    WritesNonZero(cfg, s, s', i, reg, v);
    TokensAfterWrite(cfg, s, s', i, reg, v);
    TasksAfterWrite(cfg, s, s', i, reg, v);
    BarrierAfterWrite(cfg, s, s', i, reg, v);
    FifoAfterWrite(cfg, s, s', i, reg, v);
  }

  lemma PreserveTask(cfg: Config, s: State, i: nat)
    requires Inv(cfg, s) && i < |s.tasks|
    ensures Inv(cfg, DoTask(cfg, s, i))
  {
    if IsRead(s.tasks[i].pc) {
      PreserveRead(cfg, s, i);
    } else if IsWrite(s.tasks[i].pc) {
      var reg, v := WriteEffect(cfg, s, i);
      PreserveWrite(cfg, s, DoTask(cfg, s, i), i, reg, v);
    }
  }

  // ----- the other threads

  lemma TokensAfterCall(cfg: Config, s: State, s': State, i: nat, t': Task)
    requires TokensOk(cfg, s) && OnlyTask(s, s', i, t') && s'.regs == s.regs
    requires s.tasks[i].pc.Running? && (t'.pc.LockRelease? || t'.pc.LockExit?)
    ensures TokensOk(cfg, s')
  {
    forall r: Reg ensures Tokens(s', r) == Tokens(s, r) {
      CountUpdate(Holding(r), s.tasks, i, t');
    }
  }

  /** Entering `mango_barrier` or `mango_exit`. */
  predicate Calls(cfg: Config, t: Task, t': Task) {
    && t.pc.Running?
    && (|| t' == t.(pc := LockExit)
        || t' == t.(pc := LockRelease, fifo := t'.fifo))
    && (cfg.program.Rounds? ==>
          if t'.pc.LockExit? then t.rounds == cfg.program.rounds
          else t.rounds < cfg.program.rounds && t'.fifo == cfg.program.passes(t.tid, t.rounds))
  }

  /** No call signals, resets, releases, accepts or exits. */
  lemma CallKeepsFeatures(cfg: Config, last: Regs, releases: nat, t: Task, t': Task)
    requires TaskOk(cfg, last, releases, t) && Calls(cfg, t, t')
    ensures TaskOk(cfg, last, releases, t') && (t'.pc.LockRelease? || t'.pc.LockExit?)
    ensures Is(Arrived(releases), t') == Is(Arrived(releases), t)
    ensures !Is(Serial, t') && !Is(PastReset, t') && !Is(Finished, t') && !Is(PastAccept, t')
    ensures !Is(Serial, t) && !Is(PastReset, t) && !Is(Finished, t) && !Is(PastAccept, t)
    ensures !Is(Securing, t') && !Is(Awaiting, t') && !Is(Securing, t) && !Is(Awaiting, t)
  {
  }

  lemma PreserveCall(cfg: Config, s: State, s': State, i: nat, t': Task)
    requires Inv(cfg, s) && OnlyTask(s, s', i, t') && s'.regs == s.regs
    requires Calls(cfg, s.tasks[i], t')
    ensures Inv(cfg, s')
  {
    assert TaskOk(cfg, s.last, s.releases, s.tasks[i]);
    CallKeepsFeatures(cfg, s.last, s.releases, s.tasks[i], t');
    hide TaskOk;
    hide Is;
    hide TokensOk;
    hide BarrierOk;
    hide FifoOk;
    TokensAfterCall(cfg, s, s', i, t');
    TasksAfter(cfg, s, s', i, t');
    hide TasksOk;
    BarrierAfter(cfg, s, s', i, t');
    FifoKept(cfg, s, s', i, t');
  }

  lemma PreserveJoin(cfg: Config, s: State)
    requires Inv(cfg, s)
    ensures Inv(cfg, DoJoin(cfg, s))
  {
    var s' := DoJoin(cfg, s);
    assert Tokens(s, Exit) <= 1;
    assert s' == s.(joiner := s'.joiner, regs := s.regs.(exit := s'.regs.exit));
    TokensAfterJoin(cfg, s);
    hide TokensOk;
    CountBounds(Finished, s.tasks);
  }

  lemma TokensAfterJoin(cfg: Config, s: State)
    requires TokensOk(cfg, s) && (s.joiner.JoinWrite? ==> s.joiner.value == s.last.exit)
    ensures TokensOk(cfg, DoJoin(cfg, s))
  {
    var s' := DoJoin(cfg, s);
    assert Tokens(s, Exit) <= 1;
    forall r: Reg
      ensures Tokens(s', r) <= 1 && (cfg.wait == WriteBack ==> Tokens(s', r) == 1)
      ensures s'.last.Get(r) != 0 && (s'.regs.Get(r) == 0 || s'.regs.Get(r) == s'.last.Get(r))
    {
      assert Tokens(s, r) <= 1;
    }
  }

  lemma TokensAfterHost(cfg: Config, s: State)
    requires TokensOk(cfg, s) && (s.host.HostBack? ==> s.host.value == s.last.fifo)
    ensures TokensOk(cfg, DoHost(cfg, s))
    ensures HostHolds(s.host, Fifo) ==> s.regs.fifo == 0 && Count(Holding(Fifo), s.tasks) == 0
    ensures s.regs.fifo == 0 || s.regs.fifo == s.last.fifo
  {
    var s' := DoHost(cfg, s);
    assert Tokens(s, Fifo) <= 1;
    assert s.last.Get(Fifo) != 0;
    forall r: Reg
      ensures Tokens(s', r) <= 1 && (cfg.wait == WriteBack ==> Tokens(s', r) == 1)
      ensures s'.last.Get(r) != 0 && (s'.regs.Get(r) == 0 || s'.regs.Get(r) == s'.last.Get(r))
    {
      assert Tokens(s, r) <= 1;
    }
  }

  lemma TasksAfterHost(cfg: Config, s: State, s': State)
    requires TasksOk(cfg, s) && s'.tasks == s.tasks && s'.releases == s.releases
    requires s'.last == s.last || (s'.last == s.last.Set(Fifo, READ) && Count(Holding(Fifo), s.tasks) == 0)
    ensures TasksOk(cfg, s')
  {
    forall j | 0 <= j < |s.tasks| ensures TaskOk(cfg, s'.last, s'.releases, s'.tasks[j]) {
      assert TaskOk(cfg, s.last, s.releases, s.tasks[j]);
      if s'.last != s.last {
        CountBounds(Holding(Fifo), s.tasks);
        assert !Is(Holding(Fifo), s.tasks[j]);
        OtherOk(cfg, s.last, s.releases, Fifo, READ, s.tasks[j]);
      }
    }
  }

  lemma PreserveHost(cfg: Config, s: State)
    requires Inv(cfg, s)
    ensures Inv(cfg, DoHost(cfg, s))
  {
    var s' := DoHost(cfg, s);
    TokensAfterHost(cfg, s);
    TasksAfterHost(cfg, s, s');
    FifoAfterHost(cfg, s);
  }

  lemma FifoAfterHost(cfg: Config, s: State)
    requires Inv(cfg, s)
    ensures FifoOk(cfg, DoHost(cfg, s)) && SlotOk(cfg, DoHost(cfg, s))
  {
    TokensAfterHost(cfg, s);
    CountLe(Awaiting, Securing, s.tasks);
    SerialParts(cfg, s);
  }

  lemma PreserveByte(cfg: Config, s: State)
    requires Inv(cfg, s) && Enabled(cfg, s, HostByte)
    ensures Inv(cfg, DoByte(cfg, s))
  {
    var s' := DoByte(cfg, s);
    var chunk := cfg.chunks[s.delivered];
    forall r: Reg ensures Tokens(s', r) == Tokens(s, r) {
    }
    if s.host.at < |s.slot| {
      assert s'.slot[..s.host.at + 1] == s.slot[..s.host.at] + [chunk[s.host.at]] == chunk[..s.host.at + 1];
    } else {
      assert s.slot == s.slot[..s.host.at] == chunk[..s.host.at] == chunk;
    }
  }

  lemma StepKeepsInv(cfg: Config, s: State, step: Step)
    requires Inv(cfg, s) && Enabled(cfg, s, step)
    ensures Inv(cfg, Do(cfg, s, step))
  {
    match step
    case TaskStep(i) => PreserveTask(cfg, s, i);
    case CallBarrier(i, fifo) =>
      PreserveCall(cfg, s, Do(cfg, s, step), i, s.tasks[i].(pc := LockRelease, fifo := fifo));
    case CallExit(i) => PreserveCall(cfg, s, Do(cfg, s, step), i, s.tasks[i].(pc := LockExit));
    case JoinStep => PreserveJoin(cfg, s);
    case HostStep => PreserveHost(cfg, s);
    case HostByte => PreserveByte(cfg, s);
  }

  /** Every state of every run satisfies the invariant. */
  lemma {:induction false} RunInv(cfg: Config, states: seq<State>, steps: seq<Step>, k: nat)
    requires cfg.Valid() && IsRun(cfg, states, steps) && k < |states|
    ensures Inv(cfg, states[k])
  {
    if k == 0 {
      InitInv(cfg, states[0]);
    } else {
      RunInv(cfg, states, steps, k - 1);
      assert Follows(cfg, states[k - 1], steps[k - 1], states[k]);
      StepKeepsInv(cfg, states[k - 1], steps[k - 1]);
    }
  }
}
