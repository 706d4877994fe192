/**
 Exactly when tasks can finish under the consuming wait: every wait that succeeds uses a token up,
 so there must be nobody left who needs it.
 */
module Exhaustion {
  import opened Words
  import opened Protocol
  import opened Counting
  import opened Invariant
  import opened Preservation
  import opened FifoRounds
  import opened Progress
  import opened Closers
  import opened Contrast

  /** The wait of a task or of the joiner is about to find its value and keep it. */
  ghost predicate Matches(cfg: Config, s: State, step: Step) {
    match step
    case TaskStep(i) =>
      i < |s.tasks| && (match s.tasks[i].pc
                        case WaitRead => s.regs.release == s.tasks[i].go
                        case AwaitRead => s.regs.fifo == READ
                        case _ => false)
    case JoinStep => s.joiner == JoinRead && s.regs.exit == READ
    case _ => false
  }

  /** The register a successful wait uses up. */
  function UsedUp(s: State, step: Step): Reg {
    match step
    case TaskStep(i) => if i < |s.tasks| && s.tasks[i].pc.WaitRead? then Release else Fifo
    case _ => Exit
  }

  // ----- nothing else uses tokens up

  lemma ReadHolds(cfg: Config, t: Task, v: Word, r: Reg)
    requires IsRead(t.pc) && TaskAccess(cfg, t).Read?
    requires r == TaskAccess(cfg, t).reg && t.pc.WaitRead? ==> v != t.go
    requires r == TaskAccess(cfg, t).reg && t.pc.AwaitRead? ==> v != READ
    ensures Holds(AfterRead(cfg, t, v).pc, r) <==> v != 0 && r == TaskAccess(cfg, t).reg
    ensures !Holds(t.pc, r)
  {
  }

  lemma ReadKeepsToken(cfg: Config, s: State, i: nat, r: Reg)
    requires Inv(cfg, s) && i < |s.tasks| && IsRead(s.tasks[i].pc)
    requires Matches(cfg, s, TaskStep(i)) ==> r != UsedUp(s, TaskStep(i))
    ensures Tokens(DoTask(cfg, s, i), r) == Tokens(s, r)
  {
    var t := s.tasks[i];
    ReadTakes(cfg, t, 0, r);
    var reg := TaskAccess(cfg, t).reg;
    ReadHolds(cfg, t, s.regs.Get(reg), r);
    CountUpdate(Holding(r), s.tasks, i, AfterRead(cfg, t, s.regs.Get(reg)));
    RegisterRead(s.regs, reg, r);
  }

  lemma RegisterRead(regs: Regs, reg: Reg, r: Reg)
    ensures regs.Set(reg, 0).Get(r) == if r == reg then 0 else regs.Get(r)
  {
  }

  lemma CallKeepsToken(s: State, i: nat, t': Task, r: Reg)
    requires i < |s.tasks| && s.tasks[i].pc.Running? && (t'.pc.LockRelease? || t'.pc.LockExit?)
    ensures Tokens(s.(tasks := s.tasks[i := t']), r) == Tokens(s, r)
  {
    CountUpdate(Holding(r), s.tasks, i, t');
  }

  lemma WriteKeepsToken(cfg: Config, s: State, i: nat, r: Reg)
    requires Inv(cfg, s) && i < |s.tasks| && IsWrite(s.tasks[i].pc)
    ensures Tokens(DoTask(cfg, s, i), r) == Tokens(s, r)
  {
    var s' := DoTask(cfg, s, i);
    var reg, v := WriteEffect(cfg, s, i);
    WritesNonZero(cfg, s, s', i, reg, v);
    WriteGives(cfg, s.tasks[i], r);
    CountUpdate(Holding(r), s.tasks, i, s'.tasks[i]);
  }

  lemma JoinKeepsToken(cfg: Config, s: State, r: Reg)
    requires Inv(cfg, s) && (Matches(cfg, s, JoinStep) ==> r != Exit)
    ensures Tokens(DoJoin(cfg, s), r) == Tokens(s, r)
  {
    assert Tokens(s, Exit) <= 1 && s.last.Get(Exit) != 0;
    assert s.regs.Get(Exit) == s.regs.exit;
  }

  lemma HostKeepsToken(cfg: Config, s: State, r: Reg)
    requires Inv(cfg, s)
    ensures Tokens(DoHost(cfg, s), r) == Tokens(s, r)
  {
    assert Tokens(s, Fifo) <= 1 && s.last.Get(Fifo) != 0;
    assert s.regs.Get(Fifo) == s.regs.fifo;
  }

  lemma TaskKeepsToken(cfg: Config, s: State, i: nat, r: Reg)
    requires Inv(cfg, s) && Enabled(cfg, s, TaskStep(i))
    requires Matches(cfg, s, TaskStep(i)) ==> r != UsedUp(s, TaskStep(i))
    ensures Tokens(DoTask(cfg, s, i), r) == Tokens(s, r)
  {
    hide Inv;
    hide DoTask;
    if IsRead(s.tasks[i].pc) {
      ReadKeepsToken(cfg, s, i, r);
    } else {
      WriteKeepsToken(cfg, s, i, r);
    }
  }

  /** A register keeps its token through every step but a successful wait on it. */
  lemma StepKeepsToken(cfg: Config, s: State, step: Step, r: Reg)
    requires Inv(cfg, s) && Enabled(cfg, s, step)
    requires Matches(cfg, s, step) ==> r != UsedUp(s, step)
    ensures Tokens(Do(cfg, s, step), r) == Tokens(s, r)
  {
    match step
    case TaskStep(i) => TaskKeepsToken(cfg, s, i, r);
    case CallBarrier(i, fifo) => CallKeepsToken(s, i, s.tasks[i].(pc := LockRelease, fifo := fifo), r);
    case CallExit(i) => CallKeepsToken(s, i, s.tasks[i].(pc := LockExit), r);
    case JoinStep => JoinKeepsToken(cfg, s, r);
    case HostStep => HostKeepsToken(cfg, s, r);
    case HostByte =>
  }

  lemma StaysUnneeded(cfg: Config, s: State, step: Step, r: Reg)
    requires Enabled(cfg, s, step) && cfg.program.Rounds? && Unneeded(cfg, s, r)
    ensures Unneeded(cfg, Do(cfg, s, step), r)
  {
  }

  // ----- few enough waits

  /** One task, or no barriers, or two tasks that meet once. */
  predicate FewWaits(cfg: Config)
    requires cfg.program.Rounds?
  {
    cfg.ntasks <= 1 || cfg.ntasks * cfg.program.rounds <= 2
  }

  /** The part of the handshake in which a task has asked for a chunk. */
  predicate Asking(pc: Pc) {
    pc.RequestChunk? || pc.AwaitRead? || pc.AwaitWrite? || pc.RelockFifo?
  }

  ghost predicate Unasked(s: State) {
    forall i :: 0 <= i < |s.tasks| ==> !Asking(s.tasks[i].pc)
  }

  /** Everything tasks with few waits need to go on. */
  ghost predicate Provided(cfg: Config, s: State) {
    && cfg.program.Rounds? && cfg.wait == Consuming && FewWaits(cfg)
    && Sound(cfg, s) && Alive(cfg, s) && Unasked(s)
    && (cfg.ntasks <= 1 ==> forall i :: 0 <= i < |s.tasks| ==> !InWait(s.tasks[i].pc))
    && (cfg.ntasks >= 2 ==> FewReturns(s))
  }

  lemma AloneNeverWaits(cfg: Config, s: State, step: Step)
    requires Inv(cfg, s) && Enabled(cfg, s, step) && cfg.ntasks <= 1
    requires forall i :: 0 <= i < |s.tasks| ==> !InWait(s.tasks[i].pc)
    ensures var s' := Do(cfg, s, step); forall i :: 0 <= i < |s'.tasks| ==> !InWait(s'.tasks[i].pc)
  {
    hide Inv;
    hide Count;
    if step.TaskStep? && s.tasks[step.i].pc.DropBarrier? {
      SignalValue(cfg, s, step.i);
    }
  }

  lemma TwoReturned(cfg: Config, s: State)
    requires Inv(cfg, s) && cfg.ntasks == 2 && FewReturns(s) && Tokens(s, Release) == 0
    ensures forall i :: 0 <= i < |s.tasks| ==> s.tasks[i].rounds == 1
  {
    var ts := s.tasks;
    assert Returns(ts) == ts[0].rounds + ts[1].rounds by {
      assert ts[1..] == [ts[1]];
      assert Returns([ts[1]]) == ts[1].rounds;
    }
    assert TaskOk(cfg, s.last, s.releases, ts[0]) && TaskOk(cfg, s.last, s.releases, ts[1]);
  }

  /** A wait that succeeds in a barrier was the last that needed the release value. */
  lemma LastRelease(cfg: Config, s: State, i: nat)
    requires Provided(cfg, s) && i < |s.tasks|
    requires s.tasks[i].pc.WaitRead? && Matches(cfg, s, TaskStep(i)) && Enabled(cfg, s, TaskStep(i))
    ensures Unneeded(cfg, Do(cfg, s, TaskStep(i)), Release)
  {
    var s' := Do(cfg, s, TaskStep(i));
    assert TaskOk(cfg, s.last, s.releases, s.tasks[i]);
    assert cfg.ntasks == 2 && cfg.program.rounds == 1 by {
      ProductAtMostTwo(cfg.ntasks, cfg.program.rounds);
    }
    assert s.regs.release != 0;
    MatchLosesToken(cfg, s, i);
    FewReturnsStep(cfg, s, TaskStep(i));
    StepKeepsInv(cfg, s, TaskStep(i));
    TwoReturned(cfg, s');
  }

  lemma ProductAtMostTwo(n: nat, r: nat)
    requires n >= 2 && r >= 1 && n * r <= 2
    ensures n == 2 && r == 1
  {
    assert (n - 2) * r >= 0;
    assert n * r == (n - 2) * r + 2 * r;
  }

  lemma AliveStep(cfg: Config, s: State, step: Step)
    requires Provided(cfg, s) && Enabled(cfg, s, step)
    ensures Alive(cfg, Do(cfg, s, step))
  {
    var s' := Do(cfg, s, step);
    forall r: Reg ensures Tokens(s', r) == 1 || Unneeded(cfg, s', r) {
      if Unneeded(cfg, s, r) {
        StaysUnneeded(cfg, s, step, r);
      } else if Matches(cfg, s, step) && r == UsedUp(s, step) {
        MatchUnneeded(cfg, s, step);
      } else {
        StepKeepsToken(cfg, s, step, r);
      }
    }
  }

  lemma MatchUnneeded(cfg: Config, s: State, step: Step)
    requires Provided(cfg, s) && Enabled(cfg, s, step) && Matches(cfg, s, step)
    ensures Unneeded(cfg, Do(cfg, s, step), UsedUp(s, step))
  {
    if step.TaskStep? {
      assert !Asking(s.tasks[step.i].pc);
      LastRelease(cfg, s, step.i);
    }
  }

  /** As long as nobody asks for a chunk, every step provides for the next. */
  lemma ProvidedStep(cfg: Config, s: State, step: Step)
    requires Provided(cfg, s) && Enabled(cfg, s, step) && Unasked(Do(cfg, s, step))
    ensures Provided(cfg, Do(cfg, s, step))
  {
    StepKeepsInv(cfg, s, step);
    StepKeepsPlanned(cfg, s, step);
    AliveStep(cfg, s, step);
    if cfg.ntasks <= 1 {
      AloneNeverWaits(cfg, s, step);
    } else {
      FewReturnsStep(cfg, s, step);
    }
  }

  lemma InitProvided(cfg: Config, s: State)
    requires cfg.Valid() && cfg.program.Rounds? && cfg.wait == Consuming && FewWaits(cfg) && Init(cfg, s)
    ensures Provided(cfg, s)
  {
    InitFew(cfg, s);
    InitSound(cfg, s);
  }

  // ----- tasks that never pass the FIFO

  ghost predicate NeverPasses(cfg: Config) {
    cfg.program.Rounds? && forall r :: 0 <= r < cfg.program.rounds ==> !SomePass(cfg, r)
  }

  lemma NobodyAsks(cfg: Config, s: State)
    requires Sound(cfg, s) && NeverPasses(cfg)
    ensures Unasked(s)
  {
    forall i | 0 <= i < |s.tasks| ensures !Asking(s.tasks[i].pc) {
      assert TaskOk(cfg, s.last, s.releases, s.tasks[i]);
      assert !SomePass(cfg, s.tasks[i].rounds) ==> !cfg.program.passes(i, s.tasks[i].rounds);
    }
  }

  lemma {:induction false} ProvidedLead(cfg: Config, s: State, steps: seq<Step>, end: State)
    requires Provided(cfg, s) && NeverPasses(cfg) && Leads(cfg, s, steps, end)
    ensures Provided(cfg, end)
    decreases |steps|
  {
    if steps != [] {
      var s' := Do(cfg, s, steps[0]);
      StepKeepsInv(cfg, s, steps[0]);
      StepKeepsPlanned(cfg, s, steps[0]);
      NobodyAsks(cfg, s');
      ProvidedStep(cfg, s, steps[0]);
      ProvidedLead(cfg, s', steps[1..], end);
    }
  }

  lemma {:induction false} FewWaitsComplete(cfg: Config, s: State) returns (steps: seq<Step>, end: State)
    requires Provided(cfg, s) && NeverPasses(cfg)
    ensures Leads(cfg, s, steps, end) && Progress.Final(end)
    decreases Work(cfg, s)
  {
    WorkNatural(cfg, s);
    if Progress.Final(s) {
      steps, end := [], s;
    } else {
      var step := UsefulStep(cfg, s, -1);
      var s' := Do(cfg, s, step);
      StepKeepsInv(cfg, s, step);
      StepKeepsPlanned(cfg, s, step);
      NobodyAsks(cfg, s');
      ProvidedStep(cfg, s, step);
      WorkNatural(cfg, s');
      var rest;
      rest, end := FewWaitsComplete(cfg, s');
      steps := [step] + rest;
      assert steps[1..] == rest;
    }
  }

  // ----- a task that has asked for a chunk never gets past the handshake

  /** Task `i` has asked for a chunk, and will either wait for it for ever or use up the token that it locks next. */
  ghost predicate Doomed(cfg: Config, s: State, i: nat) {
    && Inv(cfg, s) && cfg.wait == Consuming && i < |s.tasks|
    && (match s.tasks[i].pc
        case RequestChunk => true
        case AwaitRead => true
        case AwaitWrite => s.tasks[i].value != READ
        case RelockFifo => Tokens(s, Fifo) == 0
        case _ => false)
  }

  lemma StillDoomed(cfg: Config, s: State, i: nat, step: Step)
    requires Doomed(cfg, s, i) && Enabled(cfg, s, step)
    ensures Doomed(cfg, Do(cfg, s, step), i)
  {
    hide Inv;
    StepKeepsInv(cfg, s, step);
    if s.tasks[i].pc.RelockFifo? {
      DeadStaysDead(cfg, s, step, Fifo);
      CountBounds(Holding(Fifo), s.tasks);
      assert s.regs.Get(Fifo) == 0;
      SpinsOnZero(cfg, s, step, i);
    } else if step == TaskStep(i) {
      DoomedStep(cfg, s, i);
    }
  }

  lemma DoomedStep(cfg: Config, s: State, i: nat)
    requires Doomed(cfg, s, i) && !s.tasks[i].pc.RelockFifo?
    ensures var s' := DoTask(cfg, s, i);
            && |s'.tasks| == |s.tasks|
            && (s'.tasks[i].pc.AwaitRead? || (s'.tasks[i].pc.AwaitWrite? && s'.tasks[i].value != READ)
                || (s'.tasks[i].pc.RelockFifo? && Tokens(s', Fifo) == 0))
  {
    if s.tasks[i].pc.AwaitRead? && DoTask(cfg, s, i).tasks[i].pc.RelockFifo? {
      MatchLosesToken(cfg, s, i);
    }
  }

  lemma {:induction false} DoomedForever(cfg: Config, s: State, i: nat, steps: seq<Step>, end: State)
    requires Doomed(cfg, s, i) && Leads(cfg, s, steps, end)
    ensures !Progress.Final(end)
    decreases |steps|
  {
    if steps != [] {
      StillDoomed(cfg, s, i, steps[0]);
      DoomedForever(cfg, Do(cfg, s, steps[0]), i, steps[1..], end);
    }
  }

  lemma DoomedNeverCompletes(cfg: Config, s: State, i: nat)
    requires Doomed(cfg, s, i)
    ensures !CanComplete(cfg, s)
  {
    forall steps, end | Leads(cfg, s, steps, end) ensures !Progress.Final(end) {
      DoomedForever(cfg, s, i, steps, end);
    }
  }

  lemma AskingTask(cfg: Config, t: Task, v: Word)
    requires !Asking(t.pc)
    ensures Asking(AfterRead(cfg, t, v).pc) ==> t.pc.LockFifo? && v != READ && AfterRead(cfg, t, v).pc.RequestChunk?
    ensures !Asking(AfterWrite(t).pc)
  {
  }

  /** Until somebody asks, only a task that finds the FIFO's event at something but READ can be the first to. */
  lemma FirstToAsk(cfg: Config, s: State, step: Step)
    requires Unasked(s) && Enabled(cfg, s, step) && !Unasked(Do(cfg, s, step))
    ensures step.TaskStep? && s.tasks[step.i].pc.LockFifo? && s.regs.fifo != 0 && s.regs.fifo != READ
    ensures Do(cfg, s, step).tasks[step.i].pc.RequestChunk?
  {
    var s' := Do(cfg, s, step);
    var i :| 0 <= i < |s'.tasks| && Asking(s'.tasks[i].pc);
    assert !Asking(s.tasks[i].pc);
    match step
    case TaskStep(k) =>
      var t := s.tasks[k];
      AskingTask(cfg, t, if TaskAccess(cfg, t).Read? then s.regs.Get(TaskAccess(cfg, t).reg) else 0);
    case _ =>
  }

  // ----- a host that has not begun

  /** The host has not touched the FIFO, and neither has any task. */
  ghost predicate Untouched(s: State) {
    !HostHolds(s.host, Fifo) && s.delivered == 0 && s.last.fifo == WRITE
  }

  lemma StaysUntouched(cfg: Config, s: State, step: Step)
    requires Inv(cfg, s) && Untouched(s) && Unasked(s) && Enabled(cfg, s, step) && HostNeeded(s, step)
    ensures Untouched(Do(cfg, s, step)) || !Unasked(Do(cfg, s, step))
  {
    if step.TaskStep? {
      assert TaskOk(cfg, s.last, s.releases, s.tasks[step.i]);
      assert !Asking(s.tasks[step.i].pc);
    } else if step.HostStep? || step.HostByte? {
      assert false;
    }
  }

  /** If the passing tasks go last and the host does not begin, the first round that may stream is the end. */
  lemma {:induction false} FollowPassers(cfg: Config, s: State) returns (steps: seq<Step>, end: State)
    requires Provided(cfg, s) && Obedient(cfg, s, Passers(cfg)) && Untouched(s)
    requires MayStream(cfg, cfg.program.rounds) > 0
    ensures Leads(cfg, s, steps, end) && exists i :: Doomed(cfg, end, i)
    decreases Work(cfg, s)
  {
    hide Inv;
    hide Obedient;
    hide MayStream;
    hide FewReturns;
    hide Alive;
    WorkNatural(cfg, s);
    if Progress.Final(s) {
      AllTaken(cfg, s);
      FinalStreamed(cfg, s);
      assert false;
    }
    var step := UsefulStep(cfg, s, Passers(cfg)(s.releases));
    var s' := Do(cfg, s, step);
    StepKeepsInv(cfg, s, step);
    if !Unasked(s') {
      FirstToAsk(cfg, s, step);
      steps, end := [step], s';
      assert Doomed(cfg, end, step.i);
      assert Leads(cfg, s', steps[1..], end);
    } else {
      StaysUntouched(cfg, s, step);
      StepObedient(cfg, s, Passers(cfg), step);
      ProvidedStep(cfg, s, step);
      WorkNatural(cfg, s');
      var rest;
      rest, end := FollowPassers(cfg, s');
      steps := [step] + rest;
      assert steps[1..] == rest;
    }
  }

  // ----- too many waits

  lemma {:induction false} FewReturnsLead(cfg: Config, s: State, steps: seq<Step>, end: State)
    requires Inv(cfg, s) && FewReturns(s) && cfg.wait == Consuming && cfg.ntasks >= 2
    requires Leads(cfg, s, steps, end)
    ensures Inv(cfg, end) && FewReturns(end)
    decreases |steps|
  {
    if steps != [] {
      StepKeepsInv(cfg, s, steps[0]);
      FewReturnsStep(cfg, s, steps[0]);
      FewReturnsLead(cfg, Do(cfg, s, steps[0]), steps[1..], end);
    }
  }

  lemma FinalReturns(cfg: Config, s: State)
    requires Inv(cfg, s) && Progress.Final(s) && cfg.program.Rounds?
    ensures Returns(s.tasks) == cfg.ntasks * cfg.program.rounds
  {
    forall i | 0 <= i < |s.tasks| ensures s.tasks[i].rounds == cfg.program.rounds {
      assert TaskOk(cfg, s.last, s.releases, s.tasks[i]);
    }
    ReturnsUniform(s.tasks, cfg.program.rounds);
  }

  lemma CompletionNeedsFewWaits(cfg: Config, s: State)
    requires cfg.Valid() && cfg.program.Rounds? && cfg.wait == Consuming && Init(cfg, s) && CanComplete(cfg, s)
    ensures FewWaits(cfg)
  {
    if cfg.ntasks >= 2 {
      var steps, end :| Leads(cfg, s, steps, end) && Progress.Final(end);
      InitFew(cfg, s);
      FewReturnsLead(cfg, s, steps, end);
      FinalReturns(cfg, end);
    }
  }

  // ----- completing whatever happens

  lemma {:induction false} MayStreamNothing(cfg: Config, r: nat)
    requires cfg.program.Rounds? && r <= cfg.program.rounds && MayStream(cfg, r) == 0
    ensures forall k :: 0 <= k < r ==> !SomePass(cfg, k)
  {
    if r > 0 {
      MayStreamNothing(cfg, r - 1);
    }
  }

  lemma NothingToStream(cfg: Config, s: State)
    requires cfg.Valid() && cfg.program.Rounds? && cfg.wait == Consuming && Init(cfg, s)
    requires FewWaits(cfg) && MayStream(cfg, cfg.program.rounds) == 0
    ensures AlwaysCompletes(cfg, s)
  {
    MayStreamNothing(cfg, cfg.program.rounds);
    InitProvided(cfg, s);
    forall steps, end | Leads(cfg, s, steps, end) ensures CanComplete(cfg, end) {
      ProvidedLead(cfg, s, steps, end);
      var rest, last := FewWaitsComplete(cfg, end);
    }
  }

  lemma SomethingToStream(cfg: Config, s: State)
    requires cfg.Valid() && cfg.program.Rounds? && cfg.wait == Consuming && Init(cfg, s)
    requires FewWaits(cfg) && MayStream(cfg, cfg.program.rounds) > 0
    ensures !AlwaysCompletes(cfg, s)
  {
    InitProvided(cfg, s);
    InitObedient(cfg, s, Passers(cfg));
    var steps, end := FollowPassers(cfg, s);
    var i :| Doomed(cfg, end, i);
    DoomedNeverCompletes(cfg, end, i);
  }

  /**
   When the consuming wait works.  Under it, N tasks of R barriers each can finish whatever happens
   if and only if there is at most one task or N*R is at most 2, and no task ever passes the FIFO.
   */
  lemma ConsumingAlwaysIff(cfg: Config, s: State)
    requires cfg.Valid() && cfg.program.Rounds? && cfg.wait == Consuming && Init(cfg, s)
    ensures AlwaysCompletes(cfg, s) <==> FewWaits(cfg) && MayStream(cfg, cfg.program.rounds) == 0
  {
    hide Init;
    hide MayStream;
    assert Leads(cfg, s, [], s);
    if AlwaysCompletes(cfg, s) {
      CompletionNeedsFewWaits(cfg, s);
      if MayStream(cfg, cfg.program.rounds) > 0 {
        SomethingToStream(cfg, s);
      }
    } else if FewWaits(cfg) && MayStream(cfg, cfg.program.rounds) == 0 {
      NothingToStream(cfg, s);
    }
  }

  /** So tasks that pass the FIFO to every barrier can be sure to finish only if there is nothing to do. */
  lemma AlwaysPassingIff(cfg: Config, s: State)
    requires cfg.Valid() && cfg.program.Rounds? && cfg.wait == Consuming && Init(cfg, s)
    requires forall i, r :: cfg.program.passes(i, r)
    ensures AlwaysCompletes(cfg, s) <==> cfg.ntasks == 0 || cfg.program.rounds == 0
  {
    ConsumingAlwaysIff(cfg, s);
    if cfg.ntasks == 0 || cfg.program.rounds == 0 {
      NoneStream(cfg, cfg.program.rounds);
    } else {
      assert cfg.program.passes(0, 0) && SomePass(cfg, 0);
      MayStreamGrows(cfg, 0, cfg.program.rounds);
    }
  }

  // ----- completing at all

  /** No task asks, and only a first chunk has been or is being accepted. */
  ghost predicate FirstOnly(cfg: Config, s: State) {
    && Inv(cfg, s) && cfg.wait == Consuming && Unasked(s)
    && s.accepted <= 1
    && forall i :: 0 <= i < |s.tasks| && s.tasks[i].pc.AcceptChunk? ==> s.accepted == 0
  }

  lemma AcceptingTask(cfg: Config, t: Task, v: Word)
    requires !Asking(t.pc)
    ensures AfterRead(cfg, t, v).pc.AcceptChunk? ==> t.pc.AcceptChunk? || (t.pc.LockFifo? && v == READ)
    ensures !AfterWrite(t).pc.AcceptChunk? || AfterWrite(t) == t
  {
  }

  lemma FirstOnlyTask(cfg: Config, s: State, i: nat)
    requires FirstOnly(cfg, s) && i < |s.tasks|
    ensures var s' := DoTask(cfg, s, i);
            s'.accepted <= 1 && forall j :: 0 <= j < |s'.tasks| && s'.tasks[j].pc.AcceptChunk? ==> s'.accepted == 0
  {
    var t := s.tasks[i];
    if t.pc.AcceptChunk? {
      SerialAlone(cfg, s, i);
    } else {
      var v := if TaskAccess(cfg, t).Read? then s.regs.Get(TaskAccess(cfg, t).reg) else 0;
      assert !Asking(t.pc);
      AcceptingTask(cfg, t, v);
      if t.pc.LockFifo? && v == READ {
        AcceptsFirst(cfg, s, i);
      }
      hide Inv;
    }
  }

  lemma FirstOnlyStep(cfg: Config, s: State, step: Step)
    requires FirstOnly(cfg, s) && Enabled(cfg, s, step) && Unasked(Do(cfg, s, step))
    ensures FirstOnly(cfg, Do(cfg, s, step))
  {
    StepKeepsInv(cfg, s, step);
    hide Inv;
    if step.TaskStep? {
      FirstOnlyTask(cfg, s, step.i);
    }
  }

  /** A chunk that is there without having been asked for is the first. */
  lemma AcceptsFirst(cfg: Config, s: State, i: nat)
    requires Inv(cfg, s) && i < |s.tasks| && s.tasks[i].pc.LockFifo? && s.regs.fifo == READ
    ensures s.accepted == 0
  {
    NotSecuring(cfg, s, i);
    assert Tokens(s, Fifo) <= 1 && s.regs.Get(Fifo) == s.last.Get(Fifo);
  }

  lemma {:induction false} FirstOnlyLead(cfg: Config, s: State, steps: seq<Step>, end: State)
    requires FirstOnly(cfg, s) && Leads(cfg, s, steps, end) && Progress.Final(end)
    ensures end.accepted <= 1
    decreases |steps|
  {
    if steps != [] {
      var s' := Do(cfg, s, steps[0]);
      if Unasked(s') {
        FirstOnlyStep(cfg, s, steps[0]);
        FirstOnlyLead(cfg, s', steps[1..], end);
      } else {
        FirstToAsk(cfg, s, steps[0]);
        StepKeepsInv(cfg, s, steps[0]);
        DoomedForever(cfg, s', steps[0].i, steps[1..], end);
      }
    }
  }

  /** Whatever finishes under the consuming wait has streamed at most one chunk. */
  lemma CompletionStreamsOnce(cfg: Config, s: State)
    requires cfg.Valid() && cfg.program.Rounds? && cfg.wait == Consuming && Init(cfg, s) && CanComplete(cfg, s)
    ensures MustStream(cfg, cfg.program.rounds) <= 1 && MustStream(cfg, cfg.program.rounds) <= |cfg.chunks|
  {
    InitSound(cfg, s);
    CompletionNeedsChunks(cfg, s);
    var steps, end :| Leads(cfg, s, steps, end) && Progress.Final(end);
    FirstOnlyLead(cfg, s, steps, end);
    LeadsKeepSound(cfg, s, steps, end);
    FinalStreamed(cfg, end);
    if cfg.ntasks == 0 {
      NobodyMustStream(cfg, cfg.program.rounds);
    }
  }

  /** At most one round must stream, and its chunk is there unless it has been taken. */
  ghost predicate Supplied(cfg: Config, s: State)
    requires cfg.program.Rounds?
  {
    && MustStream(cfg, cfg.program.rounds) <= 1
    && (MustStream(cfg, cfg.program.rounds) == 1 && s.accepted == 0 ==> s.last.fifo == READ)
  }

  lemma StaysSupplied(cfg: Config, s: State, step: Step)
    requires Inv(cfg, s) && cfg.program.Rounds? && Supplied(cfg, s) && Unasked(s) && Enabled(cfg, s, step)
    ensures Supplied(cfg, Do(cfg, s, step))
  {
    if step.TaskStep? {
      assert TaskOk(cfg, s.last, s.releases, s.tasks[step.i]);
      assert !Asking(s.tasks[step.i].pc);
    }
  }

  /** With abstaining tasks going last, the one task that must stream finds its chunk without asking. */
  lemma SuppliedNeverAsks(cfg: Config, s: State, step: Step)
    requires Sound(cfg, s) && cfg.program.Rounds? && Supplied(cfg, s) && Unasked(s)
    requires Obedient(cfg, s, Abstainers(cfg)) && Enabled(cfg, s, step)
    ensures Unasked(Do(cfg, s, step))
  {
    if !Unasked(Do(cfg, s, step)) {
      FirstToAsk(cfg, s, step);
      FindsChunk(cfg, s, step.i);
    }
  }

  lemma FindsChunk(cfg: Config, s: State, i: nat)
    requires Sound(cfg, s) && cfg.program.Rounds? && Supplied(cfg, s) && Obedient(cfg, s, Abstainers(cfg))
    requires i < |s.tasks| && s.tasks[i].pc.LockFifo?
    ensures s.regs.fifo == 0 || s.regs.fifo == READ
  {
    CloserIsSerial(cfg, s, Abstainers(cfg), i);
    SerialPasses(cfg, s, i);
    assert TaskOk(cfg, s.last, s.releases, s.tasks[i]);
    AbstainersStream(cfg, s.releases);
    MustStreamGrows(cfg, s.releases, cfg.program.rounds);
    NotPastAccept(cfg, s, i);
    assert Tokens(s, Fifo) <= 1 && (s.regs.Get(Fifo) == 0 || s.regs.Get(Fifo) == s.last.Get(Fifo));
  }

  lemma NotPastAccept(cfg: Config, s: State, i: nat)
    requires Inv(cfg, s) && i < |s.tasks| && s.tasks[i].pc.LockFifo?
    ensures s.accepted == s.streamed
  {
    SerialAlone(cfg, s, i);
    forall j | 0 <= j < |s.tasks| ensures !Is(PastAccept, s.tasks[j]) {
    }
    CountBounds(PastAccept, s.tasks);
  }

  lemma {:induction false} FollowAbstainers(cfg: Config, s: State) returns (steps: seq<Step>, end: State)
    requires Provided(cfg, s) && Obedient(cfg, s, Abstainers(cfg)) && Supplied(cfg, s)
    ensures Leads(cfg, s, steps, end) && Progress.Final(end)
    decreases Work(cfg, s)
  {
    WorkNatural(cfg, s);
    if Progress.Final(s) {
      steps, end := [], s;
    } else {
      var step := UsefulStep(cfg, s, Abstainers(cfg)(s.releases));
      var s' := Do(cfg, s, step);
      SuppliedNeverAsks(cfg, s, step);
      StaysSupplied(cfg, s, step);
      StepObedient(cfg, s, Abstainers(cfg), step);
      ProvidedStep(cfg, s, step);
      WorkNatural(cfg, s');
      var rest;
      rest, end := FollowAbstainers(cfg, s');
      steps := [step] + rest;
      assert steps[1..] == rest;
    }
  }

  // ----- the host goes first

  /** What is left of the host's transfer. */
  function TransferLeft(s: State): nat {
    match s.host
    case HostCopy(at) => if at <= |s.slot| then |s.slot| - at + 2 else 0
    case HostWrite => 1
    case _ => 0
  }

  /** `end` is `s` after the host has handed its chunk over. */
  ghost predicate Handed(s: State, end: State) {
    && end.tasks == s.tasks && end.releases == s.releases && end.streamed == s.streamed && end.accepted == s.accepted
    && end.last.fifo == READ
  }

  lemma {:induction false} HandOver(cfg: Config, s: State) returns (steps: seq<Step>, end: State)
    requires Provided(cfg, s) && (s.host.HostCopy? || s.host == HostWrite)
    ensures Leads(cfg, s, steps, end) && Provided(cfg, end) && Handed(s, end)
    decreases TransferLeft(s)
  {
    var step := if s.host.HostCopy? then HostByte else HostStep;
    var s' := Do(cfg, s, step);
    assert Tokens(s, Fifo) <= 1 && s.regs.Get(Fifo) == s.regs.fifo;
    ProvidedStep(cfg, s, step);
    var rest;
    if s.host.HostCopy? {
      rest, end := HandOver(cfg, s');
    } else {
      rest, end := [], s';
    }
    steps := [step] + rest;
    assert steps[1..] == rest;
  }

  lemma {:induction false} LeadsOn(cfg: Config, s: State, xs: seq<Step>, mid: State, ys: seq<Step>, end: State)
    requires Leads(cfg, s, xs, mid) && Leads(cfg, mid, ys, end)
    ensures Leads(cfg, s, xs + ys, end)
    decreases |xs|
  {
    if xs == [] {
      assert xs + ys == ys;
    } else {
      assert (xs + ys)[1..] == xs[1..] + ys;
      LeadsOn(cfg, Do(cfg, s, xs[0]), xs[1..], mid, ys, end);
    }
  }

  /** From the start the host can hand over its first chunk before any task moves. */
  lemma HostFirst(cfg: Config, s: State) returns (steps: seq<Step>, end: State)
    requires Provided(cfg, s) && s.host == HostRead && s.regs.fifo == WRITE
    ensures Leads(cfg, s, steps, end) && Provided(cfg, end) && Handed(s, end)
  {
    var s' := Do(cfg, s, HostStep);
    ProvidedStep(cfg, s, HostStep);
    var rest;
    rest, end := HandOver(cfg, s');
    steps := [HostStep] + rest;
    assert steps[1..] == rest;
  }

  lemma HandedObedient(cfg: Config, s: State, end: State, closer: Choice)
    requires cfg.program.Rounds? && Obedient(cfg, s, closer) && Handed(s, end)
    ensures Obedient(cfg, end, closer)
  {
  }

  lemma FewWaitsCanComplete(cfg: Config, s: State)
    requires cfg.Valid() && cfg.program.Rounds? && cfg.wait == Consuming && Init(cfg, s) && FewWaits(cfg)
    requires MustStream(cfg, cfg.program.rounds) <= 1 && MustStream(cfg, cfg.program.rounds) <= |cfg.chunks|
    ensures CanComplete(cfg, s)
  {
    InitProvided(cfg, s);
    InitObedient(cfg, s, Abstainers(cfg));
    if MustStream(cfg, cfg.program.rounds) == 0 {
      var steps, end := FollowAbstainers(cfg, s);
    } else {
      var before, mid := HostFirst(cfg, s);
      HandedObedient(cfg, s, mid, Abstainers(cfg));
      var after, end := FollowAbstainers(cfg, mid);
      LeadsOn(cfg, s, before, mid, after, end);
    }
  }

  /**
   Under the consuming wait some schedule finishes if and only if there is at most one task or N*R is
   at most 2, and at most one round must stream, for which the host has a chunk.
   */
  lemma ConsumingCompletesIff(cfg: Config, s: State)
    requires cfg.Valid() && cfg.program.Rounds? && cfg.wait == Consuming && Init(cfg, s)
    ensures CanComplete(cfg, s) <==>
              && FewWaits(cfg)
              && MustStream(cfg, cfg.program.rounds) <= 1 && MustStream(cfg, cfg.program.rounds) <= |cfg.chunks|
  {
    hide Init;
    hide MustStream;
    if CanComplete(cfg, s) {
      CompletionNeedsFewWaits(cfg, s);
      CompletionStreamsOnce(cfg, s);
    } else if
      && FewWaits(cfg)
      && MustStream(cfg, cfg.program.rounds) <= 1 && MustStream(cfg, cfg.program.rounds) <= |cfg.chunks|
    {
      FewWaitsCanComplete(cfg, s);
    }
  }
}
