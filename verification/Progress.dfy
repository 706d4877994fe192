/**
 Tasks that each pass R barriers and exit can run to completion as long as no register that is
 still needed has lost its token; with the write-back wait none ever does.
 */
module Progress {
  import opened Words
  import opened Protocol
  import opened Counting
  import opened Invariant
  import opened Preservation
  import opened FifoRounds

  ghost predicate Final(s: State) {
    && s.joiner == Joined
    && forall i :: 0 <= i < |s.tasks| ==> s.tasks[i].pc.Exited?
  }

  /** R barriers and an exit per task, and the host has a chunk for every round that may stream. */
  ghost predicate Bounded(cfg: Config) {
    cfg.program.Rounds? && MayStream(cfg, cfg.program.rounds) <= |cfg.chunks|
  }

  /** No thread will read the register again before the end. */
  ghost predicate Unneeded(cfg: Config, s: State, r: Reg)
    requires cfg.program.Rounds?
  {
    match r
    case Exit => s.joiner == Joined
    case Release => forall i :: 0 <= i < |s.tasks| ==> s.tasks[i].rounds >= cfg.program.rounds
    case _ => false
  }

  ghost predicate Alive(cfg: Config, s: State)
    requires cfg.program.Rounds?
  {
    forall r: Reg :: Tokens(s, r) == 1 || Unneeded(cfg, s, r)
  }

  /** Nobody holds a register: those still needed have their value. */
  ghost predicate Unheld(cfg: Config, s: State)
    requires cfg.program.Rounds?
  {
    forall r: Reg :: (s.regs.Get(r) != 0 && s.regs.Get(r) == s.last.Get(r)) || Unneeded(cfg, s, r)
  }

  // ----- the measure

  /** How far a task is into its current barrier call; a stale value to put back costs an extra step. */
  function Passed(t: Task): nat {
    match t.pc
    case Running => 0
    case LockRelease => 1
    case RestoreRelease => 2
    case LockBarrier => 3
    case DropBarrier => 4
    case WaitRead => 10
    case WaitWrite => if t.value == t.go then 11 else 9
    case LockFifo => 5
    case RequestChunk => 6
    case AwaitRead => 8
    case AwaitWrite => if t.value == READ then 9 else 7
    case RelockFifo => 10
    case AcceptChunk => 11
    case LockReset => 12
    case WriteReset => 13
    case LockFlip => 14
    case WriteFlip => 15
    case LockExit => 1
    case DropExit => 2
    case Exited => 3
  }

  function TaskWork(r: nat, t: Task): nat {
    if t.rounds <= r then 16 * (r - t.rounds) + 15 - Passed(t) else 0
  }

  function TasksWork(r: nat, ts: seq<Task>): nat {
    if ts == [] then 0 else TasksWork(r, ts[1..]) + TaskWork(r, ts[0])
  }

  function JoinWork(j: Joiner): nat {
    match j
    case JoinRead => 2
    case JoinWrite(v) => if v == READ then 1 else 3
    case Joined => 0
  }

  function ChunksWork(size: nat, chunks: nat): nat {
    if chunks == 0 then 0 else ChunksWork(size, chunks - 1) + size + 4
  }

  function HostRank(size: nat, h: Host): int {
    match h
    case HostBack(_) => 1
    case HostRead => 0
    case HostCopy(at) => -1 - at as int
    case HostWrite => -2 - size as int
    case HostDone => 0
  }

  function HostWork(cfg: Config, s: State): int {
    var left := if s.delivered <= |cfg.chunks| then |cfg.chunks| - s.delivered else 0;
    ChunksWork(cfg.size, left) + HostRank(cfg.size, s.host)
  }

  function Work(cfg: Config, s: State): int
    requires cfg.program.Rounds?
  {
    TasksWork(cfg.program.rounds, s.tasks) + JoinWork(s.joiner) + HostWork(cfg, s)
  }

  lemma {:induction false} TasksWorkUpdate(r: nat, ts: seq<Task>, i: nat, t: Task)
    requires i < |ts|
    ensures TasksWork(r, ts[i := t]) + TaskWork(r, ts[i]) == TasksWork(r, ts) + TaskWork(r, t)
  {
    if i == 0 {
      assert ts[0 := t][1..] == ts[1..];
    } else {
      assert ts[i := t][1..] == ts[1..][i - 1 := t];
      TasksWorkUpdate(r, ts[1..], i - 1, t);
    }
  }

  lemma WorkNatural(cfg: Config, s: State)
    requires Inv(cfg, s) && cfg.program.Rounds?
    ensures Work(cfg, s) >= 0
  {
  }

  // ----- useful steps

  ghost predicate Useful(cfg: Config, s: State, step: Step)
    requires cfg.program.Rounds?
  {
    Enabled(cfg, s, step) && Work(cfg, Do(cfg, s, step)) < Work(cfg, s)
  }

  /** The read of a task moves it on, unless it is a wait that will not find its value. */
  ghost predicate ReadReady(s: State, t: Task) {
    && IsRead(t.pc)
    && (t.pc.WaitRead? ==> t.rounds < s.releases)
    && (t.pc.AwaitRead? ==> s.last.fifo == READ)
  }

  lemma TaskReadWork(cfg: Config, last: Regs, releases: nat, t: Task)
    requires cfg.program.Rounds? && IsRead(t.pc) && TaskOk(cfg, last, releases, t)
    requires last.release == ReleaseValue(releases)
    requires (t.pc.WaitRead? ==> t.rounds < releases) && (t.pc.AwaitRead? ==> last.fifo == READ)
    requires TaskAccess(cfg, t).Read? && last.Get(TaskAccess(cfg, t).reg) != 0
    ensures TaskWork(cfg.program.rounds, AfterRead(cfg, t, last.Get(TaskAccess(cfg, t).reg))) <
            TaskWork(cfg.program.rounds, t)
  {
  }

  lemma TaskWriteWork(cfg: Config, last: Regs, releases: nat, t: Task)
    requires cfg.program.Rounds? && IsWrite(t.pc) && TaskOk(cfg, last, releases, t)
    ensures TaskWork(cfg.program.rounds, AfterWrite(t)) < TaskWork(cfg.program.rounds, t)
  {
  }

  lemma WriteUseful(cfg: Config, s: State, i: nat)
    requires Inv(cfg, s) && cfg.program.Rounds? && i < |s.tasks| && IsWrite(s.tasks[i].pc)
    ensures Useful(cfg, s, TaskStep(i))
  {
    var reg, v := WriteEffect(cfg, s, i);
    assert TaskOk(cfg, s.last, s.releases, s.tasks[i]);
    TaskWriteWork(cfg, s.last, s.releases, s.tasks[i]);
    TasksWorkUpdate(cfg.program.rounds, s.tasks, i, AfterWrite(s.tasks[i]));
  }

  /** A register some task is about to read is still needed. */
  lemma ReadNeeded(cfg: Config, s: State, i: nat)
    requires Inv(cfg, s) && cfg.program.Rounds? && i < |s.tasks| && IsRead(s.tasks[i].pc)
    ensures TaskAccess(cfg, s.tasks[i]).Read? && !Unneeded(cfg, s, TaskAccess(cfg, s.tasks[i]).reg)
  {
    assert TaskOk(cfg, s.last, s.releases, s.tasks[i]);
    CountBounds(Finished, s.tasks);
    assert !Is(Finished, s.tasks[i]);
  }

  lemma ReadUseful(cfg: Config, s: State, i: nat)
    requires Inv(cfg, s) && cfg.program.Rounds? && i < |s.tasks| && ReadReady(s, s.tasks[i])
    requires Unheld(cfg, s)
    ensures Useful(cfg, s, TaskStep(i))
  {
    var t := s.tasks[i];
    ReadNeeded(cfg, s, i);
    var reg := TaskAccess(cfg, t).reg;
    assert s.regs.Get(reg) != 0 && s.regs.Get(reg) == s.last.Get(reg);
    assert TaskOk(cfg, s.last, s.releases, t);
    TaskReadWork(cfg, s.last, s.releases, t);
    TasksWorkUpdate(cfg.program.rounds, s.tasks, i, AfterRead(cfg, t, s.regs.Get(reg)));
  }

  lemma CallUseful(cfg: Config, s: State, i: nat) returns (step: Step)
    requires Inv(cfg, s) && cfg.program.Rounds? && i < |s.tasks| && s.tasks[i].pc.Running?
    ensures Useful(cfg, s, step)
    ensures step == CallExit(i) || (step.CallBarrier? && step.i == i && s.tasks[i].rounds < cfg.program.rounds)
  {
    var t := s.tasks[i];
    assert TaskOk(cfg, s.last, s.releases, t);
    if t.rounds == cfg.program.rounds {
      step := CallExit(i);
      TasksWorkUpdate(cfg.program.rounds, s.tasks, i, t.(pc := LockExit));
    } else {
      var fifo := cfg.program.passes(t.tid, t.rounds);
      step := CallBarrier(i, fifo);
      TasksWorkUpdate(cfg.program.rounds, s.tasks, i, t.(pc := LockRelease, fifo := fifo));
    }
  }

  /** A host that holds the FIFO event can give it back or get on with the transfer. */
  lemma HostHoldingUseful(cfg: Config, s: State) returns (step: Step)
    requires Inv(cfg, s) && cfg.program.Rounds? && HostHolds(s.host, Fifo)
    ensures Useful(cfg, s, step) && !step.CallBarrier?
  {
    step := if s.host.HostCopy? then HostByte else HostStep;
  }

  /** With nobody holding a register, none that is needed is 0. */
  lemma NobodyHolds(cfg: Config, s: State)
    requires Inv(cfg, s) && cfg.program.Rounds? && Alive(cfg, s)
    requires forall i :: 0 <= i < |s.tasks| ==> !IsWrite(s.tasks[i].pc)
    requires !s.joiner.JoinWrite? && !HostHolds(s.host, Fifo)
    ensures Unheld(cfg, s)
  {
    forall r: Reg ensures (s.regs.Get(r) != 0 && s.regs.Get(r) == s.last.Get(r)) || Unneeded(cfg, s, r) {
      CountBounds(Holding(r), s.tasks);
      assert Tokens(s, r) == 1 || Unneeded(cfg, s, r);
      assert Tokens(s, r) <= 1;
    }
  }

  /** A task waits for a chunk, and the host has none left to send. */
  ghost predicate Starved(s: State) {
    s.host == HostDone && s.last.fifo == WRITE && exists i :: 0 <= i < |s.tasks| && s.tasks[i].pc.AwaitRead?
  }

  /** A task waiting for a chunk either finds it, or the host is there to send it, or none is left. */
  lemma AwaitingUseful(cfg: Config, s: State, i: nat) returns (step: Step)
    requires Inv(cfg, s) && cfg.program.Rounds? && i < |s.tasks| && s.tasks[i].pc.AwaitRead?
    requires !HostHolds(s.host, Fifo) && Unheld(cfg, s) && !Starved(s)
    ensures Useful(cfg, s, step) && !step.CallBarrier?
  {
    if s.last.fifo == READ {
      step := TaskStep(i);
      ReadUseful(cfg, s, i);
    } else {
      step := HostStep;
      CountBounds(Securing, s.tasks);
      assert Is(Securing, s.tasks[i]);
      assert !Unneeded(cfg, s, Fifo);
      HostAnswers(cfg, s);
    }
  }

  /** A host that is to read a request starts its transfer. */
  lemma HostAnswers(cfg: Config, s: State)
    requires Inv(cfg, s) && cfg.program.Rounds? && s.host == HostRead && s.regs.Get(Fifo) == WRITE
    ensures Useful(cfg, s, HostStep)
  {
  }

  /** Tasks cannot all be waiting for a release that nobody is there to give. */
  lemma NotAllWaiting(cfg: Config, s: State, i: nat)
    requires Inv(cfg, s) && cfg.program.Rounds? && i < |s.tasks|
    requires forall j :: 0 <= j < |s.tasks| ==> s.tasks[j].pc.WaitRead? || s.tasks[j].pc.Exited?
    requires forall j :: 0 <= j < |s.tasks| && s.tasks[j].pc.WaitRead? ==> s.tasks[j].rounds == s.releases
    ensures s.tasks[i].pc.Exited?
  {
    if s.tasks[i].pc.WaitRead? {
      assert TaskOk(cfg, s.last, s.releases, s.tasks[i]);
      forall j | 0 <= j < |s.tasks| ensures Is(Arrived(s.releases), s.tasks[j]) && !Is(Serial, s.tasks[j]) {
        assert TaskOk(cfg, s.last, s.releases, s.tasks[j]);
      }
      CountBounds(Arrived(s.releases), s.tasks);
      CountBounds(Serial, s.tasks);
    }
  }

  lemma JoinUseful(cfg: Config, s: State)
    requires Inv(cfg, s) && cfg.program.Rounds?
    requires s.joiner.JoinWrite? || (s.joiner == JoinRead && s.regs.exit == READ)
    ensures Useful(cfg, s, JoinStep)
  {
  }

  /** Task `held`, if there is such a task, calls the barrier only once all the others wait in its round. */
  ghost predicate HoldsBack(s: State, step: Step, held: int) {
    step.CallBarrier? && step.i == held ==>
      forall j :: 0 <= j < |s.tasks| && j != held ==> InWait(s.tasks[j].pc) && s.tasks[j].rounds == s.releases
  }

  /** The host is asked to move only where it has begun, or where a task waits for it. */
  ghost predicate HostNeeded(s: State, step: Step) {
    step.HostStep? || step.HostByte? ==>
      HostHolds(s.host, Fifo) || exists i :: 0 <= i < |s.tasks| && s.tasks[i].pc.AwaitRead?
  }

  /**
   No state is stuck while its registers live and its tasks are fed: unless all is done, some step
   brings the end nearer, and it can be chosen so that a given task arrives last in its round.
   */
  lemma UsefulStep(cfg: Config, s: State, held: int) returns (step: Step)
    requires Inv(cfg, s) && cfg.program.Rounds? && Alive(cfg, s) && !Starved(s) && !Final(s)
    ensures Useful(cfg, s, step) && HoldsBack(s, step, held) && HostNeeded(s, step)
  {
    if i :| 0 <= i < |s.tasks| && IsWrite(s.tasks[i].pc) {
      step := TaskStep(i);
      WriteUseful(cfg, s, i);
    } else if s.joiner.JoinWrite? {
      step := JoinStep;
      JoinUseful(cfg, s);
    } else if HostHolds(s.host, Fifo) {
      step := HostHoldingUseful(cfg, s);
    } else {
      NobodyHolds(cfg, s);
      step := UsefulWhenFree(cfg, s, held);
    }
  }

  lemma UsefulWhenFree(cfg: Config, s: State, held: int) returns (step: Step)
    requires Inv(cfg, s) && cfg.program.Rounds? && !Starved(s) && !Final(s)
    requires forall i :: 0 <= i < |s.tasks| ==> !IsWrite(s.tasks[i].pc)
    requires !s.joiner.JoinWrite? && !HostHolds(s.host, Fifo) && Unheld(cfg, s)
    ensures Useful(cfg, s, step) && HoldsBack(s, step, held) && HostNeeded(s, step)
  {
    if i :| 0 <= i < |s.tasks| && s.tasks[i].pc.Running? && i != held {
      step := CallUseful(cfg, s, i);
    } else if i :| 0 <= i < |s.tasks| && ReadReady(s, s.tasks[i]) {
      step := TaskStep(i);
      ReadUseful(cfg, s, i);
    } else if i :| 0 <= i < |s.tasks| && s.tasks[i].pc.AwaitRead? {
      step := AwaitingUseful(cfg, s, i);
    } else {
      OthersWait(cfg, s, held);
      if 0 <= held < |s.tasks| && s.tasks[held].pc.Running? {
        step := CallUseful(cfg, s, held);
        OthersInRound(cfg, s, held);
      } else {
        forall i | 0 <= i < |s.tasks| ensures Is(Finished, s.tasks[i]) {
          NotAllWaiting(cfg, s, i);
        }
        CountBounds(Finished, s.tasks);
        assert !Unneeded(cfg, s, Exit);
        assert s.regs.Get(Exit) == s.last.Get(Exit);
        step := JoinStep;
        JoinUseful(cfg, s);
      }
    }
  }

  /** With nothing else to do, every task but the held one waits for a release or is gone. */
  lemma OthersWait(cfg: Config, s: State, held: int)
    requires Inv(cfg, s) && cfg.program.Rounds?
    requires forall i :: 0 <= i < |s.tasks| ==>
               && !IsWrite(s.tasks[i].pc) && !ReadReady(s, s.tasks[i]) && !s.tasks[i].pc.AwaitRead?
               && (s.tasks[i].pc.Running? ==> i == held)
    ensures forall i :: 0 <= i < |s.tasks| && !(i == held && s.tasks[i].pc.Running?) ==>
              s.tasks[i].pc.WaitRead? || s.tasks[i].pc.Exited?
    ensures forall i :: 0 <= i < |s.tasks| && s.tasks[i].pc.WaitRead? ==> s.tasks[i].rounds == s.releases
  {
    forall i | 0 <= i < |s.tasks| && !(i == held && s.tasks[i].pc.Running?)
      ensures s.tasks[i].pc.WaitRead? || s.tasks[i].pc.Exited?
      ensures s.tasks[i].pc.WaitRead? ==> s.tasks[i].rounds == s.releases
    {
      assert TaskOk(cfg, s.last, s.releases, s.tasks[i]);
      assert !IsWrite(s.tasks[i].pc) && !ReadReady(s, s.tasks[i]);
    }
  }

  /** If the held task still has a round to go, nobody has exited. */
  lemma OthersInRound(cfg: Config, s: State, held: nat)
    requires Inv(cfg, s) && cfg.program.Rounds? && held < |s.tasks| && s.tasks[held].pc.Running?
    requires forall i :: 0 <= i < |s.tasks| && i != held ==> s.tasks[i].pc.WaitRead? || s.tasks[i].pc.Exited?
    requires forall i :: 0 <= i < |s.tasks| && s.tasks[i].pc.WaitRead? ==> s.tasks[i].rounds == s.releases
    ensures s.tasks[held].rounds < cfg.program.rounds ==>
              forall j :: 0 <= j < |s.tasks| && j != held ==> InWait(s.tasks[j].pc) && s.tasks[j].rounds == s.releases
  {
    assert TaskOk(cfg, s.last, s.releases, s.tasks[held]);
    forall j | 0 <= j < |s.tasks| && j != held && s.tasks[held].rounds < cfg.program.rounds
      ensures s.tasks[j].pc.WaitRead?
    {
      assert TaskOk(cfg, s.last, s.releases, s.tasks[j]);
    }
  }

  // ----- schedules

  /** `steps` can be taken one after the other from `s`, ending in `end`. */
  ghost predicate Leads(cfg: Config, s: State, steps: seq<Step>, end: State)
    decreases |steps|
  {
    if steps == [] then end == s
    else Enabled(cfg, s, steps[0]) && Leads(cfg, Do(cfg, s, steps[0]), steps[1..], end)
  }

  /** What every step keeps. */
  ghost predicate Sound(cfg: Config, s: State) {
    Inv(cfg, s) && (cfg.program.Rounds? ==> Planned(cfg, s))
  }

  lemma {:induction false} LeadsKeepSound(cfg: Config, s: State, steps: seq<Step>, end: State)
    requires Sound(cfg, s) && Leads(cfg, s, steps, end)
    ensures Sound(cfg, end)
    decreases |steps|
  {
    if steps != [] {
      StepKeepsInv(cfg, s, steps[0]);
      if cfg.program.Rounds? {
        StepKeepsPlanned(cfg, s, steps[0]);
      }
      LeadsKeepSound(cfg, Do(cfg, s, steps[0]), steps[1..], end);
    }
  }

  /** A task in the handshake is in a round that may stream, so not all chunks have been taken. */
  lemma ChunkLeft(cfg: Config, s: State, i: nat)
    requires Inv(cfg, s) && Bounded(cfg) && Planned(cfg, s) && i < |s.tasks| && Is(Securing, s.tasks[i])
    ensures s.accepted < |cfg.chunks|
  {
    assert TaskOk(cfg, s.last, s.releases, s.tasks[i]);
    SerialAlone(cfg, s, i);
    forall j | 0 <= j < |s.tasks| ensures !Is(PastAccept, s.tasks[j]) {
    }
    CountBounds(PastAccept, s.tasks);
    assert SomePass(cfg, s.releases);
    MayStreamGrows(cfg, s.releases, cfg.program.rounds);
  }

  lemma FedNotStarved(cfg: Config, s: State)
    requires Inv(cfg, s) && Bounded(cfg) && Planned(cfg, s)
    ensures !Starved(s)
  {
    if Starved(s) {
      var i :| 0 <= i < |s.tasks| && s.tasks[i].pc.AwaitRead?;
      ChunkLeft(cfg, s, i);
    }
  }

  /** With the write-back wait no token is ever lost. */
  lemma WriteBackAlive(cfg: Config, s: State)
    requires Inv(cfg, s) && cfg.program.Rounds? && cfg.wait == WriteBack
    ensures Alive(cfg, s)
  {
  }

  lemma {:induction false} Completes(cfg: Config, s: State) returns (steps: seq<Step>, end: State)
    requires Sound(cfg, s) && Bounded(cfg) && cfg.wait == WriteBack
    ensures Leads(cfg, s, steps, end) && Final(end)
    ensures |steps| <= Work(cfg, s)
    decreases Work(cfg, s)
  {
    WorkNatural(cfg, s);
    if Final(s) {
      steps, end := [], s;
    } else {
      WriteBackAlive(cfg, s);
      FedNotStarved(cfg, s);
      var step := UsefulStep(cfg, s, -1);
      var s' := Do(cfg, s, step);
      StepKeepsInv(cfg, s, step);
      StepKeepsPlanned(cfg, s, step);
      WorkNatural(cfg, s');
      var rest;
      rest, end := Completes(cfg, s');
      steps := [step] + rest;
      assert steps[1..] == rest;
    }
  }

  // ----- what a finished run has streamed

  /** All R rounds are released; as many have streamed as the program asks for, each with its own chunk. */
  ghost predicate Streamed(cfg: Config, end: State)
    requires cfg.program.Rounds?
  {
    && (cfg.ntasks > 0 ==> end.releases == cfg.program.rounds)
    && MustStream(cfg, end.releases) <= end.streamed <= MayStream(cfg, end.releases)
    && end.streamed == end.accepted <= end.delivered <= |cfg.chunks|
    && (end.streamed > 0 ==> end.delivered == end.streamed && end.slot == cfg.chunks[end.streamed - 1])
  }

  lemma FinalStreamed(cfg: Config, end: State)
    requires Sound(cfg, end) && cfg.program.Rounds? && Final(end)
    ensures Streamed(cfg, end)
  {
    if cfg.ntasks > 0 {
      assert TaskOk(cfg, end.last, end.releases, end.tasks[0]);
    }
    CountBounds(PastAccept, end.tasks);
    CountBounds(Securing, end.tasks);
    CountBounds(Awaiting, end.tasks);
  }

  /**
   With the write-back wait, from every state of every run there is a schedule of at most `Work` steps
   after which all tasks have exited, the joiner has returned and all the rounds of the program have
   streamed what they had to.
   */
  lemma RunCompletes(cfg: Config, states: seq<State>, taken: seq<Step>, k: nat) returns (steps: seq<Step>, end: State)
    requires cfg.Valid() && Bounded(cfg) && cfg.wait == WriteBack && IsRun(cfg, states, taken) && k < |states|
    ensures Leads(cfg, states[k], steps, end) && Final(end) && Streamed(cfg, end)
    ensures |steps| <= Work(cfg, states[k])
  {
    RunInv(cfg, states, taken, k);
    RunPlanned(cfg, states, taken, k);
    steps, end := Completes(cfg, states[k]);
    LeadsKeepSound(cfg, states[k], steps, end);
    FinalStreamed(cfg, end);
  }

  /**
   Tasks that all pass the FIFO to each of R > 0 barriers end with exactly R chunks delivered and the
   last one in the slot.
   */
  lemma AlwaysStreamingEnds(cfg: Config, end: State)
    requires Sound(cfg, end) && cfg.program.Rounds? && Final(end) && cfg.ntasks > 0 && cfg.program.rounds > 0
    requires forall r :: 0 <= r < cfg.program.rounds ==> AllPass(cfg, r)
    ensures end.delivered == end.streamed == cfg.program.rounds <= |cfg.chunks|
    ensures end.slot == cfg.chunks[cfg.program.rounds - 1]
  {
    FinalStreamed(cfg, end);
    AllStream(cfg, cfg.program.rounds);
  }

  // ----- how many chunks it takes

  /** Some schedule from `s` ends with all tasks gone and joined. */
  ghost predicate CanComplete(cfg: Config, s: State) {
    exists steps, end :: Leads(cfg, s, steps, end) && Final(end)
  }

  /** Whatever happens from `s` on, the tasks can still finish. */
  ghost predicate AlwaysCompletes(cfg: Config, s: State) {
    forall steps, end :: Leads(cfg, s, steps, end) ==> CanComplete(cfg, end)
  }

  lemma InitSound(cfg: Config, s: State)
    requires cfg.Valid() && Init(cfg, s)
    ensures Sound(cfg, s)
  {
    InitInv(cfg, s);
  }

  /** Under either wait, with fewer chunks than rounds that must stream no schedule ends. */
  lemma CompletionNeedsChunks(cfg: Config, s: State)
    requires Sound(cfg, s) && cfg.program.Rounds? && CanComplete(cfg, s)
    ensures MustStream(cfg, cfg.program.rounds) <= |cfg.chunks|
  {
    var steps, end :| Leads(cfg, s, steps, end) && Final(end);
    LeadsKeepSound(cfg, s, steps, end);
    FinalStreamed(cfg, end);
    if cfg.ntasks == 0 {
      NobodyMustStream(cfg, cfg.program.rounds);
    }
  }

  lemma {:induction false} NobodyMustStream(cfg: Config, r: nat)
    requires cfg.program.Rounds? && cfg.ntasks == 0
    ensures MustStream(cfg, r) == 0
  {
    if r > 0 {
      NobodyMustStream(cfg, r - 1);
    }
  }

  /** With a chunk for every round that may stream, completion stays possible whatever happens. */
  lemma ChunksSuffice(cfg: Config, s: State)
    requires Sound(cfg, s) && Bounded(cfg) && cfg.wait == WriteBack
    ensures AlwaysCompletes(cfg, s)
  {
    forall steps, end | Leads(cfg, s, steps, end) ensures CanComplete(cfg, end) {
      LeadsKeepSound(cfg, s, steps, end);
      var rest, last := Completes(cfg, end);
    }
  }
}
