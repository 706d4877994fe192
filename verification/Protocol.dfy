/**
 The synchronisation-register protocol as a step relation.

 N device tasks, the thread that joins them and a host thread that streams chunks share four
 32-bit registers.  A register is touched only by an atomic read that also clears it and by a
 write; one such access, or one byte of a host transfer, is one step, and steps of all threads
 interleave freely.  Two things are parameters: whether `mango_wait` puts the value it waited
 for back into the register, and whether a register write overwrites or increments.
 */
module Protocol {
  import opened Words

  /** event_a (end of tasks), event_b (barrier), event_r (release), and the FIFO buffer's event. */
  datatype Reg = Exit | Barrier | Release | Fifo

  datatype Regs = Regs(exit: Word, barrier: Word, release: Word, fifo: Word) {
    function Get(r: Reg): Word {
      match r
      case Exit => exit
      case Barrier => barrier
      case Release => release
      case Fifo => fifo
    }

    function Set(r: Reg, v: Word): Regs {
      match r
      case Exit => this.(exit := v)
      case Barrier => this.(barrier := v)
      case Release => this.(release := v)
      case Fifo => this.(fifo := v)
    }
  }

  // Values of mango_event_status_t
  const READ: Word := 1
  const WRITE: Word := 2
  const END_FIFO_OPERATION: Word := 3

  datatype WaitKind = WriteBack | Consuming
  datatype StoreKind = Overwrite | Increment

  /**
   What each task does: any mix of barriers, with or without the FIFO, and an exit; or exactly
   `rounds` barriers and then an exit, where `passes(tid, r)` says whether task `tid` passes the
   FIFO to its barrier call of round `r`.
   */
  datatype Program = Free | Rounds(rounds: nat, passes: (nat, nat) -> bool)

  /** `chunks` is what the host sends, each chunk being as long as the buffer. */
  datatype Config = Config(ntasks: nat, wait: WaitKind, store: StoreKind,
                           program: Program, size: nat, chunks: seq<seq<Byte>>)
  {
    ghost predicate Valid() {
      && ntasks + 1 < WORD
      && forall k :: 0 <= k < |chunks| ==> |chunks[k]| == size
    }
  }

  /** Where a task is: each value but Running and Exited names the register access it performs next. */
  datatype Pc =
    | Running
    // mango_barrier, up to the signal
    | LockRelease | RestoreRelease | LockBarrier | DropBarrier
    // mango_wait on the release register
    | WaitRead | WaitWrite
    // the last task: FIFO handshake, barrier reset, release flip
    | LockFifo | RequestChunk | AwaitRead | AwaitWrite | RelockFifo | AcceptChunk
    | LockReset | WriteReset | LockFlip | WriteFlip
    // mango_exit
    | LockExit | DropExit
    | Exited

  /**
   A task with the locals of `mango_barrier`; `fifo` is its FIFO argument (null or not).
   `rounds` is history: how many of its barrier calls have returned.
   */
  datatype Task = Task(tid: nat, pc: Pc, go: Word, value: Word, fifo: bool, rounds: nat)

  /** The thread inside `mango_join`. */
  datatype Joiner = JoinRead | JoinWrite(value: Word) | Joined

  /** The host thread inside `synch_write`; a transfer moves one byte per step. */
  datatype Host = HostRead | HostBack(value: Word) | HostCopy(at: nat) | HostWrite | HostDone

  /**
   `last` (the value most recently stored in each register), `delivered`, `accepted`, `releases`
   and `streamed` are history: chunks handed over by the host, chunks taken by the device,
   barrier rounds released, and how many of those were FIFO rounds.
   */
  datatype State = State(tasks: seq<Task>, joiner: Joiner, host: Host,
                         regs: Regs, slot: seq<Byte>,
                         last: Regs, delivered: nat, accepted: nat, releases: nat, streamed: nat)

  /** The next register access of a thread. */
  datatype Access = NoAccess | Read(reg: Reg) | Write(reg: Reg, value: Word)

  /** A register write under the GN emulation (overwrite) or as the API documents it (increment). */
  function Store(kind: StoreKind, old_: Word, v: Word): Word {
    match kind
    case Overwrite => v
    case Increment => Add(old_, v)
  }

  // ----- one task

  function TaskAccess(cfg: Config, t: Task): Access {
    match t.pc
    case Running => NoAccess
    case LockRelease => Read(Release)
    case RestoreRelease => Write(Release, t.go)
    case LockBarrier => Read(Barrier)
    case DropBarrier => Write(Barrier, Dec(t.value))
    case WaitRead => Read(Release)
    case WaitWrite => Write(Release, t.value)
    case LockFifo => Read(Fifo)
    case RequestChunk => Write(Fifo, WRITE)
    case AwaitRead => Read(Fifo)
    case AwaitWrite => Write(Fifo, t.value)
    case RelockFifo => Read(Fifo)
    case AcceptChunk => Write(Fifo, END_FIFO_OPERATION)
    case LockReset => Read(Barrier)
    case WriteReset => Write(Barrier, ToWord(cfg.ntasks + 1))
    case LockFlip => Read(Release)
    case WriteFlip => Write(Release, t.go)
    case LockExit => Read(Exit)
    case DropExit => Write(Exit, Dec(t.value))
    case Exited => NoAccess
  }

  function Returned(t: Task): Task {
    t.(pc := Running, rounds := t.rounds + 1)
  }

  function Flip(go: Word): Word {
    if go == 1 then 2 else 1
  }

  /** The task after its read returned `v`; every read sits in `mango_lock`, which spins on 0. */
  function AfterRead(cfg: Config, t: Task, v: Word): Task {
    if v == 0 then t
    else
      match t.pc
      case LockRelease => t.(pc := RestoreRelease, go := v)
      case LockBarrier => t.(pc := DropBarrier, value := v)
      case WaitRead =>
        if cfg.wait.Consuming? && v == t.go then Returned(t)
        else t.(pc := WaitWrite, value := v)
      case LockFifo =>
        t.(pc := if v == READ then AcceptChunk else RequestChunk, value := v)
      case AwaitRead =>
        if cfg.wait.Consuming? && v == READ then t.(pc := RelockFifo)
        else t.(pc := AwaitWrite, value := v)
      case RelockFifo => t.(pc := AcceptChunk)
      case LockReset => t.(pc := WriteReset)
      case LockFlip => t.(pc := WriteFlip)
      case LockExit => t.(pc := DropExit, value := v)
      case _ => t
  }

  function AfterWrite(t: Task): Task {
    match t.pc
    case RestoreRelease => t.(pc := LockBarrier, go := Flip(t.go))
    case DropBarrier =>
      t.(pc := if Dec(t.value) > 1 then WaitRead else if t.fifo then LockFifo else LockReset)
    case WaitWrite => if t.value == t.go then Returned(t) else t.(pc := WaitRead)
    case RequestChunk => t.(pc := AwaitRead)
    case AwaitWrite => t.(pc := if t.value == READ then RelockFifo else AwaitRead)
    case AcceptChunk => t.(pc := LockReset)
    case WriteReset => t.(pc := LockFlip)
    case WriteFlip => Returned(t)
    case DropExit => t.(pc := Exited)
    case _ => t
  }

  // ----- the joiner: mango_wait(event_a, READ)

  function JoinAccess(j: Joiner): Access {
    match j
    case JoinRead => Read(Exit)
    case JoinWrite(v) => Write(Exit, v)
    case Joined => NoAccess
  }

  function JoinAfterRead(cfg: Config, j: Joiner, v: Word): Joiner {
    if v == 0 then j
    else if cfg.wait.Consuming? && v == READ then Joined
    else JoinWrite(v)
  }

  function JoinAfterWrite(j: Joiner): Joiner {
    match j
    case JoinWrite(v) => if v == READ then Joined else JoinRead
    case _ => j
  }

  // ----- the host: Event::wait_state(WRITE), the transfer, Event::write(READ)

  function HostAccess(h: Host): Access {
    match h
    case HostRead => Read(Fifo)
    case HostBack(v) => Write(Fifo, v)
    case HostCopy(_) => NoAccess
    case HostWrite => Write(Fifo, READ)
    case HostDone => NoAccess
  }

  function HostAfterRead(h: Host, v: Word): Host {
    if v == 0 then h else if v == WRITE then HostCopy(0) else HostBack(v)
  }

  /** The host after a write, `delivered` being the number of chunks handed over including this one. */
  function HostAfterWrite(cfg: Config, h: Host, delivered: nat): Host {
    match h
    case HostBack(_) => HostRead
    case HostWrite => if delivered < |cfg.chunks| then HostRead else HostDone
    case _ => h
  }

  // ----- the whole system

  datatype Step =
    | TaskStep(i: nat)                  // the pending register access of task i
    | CallBarrier(i: nat, fifo: bool)   // task i calls mango_barrier
    | CallExit(i: nat)                  // task i calls mango_exit
    | JoinStep
    | HostStep                          // the pending register access of the host
    | HostByte                          // one byte of the transfer, or its end

  ghost predicate Enabled(cfg: Config, s: State, step: Step) {
    match step
    case TaskStep(i) => i < |s.tasks| && !TaskAccess(cfg, s.tasks[i]).NoAccess?
    case CallBarrier(i, fifo) =>
      && i < |s.tasks| && s.tasks[i].pc.Running?
      && (cfg.program.Rounds? ==>
            s.tasks[i].rounds < cfg.program.rounds && fifo == cfg.program.passes(s.tasks[i].tid, s.tasks[i].rounds))
    case CallExit(i) =>
      && i < |s.tasks| && s.tasks[i].pc.Running?
      && (cfg.program.Rounds? ==> s.tasks[i].rounds == cfg.program.rounds)
    case JoinStep => s.joiner != Joined
    case HostStep => !HostAccess(s.host).NoAccess?
    case HostByte =>
      && s.host.HostCopy? && s.host.at <= |s.slot|
      && s.delivered < |cfg.chunks| && |cfg.chunks[s.delivered]| == |s.slot|
  }

  function DoTask(cfg: Config, s: State, i: nat): State
    requires i < |s.tasks|
  {
    var t := s.tasks[i];
    match TaskAccess(cfg, t)
    case NoAccess => s
    case Read(r) =>
      s.(tasks := s.tasks[i := AfterRead(cfg, t, s.regs.Get(r))], regs := s.regs.Set(r, 0))
    case Write(r, v) =>
      var w := Store(cfg.store, s.regs.Get(r), v);
      s.(tasks := s.tasks[i := AfterWrite(t)], regs := s.regs.Set(r, w), last := s.last.Set(r, w),
         accepted := s.accepted + if t.pc.AcceptChunk? then 1 else 0,
         releases := s.releases + if t.pc.WriteFlip? then 1 else 0,
         streamed := s.streamed + if t.pc.WriteFlip? && t.fifo then 1 else 0)
  }

  function DoJoin(cfg: Config, s: State): State {
    match JoinAccess(s.joiner)
    case NoAccess => s
    case Read(r) => s.(joiner := JoinAfterRead(cfg, s.joiner, s.regs.Get(r)), regs := s.regs.Set(r, 0))
    case Write(r, v) =>
      var w := Store(cfg.store, s.regs.Get(r), v);
      s.(joiner := JoinAfterWrite(s.joiner), regs := s.regs.Set(r, w), last := s.last.Set(r, w))
  }

  function DoHost(cfg: Config, s: State): State {
    match HostAccess(s.host)
    case NoAccess => s
    case Read(r) => s.(host := HostAfterRead(s.host, s.regs.Get(r)), regs := s.regs.Set(r, 0))
    case Write(r, v) =>
      var w := Store(cfg.store, s.regs.Get(r), v);
      var delivered := s.delivered + if s.host == HostWrite then 1 else 0;
      s.(host := HostAfterWrite(cfg, s.host, delivered), delivered := delivered,
         regs := s.regs.Set(r, w), last := s.last.Set(r, w))
  }

  function DoByte(cfg: Config, s: State): State
    requires s.host.HostCopy? && s.host.at <= |s.slot|
    requires s.delivered < |cfg.chunks| && |cfg.chunks[s.delivered]| == |s.slot|
  {
    var at := s.host.at;
    if at < |s.slot| then
      s.(slot := s.slot[at := cfg.chunks[s.delivered][at]], host := HostCopy(at + 1))
    else
      s.(host := HostWrite)
  }

  function Do(cfg: Config, s: State, step: Step): State
    requires Enabled(cfg, s, step)
  {
    match step
    case TaskStep(i) => DoTask(cfg, s, i)
    case CallBarrier(i, fifo) => s.(tasks := s.tasks[i := s.tasks[i].(pc := LockRelease, fifo := fifo)])
    case CallExit(i) => s.(tasks := s.tasks[i := s.tasks[i].(pc := LockExit)])
    case JoinStep => DoJoin(cfg, s)
    case HostStep => DoHost(cfg, s)
    case HostByte => DoByte(cfg, s)
  }

  /** What `mango_gn_spawn` stores, next to the WRITE the host left in the FIFO's event. */
  function SpawnRegs(n: nat): Regs {
    Regs(ToWord(n + 1), ToWord(n + 1), 2, WRITE)
  }

  ghost predicate Init(cfg: Config, s: State) {
    && |s.tasks| == cfg.ntasks
    && (forall i :: 0 <= i < |s.tasks| ==> s.tasks[i].tid == i && s.tasks[i].pc.Running? && s.tasks[i].rounds == 0)
    && s.joiner == JoinRead
    && s.host == (if |cfg.chunks| > 0 then HostRead else HostDone)
    && s.regs == s.last == SpawnRegs(cfg.ntasks)
    && |s.slot| == cfg.size
    && s.delivered == s.accepted == s.releases == s.streamed == 0
  }

  /** A run: states and the steps between them, from a state just after spawn. */
  ghost predicate IsRun(cfg: Config, states: seq<State>, steps: seq<Step>) {
    && |states| == |steps| + 1
    && Init(cfg, states[0])
    && forall k :: 0 <= k < |steps| ==> Follows(cfg, states[k], steps[k], states[k + 1])
  }

  ghost predicate Follows(cfg: Config, s: State, step: Step, s': State) {
    Enabled(cfg, s, step) && s' == Do(cfg, s, step)
  }
}
