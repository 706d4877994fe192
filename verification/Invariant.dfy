/** The inductive invariant of the protocol, for both kinds of wait and both kinds of register write. */
module Invariant {
  import opened Words
  import opened Protocol
  import opened Counting

  /** What the release register logically holds after `releases` released rounds. */
  function ReleaseValue(releases: nat): Word {
    if releases % 2 == 0 then 2 else 1
  }

  predicate JoinHolds(j: Joiner, r: Reg) {
    r == Exit && j.JoinWrite?
  }

  predicate HostHolds(h: Host, r: Reg) {
    r == Fifo && (h.HostBack? || h.HostCopy? || h.HostWrite?)
  }

  /** Tokens of register `r`: one if it is non-zero, plus one for every thread that holds it. */
  function Tokens(s: State, r: Reg): nat {
    Count(Holding(r), s.tasks) + Bit(JoinHolds(s.joiner, r)) + Bit(HostHolds(s.host, r)) + Bit(s.regs.Get(r) != 0)
  }

  ghost predicate Shape(cfg: Config, s: State) {
    && cfg.Valid()
    && |s.tasks| == cfg.ntasks
    && |s.slot| == cfg.size
    && s.delivered <= |cfg.chunks|
    && (s.host == HostDone <==> s.delivered == |cfg.chunks|)
    && (s.host.HostCopy? ==> s.host.at <= cfg.size)
  }

  /** Never two tokens, and with the write-back wait always one. */
  ghost predicate TokensOk(cfg: Config, s: State) {
    forall r: Reg ::
      && Tokens(s, r) <= 1
      && (cfg.wait == WriteBack ==> Tokens(s, r) == 1)
      && s.last.Get(r) != 0
      && (s.regs.Get(r) == 0 || s.regs.Get(r) == s.last.Get(r))
  }

  /** What a task's locals say about the values last stored and the rounds released. */
  predicate TaskOk(cfg: Config, last: Regs, releases: nat, t: Task) {
    && CarriesOk(last, t)
    && RoundsOk(cfg, releases, t)
  }

  /** A holder carries the value its register last held. */
  predicate CarriesOk(last: Regs, t: Task) {
    match t.pc
    case RestoreRelease => t.go == last.release
    case DropBarrier => t.value == last.barrier
    case WaitWrite => t.value == last.release
    case RequestChunk => t.value == last.fifo && t.value != READ
    case AwaitWrite => t.value == last.fifo
    case RelockFifo => last.fifo == READ
    case AcceptChunk => last.fifo == READ
    case DropExit => t.value == last.exit
    case _ => true
  }

  predicate InHandshake(pc: Pc) {
    pc.LockFifo? || pc.RequestChunk? || pc.AwaitRead? || pc.AwaitWrite? || pc.RelockFifo? || pc.AcceptChunk?
  }

  predicate InExit(pc: Pc) {
    pc.LockExit? || pc.DropExit? || pc.Exited?
  }

  predicate RoundsOk(cfg: Config, releases: nat, t: Task) {
    && (t.rounds == releases || (t.rounds + 1 == releases && InWait(t.pc)))
    && (t.pc.LockBarrier? || t.pc.DropBarrier? || InWait(t.pc) || InSerial(t.pc) ==> t.go == ReleaseValue(t.rounds + 1))
    && (t.pc.WaitWrite? && cfg.wait.Consuming? ==> t.value != t.go)
    && (InHandshake(t.pc) ==> t.fifo)
    && (cfg.program.Rounds? && !t.pc.Running? && !InExit(t.pc) ==> t.fifo == cfg.program.passes(t.tid, t.rounds))
    && (cfg.program.Rounds? ==>
          if InExit(t.pc) then t.rounds == cfg.program.rounds
          else if t.pc.Running? then t.rounds <= cfg.program.rounds
          else t.rounds < cfg.program.rounds)
  }

  ghost predicate TasksOk(cfg: Config, s: State) {
    forall i :: 0 <= i < |s.tasks| ==> TaskOk(cfg, s.last, s.releases, s.tasks[i])
  }

  ghost predicate BarrierOk(cfg: Config, s: State) {
    && s.last.release == ReleaseValue(s.releases)
    && s.last.barrier ==
       cfg.ntasks + 1 - (if Count(PastReset, s.tasks) > 0 then 0 else Count(Arrived(s.releases), s.tasks))
    && Count(Serial, s.tasks) == Bit(cfg.ntasks > 0 && Count(Arrived(s.releases), s.tasks) == cfg.ntasks)
    && s.last.exit == cfg.ntasks + 1 - Count(Finished, s.tasks)
    && (s.joiner.JoinWrite? ==> s.joiner.value == s.last.exit)
    && (s.joiner == Joined ==> Count(Finished, s.tasks) == cfg.ntasks)
  }

  ghost predicate FifoOk(cfg: Config, s: State) {
    && s.last.fifo in {READ, WRITE, END_FIFO_OPERATION}
    && s.accepted == s.streamed + Count(PastAccept, s.tasks)
    && s.streamed <= s.releases
    && (s.last.fifo == WRITE ==> s.delivered == s.accepted && (s.accepted == 0 || Count(Awaiting, s.tasks) == 1))
    && (s.last.fifo == READ ==> s.delivered == s.accepted + 1 && (s.accepted == 0 || Count(Securing, s.tasks) == 1))
    && (s.last.fifo == END_FIFO_OPERATION ==> s.delivered == s.accepted > 0 && Count(Securing, s.tasks) == 0)
    && (s.host.HostBack? ==> s.host.value == s.last.fifo)
    && (s.host.HostCopy? || s.host == HostWrite ==> s.last.fifo == WRITE)
    && s.delivered <= |cfg.chunks|
  }

  ghost predicate SlotOk(cfg: Config, s: State) {
    && s.delivered <= |cfg.chunks|
    && match s.host
       case HostCopy(at) =>
         s.delivered < |cfg.chunks| && at <= |s.slot| && at <= |cfg.chunks[s.delivered]|
         && s.slot[..at] == cfg.chunks[s.delivered][..at]
       case HostWrite => s.delivered < |cfg.chunks| && s.slot == cfg.chunks[s.delivered]
       case _ => s.delivered > 0 ==> s.slot == cfg.chunks[s.delivered - 1]
  }

  ghost predicate Inv(cfg: Config, s: State) {
    && Shape(cfg, s)
    && TokensOk(cfg, s)
    && TasksOk(cfg, s)
    && BarrierOk(cfg, s)
    && FifoOk(cfg, s)
    && SlotOk(cfg, s)
  }

  lemma InitInv(cfg: Config, s: State)
    requires cfg.Valid() && Init(cfg, s)
    ensures Inv(cfg, s)
  {
    forall f: Feature ensures Count(f, s.tasks) == 0 {
      CountBounds(f, s.tasks);
    }
  }
}
