/** Counting the tasks that have a feature: who holds a register, who has arrived, who has exited. */
module Counting {
  import opened Words
  import opened Protocol

  datatype Feature =
    | Holding(reg: Reg)      // read the register and has not written it yet
    | Arrived(round: nat)    // signalled the barrier in this round
    | Serial                 // took the else branch of mango_barrier
    | PastReset              // has stored ntasks+1 in the barrier register
    | Awaiting               // asked for a chunk, has not seen READ
    | Securing               // asked for a chunk, has not stored END_FIFO_OPERATION
    | PastAccept             // stored END_FIFO_OPERATION, has not released
    | Finished               // has left mango_exit
    | Restoring              // is about to put back a value it did not wait for

  predicate InWait(pc: Pc) {
    (pc.WaitRead? || pc.WaitWrite?)
  }

  predicate InSerial(pc: Pc) {
    || pc.LockFifo? || pc.RequestChunk? || pc.AwaitRead? || pc.AwaitWrite? || pc.RelockFifo?
    || pc.AcceptChunk? || pc.LockReset? || pc.WriteReset? || pc.LockFlip? || pc.WriteFlip?
  }

  /** The register whose token a task carries, if any. */
  predicate Holds(pc: Pc, r: Reg) {
    match r
    case Exit => pc.DropExit?
    case Barrier => (pc.DropBarrier? || pc.WriteReset?)
    case Release => (pc.RestoreRelease? || pc.WaitWrite? || pc.WriteFlip?)
    case Fifo => (pc.RequestChunk? || pc.AwaitWrite? || pc.AcceptChunk?)
  }

  predicate Is(f: Feature, t: Task) {
    match f
    case Holding(r) => Holds(t.pc, r)
    case Arrived(round) => t.rounds == round && (InWait(t.pc) || InSerial(t.pc))
    case Serial => InSerial(t.pc)
    case PastReset => (t.pc.LockFlip? || t.pc.WriteFlip?)
    case Awaiting => (t.pc.AwaitRead? || t.pc.AwaitWrite?)
    case Securing => (t.pc.AwaitRead? || t.pc.AwaitWrite? || t.pc.RelockFifo? || t.pc.AcceptChunk?)
    case PastAccept => t.fifo && (t.pc.LockReset? || t.pc.WriteReset? || t.pc.LockFlip? || t.pc.WriteFlip?)
    case Finished => t.pc.Exited?
    case Restoring => (t.pc.WaitWrite? && t.value != t.go) || (t.pc.AwaitWrite? && t.value != READ)
  }

  function Bit(b: bool): nat {
    if b then 1 else 0
  }

  function Count(f: Feature, ts: seq<Task>): nat {
    if ts == [] then 0 else Count(f, ts[1..]) + Bit(Is(f, ts[0]))
  }

  lemma {:induction false} CountUpdate(f: Feature, ts: seq<Task>, i: nat, t: Task)
    requires i < |ts|
    ensures Count(f, ts[i := t]) + Bit(Is(f, ts[i])) == Count(f, ts) + Bit(Is(f, t))
  {
    if i == 0 {
      assert ts[0 := t][1..] == ts[1..];
    } else {
      assert ts[i := t][1..] == ts[1..][i - 1 := t];
      CountUpdate(f, ts[1..], i - 1, t);
    }
  }

  lemma {:induction false} CountBounds(f: Feature, ts: seq<Task>)
    ensures Count(f, ts) <= |ts|
    ensures Count(f, ts) == |ts| <==> forall i :: 0 <= i < |ts| ==> Is(f, ts[i])
    ensures Count(f, ts) == 0 <==> forall i :: 0 <= i < |ts| ==> !Is(f, ts[i])
  {
    if ts != [] {
      CountBounds(f, ts[1..]);
      assert forall i :: 1 <= i < |ts| ==> ts[i] == ts[1..][i - 1];
      assert forall i :: 0 <= i < |ts| - 1 ==> ts[1..][i] == ts[i + 1];
    }
  }

  /** A feature counted at most once belongs to at most one task. */
  lemma {:induction false} CountUnique(f: Feature, ts: seq<Task>, i: nat, j: nat)
    requires i < |ts| && j < |ts| && i != j
    requires Is(f, ts[i]) && Is(f, ts[j])
    ensures Count(f, ts) >= 2
  {
    if i == 0 || j == 0 {
      var k := i + j;
      assert ts[k] == ts[1..][k - 1];
      CountBounds(f, ts[1..]);
    } else {
      CountUnique(f, ts[1..], i - 1, j - 1);
    }
  }

  /** If every task with feature `f` has feature `g`, there are at least as many of the latter. */
  lemma {:induction false} CountLe(f: Feature, g: Feature, ts: seq<Task>)
    requires forall i :: 0 <= i < |ts| ==> Is(f, ts[i]) ==> Is(g, ts[i])
    ensures Count(f, ts) <= Count(g, ts)
  {
    if ts != [] {
      CountLe(f, g, ts[1..]);
    }
  }
}
