/** What the invariant means for the data streamed through the FIFO buffer. */
module Streaming {
  import opened Words
  import opened Protocol
  import opened Counting
  import opened Invariant
  import opened Preservation

  ghost predicate SomeTask(s: State, f: Feature) {
    exists i :: 0 <= i < |s.tasks| && Is(f, s.tasks[i])
  }

  /**
   Streaming is exact, in every state of every run.  With m+1 FIFO rounds released, the slot holds
   chunk m whole and the host has delivered m+1 chunks, until the last task of a later FIFO round
   has asked for more; and from the moment that task has accepted the next chunk it is that chunk.
   */
  lemma StreamExact(cfg: Config, states: seq<State>, steps: seq<Step>, k: nat)
    requires cfg.Valid() && IsRun(cfg, states, steps) && k < |states|
    ensures var s := states[k];
            && s.streamed <= s.accepted <= s.delivered <= |cfg.chunks| && s.delivered <= s.accepted + 1
            && (s.streamed > 0 && !SomeTask(s, Securing) && !SomeTask(s, PastAccept) ==>
                  s.delivered == s.streamed && s.slot == cfg.chunks[s.streamed - 1])
            && (SomeTask(s, PastAccept) ==>
                  s.delivered == s.streamed + 1 && s.slot == cfg.chunks[s.streamed])
  {
    var s := states[k];
    RunInv(cfg, states, steps, k);
    SerialParts(cfg, s);
    SlotBetweenHandshakes(cfg, s);
    if SomeTask(s, PastAccept) {
      var i :| 0 <= i < |s.tasks| && Is(PastAccept, s.tasks[i]);
      SlotOnceAccepted(cfg, s, i);
    }
  }

  lemma SlotBetweenHandshakes(cfg: Config, s: State)
    requires Inv(cfg, s)
    ensures s.streamed > 0 && !SomeTask(s, Securing) && !SomeTask(s, PastAccept) ==>
              s.delivered == s.streamed && s.slot == cfg.chunks[s.streamed - 1]
  {
    CountBounds(Securing, s.tasks);
    CountBounds(PastAccept, s.tasks);
    CountLe(Awaiting, Securing, s.tasks);
  }

  lemma SlotOnceAccepted(cfg: Config, s: State, i: nat)
    requires Inv(cfg, s) && i < |s.tasks| && Is(PastAccept, s.tasks[i])
    ensures s.delivered == s.streamed + 1 && s.slot == cfg.chunks[s.streamed]
  {
    NotSecuring(cfg, s, i);
    SerialParts(cfg, s);
    CountBounds(PastAccept, s.tasks);
  }

  /**
   What a computing task may rely on: as long as one task has not signalled the current round,
   the slot is exactly the chunk of the last FIFO round released, and stays it.
   */
  lemma ChunkStableWhileComputing(cfg: Config, states: seq<State>, steps: seq<Step>, k: nat, i: nat)
    requires cfg.Valid() && IsRun(cfg, states, steps) && k < |states|
    requires i < |states[k].tasks| && !Is(Arrived(states[k].releases), states[k].tasks[i])
    ensures var s := states[k];
            s.streamed > 0 ==>
              && s.delivered == s.accepted == s.streamed <= |cfg.chunks|
              && s.slot == cfg.chunks[s.streamed - 1]
              && (k + 1 < |states| ==> states[k + 1].slot == s.slot)
  {
    var s := states[k];
    RunInv(cfg, states, steps, k);
    CountBounds(Arrived(s.releases), s.tasks);
    SerialParts(cfg, s);
    CountBounds(Securing, s.tasks);
    CountBounds(PastAccept, s.tasks);
    if k + 1 < |states| && s.streamed > 0 {
      assert Follows(cfg, s, steps[k], states[k + 1]);
      if steps[k].HostByte? {
        assert false;
      }
    }
  }

  /** At the release of FIFO round m the host has delivered exactly m+1 chunks and the slot holds chunk m. */
  lemma ReleaseDelivers(cfg: Config, states: seq<State>, steps: seq<Step>, k: nat)
    requires cfg.Valid() && IsRun(cfg, states, steps) && k < |steps|
    requires states[k + 1].streamed != states[k].streamed
    ensures var s' := states[k + 1];
            && s'.streamed == states[k].streamed + 1
            && s'.delivered == s'.accepted == s'.streamed <= |cfg.chunks|
            && s'.slot == cfg.chunks[s'.streamed - 1]
            && s'.releases == states[k].releases + 1
  {
    assert Follows(cfg, states[k], steps[k], states[k + 1]);
    assert steps[k].TaskStep?;
    var i := steps[k].i;
    assert states[k].tasks[i].pc.WriteFlip? && states[k].tasks[i].fifo;
    assert Is(PastAccept, states[k].tasks[i]);
    StreamExact(cfg, states, steps, k);
    RunInv(cfg, states, steps, k);
    RunInv(cfg, states, steps, k + 1);
    SerialAlone(cfg, states[k], i);
    SerialParts(cfg, states[k + 1]);
    assert Count(Serial, states[k + 1].tasks) == 0 by {
      SerialAfterFlip(cfg, states[k], states[k + 1], i);
    }
  }

  lemma SerialAfterFlip(cfg: Config, s: State, s': State, i: nat)
    requires i < |s.tasks| && s.tasks[i].pc.WriteFlip? && Count(Serial, s.tasks) == 1
    requires s'.tasks == s.tasks[i := AfterWrite(s.tasks[i])]
    ensures Count(Serial, s'.tasks) == 0
  {
    CountUpdate(Serial, s.tasks, i, AfterWrite(s.tasks[i]));
  }

  /**
   The host moves bytes only before the first chunk is accepted, or while exactly one task waits
   for it inside the barrier and all the others wait for that task.
   */
  lemma TransfersOnlyInHandshake(cfg: Config, states: seq<State>, steps: seq<Step>, k: nat)
    requires cfg.Valid() && IsRun(cfg, states, steps) && k < |steps| && steps[k].HostByte?
    ensures var s := states[k];
            s.accepted > 0 ==>
              exists i :: 0 <= i < |s.tasks| && Is(Awaiting, s.tasks[i])
                && forall j :: 0 <= j < |s.tasks| && j != i ==> InWait(s.tasks[j].pc) && s.tasks[j].rounds == s.releases
  {
    var s := states[k];
    RunInv(cfg, states, steps, k);
    assert Follows(cfg, s, steps[k], states[k + 1]);
    if s.accepted > 0 {
      CountBounds(Awaiting, s.tasks);
      var i :| 0 <= i < |s.tasks| && Is(Awaiting, s.tasks[i]);
      SerialAlone(cfg, s, i);
    }
  }
}
