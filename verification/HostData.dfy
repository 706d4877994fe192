/** The host's data through the protocol: what the slot shows round after round is what synch_write was given. */
module HostData {
  import opened Words
  import opened Protocol
  import opened Counting
  import opened Invariant
  import opened Preservation
  import opened FifoRounds
  import opened Streaming
  import opened Divisors
  import opened HostLoops
  import Progress

  /** The slot as each FIFO release in the first `n` steps of a run leaves it. */
  function Slots(states: seq<State>, n: nat): seq<seq<Byte>>
    requires n < |states|
  {
    if n == 0 then []
    else Slots(states, n - 1) + if states[n].streamed == states[n - 1].streamed then [] else [states[n].slot]
  }

  /** The tasks see the chunks in order, each once, none left out. */
  lemma {:induction false} SlotsAreChunks(cfg: Config, states: seq<State>, steps: seq<Step>, n: nat)
    requires cfg.Valid() && IsRun(cfg, states, steps) && n < |states|
    ensures states[n].streamed <= |cfg.chunks| && Slots(states, n) == cfg.chunks[..states[n].streamed]
  {
    hide Do;
    hide Enabled;
    if n > 0 {
      SlotsAreChunks(cfg, states, steps, n - 1);
      if states[n].streamed != states[n - 1].streamed {
        ReleaseDelivers(cfg, states, steps, n - 1);
        var m := states[n - 1].streamed;
        assert cfg.chunks[..m] + [cfg.chunks[m]] == cfg.chunks[..m + 1];
      }
    }
  }

  /** The chunks of the configuration are those synch_write sends for `globalSize` bytes of `data`. */
  ghost predicate Sends(cfg: Config, data: seq<Byte>, size: Word, globalSize: Word) {
    && cfg.size == size > 0 && LeavesAt(size, globalSize, |cfg.chunks|)
    && forall k :: 0 <= k < |cfg.chunks| ==> Burst(data, size, k, cfg.chunks[k])
  }

  /** SynchWrite's own bursts make such a configuration. */
  method ConfigOf(ntasks: nat, wait: WaitKind, store: StoreKind, program: Program,
                  data: seq<Byte>, size: Word, globalSize: Word) returns (cfg: Config)
    requires ntasks + 1 < WORD && size > 0 && Leaves(size, globalSize)
    requires forall k :: 0 <= k < Turns(size, globalSize) ==> OffsetAfter(size, k) + size <= |data|
    ensures cfg.Valid() && Sends(cfg, data, size, globalSize) && cfg.ntasks == ntasks
    ensures cfg.program == program && cfg.wait == wait && cfg.store == store
  {
    var off, sent := SynchWrite(data, size, globalSize);
    cfg := Config(ntasks, wait, store, program, size, sent);
    assert forall k :: 0 <= k < |sent| ==> Burst(data, size, k, sent[k]);
  }

  /**
   Host to tasks.  In every run, put together what the slot holds at the FIFO releases so far: it is
   the host's data from its start, for as long as the offset has not wrapped, which it never does when
   the covering multiple of the size asked for fits 32 bits.
   */
  lemma SlotsAreData(
      cfg: Config, states: seq<State>, steps: seq<Step>, n: nat, data: seq<Byte>, size: Word, globalSize: Word)
    requires cfg.Valid() && IsRun(cfg, states, steps) && n < |states| && Sends(cfg, data, size, globalSize)
    ensures states[n].streamed * size < WORD ==>
              states[n].streamed * size <= |data| && Flatten(Slots(states, n)) == data[..states[n].streamed * size]
    ensures Transfers(size, globalSize) * size < WORD ==>
              |cfg.chunks| == Transfers(size, globalSize) && states[n].streamed * size < WORD
  {
    hide LeavesAt;
    hide IsRun;
    SlotsAreChunks(cfg, states, steps, n);
    var m := states[n].streamed;
    var sent := cfg.chunks[..m];
    if m * size < WORD {
      CoveredNoWrap(size, m);
      assert forall k :: 0 <= k < m ==> sent[k] == cfg.chunks[k];
      BurstsAreData(data, size, sent);
    }
    if Transfers(size, globalSize) * size < WORD {
      WriteIsData(data, size, globalSize, cfg.chunks);
      MulAtMost(m, |cfg.chunks|, size);
    }
  }

  lemma MulAtMost(a: nat, b: nat, c: nat)
    requires a <= b
    ensures a * c <= b * c
  {
  }

  /**
   And all of it: N > 0 tasks that all pass the FIFO to every barrier, as many barriers as synch_write
   makes transfers, have in a finished run been shown all the data asked for.
   */
  lemma AllDataStreamed(
      cfg: Config, states: seq<State>, steps: seq<Step>, data: seq<Byte>, size: Word, globalSize: Word)
    requires cfg.Valid() && IsRun(cfg, states, steps) && Sends(cfg, data, size, globalSize)
    requires Transfers(size, globalSize) * size < WORD
    requires cfg.program.Rounds? && cfg.ntasks > 0 && cfg.program.rounds == |cfg.chunks| > 0
    requires forall r :: 0 <= r < cfg.program.rounds ==> AllPass(cfg, r)
    requires Progress.Final(states[|steps|])
    ensures globalSize <= |cfg.chunks| * size <= |data|
    ensures Flatten(Slots(states, |steps|)) == data[..|cfg.chunks| * size]
  {
    RunInv(cfg, states, steps, |steps|);
    RunPlanned(cfg, states, steps, |steps|);
    Progress.AlwaysStreamingEnds(cfg, states[|steps|]);
    SlotsAreData(cfg, states, steps, |steps|, data, size, globalSize);
  }
}
