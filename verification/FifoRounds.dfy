/** Which rounds stream: what the tasks' programs say about the FIFO, and how many chunks that takes. */
module FifoRounds {
  import opened Words
  import opened Protocol
  import opened Counting
  import opened Invariant
  import opened Preservation

  /** Every task passes the FIFO in round `r`, so whoever is last streams. */
  ghost predicate AllPass(cfg: Config, r: nat)
    requires cfg.program.Rounds?
  {
    cfg.ntasks > 0 && forall i :: 0 <= i < cfg.ntasks ==> cfg.program.passes(i, r)
  }

  /** Some task passes the FIFO in round `r`, so the round may stream. */
  ghost predicate SomePass(cfg: Config, r: nat)
    requires cfg.program.Rounds?
  {
    exists i :: 0 <= i < cfg.ntasks && cfg.program.passes(i, r)
  }

  /** Rounds below `r` that stream whoever is last. */
  ghost function MustStream(cfg: Config, r: nat): nat
    requires cfg.program.Rounds?
  {
    if r == 0 then 0 else MustStream(cfg, r - 1) + if AllPass(cfg, r - 1) then 1 else 0
  }

  /** Rounds below `r` that may stream. */
  ghost function MayStream(cfg: Config, r: nat): nat
    requires cfg.program.Rounds?
  {
    if r == 0 then 0 else MayStream(cfg, r - 1) + if SomePass(cfg, r - 1) then 1 else 0
  }

  lemma {:induction false} MayStreamGrows(cfg: Config, a: nat, b: nat)
    requires cfg.program.Rounds? && a <= b
    ensures MayStream(cfg, a) <= MayStream(cfg, b)
    ensures a < b && SomePass(cfg, a) ==> MayStream(cfg, a) < MayStream(cfg, b)
    decreases b
  {
    if a < b {
      MayStreamGrows(cfg, a, b - 1);
    }
  }

  lemma {:induction false} AllStream(cfg: Config, r: nat)
    requires cfg.program.Rounds? && forall k :: 0 <= k < r ==> AllPass(cfg, k)
    ensures MustStream(cfg, r) == MayStream(cfg, r) == r
  {
    if r > 0 {
      AllStream(cfg, r - 1);
      assert AllPass(cfg, r - 1) && cfg.program.passes(0, r - 1);
    }
  }

  lemma {:induction false} NoneStream(cfg: Config, r: nat)
    requires cfg.program.Rounds? && forall k :: 0 <= k < r ==> !SomePass(cfg, k)
    ensures MayStream(cfg, r) == 0
  {
    if r > 0 {
      NoneStream(cfg, r - 1);
    }
  }

  // ----- the program and the history agree

  /** Tasks keep their number, and as many rounds have streamed as the program allows. */
  ghost predicate Planned(cfg: Config, s: State)
    requires cfg.program.Rounds?
  {
    && (forall i :: 0 <= i < |s.tasks| ==> s.tasks[i].tid == i)
    && MustStream(cfg, s.releases) <= s.streamed <= MayStream(cfg, s.releases)
  }

  lemma {:induction false} FlipPlanned(cfg: Config, s: State, i: nat)
    requires Inv(cfg, s) && cfg.program.Rounds? && Planned(cfg, s)
    requires i < |s.tasks| && s.tasks[i].pc.WriteFlip?
    ensures Planned(cfg, DoTask(cfg, s, i))
  {
    var t := s.tasks[i];
    SerialAlone(cfg, s, i);
    assert TaskOk(cfg, s.last, s.releases, t);
    assert t.fifo == cfg.program.passes(i, s.releases);
    hide Inv;
    hide TaskOk;
    assert AllPass(cfg, s.releases) ==> t.fifo;
    assert t.fifo ==> SomePass(cfg, s.releases);
  }

  lemma OtherPlanned(cfg: Config, s: State, step: Step)
    requires cfg.program.Rounds? && Planned(cfg, s) && Enabled(cfg, s, step)
    requires step.TaskStep? ==> !s.tasks[step.i].pc.WriteFlip?
    ensures Planned(cfg, Do(cfg, s, step))
  {
    hide MustStream;
    hide MayStream;
  }

  lemma StepKeepsPlanned(cfg: Config, s: State, step: Step)
    requires Inv(cfg, s) && cfg.program.Rounds? && Planned(cfg, s) && Enabled(cfg, s, step)
    ensures Planned(cfg, Do(cfg, s, step))
  {
    hide Inv;
    if step.TaskStep? && s.tasks[step.i].pc.WriteFlip? {
      FlipPlanned(cfg, s, step.i);
    } else {
      OtherPlanned(cfg, s, step);
    }
  }

  /** In every state of every run, the rounds that have streamed are those the program asks for. */
  lemma {:induction false} RunPlanned(cfg: Config, states: seq<State>, steps: seq<Step>, k: nat)
    requires cfg.Valid() && cfg.program.Rounds? && IsRun(cfg, states, steps) && k < |states|
    ensures Planned(cfg, states[k])
  {
    if k > 0 {
      RunPlanned(cfg, states, steps, k - 1);
      RunInv(cfg, states, steps, k - 1);
      assert Follows(cfg, states[k - 1], steps[k - 1], states[k]);
      StepKeepsPlanned(cfg, states[k - 1], steps[k - 1]);
    }
  }
}
