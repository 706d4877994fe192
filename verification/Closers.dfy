/**
 Schedules in which a chosen task is the last to arrive in each round, and with them the exact
 number of chunks that N tasks of R barriers need under the write-back wait.
 */
module Closers {
  import opened Words
  import opened Protocol
  import opened Counting
  import opened Invariant
  import opened Preservation
  import opened FifoRounds
  import opened Progress

  /** Who is to arrive last, for each round. */
  type Choice = nat -> nat

  ghost predicate Within(cfg: Config, closer: Choice) {
    cfg.ntasks > 0 ==> forall r :: closer(r) < cfg.ntasks
  }

  /** Rounds below `r` in which the closing task passes the FIFO. */
  ghost function ClosersPassing(cfg: Config, closer: Choice, r: nat): nat
    requires cfg.program.Rounds?
  {
    if r == 0 then 0 else ClosersPassing(cfg, closer, r - 1) + Bit(cfg.program.passes(closer(r - 1), r - 1))
  }

  /** All tasks but `x` wait in the round that is not yet released. */
  ghost predicate OthersIn(s: State, x: nat) {
    forall j :: 0 <= j < |s.tasks| && j != x ==> InWait(s.tasks[j].pc) && s.tasks[j].rounds == s.releases
  }

  /** Task `x` has called the barrier of the round that is not yet released. */
  predicate HasCalled(s: State, x: nat) {
    x < |s.tasks| && s.tasks[x].rounds == s.releases && !s.tasks[x].pc.Running? && !InExit(s.tasks[x].pc)
  }

  /** The closing task of the round goes last, and what has streamed is what the closing tasks passed. */
  ghost predicate Obedient(cfg: Config, s: State, closer: Choice)
    requires cfg.program.Rounds?
  {
    && (HasCalled(s, closer(s.releases)) ==> OthersIn(s, closer(s.releases)))
    && s.streamed == ClosersPassing(cfg, closer, s.releases)
  }

  /** A task that waits for an unreleased round goes on waiting. */
  lemma WaitsOn(cfg: Config, s: State, i: nat)
    requires Inv(cfg, s) && i < |s.tasks| && InWait(s.tasks[i].pc) && s.tasks[i].rounds == s.releases
    ensures var s' := DoTask(cfg, s, i);
            && s'.tasks == s.tasks[i := s'.tasks[i]] && s'.releases == s.releases && s'.streamed == s.streamed
            && InWait(s'.tasks[i].pc) && s'.tasks[i].rounds == s.releases
  {
    assert TaskOk(cfg, s.last, s.releases, s.tasks[i]);
    assert Tokens(s, Release) <= 1 && (s.regs.Get(Release) == 0 || s.regs.Get(Release) == s.last.Get(Release));
  }

  /** The closing task is the one in the else branch. */
  lemma CloserIsSerial(cfg: Config, s: State, closer: Choice, i: nat)
    requires Inv(cfg, s) && cfg.program.Rounds? && Within(cfg, closer) && Obedient(cfg, s, closer)
    requires i < |s.tasks| && InSerial(s.tasks[i].pc)
    ensures i == closer(s.releases)
  {
    SerialAlone(cfg, s, i);
    var x := closer(s.releases);
    if i != x {
      assert HasCalled(s, x);
    }
  }

  lemma FlipObedient(cfg: Config, s: State, closer: Choice, i: nat)
    requires Inv(cfg, s) && cfg.program.Rounds? && Planned(cfg, s) && Within(cfg, closer) && Obedient(cfg, s, closer)
    requires i < |s.tasks| && s.tasks[i].pc.WriteFlip?
    ensures Obedient(cfg, DoTask(cfg, s, i), closer)
  {
    CloserIsSerial(cfg, s, closer, i);
    NobodyCalled(cfg, s, i);
    SerialPasses(cfg, s, i);
  }

  /** After a release nobody has called the barrier of the next round. */
  lemma NobodyCalled(cfg: Config, s: State, i: nat)
    requires Inv(cfg, s) && i < |s.tasks| && s.tasks[i].pc.WriteFlip?
    ensures forall x :: 0 <= x < |s.tasks| ==> !HasCalled(DoTask(cfg, s, i), x)
  {
    SerialAlone(cfg, s, i);
  }

  lemma SerialPasses(cfg: Config, s: State, i: nat)
    requires Inv(cfg, s) && cfg.program.Rounds? && Planned(cfg, s) && i < |s.tasks| && InSerial(s.tasks[i].pc)
    ensures s.tasks[i].fifo == cfg.program.passes(i, s.releases) && s.releases < cfg.program.rounds
  {
    SerialAlone(cfg, s, i);
    assert TaskOk(cfg, s.last, s.releases, s.tasks[i]);
  }

  lemma TaskObedient(cfg: Config, s: State, closer: Choice, i: nat)
    requires Inv(cfg, s) && cfg.program.Rounds? && Planned(cfg, s) && Within(cfg, closer) && Obedient(cfg, s, closer)
    requires i < |s.tasks| && !s.tasks[i].pc.WriteFlip?
    ensures Obedient(cfg, DoTask(cfg, s, i), closer)
  {
    hide Inv;
    hide ClosersPassing;
    var x := closer(s.releases);
    if HasCalled(s, x) && i != x {
      WaitsOn(cfg, s, i);
    } else if i == x {
      CalledStays(cfg, s, i);
    }
  }

  /** Apart from the release, no step of a task changes whether it has called. */
  lemma CalledStays(cfg: Config, s: State, i: nat)
    requires Inv(cfg, s) && i < |s.tasks| && !s.tasks[i].pc.WriteFlip?
    ensures HasCalled(DoTask(cfg, s, i), i) ==> HasCalled(s, i)
  {
    assert TaskOk(cfg, s.last, s.releases, s.tasks[i]);
  }

  lemma StepObedient(cfg: Config, s: State, closer: Choice, step: Step)
    requires Inv(cfg, s) && cfg.program.Rounds? && Planned(cfg, s) && Within(cfg, closer) && Obedient(cfg, s, closer)
    requires Enabled(cfg, s, step) && HoldsBack(s, step, closer(s.releases))
    ensures Obedient(cfg, Do(cfg, s, step), closer)
  {
    match step
    case TaskStep(i) =>
      if s.tasks[i].pc.WriteFlip? {
        FlipObedient(cfg, s, closer, i);
      } else {
        TaskObedient(cfg, s, closer, i);
      }
    case _ =>
  }

  // ----- following the choice to the end

  lemma {:induction false} FollowClosers(cfg: Config, s: State, closer: Choice) returns (steps: seq<Step>, end: State)
    requires Sound(cfg, s) && cfg.program.Rounds? && cfg.wait == WriteBack
    requires Within(cfg, closer) && Obedient(cfg, s, closer)
    ensures Leads(cfg, s, steps, end) && Sound(cfg, end) && Obedient(cfg, end, closer)
    ensures Final(end) || Starved(end)
    decreases Work(cfg, s)
  {
    WorkNatural(cfg, s);
    if Final(s) || Starved(s) {
      steps, end := [], s;
    } else {
      WriteBackAlive(cfg, s);
      var step := UsefulStep(cfg, s, closer(s.releases));
      StepKeepsInv(cfg, s, step);
      StepKeepsPlanned(cfg, s, step);
      StepObedient(cfg, s, closer, step);
      WorkNatural(cfg, Do(cfg, s, step));
      var rest;
      rest, end := FollowClosers(cfg, Do(cfg, s, step), closer);
      steps := [step] + rest;
      assert steps[1..] == rest;
    }
  }

  // ----- starving is for good

  /** Task `i` waits for a chunk that will never come. */
  ghost predicate Hungry(cfg: Config, s: State, i: nat) {
    && Inv(cfg, s) && i < |s.tasks| && (s.tasks[i].pc.AwaitRead? || s.tasks[i].pc.AwaitWrite?)
    && s.host == HostDone && s.last.fifo == WRITE
  }

  lemma StillHungry(cfg: Config, s: State, i: nat, step: Step)
    requires Hungry(cfg, s, i) && Enabled(cfg, s, step)
    ensures Hungry(cfg, Do(cfg, s, step), i)
  {
    StepKeepsInv(cfg, s, step);
    SerialAlone(cfg, s, i);
    assert TaskOk(cfg, s.last, s.releases, s.tasks[i]);
    assert Tokens(s, Fifo) <= 1 && (s.regs.Get(Fifo) == 0 || s.regs.Get(Fifo) == s.last.Get(Fifo));
    if step.TaskStep? && step.i != i {
      WaiterLeavesFifo(cfg, s, step.i);
    }
  }

  lemma WaiterLeavesFifo(cfg: Config, s: State, j: nat)
    requires j < |s.tasks| && InWait(s.tasks[j].pc)
    ensures var s' := DoTask(cfg, s, j);
            s'.tasks == s.tasks[j := s'.tasks[j]] && s'.last.fifo == s.last.fifo && s'.host == s.host
  {
  }

  lemma {:induction false} HungryForever(cfg: Config, s: State, i: nat, steps: seq<Step>, end: State)
    requires Hungry(cfg, s, i) && Leads(cfg, s, steps, end)
    ensures !Final(end)
    decreases |steps|
  {
    if steps != [] {
      StillHungry(cfg, s, i, steps[0]);
      HungryForever(cfg, Do(cfg, s, steps[0]), i, steps[1..], end);
    }
  }

  lemma StarvedNeverCompletes(cfg: Config, s: State)
    requires Inv(cfg, s) && Starved(s)
    ensures !CanComplete(cfg, s)
  {
    var i :| 0 <= i < |s.tasks| && s.tasks[i].pc.AwaitRead?;
    forall steps, end | Leads(cfg, s, steps, end) ensures !Final(end) {
      HungryForever(cfg, s, i, steps, end);
    }
  }

  // ----- the two extreme choices

  /** A task that passes the FIFO in round `r`, if there is one. */
  ghost function Passer(cfg: Config, r: nat): (i: nat)
    requires cfg.program.Rounds?
    ensures cfg.ntasks > 0 ==> i < cfg.ntasks
    ensures cfg.ntasks > 0 ==> (cfg.program.passes(i, r) <==> SomePass(cfg, r))
  {
    if SomePass(cfg, r) then var i :| 0 <= i < cfg.ntasks && cfg.program.passes(i, r); i else 0
  }

  /** A task that does not pass it, if there is one. */
  ghost function Abstainer(cfg: Config, r: nat): (i: nat)
    requires cfg.program.Rounds?
    ensures cfg.ntasks > 0 ==> i < cfg.ntasks
    ensures cfg.ntasks > 0 ==> (cfg.program.passes(i, r) <==> AllPass(cfg, r))
  {
    if cfg.ntasks > 0 && !AllPass(cfg, r) then var i :| 0 <= i < cfg.ntasks && !cfg.program.passes(i, r); i else 0
  }

  ghost function Passers(cfg: Config): (closer: Choice)
    requires cfg.program.Rounds?
    ensures Within(cfg, closer)
  {
    (r: nat) => Passer(cfg, r)
  }

  ghost function Abstainers(cfg: Config): (closer: Choice)
    requires cfg.program.Rounds?
    ensures Within(cfg, closer)
  {
    (r: nat) => Abstainer(cfg, r)
  }

  lemma {:induction false} PassersStream(cfg: Config, r: nat)
    requires cfg.program.Rounds? && cfg.ntasks > 0
    ensures ClosersPassing(cfg, Passers(cfg), r) == MayStream(cfg, r)
  {
    if r > 0 {
      PassersStream(cfg, r - 1);
    }
  }

  lemma {:induction false} AbstainersStream(cfg: Config, r: nat)
    requires cfg.program.Rounds? && cfg.ntasks > 0
    ensures ClosersPassing(cfg, Abstainers(cfg), r) == MustStream(cfg, r)
  {
    if r > 0 {
      AbstainersStream(cfg, r - 1);
    }
  }

  // ----- how many chunks it takes, exactly

  lemma {:induction false} MustStreamGrows(cfg: Config, a: nat, b: nat)
    requires cfg.program.Rounds? && a <= b
    ensures MustStream(cfg, a) <= MustStream(cfg, b)
    ensures a < b && AllPass(cfg, a) ==> MustStream(cfg, a) < MustStream(cfg, b)
    decreases b
  {
    if a < b {
      MustStreamGrows(cfg, a, b - 1);
    }
  }

  lemma InitObedient(cfg: Config, s: State, closer: Choice)
    requires cfg.Valid() && cfg.program.Rounds? && Init(cfg, s)
    ensures Sound(cfg, s) && Obedient(cfg, s, closer)
  {
    InitInv(cfg, s);
  }

  /** With abstaining tasks going last, only a round that must stream can starve. */
  lemma AbstainersFed(cfg: Config, s: State)
    requires Sound(cfg, s) && cfg.program.Rounds? && Obedient(cfg, s, Abstainers(cfg))
    requires MustStream(cfg, cfg.program.rounds) <= |cfg.chunks|
    ensures !Starved(s)
  {
    if Starved(s) {
      var i :| 0 <= i < |s.tasks| && s.tasks[i].pc.AwaitRead?;
      CloserIsSerial(cfg, s, Abstainers(cfg), i);
      SerialPasses(cfg, s, i);
      assert TaskOk(cfg, s.last, s.releases, s.tasks[i]);
      AbstainersStream(cfg, s.releases);
      MustStreamGrows(cfg, s.releases, cfg.program.rounds);
      NobodyAccepted(cfg, s, i);
    }
  }

  lemma NobodyAccepted(cfg: Config, s: State, i: nat)
    requires Inv(cfg, s) && i < |s.tasks| && Is(Securing, s.tasks[i])
    ensures s.accepted == s.streamed
  {
    SerialAlone(cfg, s, i);
    forall j | 0 <= j < |s.tasks| ensures !Is(PastAccept, s.tasks[j]) {
    }
    CountBounds(PastAccept, s.tasks);
  }

  lemma ChunksLetComplete(cfg: Config, s: State)
    requires cfg.Valid() && cfg.program.Rounds? && cfg.wait == WriteBack && Init(cfg, s)
    requires MustStream(cfg, cfg.program.rounds) <= |cfg.chunks|
    ensures CanComplete(cfg, s)
  {
    InitObedient(cfg, s, Abstainers(cfg));
    var steps, end := FollowClosers(cfg, s, Abstainers(cfg));
    AbstainersFed(cfg, end);
  }

  /** If the passing tasks go last, every round that may stream does, or the tasks starve. */
  lemma PassersTakeAll(cfg: Config, s: State)
    requires cfg.Valid() && cfg.program.Rounds? && cfg.wait == WriteBack && Init(cfg, s) && AlwaysCompletes(cfg, s)
    ensures MayStream(cfg, cfg.program.rounds) <= |cfg.chunks|
  {
    InitObedient(cfg, s, Passers(cfg));
    var steps, end := FollowClosers(cfg, s, Passers(cfg));
    if Starved(end) {
      StarvedNeverCompletes(cfg, end);
    } else {
      AllTaken(cfg, end);
    }
  }

  lemma AllTaken(cfg: Config, end: State)
    requires Sound(cfg, end) && cfg.program.Rounds? && Final(end) && Obedient(cfg, end, Passers(cfg))
    ensures end.streamed == MayStream(cfg, cfg.program.rounds) <= |cfg.chunks|
  {
    FinalStreamed(cfg, end);
    if cfg.ntasks == 0 {
      NoneStream(cfg, cfg.program.rounds);
      NoneStream(cfg, end.releases);
    } else {
      PassersStream(cfg, cfg.program.rounds);
    }
  }

  /**
   The chunk bounds are exact, for any program and any N.  Under the write-back wait the tasks can
   finish at all if and only if the host has a chunk for every round that must stream, and they can
   still finish whatever happens if and only if it has one for every round that may.
   */
  lemma CompletesIffChunks(cfg: Config, s: State)
    requires cfg.Valid() && cfg.program.Rounds? && cfg.wait == WriteBack && Init(cfg, s)
    ensures CanComplete(cfg, s) <==> MustStream(cfg, cfg.program.rounds) <= |cfg.chunks|
    ensures AlwaysCompletes(cfg, s) <==> MayStream(cfg, cfg.program.rounds) <= |cfg.chunks|
  {
    InitSound(cfg, s);
    hide Init;
    hide CanComplete;
    hide AlwaysCompletes;
    if CanComplete(cfg, s) {
      CompletionNeedsChunks(cfg, s);
    } else if MustStream(cfg, cfg.program.rounds) <= |cfg.chunks| {
      ChunksLetComplete(cfg, s);
    }
    if AlwaysCompletes(cfg, s) {
      PassersTakeAll(cfg, s);
    } else if MayStream(cfg, cfg.program.rounds) <= |cfg.chunks| {
      ChunksSuffice(cfg, s);
    }
  }
}
