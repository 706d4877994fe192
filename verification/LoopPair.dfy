/**
 Two ends of one FIFO buffer: a thread running `synch_write`'s loop and a thread running
 `synch_read`'s loop on the same event, which starts at WRITE.  One register access or one byte
 moved is one step.
 */
module LoopPair {
  import opened Words
  import opened HostLoops
  import opened Protocol
  import opened Counting
  import Progress

  /** Where a loop is: inside `Event::wait_state`, moving byte `at`, about to write the event, or done. */
  datatype Loop = LoopRead | LoopBack(value: Word) | LoopCopy(at: nat) | LoopWrite | LoopDone

  /** The chunks the producer sends, each filling the buffer of `size` bytes. */
  datatype Exchange = Exchange(store: StoreKind, size: nat, chunks: seq<seq<Byte>>) {
    ghost predicate Valid() {
      forall k :: 0 <= k < |chunks| ==> |chunks[k]| == size
    }
  }

  /** `put` and `taken` count finished transfers; `got` is what the consumer has stored so far. */
  datatype Pair = Pair(producer: Loop, consumer: Loop, reg: Word, last: Word, slot: seq<Byte>,
                       put: nat, taken: nat, got: seq<Byte>)

  datatype Move = ProducerAccess | ProducerByte | ConsumerAccess | ConsumerByte

  /** A loop after its read returned `v`, when it waits for `state`. */
  function LoopAfterRead(l: Loop, state: Word, v: Word): Loop {
    if v == 0 then l else if v == state then LoopCopy(0) else LoopBack(v)
  }

  function LoopNext(left: nat): Loop {
    if left > 0 then LoopRead else LoopDone
  }

  predicate MayAccess(l: Loop) {
    l.LoopRead? || l.LoopBack? || l.LoopWrite?
  }

  ghost predicate CanMove(cfg: Exchange, s: Pair, m: Move) {
    match m
    case ProducerAccess => MayAccess(s.producer)
    case ConsumerAccess => MayAccess(s.consumer)
    case ProducerByte =>
      s.producer.LoopCopy? && s.producer.at <= |s.slot| && s.put < |cfg.chunks| && |cfg.chunks[s.put]| == |s.slot|
    case ConsumerByte => s.consumer.LoopCopy? && s.consumer.at <= |s.slot|
  }

  function ProducerStep(cfg: Exchange, s: Pair): Pair {
    match s.producer
    case LoopRead => s.(producer := LoopAfterRead(s.producer, WRITE, s.reg), reg := 0)
    case LoopBack(v) =>
      var w := Store(cfg.store, s.reg, v);
      s.(producer := LoopRead, reg := w, last := w)
    case LoopWrite =>
      var w := Store(cfg.store, s.reg, READ);
      var left := if s.put < |cfg.chunks| then |cfg.chunks| - s.put - 1 else 0;
      s.(producer := LoopNext(left), reg := w, last := w, put := s.put + 1)
    case _ => s
  }

  function ConsumerStep(cfg: Exchange, s: Pair): Pair {
    match s.consumer
    case LoopRead => s.(consumer := LoopAfterRead(s.consumer, READ, s.reg), reg := 0)
    case LoopBack(v) =>
      var w := Store(cfg.store, s.reg, v);
      s.(consumer := LoopRead, reg := w, last := w)
    case LoopWrite =>
      var w := Store(cfg.store, s.reg, WRITE);
      var left := if s.taken < |cfg.chunks| then |cfg.chunks| - s.taken - 1 else 0;
      s.(consumer := LoopNext(left), reg := w, last := w, taken := s.taken + 1)
    case _ => s
  }

  function DoMove(cfg: Exchange, s: Pair, m: Move): Pair
    requires CanMove(cfg, s, m)
  {
    match m
    case ProducerAccess => ProducerStep(cfg, s)
    case ConsumerAccess => ConsumerStep(cfg, s)
    case ProducerByte =>
      var at := s.producer.at;
      if at == |s.slot| then s.(producer := LoopWrite)
      else s.(producer := LoopCopy(at + 1), slot := s.slot[at := cfg.chunks[s.put][at]])
    case ConsumerByte =>
      var at := s.consumer.at;
      if at == |s.slot| then s.(consumer := LoopWrite)
      else s.(consumer := LoopCopy(at + 1), got := s.got + [s.slot[at]])
  }

  ghost predicate Start(cfg: Exchange, s: Pair) {
    && s.producer == s.consumer == LoopNext(|cfg.chunks|)
    && s.reg == s.last == WRITE
    && |s.slot| == cfg.size
    && s.put == s.taken == 0 && s.got == []
  }

  ghost predicate IsPairRun(cfg: Exchange, states: seq<Pair>, moves: seq<Move>) {
    && |states| == |moves| + 1
    && Start(cfg, states[0])
    && forall k :: 0 <= k < |moves| ==> Moves(cfg, states[k], moves[k], states[k + 1])
  }

  ghost predicate Moves(cfg: Exchange, s: Pair, m: Move, s': Pair) {
    CanMove(cfg, s, m) && s' == DoMove(cfg, s, m)
  }

  // ----- invariant

  predicate LoopHolds(l: Loop) {
    l.LoopBack? || l.LoopCopy? || l.LoopWrite?
  }

  /** The part of the current chunk the consumer has already stored. */
  function Partial(s: Pair): seq<Byte> {
    match s.consumer
    case LoopCopy(at) => if at <= |s.slot| then s.slot[..at] else []
    case LoopWrite => s.slot
    case _ => []
  }

  ghost predicate PairTokens(s: Pair) {
    && Bit(s.reg != 0) + Bit(LoopHolds(s.producer)) + Bit(LoopHolds(s.consumer)) == 1
    && (s.reg == 0 || s.reg == s.last)
    && (s.last == READ || s.last == WRITE)
    && (s.producer.LoopBack? ==> s.producer.value == s.last)
    && (s.consumer.LoopBack? ==> s.consumer.value == s.last)
  }

  ghost predicate PairTurns(cfg: Exchange, s: Pair) {
    && s.put == s.taken + Bit(s.last == READ) <= |cfg.chunks|
    && (s.producer.LoopCopy? || s.producer.LoopWrite? ==> s.last == WRITE)
    && (s.consumer.LoopCopy? || s.consumer.LoopWrite? ==> s.last == READ)
    && (s.producer.LoopDone? <==> s.put == |cfg.chunks|)
    && (s.consumer.LoopDone? <==> s.taken == |cfg.chunks|)
  }

  ghost predicate PairData(cfg: Exchange, s: Pair) {
    && |s.slot| == cfg.size
    && s.put <= |cfg.chunks| && s.taken <= |cfg.chunks|
    && (s.last == READ ==> s.taken < |cfg.chunks| && s.slot == cfg.chunks[s.taken])
    && (s.producer.LoopCopy? ==>
          s.put < |cfg.chunks| && s.producer.at <= |s.slot| == |cfg.chunks[s.put]|
          && s.slot[..s.producer.at] == cfg.chunks[s.put][..s.producer.at])
    && (s.producer.LoopWrite? ==> s.put < |cfg.chunks| && s.slot == cfg.chunks[s.put])
    && (s.consumer.LoopCopy? ==> s.consumer.at <= |s.slot|)
    && s.got == Flatten(cfg.chunks[..s.taken]) + Partial(s)
  }

  ghost predicate PairInv(cfg: Exchange, s: Pair) {
    && cfg.Valid()
    && PairTokens(s)
    && PairTurns(cfg, s)
    && PairData(cfg, s)
  }

  lemma ProducerKeeps(cfg: Exchange, s: Pair)
    requires PairInv(cfg, s)
    ensures PairInv(cfg, ProducerStep(cfg, s))
  {
  }

  lemma ConsumerKeeps(cfg: Exchange, s: Pair)
    requires PairInv(cfg, s)
    ensures PairInv(cfg, ConsumerStep(cfg, s))
  {
    if s.consumer.LoopWrite? {
      FlattenSnoc(cfg.chunks[..s.taken], cfg.chunks[s.taken]);
      assert cfg.chunks[..s.taken] + [cfg.chunks[s.taken]] == cfg.chunks[..s.taken + 1];
    }
  }

  lemma ByteKeeps(cfg: Exchange, s: Pair, m: Move)
    requires PairInv(cfg, s) && CanMove(cfg, s, m) && (m.ProducerByte? || m.ConsumerByte?)
    ensures PairInv(cfg, DoMove(cfg, s, m))
  {
    var s' := DoMove(cfg, s, m);
    if m.ProducerByte? {
      var at, chunk := s.producer.at, cfg.chunks[s.put];
      if at < |s.slot| {
        assert s'.slot[..at + 1] == s.slot[..at] + [chunk[at]] == chunk[..at + 1];
      } else {
        assert s.slot == s.slot[..at] == chunk[..at] == chunk;
      }
    } else {
      var at := s.consumer.at;
      if at < |s.slot| {
        assert s.slot[..at] + [s.slot[at]] == s.slot[..at + 1];
      } else {
        assert s.slot[..at] == s.slot;
      }
    }
  }

  lemma MoveKeepsInv(cfg: Exchange, s: Pair, m: Move)
    requires PairInv(cfg, s) && CanMove(cfg, s, m)
    ensures PairInv(cfg, DoMove(cfg, s, m))
  {
    match m
    case ProducerAccess => ProducerKeeps(cfg, s);
    case ConsumerAccess => ConsumerKeeps(cfg, s);
    case _ => ByteKeeps(cfg, s, m);
  }

  lemma {:induction false} PairRunInv(cfg: Exchange, states: seq<Pair>, moves: seq<Move>, k: nat)
    requires cfg.Valid() && IsPairRun(cfg, states, moves) && k < |states|
    ensures PairInv(cfg, states[k])
  {
    if k > 0 {
      PairRunInv(cfg, states, moves, k - 1);
      assert Moves(cfg, states[k - 1], moves[k - 1], states[k]);
      MoveKeepsInv(cfg, states[k - 1], moves[k - 1]);
    }
  }

  // ----- what it means

  lemma {:induction false} FlattenPrefix(chunks: seq<seq<Byte>>, k: nat)
    requires k <= |chunks|
    ensures Flatten(chunks[..k]) <= Flatten(chunks)
    decreases |chunks|
  {
    if k < |chunks| {
      var rest := chunks[..|chunks| - 1];
      assert rest[..k] == chunks[..k];
      FlattenPrefix(rest, k);
    } else {
      assert chunks[..k] == chunks;
    }
  }

  /**
   In every interleaving the two loops alternate strictly, the consumer's bytes are a prefix of
   what the producer has handed over, and a consumer that is done has them all.
   */
  lemma LoopsAlternate(cfg: Exchange, states: seq<Pair>, moves: seq<Move>, k: nat)
    requires cfg.Valid() && IsPairRun(cfg, states, moves) && k < |states|
    ensures var s := states[k];
            && s.taken <= s.put <= s.taken + 1 && s.put <= |cfg.chunks|
            && s.got <= Flatten(cfg.chunks[..s.put]) <= Flatten(cfg.chunks)
            && (s.consumer.LoopDone? ==> s.producer.LoopDone? && s.got == Flatten(cfg.chunks))
  {
    var s := states[k];
    PairRunInv(cfg, states, moves, k);
    FlattenPrefix(cfg.chunks, s.put);
    var produced := cfg.chunks[..s.put];
    if s.put == s.taken + 1 {
      assert produced == cfg.chunks[..s.taken] + [cfg.chunks[s.taken]];
      FlattenSnoc(cfg.chunks[..s.taken], cfg.chunks[s.taken]);
    }
    assert s.put == |cfg.chunks| ==> produced == cfg.chunks;
    assert s.taken == |cfg.chunks| ==> cfg.chunks[..s.taken] == cfg.chunks;
  }

  // ----- completion

  function LoopRank(size: nat, l: Loop): int {
    match l
    case LoopBack(_) => 1
    case LoopRead => 0
    case LoopCopy(at) => -1 - at as int
    case LoopWrite => -2 - size as int
    case LoopDone => 0
  }

  function PairWork(cfg: Exchange, s: Pair): int {
    Progress.ChunksWork(cfg.size, if s.put <= |cfg.chunks| then |cfg.chunks| - s.put else 0)
    + Progress.ChunksWork(cfg.size, if s.taken <= |cfg.chunks| then |cfg.chunks| - s.taken else 0)
    + LoopRank(cfg.size, s.producer) + LoopRank(cfg.size, s.consumer)
  }

  lemma PairWorkNatural(cfg: Exchange, s: Pair)
    requires PairInv(cfg, s)
    ensures PairWork(cfg, s) >= 0
  {
  }

  /** Unless both loops are done, some thread can move towards the end. */
  lemma PairUseful(cfg: Exchange, s: Pair) returns (m: Move)
    requires PairInv(cfg, s) && !(s.producer.LoopDone? && s.consumer.LoopDone?)
    ensures CanMove(cfg, s, m) && PairWork(cfg, DoMove(cfg, s, m)) < PairWork(cfg, s)
  {
    if LoopHolds(s.producer) {
      m := if s.producer.LoopCopy? then ProducerByte else ProducerAccess;
    } else if LoopHolds(s.consumer) {
      m := if s.consumer.LoopCopy? then ConsumerByte else ConsumerAccess;
    } else {
      m := if s.last == WRITE then ProducerAccess else ConsumerAccess;
    }
  }

  ghost predicate PairLeads(cfg: Exchange, s: Pair, moves: seq<Move>, end: Pair)
    decreases |moves|
  {
    if moves == [] then end == s
    else CanMove(cfg, s, moves[0]) && PairLeads(cfg, DoMove(cfg, s, moves[0]), moves[1..], end)
  }

  /** From every reachable state the two loops can finish, with the whole data on the consumer's side. */
  lemma {:induction false} PairCompletes(cfg: Exchange, s: Pair) returns (moves: seq<Move>, end: Pair)
    requires PairInv(cfg, s)
    ensures PairLeads(cfg, s, moves, end) && |moves| <= PairWork(cfg, s)
    ensures end.producer.LoopDone? && end.consumer.LoopDone? && end.got == Flatten(cfg.chunks)
    decreases PairWork(cfg, s)
  {
    PairWorkNatural(cfg, s);
    if s.producer.LoopDone? && s.consumer.LoopDone? {
      moves, end := [], s;
      assert cfg.chunks[..s.taken] == cfg.chunks;
    } else {
      var m := PairUseful(cfg, s);
      MoveKeepsInv(cfg, s, m);
      PairWorkNatural(cfg, DoMove(cfg, s, m));
      var rest;
      rest, end := PairCompletes(cfg, DoMove(cfg, s, m));
      moves := [m] + rest;
      assert moves[1..] == rest;
    }
  }
}
