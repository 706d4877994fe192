/** The loops of FIFOBuffer::synch_write and synch_read, with their uint32_t offset. */
module HostLoops {
  import opened Words
  import opened Divisors

  // ----- the offset

  /** The loop's offset after `k` transfers. */
  function OffsetAfter(size: Word, k: nat): Word {
    if k == 0 then 0 else Add(OffsetAfter(size, k - 1), size)
  }

  /** One transfer further on, the offset has grown by the size or wrapped. */
  lemma NextOffset(size: Word, k: nat)
    ensures OffsetAfter(size, 0) == 0
    ensures OffsetAfter(size, k + 1) ==
            var next := OffsetAfter(size, k) + size;
            if next < WORD then next else next - WORD
  {
  }

  /** The loop makes `n` transfers and then leaves. */
  ghost predicate LeavesAt(size: Word, globalSize: Word, n: nat) {
    OffsetAfter(size, n) >= globalSize && forall k :: 0 <= k < n ==> OffsetAfter(size, k) < globalSize
  }

  ghost predicate Leaves(size: Word, globalSize: Word) {
    exists n :: LeavesAt(size, globalSize, n)
  }

  /** How many transfers a loop that leaves makes. */
  ghost function Turns(size: Word, globalSize: Word): (n: nat)
    requires Leaves(size, globalSize)
    ensures LeavesAt(size, globalSize, n)
  {
    var n :| LeavesAt(size, globalSize, n);
    n
  }

  lemma TurnsUnique(size: Word, globalSize: Word, m: nat, n: nat)
    requires LeavesAt(size, globalSize, m) && LeavesAt(size, globalSize, n)
    ensures m == n
  {
    if m < n {
    } else {
    }
  }

  /** If the offset ever reaches the size asked for, there is a first time. */
  lemma {:induction false} FirstTurn(size: Word, globalSize: Word, n: nat)
    requires OffsetAfter(size, n) >= globalSize
    ensures Leaves(size, globalSize)
  {
    if k :| 0 <= k < n && OffsetAfter(size, k) >= globalSize {
      FirstTurn(size, globalSize, k);
    } else {
      assert LeavesAt(size, globalSize, n);
    }
  }

  // ----- the loops

  /** What the burst of turn `k` carries. */
  predicate Burst(data: seq<Byte>, size: Word, k: nat, chunk: seq<Byte>) {
    OffsetAfter(size, k) + size <= |data| && chunk == data[OffsetAfter(size, k)..OffsetAfter(size, k) + size]
  }

  /**
   What `synch_write` hands to the device, burst by burst, and the value it returns.  The source must
   be readable wherever the loop reads it, and the loop must leave.
   */
  method SynchWrite(data: seq<Byte>, size: Word, globalSize: Word) returns (off: Word, sent: seq<seq<Byte>>)
    requires Leaves(size, globalSize)
    requires forall k :: 0 <= k < Turns(size, globalSize) ==> OffsetAfter(size, k) + size <= |data|
    ensures |sent| == Turns(size, globalSize) && off == OffsetAfter(size, |sent|)
    ensures forall k :: 0 <= k < |sent| ==> Burst(data, size, k, sent[k])
  {
    hide Add;
    ghost var n := Turns(size, globalSize);
    off, sent := 0, [];
    while off < globalSize
      invariant |sent| <= n && off == OffsetAfter(size, |sent|)
      invariant forall k :: 0 <= k < |sent| ==> Burst(data, size, k, sent[k])
      decreases n - |sent|
    {
      assert |sent| != n;
      sent := sent + [data[off..off + size]];
      off := Add(off, size);
    }
    assert LeavesAt(size, globalSize, |sent|);
    TurnsUnique(size, globalSize, |sent|, n);
  }

  function Overlay(s: seq<Byte>, off: nat, chunk: seq<Byte>): seq<Byte>
    requires off + |chunk| <= |s|
  {
    s[..off] + chunk + s[off + |chunk|..]
  }

  /** The sink after the first `n` chunks, each stored at the offset of its turn. */
  function Stored(sink: seq<Byte>, size: Word, incoming: seq<seq<Byte>>, n: nat): (r: seq<Byte>)
    requires n <= |incoming|
    requires forall k :: 0 <= k < n ==> |incoming[k]| == size && OffsetAfter(size, k) + size <= |sink|
    ensures |r| == |sink|
  {
    if n == 0 then sink else Overlay(Stored(sink, size, incoming, n - 1), OffsetAfter(size, n - 1), incoming[n - 1])
  }

  /** What `synch_read` leaves in the host's buffer when the device hands it the chunks `incoming`. */
  method SynchRead(incoming: seq<seq<Byte>>, sink: array<Byte>, size: Word, globalSize: Word) returns (off: Word)
    requires Leaves(size, globalSize) && |incoming| == Turns(size, globalSize)
    requires forall k :: 0 <= k < |incoming| ==> |incoming[k]| == size && OffsetAfter(size, k) + size <= sink.Length
    modifies sink
    ensures off == OffsetAfter(size, |incoming|)
    ensures sink[..] == Stored(old(sink[..]), size, incoming, |incoming|)
  {
    hide Add;
    off := 0;
    ghost var before := sink[..];
    var turn := 0;
    while off < globalSize
      invariant turn <= |incoming| && off == OffsetAfter(size, turn)
      invariant sink[..] == Stored(before, size, incoming, turn)
      decreases |incoming| - turn
    {
      assert turn != |incoming|;
      Receive(incoming[turn], sink, off);
      off := Add(off, size);
      turn := turn + 1;
    }
    assert LeavesAt(size, globalSize, turn);
    TurnsUnique(size, globalSize, turn, |incoming|);
  }

  /** hn_read_memory: one burst into the host's buffer. */
  method Receive(chunk: seq<Byte>, sink: array<Byte>, off: nat)
    requires off + |chunk| <= sink.Length
    modifies sink
    ensures sink[..] == Overlay(old(sink[..]), off, chunk)
  {
    forall i | 0 <= i < |chunk| {
      sink[off + i] := chunk[i];
    }
    assert forall i :: off <= i < off + |chunk| ==> sink[i] == chunk[i - off];
  }

  // ----- requests whose covering multiple fits 32 bits

  /** Smallest number of transfers of `size` bytes that covers `globalSize`. */
  function Transfers(size: Word, globalSize: Word): (n: nat)
    requires size > 0
    ensures globalSize <= n * size < globalSize + size
  {
    var n := (globalSize + size - 1) / size;
    assert globalSize + size - 1 == n * size + (globalSize + size - 1) % size;
    n
  }

  /** The chunks one after the other. */
  function Flatten(chunks: seq<seq<Byte>>): seq<Byte> {
    if chunks == [] then [] else Flatten(chunks[..|chunks| - 1]) + chunks[|chunks| - 1]
  }

  lemma FlattenSnoc(chunks: seq<seq<Byte>>, chunk: seq<Byte>)
    ensures Flatten(chunks + [chunk]) == Flatten(chunks) + chunk
  {
    assert (chunks + [chunk])[..|chunks|] == chunks;
  }

  lemma {:induction false} OffsetBelowWrap(size: Word, k: nat)
    requires k * size < WORD
    ensures OffsetAfter(size, k) == k * size
  {
    if k > 0 {
      MulStep(k - 1, size);
      OffsetBelowWrap(size, k - 1);
    }
  }

  lemma OffsetBeforeCover(size: Word, globalSize: Word, k: nat)
    requires size > 0 && k < Transfers(size, globalSize)
    ensures OffsetAfter(size, k) == k * size < globalSize
  {
    MulMonotone(k, Transfers(size, globalSize), size);
    OffsetBelowWrap(size, k);
  }

  /**
   The loop leaves after exactly the transfers that cover `globalSize` if and only if the covering
   multiple fits 32 bits; otherwise the offset wraps at the last of them and the loop goes on.
   */
  lemma ExitsWhenCoveredIff(size: Word, globalSize: Word)
    requires size > 0
    ensures LeavesAt(size, globalSize, Transfers(size, globalSize)) <==> Transfers(size, globalSize) * size < WORD
    ensures !LeavesAt(size, globalSize, Transfers(size, globalSize)) ==>
              OffsetAfter(size, Transfers(size, globalSize)) < globalSize
  {
    var n := Transfers(size, globalSize);
    forall k | 0 <= k < n ensures OffsetAfter(size, k) < globalSize {
      OffsetBeforeCover(size, globalSize, k);
    }
    if n * size < WORD {
      OffsetBelowWrap(size, n);
    } else {
      CoverWraps(size, globalSize);
    }
  }

  lemma CoverWraps(size: Word, globalSize: Word)
    requires size > 0 && Transfers(size, globalSize) * size >= WORD
    ensures OffsetAfter(size, Transfers(size, globalSize)) < globalSize
  {
    var n := Transfers(size, globalSize);
    OffsetBeforeCover(size, globalSize, n - 1);
    MulStep(n - 1, size);
  }

  /** None of the first `n` transfers makes the offset wrap. */
  ghost predicate NoWrap(size: Word, n: nat) {
    forall k :: 0 <= k < n ==> OffsetAfter(size, k) + size < WORD
  }

  lemma CoveredNoWrap(size: Word, n: nat)
    requires n * size < WORD
    ensures NoWrap(size, n) && OffsetAfter(size, n) == n * size
  {
    OffsetBelowWrap(size, n);
    forall k | 0 <= k < n ensures OffsetAfter(size, k) + size < WORD {
      MulMonotone(k, n, size);
      OffsetBelowWrap(size, k);
    }
  }

  /** Without a wrap the bursts together are the data up to the offset returned. */
  lemma {:induction false} BurstsAreData(data: seq<Byte>, size: Word, sent: seq<seq<Byte>>)
    requires NoWrap(size, |sent|)
    requires forall k :: 0 <= k < |sent| ==> Burst(data, size, k, sent[k])
    ensures OffsetAfter(size, |sent|) <= |data| && Flatten(sent) == data[..OffsetAfter(size, |sent|)]
    decreases |sent|
  {
    hide OffsetAfter;
    if sent != [] {
      var n := |sent| - 1;
      NextOffset(size, n);
      assert Burst(data, size, n, sent[n]);
      BurstsAreData(data, size, sent[..n]);
      var off := OffsetAfter(size, n);
      assert data[..off] + data[off..off + size] == data[..off + size];
    } else {
      NextOffset(size, 0);
    }
  }

  lemma OverlayNext(done: seq<Byte>, sink: seq<Byte>, off: nat, chunk: seq<Byte>)
    requires |done| == off && off + |chunk| <= |sink|
    ensures Overlay(done + sink[off..], off, chunk) == done + chunk + sink[off + |chunk|..]
  {
  }

  /** And the sink holds the chunks one after the other, and past them what it held. */
  lemma {:induction false} SinkIsChunks(sink: seq<Byte>, size: Word, incoming: seq<seq<Byte>>, n: nat)
    requires n <= |incoming| && NoWrap(size, n)
    requires forall k :: 0 <= k < n ==> |incoming[k]| == size && OffsetAfter(size, k) + size <= |sink|
    ensures OffsetAfter(size, n) == |Flatten(incoming[..n])| <= |sink|
    ensures Stored(sink, size, incoming, n) == Flatten(incoming[..n]) + sink[OffsetAfter(size, n)..]
  {
    hide OffsetAfter;
    if n > 0 {
      NextOffset(size, n - 1);
      SinkIsChunks(sink, size, incoming, n - 1);
      FlattenSnoc(incoming[..n - 1], incoming[n - 1]);
      assert incoming[..n - 1] + [incoming[n - 1]] == incoming[..n];
      OverlayNext(Flatten(incoming[..n - 1]), sink, OffsetAfter(size, n - 1), incoming[n - 1]);
    } else {
      NextOffset(size, 0);
    }
  }

  /** What `synch_write` sends when the covering multiple fits 32 bits: exactly the data up to that multiple. */
  lemma WriteIsData(data: seq<Byte>, size: Word, globalSize: Word, sent: seq<seq<Byte>>)
    requires size > 0 && Transfers(size, globalSize) * size < WORD
    requires LeavesAt(size, globalSize, |sent|) && forall k :: 0 <= k < |sent| ==> Burst(data, size, k, sent[k])
    ensures |sent| == Transfers(size, globalSize) && OffsetAfter(size, |sent|) == |sent| * size <= |data|
    ensures Flatten(sent) == data[..|sent| * size]
  {
    ExitsWhenCoveredIff(size, globalSize);
    TurnsUnique(size, globalSize, |sent|, Transfers(size, globalSize));
    CoveredNoWrap(size, |sent|);
    BurstsAreData(data, size, sent);
  }

  /** And what `synch_read` then leaves: the chunks one after the other, and past them what was there. */
  lemma ReadIsChunks(sink: seq<Byte>, size: Word, globalSize: Word, incoming: seq<seq<Byte>>)
    requires size > 0 && Transfers(size, globalSize) * size < WORD && LeavesAt(size, globalSize, |incoming|)
    requires forall k :: 0 <= k < |incoming| ==> |incoming[k]| == size && OffsetAfter(size, k) + size <= |sink|
    ensures |incoming| == Transfers(size, globalSize) && |incoming| * size <= |sink|
    ensures Stored(sink, size, incoming, |incoming|) == Flatten(incoming) + sink[|incoming| * size..]
  {
    ExitsWhenCoveredIff(size, globalSize);
    TurnsUnique(size, globalSize, |incoming|, Transfers(size, globalSize));
    CoveredNoWrap(size, |incoming|);
    SinkIsChunks(sink, size, incoming, |incoming|);
    assert incoming[..|incoming|] == incoming;
  }

  /** The covering multiple is `globalSize` itself, so nothing past it is touched, exactly when it divides. */
  lemma StaysInsideIff(size: Word, globalSize: Word)
    requires size > 0
    ensures Transfers(size, globalSize) * size == globalSize <==> globalSize % size == 0
  {
    var n, q := Transfers(size, globalSize), globalSize / size;
    assert globalSize == q * size + globalSize % size;
    if q < n {
      MulMonotone(q, n, size);
    } else if n < q {
      MulMonotone(n, q, size);
    } else {
      assert n * size == q * size;
    }
  }

  // ----- when the loop leaves at all

  lemma {:induction false} OffsetMod(size: Word, k: nat) returns (q: nat)
    ensures k * size == q * WORD + OffsetAfter(size, k)
  {
    hide OffsetAfter;
    NextOffset(size, if k == 0 then 0 else k - 1);
    if k == 0 {
      q := 0;
    } else {
      q := OffsetMod(size, k - 1);
      MulStep(k - 1, size);
      if OffsetAfter(size, k - 1) + size >= WORD {
        q := q + 1;
      }
    }
  }

  /** The offset is always a multiple of the common divisor. */
  lemma {:induction false} OffsetGrain(size: Word, g: nat, a: nat, b: nat, k: nat) returns (c: int)
    requires size == a * g && WORD == b * g
    ensures OffsetAfter(size, k) == c * g
  {
    hide OffsetAfter;
    NextOffset(size, if k == 0 then 0 else k - 1);
    if k == 0 {
      c := 0;
    } else {
      var c0 := OffsetGrain(size, g, a, b, k - 1);
      Distribute(c0, a, g);
      Distribute(c0 + a - b, b, g);
      c := if OffsetAfter(size, k - 1) + size < WORD then c0 + a else c0 + a - b;
    }
  }

  /** The largest offset the loop ever sees. */
  lemma OffsetAtMost(size: Word, k: nat)
    ensures OffsetAfter(size, k) <= WORD - Gcd2(size, 32)
  {
    var g := Gcd2(size, 32);
    var a, b := Gcd2Divides(size, 32);
    Pow2Word();
    var c := OffsetGrain(size, g, a, b, k);
    MultipleBelow(c, b, g);
  }

  /** And it is reached. */
  lemma OffsetReached(size: Word) returns (n: nat)
    ensures OffsetAfter(size, n) == WORD - Gcd2(size, 32)
  {
    var q;
    n, q := Gcd2Reach(size, 32);
    Pow2Word();
    var r := OffsetMod(size, n);
    Gcd2AtMost(size, 32);
    SameRemainder(q, r, Gcd2(size, 32), OffsetAfter(size, n));
  }

  lemma SameRemainder(q: nat, r: nat, g: nat, off: Word)
    requires q * WORD == r * WORD + off + g && 0 < g <= WORD
    ensures off == WORD - g
  {
  }

  /**
   The loop leaves, after however many turns, if and only if the size asked for is at most 2^32 less
   the greatest common divisor of the buffer's size and 2^32.
   */
  lemma LeavesIff(size: Word, globalSize: Word)
    ensures Leaves(size, globalSize) <==> globalSize <= WORD - Gcd2(size, 32)
  {
    if Leaves(size, globalSize) {
      OffsetAtMost(size, Turns(size, globalSize));
    } else if globalSize <= WORD - Gcd2(size, 32) {
      var n := OffsetReached(size);
      FirstTurn(size, globalSize, n);
    }
  }
}
