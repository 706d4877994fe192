/**
 When the intervals that requests are given do not wrap, keep clear of the events and do not overlap,
 and what that means for the sizes of the buffers.
 */
module Limits {
  import opened Words
  import opened Translation
  import opened Layout
  import opened Entries

  /** The interval of request `p` does not wrap and keeps clear of the events. */
  predicate Clear(ds: seq<KernelDesc>, rs: seq<Request<Buffer>>, p: nat)
    requires p < |rs| && rs[p].kernel < |ds|
  {
    var start, size, events := StartOf(ds, rs, p), rs[p].item.size, EventBase(ds[rs[p].kernel].arch);
    && start + size <= WORD
    && if size == 0 then start > 0 else start + size <= events || events + 0x100_0000 <= start
  }

  /** The intervals of two requests do not overlap. */
  predicate Apart(ds: seq<KernelDesc>, rs: seq<Request<Buffer>>, p: nat, q: nat)
    requires p < |rs| && q < |rs| && rs[p].kernel < |ds| && rs[q].kernel < |ds|
  {
    var sp, sq := rs[p].item.size, rs[q].item.size;
    sp == 0 || sq == 0 || StartOf(ds, rs, p) + sp <= StartOf(ds, rs, q) || StartOf(ds, rs, q) + sq <= StartOf(ds, rs, p)
  }

  /** The intervals of all requests for kernel `i` are clear and apart. */
  ghost predicate Laid(ds: seq<KernelDesc>, rs: seq<Request<Buffer>>, i: nat)
    requires Poolable(ds, rs)
  {
    && (forall p :: 0 <= p < |rs| && rs[p].kernel == i ==> Clear(ds, rs, p))
    && forall p, q :: 0 <= p < q < |rs| && rs[p].kernel == i && rs[q].kernel == i ==> Apart(ds, rs, p, q)
  }

  /** Some request ends exactly at 2^32, and what follows fits between address 0 and the events. */
  ghost predicate SecondLap(rs: seq<Request<Buffer>>, i: nat) {
    && Used(rs, i) <= Window(DCT) + EventBase(DCT)
    && exists n :: 0 <= n <= |rs| && Used(rs[..n], i) == Window(DCT)
  }

  /** No empty buffer is given address 0. */
  ghost predicate NoneEmptyAtEnd(rs: seq<Request<Buffer>>, i: nat) {
    forall p :: 0 <= p < |rs| && rs[p].kernel == i && Used(rs[..p], i) == Window(DCT) ==> rs[p].item.size > 0
  }

  /**
   The buffers of kernel `i`, each rounded up to 64 bytes, fit its window.  A DCT window ends at 2^32,
   and if one of its buffers ends exactly there the rest can go below the events.
   */
  ghost predicate FitsWindow(ds: seq<KernelDesc>, rs: seq<Request<Buffer>>, i: nat)
    requires i < |ds|
  {
    if ds[i].arch.DCT? then NoneEmptyAtEnd(rs, i) && (Used(rs, i) <= Window(DCT) || SecondLap(rs, i))
    else Used(rs, i) <= Window(ds[i].arch)
  }

  /** In 32 bits an address past 2^32 starts again from 0. */
  lemma StartIs(ds: seq<KernelDesc>, rs: seq<Request<Buffer>>, p: nat)
    requires p < |rs| && rs[p].kernel < |ds|
    ensures AddressOf(ds, rs, p) < WORD ==> StartOf(ds, rs, p) == AddressOf(ds, rs, p)
    ensures WORD <= AddressOf(ds, rs, p) < 2 * WORD ==> StartOf(ds, rs, p) == AddressOf(ds, rs, p) - WORD
  {
    hide AddressOf;
  }

  // ----- sizes that fit

  /** Below a bound on what kernel `i` uses, each request and its rounding stay below it. */
  lemma RequestBelow(rs: seq<Request<Buffer>>, i: nat, p: nat)
    requires p < |rs| && rs[p].kernel == i
    ensures Used(rs[..p], i) + rs[p].item.size <= Used(rs[..p], i) + Round64(rs[p].item.size) <= Used(rs, i)
    ensures Used(rs[..p], i) % 64 == 0
  {
    assert rs[..|rs|] == rs;
    UsedGrows(rs, i, p, |rs|);
    UsedAligned(rs[..p], i);
  }

  /** A later request starts where an earlier one has ended. */
  lemma RequestAfter(rs: seq<Request<Buffer>>, i: nat, p: nat, q: nat)
    requires p < q < |rs| && rs[p].kernel == i && rs[q].kernel == i
    ensures Used(rs[..p], i) + rs[p].item.size <= Used(rs[..q], i)
  {
    UsedGrows(rs, i, p, q);
  }

  lemma FirstLapLaid(ds: seq<KernelDesc>, rs: seq<Request<Buffer>>, i: nat)
    requires Poolable(ds, rs) && i < |ds| && Mappable(ds[i].arch) && FitsWindow(ds, rs, i)
    requires Used(rs, i) <= Window(ds[i].arch)
    ensures Laid(ds, rs, i)
  {
    hide Used;
    hide StartOf;
    forall p | 0 <= p < |rs| && rs[p].kernel == i ensures Clear(ds, rs, p) {
      RequestBelow(rs, i, p);
      StartIs(ds, rs, p);
    }
    forall p, q | 0 <= p < q < |rs| && rs[p].kernel == i && rs[q].kernel == i ensures Apart(ds, rs, p, q) {
      RequestBelow(rs, i, p);
      StartIs(ds, rs, p);
      RequestBelow(rs, i, q);
      StartIs(ds, rs, q);
      RequestAfter(rs, i, p, q);
    }
  }

  /** On the second lap a request either ends at 2^32 or before, or starts again from 0. */
  lemma LapOf(rs: seq<Request<Buffer>>, i: nat, n: nat, p: nat)
    requires n <= |rs| && Used(rs[..n], i) == Window(DCT) && p < |rs| && rs[p].kernel == i
    ensures if p < n then Used(rs[..p], i) + Round64(rs[p].item.size) <= Window(DCT)
            else Used(rs[..p], i) >= Window(DCT)
  {
    if p < n {
      UsedGrows(rs, i, p, n);
    } else if n < p {
      UsedGrows(rs, i, n, p);
    }
  }

  lemma SecondLapLaid(ds: seq<KernelDesc>, rs: seq<Request<Buffer>>, i: nat)
    requires Poolable(ds, rs) && i < |ds| && ds[i].arch.DCT? && NoneEmptyAtEnd(rs, i) && SecondLap(rs, i)
    ensures Laid(ds, rs, i)
  {
    hide Used;
    hide StartOf;
    var n :| 0 <= n <= |rs| && Used(rs[..n], i) == Window(DCT);
    forall p | 0 <= p < |rs| && rs[p].kernel == i ensures Clear(ds, rs, p) {
      RequestBelow(rs, i, p);
      StartIs(ds, rs, p);
      LapOf(rs, i, n, p);
    }
    forall p, q | 0 <= p < q < |rs| && rs[p].kernel == i && rs[q].kernel == i ensures Apart(ds, rs, p, q) {
      RequestBelow(rs, i, p);
      StartIs(ds, rs, p);
      RequestBelow(rs, i, q);
      StartIs(ds, rs, q);
      RequestAfter(rs, i, p, q);
      LapOf(rs, i, n, p);
      LapOf(rs, i, n, q);
    }
  }

  /** The addresses a kernel's buffers can get: the window, and on DCT those below the events too. */
  predicate InWindow(arch: Arch, va: Word) {
    BufferBase(arch) <= va < BufferBase(arch) + Window(arch) || (arch.DCT? && va < EventBase(arch))
  }

  lemma RequestInWindow(ds: seq<KernelDesc>, rs: seq<Request<Buffer>>, i: nat, p: nat, va: Word)
    requires Poolable(ds, rs) && i < |ds| && Mappable(ds[i].arch) && FitsWindow(ds, rs, i)
    requires p < |rs| && rs[p].kernel == i && StartOf(ds, rs, p) <= va < StartOf(ds, rs, p) + rs[p].item.size
    ensures InWindow(ds[i].arch, va)
  {
    hide Used;
    hide StartOf;
    RequestBelow(rs, i, p);
    StartIs(ds, rs, p);
    if Used(rs, i) > Window(ds[i].arch) {
      var n :| 0 <= n <= |rs| && Used(rs[..n], i) == Window(DCT);
      LapOf(rs, i, n, p);
    }
  }

  // ----- sizes that do not

  /** The first request for kernel `i` to pass a bound. */
  lemma {:induction false} FirstBreak(rs: seq<Request<Buffer>>, i: nat, bound: nat) returns (p: nat)
    requires Used(rs, i) > bound
    ensures p < |rs| && rs[p].kernel == i
    ensures Used(rs[..p], i) <= bound < Used(rs[..p], i) + Round64(rs[p].item.size)
    ensures Used(rs[..p], i) % 64 == 0
  {
    p := |rs| - 1;
    if Used(rs[..p], i) > bound {
      var m := FirstBreak(rs[..p], i, bound);
      assert rs[..p][..m] == rs[..m];
      p := m;
    } else {
      UsedAligned(rs[..p], i);
    }
  }

  /** Past a bound that is a multiple of 64 the buffer itself goes, not only its rounding. */
  lemma BreaksItself(used: nat, size: nat, bound: nat)
    requires used % 64 == 0 && bound % 64 == 0 && used <= bound < used + Round64(size)
    ensures used + size > bound
  {
  }

  /** A buffer that leaves a PEAK or NU+ window wraps around or runs into the events. */
  lemma WindowBreak(ds: seq<KernelDesc>, rs: seq<Request<Buffer>>, i: nat)
    requires Poolable(ds, rs) && i < |ds| && (ds[i].arch.PEAK? || ds[i].arch.NUP?)
    requires Used(rs, i) > Window(ds[i].arch)
    ensures !Laid(ds, rs, i)
  {
    var p := FirstBreak(rs, i, Window(ds[i].arch));
    BreaksItself(Used(rs[..p], i), rs[p].item.size, Window(ds[i].arch));
    hide Used;
    hide StartOf;
    hide Round64;
    StartIs(ds, rs, p);
    assert !Clear(ds, rs, p);
  }

  /** On a DCT tile a buffer that leaves the window wraps, unless it starts at 2^32. */
  lemma LapStarts(ds: seq<KernelDesc>, rs: seq<Request<Buffer>>, i: nat) returns (p: nat)
    requires Poolable(ds, rs) && i < |ds| && ds[i].arch.DCT? && Laid(ds, rs, i) && Used(rs, i) > Window(DCT)
    ensures p < |rs| && rs[p].kernel == i && Used(rs[..p], i) == Window(DCT)
  {
    p := FirstBreak(rs, i, Window(DCT));
    BreaksItself(Used(rs[..p], i), rs[p].item.size, Window(DCT));
    hide Used;
    hide StartOf;
    hide Round64;
    StartIs(ds, rs, p);
    assert Clear(ds, rs, p);
  }

  /** And on the second lap a buffer that passes the first event runs into the events or wraps. */
  lemma LapBreak(ds: seq<KernelDesc>, rs: seq<Request<Buffer>>, i: nat, n: nat)
    requires Poolable(ds, rs) && i < |ds| && ds[i].arch.DCT?
    requires n <= |rs| && Used(rs[..n], i) == Window(DCT) && Used(rs, i) > Window(DCT) + EventBase(DCT)
    ensures !Laid(ds, rs, i)
  {
    var bound: nat := Window(DCT) + EventBase(DCT);
    var q := FirstBreak(rs, i, bound);
    BreaksItself(Used(rs[..q], i), rs[q].item.size, bound);
    LapOf(rs, i, n, q);
    hide Used;
    hide StartOf;
    hide Round64;
    StartIs(ds, rs, q);
    assert !Clear(ds, rs, q);
  }

  lemma EmptyAtEnd(ds: seq<KernelDesc>, rs: seq<Request<Buffer>>, i: nat)
    requires Poolable(ds, rs) && i < |ds| && ds[i].arch.DCT? && Laid(ds, rs, i)
    ensures NoneEmptyAtEnd(rs, i)
  {
    hide Used;
    hide StartOf;
    forall p | 0 <= p < |rs| && rs[p].kernel == i && Used(rs[..p], i) == Window(DCT) ensures rs[p].item.size > 0 {
      StartIs(ds, rs, p);
      assert Clear(ds, rs, p);
    }
  }

  /**
   The window bounds are exact: the intervals of a kernel's requests do not wrap, keep clear of the
   events and do not overlap if and only if its buffers fit its window.
   */
  lemma LaidIffFits(ds: seq<KernelDesc>, rs: seq<Request<Buffer>>, i: nat)
    requires Poolable(ds, rs) && i < |ds| && Mappable(ds[i].arch)
    ensures Laid(ds, rs, i) <==> FitsWindow(ds, rs, i)
  {
    hide Used;
    hide StartOf;
    if FitsWindow(ds, rs, i) {
      if Used(rs, i) <= Window(ds[i].arch) {
        FirstLapLaid(ds, rs, i);
      } else {
        SecondLapLaid(ds, rs, i);
      }
    } else if ds[i].arch.DCT? {
      if Laid(ds, rs, i) {
        EmptyAtEnd(ds, rs, i);
        var p := LapStarts(ds, rs, i);
        if Used(rs, i) > Window(DCT) + EventBase(DCT) {
          LapBreak(ds, rs, i, p);
        }
      }
    } else {
      WindowBreak(ds, rs, i);
    }
  }
}
