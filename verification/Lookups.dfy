/** Every lookup that serialising a kernel's arguments needs succeeds, with the right address. */
module Lookups {
  import opened Words
  import opened Translation
  import opened Layout
  import opened Agreement

  /** Event ids name one event, as far as its place in the event area goes. */
  ghost predicate Coherent(es: seq<Event>) {
    forall k, l :: 0 <= k < |es| && 0 <= l < |es| && es[k].id == es[l].id ==> es[k].phys == es[l].phys
  }

  /**
   The event list of a task graph holds every event of its kernels and buffers, and a kernel's own
   events are attached to it.
   */
  ghost predicate Closed(ds: seq<KernelDesc>, bs: seq<Buffer>, es: seq<Event>) {
    && (forall i :: 0 <= i < |ds| ==> ds[i].termination in es && ds[i].id in ds[i].termination.kernelsIn)
    && (forall i, k :: 0 <= i < |ds| && 0 <= k < |ds[i].taskEvents| ==> ds[i].taskEvents[k] in es)
    && (forall k :: 0 <= k < |bs| ==> bs[k].event in es)
  }

  /** Kernel `i` has the right address for event `e`. */
  ghost predicate Knows(w: World, ds: seq<KernelDesc>, i: nat, e: Event) {
    && i < |ds| == |w.kernels|
    && e.id in w.kernels[i].events
    && w.kernels[i].events[e.id] == Add(EventBase(ds[i].arch), e.phys)
  }

  lemma {:induction false} MapEventsKeeps(w: World, ds: seq<KernelDesc>, rs: seq<Request<Event>>, i: nat, e: Event)
    requires |ds| == |w.kernels| && forall p :: 0 <= p < |rs| ==> rs[p].kernel < |ds|
    requires forall p :: 0 <= p < |rs| && rs[p].item.id == e.id ==> rs[p].item.phys == e.phys
    requires Knows(w, ds, i, e)
    ensures Knows(MapEvents(w, ds, rs), ds, i, e)
  {
    if rs != [] {
      MapEventsKeeps(w, ds, rs[..|rs| - 1], i, e);
    }
  }

  lemma {:induction false} MapEventsTeaches(
      w: World, ds: seq<KernelDesc>, rs: seq<Request<Event>>, i: nat, e: Event, q: nat)
    requires |ds| == |w.kernels| && forall p :: 0 <= p < |rs| ==> rs[p].kernel < |ds|
    requires forall p :: 0 <= p < |rs| && rs[p].item.id == e.id ==> rs[p].item.phys == e.phys
    requires q < |rs| && rs[q] == Request(i, e)
    ensures Knows(MapEvents(w, ds, rs), ds, i, e)
    decreases |rs|
  {
    var n := |rs| - 1;
    if q < n {
      MapEventsTeaches(w, ds, rs[..n], i, e, q);
    }
  }

  lemma {:induction false} OpenAllKeeps(w: World, ds: seq<KernelDesc>, n: nat, i: nat, e: Event)
    requires n <= |ds| == |w.kernels|
    requires forall j, k :: 0 <= j < |ds| && 0 <= k < |ds[j].taskEvents| && ds[j].taskEvents[k].id == e.id ==>
               ds[j].taskEvents[k].phys == e.phys
    requires Knows(w, ds, i, e)
    ensures Knows(OpenAll(w, ds, n), ds, i, e)
  {
    if n > 0 {
      OpenAllKeeps(w, ds, n - 1, i, e);
      MapEventsKeeps(OpenEvents(OpenAll(w, ds, n - 1), ds, n - 1), ds, TaskRequests(n - 1, ds[n - 1].taskEvents), i, e);
    }
  }

  lemma {:induction false} OpenAllTeaches(w: World, ds: seq<KernelDesc>, n: nat, i: nat, k: nat)
    requires i < n <= |ds| == |w.kernels| && k < |ds[i].taskEvents|
    requires forall j, l :: 0 <= j < |ds| && 0 <= l < |ds[j].taskEvents| ==>
               ds[j].taskEvents[l].id == ds[i].taskEvents[k].id ==> ds[j].taskEvents[l].phys == ds[i].taskEvents[k].phys
    ensures Knows(OpenAll(w, ds, n), ds, i, ds[i].taskEvents[k])
  {
    var w1 := OpenEvents(OpenAll(w, ds, n - 1), ds, n - 1);
    var rs := TaskRequests(n - 1, ds[n - 1].taskEvents);
    if i == n - 1 {
      MapEventsTeaches(w1, ds, rs, i, ds[i].taskEvents[k], k);
    } else {
      OpenAllTeaches(w, ds, n - 1, i, k);
      MapEventsKeeps(w1, ds, rs, i, ds[i].taskEvents[k]);
    }
  }

  lemma {:induction false} EventRequested(ds: seq<KernelDesc>, es: seq<Event>, e: Event, i: nat) returns (p: nat)
    requires EventsNamed(ds, es) && UniqueIds(ds) && e in es
    requires i < |ds| && ds[i].id != 0 && (ds[i].id in e.kernelsIn || ds[i].id in e.kernelsOut)
    ensures p < |EventRequests(ds, es)| && EventRequests(ds, es)[p] == Request(i, e)
  {
    hide RequestsFor;
    hide FindKernel;
    var n := |es| - 1;
    var before := EventRequests(ds, es[..n]);
    if es[n] == e {
      if ds[i].id in e.kernelsIn {
        p := RequestPresent(ds, e.kernelsIn, e, i);
        p := |before| + p;
      } else {
        p := RequestPresent(ds, e.kernelsOut, e, i);
        p := |before| + |RequestsFor(ds, e.kernelsIn, e)| + p;
      }
    } else {
      assert es == es[..n] + [es[n]];
      p := EventRequested(ds, es[..n], e, i);
    }
  }

  lemma {:induction false} EventRequestsComeFrom(ds: seq<KernelDesc>, es: seq<Event>, p: nat)
    requires EventsNamed(ds, es) && p < |EventRequests(ds, es)|
    ensures EventRequests(ds, es)[p].item in es
  {
    var n := |es| - 1;
    if p < |EventRequests(ds, es[..n])| {
      EventRequestsComeFrom(ds, es[..n], p);
    }
  }

  /**
   A kernel attached to an event of the graph gets the event's address, in whatever order and however
   often it is listed.
   */
  lemma AttachedEventKnown(w: World, ds: seq<KernelDesc>, bs: seq<Buffer>, es: seq<Event>, i: nat, e: Event)
    requires Named(w, ds, bs, es) && UniqueIds(ds) && Closed(ds, bs, es) && Coherent(es)
    requires i < |ds| && ds[i].id != 0 && e in es && (ds[i].id in e.kernelsIn || ds[i].id in e.kernelsOut)
    ensures Knows(Finished(w, ds, bs, es), ds, i, e)
  {
    KernelsServe(w, ds, BufferRequests(ds, bs));
    var w1 := BuffersPass(KernelsPass(w, ds, |ds|), ds, BufferRequests(ds, bs));
    var rs := EventRequests(ds, es);
    forall p | 0 <= p < |rs| && rs[p].item.id == e.id ensures rs[p].item.phys == e.phys {
      EventRequestsComeFrom(ds, es, p);
    }
    var q := EventRequested(ds, es, e, i);
    MapEventsTeaches(w1, ds, rs, i, e, q);
    OpenAllKeeps(MapEvents(w1, ds, rs), ds, |ds|, i, e);
  }

  lemma TaskEventKnown(w: World, ds: seq<KernelDesc>, bs: seq<Buffer>, es: seq<Event>, i: nat, k: nat)
    requires Named(w, ds, bs, es) && UniqueIds(ds) && Closed(ds, bs, es) && Coherent(es)
    requires i < |ds| && k < |ds[i].taskEvents|
    ensures Knows(Finished(w, ds, bs, es), ds, i, ds[i].taskEvents[k])
  {
    KernelsServe(w, ds, BufferRequests(ds, bs));
    var w1 := BuffersPass(KernelsPass(w, ds, |ds|), ds, BufferRequests(ds, bs));
    OpenAllTeaches(MapEvents(w1, ds, EventRequests(ds, es)), ds, |ds|, i, k);
  }

  /** However much the buffers need, mapping a buffer puts it into the kernel's table for good. */
  lemma {:induction false} BufferPresent(w: World, ds: seq<KernelDesc>, rs: seq<Request<Buffer>>, i: nat, q: nat)
    requires Served(w, ds, rs) && q < |rs| && rs[q].kernel == i
    ensures rs[q].item.id in BuffersPass(w, ds, rs).kernels[i].buffers
    decreases |rs|
  {
    var n := |rs| - 1;
    assert Served(w, ds, rs[..n]) && Ready(w, ds, rs[n].kernel) && Ready(w, ds, rs[q].kernel);
    if q < n {
      assert rs[..n][q] == rs[q];
      BufferPresent(w, ds, rs[..n], i, q);
    }
  }

  lemma BufferKnown(w: World, ds: seq<KernelDesc>, bs: seq<Buffer>, es: seq<Event>, i: nat, b: Buffer)
    requires Named(w, ds, bs, es) && UniqueIds(ds) && i < |ds| && ds[i].id != 0 && b in bs && Attached(ds[i].id, b)
    ensures b.id in Finished(w, ds, bs, es).kernels[i].buffers
  {
    var rs := BufferRequests(ds, bs);
    var q := BufferRequested(ds, bs, b, i);
    KernelsServe(w, ds, rs);
    BufferPresent(KernelsPass(w, ds, |ds|), ds, rs, i, q);
    EventsPassKeeps(BuffersPass(KernelsPass(w, ds, |ds|), ds, rs), ds, es, i);
  }

  /**
   Totality: after the passes every kernel finds its termination event, its task events and every
   buffer attached to it in its software TLB.
   */
  lemma LookupsSucceed(w: World, ds: seq<KernelDesc>, bs: seq<Buffer>, es: seq<Event>, i: nat)
    requires Named(w, ds, bs, es) && UniqueIds(ds) && Closed(ds, bs, es) && Coherent(es) && i < |ds| && ds[i].id != 0
    ensures var w' := Finished(w, ds, bs, es);
            && Knows(w', ds, i, ds[i].termination)
            && (forall k :: 0 <= k < |ds[i].taskEvents| ==> Knows(w', ds, i, ds[i].taskEvents[k]))
            && (forall b :: b in bs && Attached(ds[i].id, b) ==> b.id in w'.kernels[i].buffers)
  {
    AttachedEventKnown(w, ds, bs, es, i, ds[i].termination);
    forall k | 0 <= k < |ds[i].taskEvents| ensures Knows(Finished(w, ds, bs, es), ds, i, ds[i].taskEvents[k]) {
      TaskEventKnown(w, ds, bs, es, i, k);
    }
    forall b | b in bs && Attached(ds[i].id, b) ensures b.id in Finished(w, ds, bs, es).kernels[i].buffers {
      BufferKnown(w, ds, bs, es, i, b);
    }
  }

  /** The events a kernel can be told the address of: those attached to it and its task events. */
  predicate Concerns(d: KernelDesc, e: Event) {
    d.id in e.kernelsIn || d.id in e.kernelsOut || e in d.taskEvents
  }

  lemma EventKnown(w: World, ds: seq<KernelDesc>, bs: seq<Buffer>, es: seq<Event>, i: nat, e: Event)
    requires Named(w, ds, bs, es) && UniqueIds(ds) && Closed(ds, bs, es) && Coherent(es)
    requires i < |ds| && ds[i].id != 0 && e in es && Concerns(ds[i], e)
    ensures Knows(Finished(w, ds, bs, es), ds, i, e)
  {
    if e in ds[i].taskEvents {
      var k :| 0 <= k < |ds[i].taskEvents| && ds[i].taskEvents[k] == e;
      TaskEventKnown(w, ds, bs, es, i, k);
    } else {
      AttachedEventKnown(w, ds, bs, es, i, e);
    }
  }

  /** The address a kernel is given for such an event reaches that event's register. */
  lemma EventAddressTranslates(w: World, ds: seq<KernelDesc>, bs: seq<Buffer>, es: seq<Event>, i: nat, e: Event)
    requires Placed(w, ds, bs, es) && Closed(ds, bs, es) && Coherent(es)
    requires i < |ds| && ds[i].id != 0 && Mappable(ds[i].arch) && e in es && e.phys <= 0xff_ffff && Concerns(ds[i], e)
    ensures Knows(Finished(w, ds, bs, es), ds, i, e)
    ensures ReachesEvent(FinalTable(w, ds, bs, es, i), Finished(w, ds, bs, es).kernels[i].events[e.id], e.phys)
  {
    EventKnown(w, ds, bs, es, i, e);
    EventTranslates(w, ds, bs, es, i, e.phys);
    KnownReaches(Finished(w, ds, bs, es), ds, i, e, FinalTable(w, ds, bs, es, i));
  }

  lemma KnownReaches(w: World, ds: seq<KernelDesc>, i: nat, e: Event, t: Table)
    requires Knows(w, ds, i, e) && Mappable(ds[i].arch) && e.phys <= 0xff_ffff
    requires ReachesEvent(t, EventBase(ds[i].arch) + e.phys, e.phys)
    ensures ReachesEvent(t, w.kernels[i].events[e.id], e.phys)
  {
    assert w.kernels[i].events[e.id] == EventBase(ds[i].arch) + e.phys;
  }
}
