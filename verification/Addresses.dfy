/**
 Where everything is after the three passes, in numbers: the image of a kernel, the event area, the
 address of each event, and the address and the TLB entry of each buffer.
 */
module Addresses {
  import opened Words
  import opened Translation
  import opened Layout
  import opened Entries
  import opened Limits
  import opened Agreement
  import opened Lookups

  // ----- the image

  /** On every architecture, entry 1 of a kernel's tile maps its image, 256 MB of it on PEAK whatever its size. */
  lemma ImageEntry(w: World, ds: seq<KernelDesc>, bs: seq<Buffer>, es: seq<Event>, i: nat)
    requires Named(w, ds, bs, es) && Distinct(ds) && i < |ds|
    ensures var d, t := ds[i], FinalTable(w, ds, bs, es, i);
            var start := if d.arch.NUP? then 0 else 0x3000_0000;
            var size := if d.arch.PEAK? then 0x1000_0000 else d.imageSize;
            && Finished(w, ds, bs, es).kernels[i].vaddr == start
            && 1 in t && t[1] == Mapping(start, (start + size + 0xffff_ffff) % 0x1_0000_0000, d.phys, d.bank, true)
  {
    hide BufferRequests;
    hide EventRequests;
    hide MapEvents;
    hide BuffersPass;
    hide KernelsPass;
    hide OpenAll;
    hide Distinct;
    var rs, w1, u := BufferRequests(ds, bs), KernelsPass(w, ds, |ds|), ds[i].unit;
    KernelsBegin(w, ds, rs);
    AfterKernels(w, ds, |ds|, i);
    KernelsSetVaddr(w, ds, |ds|, i);
    BuffersKeepVaddr(w1, ds, rs, i);
    BuffersTouch(w1, ds, rs, u, 1);
    var w2 := BuffersPass(w1, ds, rs);
    EventsPassKeeps(w2, ds, es, i);
    OpenTouch(MapEvents(w2, ds, EventRequests(ds, es)), ds, |ds|, u, 1);
  }

  /** An image of no bytes on an NU+ tile would be mapped over everything, the events too. */
  lemma NoEmptyImage(w: World, ds: seq<KernelDesc>, bs: seq<Buffer>, es: seq<Event>, i: nat)
    requires Placed(w, ds, bs, es) && i < |ds| && ds[i].arch.NUP?
    ensures ds[i].imageSize > 0
  {
    if ds[i].imageSize == 0 {
      var rs := BufferRequests(ds, bs);
      assert Hit(Prior(w, ds[i]), TLB_ENTRY_KERNEL, 0xff00_0000);
      assert Stale(rs, i, TLB_ENTRY_KERNEL) && Taken(ds, rs, i, 0xff00_0000);
    }
  }

  /**
   From the kernel's address, entry 1 maps exactly the offsets below 256 MB on PEAK, where the stack is,
   and exactly those of the image on NU+ and DCT; each goes to that offset of the kernel's memory, and
   through no other entry.
   */
  lemma ImageExtent(w: World, ds: seq<KernelDesc>, bs: seq<Buffer>, es: seq<Event>, i: nat, o: nat)
    requires Placed(w, ds, bs, es) && i < |ds| && Mappable(ds[i].arch)
    requires Finished(w, ds, bs, es).kernels[i].vaddr + o < 0x1_0000_0000
    ensures var d, t, va := ds[i], FinalTable(w, ds, bs, es, i), Finished(w, ds, bs, es).kernels[i].vaddr + o;
            var size := if d.arch.PEAK? then 0x1000_0000 else d.imageSize;
            && (Hit(t, 1, va) <==> o < size)
            && (o < size ==> ReachesMemory(t, 1, va, d.phys, d.bank, o))
  {
    hide Finished;
    hide FinalTable;
    hide Undisturbed;
    hide Fitting;
    ImageEntry(w, ds, bs, es, i);
    if ds[i].arch.NUP? {
      NoEmptyImage(w, ds, bs, es, i);
    }
    if o < ImageArea(ds[i]) {
      ImageTranslates(w, ds, bs, es, i, o);
    }
  }

  // ----- events

  /** The start of the event area. */
  function EventsAt(arch: Arch): nat {
    match arch
    case NUP => 0xff00_0000
    case DCT => 0x1000_0000
    case _ => 0x5e00_0000
  }

  /** Entry 2 of the tile maps the 16 MB of the event area and nothing else. */
  lemma EventEntry(w: World, ds: seq<KernelDesc>, bs: seq<Buffer>, es: seq<Event>, i: nat)
    requires Named(w, ds, bs, es) && Distinct(ds) && i < |ds| && Mappable(ds[i].arch)
    ensures var t, start := FinalTable(w, ds, bs, es, i), EventsAt(ds[i].arch);
            2 in t && t[2] == Mapping(start, start + 0xff_ffff, 0, 0, false)
  {
    FinalTableIs(w, ds, bs, es, i);
  }

  /** A kernel's address for an event is the event's place in that area, in 32 bits. */
  lemma EventAddress(w: World, ds: seq<KernelDesc>, bs: seq<Buffer>, es: seq<Event>, i: nat, e: Event)
    requires Named(w, ds, bs, es) && UniqueIds(ds) && Closed(ds, bs, es) && Coherent(es)
    requires i < |ds| && ds[i].id != 0 && e in es && Concerns(ds[i], e)
    ensures var t := Finished(w, ds, bs, es).kernels[i].events;
            e.id in t && t[e.id] == (EventsAt(ds[i].arch) + e.phys) % 0x1_0000_0000
  {
    hide Named;
    hide Closed;
    hide Coherent;
    hide UniqueIds;
    hide Finished;
    EventKnown(w, ds, bs, es, i, e);
  }

  // ----- buffers

  /** How often `id` stands in the list. */
  function Times(id: Word, ids: seq<Word>): nat {
    if ids == [] then 0
    else Times(id, ids[..|ids| - 1]) + if ids[|ids| - 1] == id then 1 else 0
  }

  /** How often the buffers list kernel `id`, as a reader or as a writer. */
  function Mappings(bs: seq<Buffer>, id: Word): nat {
    if bs == [] then 0
    else
      var n := |bs| - 1;
      Mappings(bs[..n], id) + Times(id, bs[n].kernelsIn) + Times(id, bs[n].kernelsOut)
  }

  /** The bytes they take, each rounded up to a multiple of 64. */
  function Room(bs: seq<Buffer>, id: Word): nat {
    if bs == [] then 0
    else
      var n := |bs| - 1;
      Room(bs[..n], id) + (Times(id, bs[n].kernelsIn) + Times(id, bs[n].kernelsOut)) * ((bs[n].size + 63) / 64 * 64)
  }

  lemma {:induction false} UsedAppend(xs: seq<Request<Buffer>>, ys: seq<Request<Buffer>>, i: nat)
    ensures Used(xs + ys, i) == Used(xs, i) + Used(ys, i) && Mapped(xs + ys, i) == Mapped(xs, i) + Mapped(ys, i)
    decreases |ys|
  {
    hide Round64;
    if ys == [] {
      assert xs + ys == xs;
    } else {
      var n := |ys| - 1;
      assert (xs + ys)[..|xs| + n] == xs + ys[..n];
      UsedAppend(xs, ys[..n], i);
    }
  }

  lemma UsedSnoc(rs: seq<Request<Buffer>>, f: nat, b: Buffer, i: nat)
    ensures Used(rs + [Request(f, b)], i) == Used(rs, i) + if f == i then Round64(b.size) else 0
    ensures Mapped(rs + [Request(f, b)], i) == Mapped(rs, i) + if f == i then 1 else 0
  {
    hide Round64;
    assert (rs + [Request(f, b)])[..|rs|] == rs;
  }

  lemma Together(a: nat, b: nat, c: nat)
    ensures (a + b) * c == a * c + b * c
  {
  }

  lemma {:induction false} ListUsed(ds: seq<KernelDesc>, ids: seq<Word>, b: Buffer, i: nat)
    requires Names(ds, ids) && UniqueIds(ds) && i < |ds| && ds[i].id != 0
    ensures Used(RequestsFor(ds, ids, b), i) == Times(ds[i].id, ids) * Round64(b.size)
    ensures Mapped(RequestsFor(ds, ids, b), i) == Times(ds[i].id, ids)
  {
    hide Round64;
    hide FindKernel;
    if ids != [] {
      var n := |ids| - 1;
      ListUsed(ds, ids[..n], b, i);
      var before := RequestsFor(ds, ids[..n], b);
      if ids[n] == 0 {
        assert before + [] == before;
      } else {
        var f := FindKernel(ds, ids[n]);
        assert f == i <==> ids[n] == ds[i].id;
        UsedSnoc(before, f, b, i);
        hide Used;
        hide Mapped;
        Together(Times(ds[i].id, ids[..n]), 1, Round64(b.size));
      }
    }
  }

  /** The requests take the room of the buffers. */
  lemma {:induction false} RoomIs(ds: seq<KernelDesc>, bs: seq<Buffer>, i: nat)
    requires BuffersNamed(ds, bs) && UniqueIds(ds) && i < |ds| && ds[i].id != 0
    ensures Used(BufferRequests(ds, bs), i) == Room(bs, ds[i].id)
    ensures Mapped(BufferRequests(ds, bs), i) == Mappings(bs, ds[i].id)
  {
    hide RequestsFor;
    hide Times;
    if bs != [] {
      var n := |bs| - 1;
      var before, ins, outs :=
        BufferRequests(ds, bs[..n]), RequestsFor(ds, bs[n].kernelsIn, bs[n]), RequestsFor(ds, bs[n].kernelsOut, bs[n]);
      RoomIs(ds, bs[..n], i);
      ListUsed(ds, bs[n].kernelsIn, bs[n], i);
      ListUsed(ds, bs[n].kernelsOut, bs[n], i);
      UsedAppend(before, ins, i);
      UsedAppend(before + ins, outs, i);
      hide Used;
      hide Mapped;
      Together(Times(ds[i].id, bs[n].kernelsIn), Times(ds[i].id, bs[n].kernelsOut), Round64(bs[n].size));
    }
  }

  /** The requests of the first buffers come first. */
  lemma {:induction false} RequestsPrefix(ds: seq<KernelDesc>, bs: seq<Buffer>, n: nat)
    requires BuffersNamed(ds, bs) && n <= |bs|
    ensures BufferRequests(ds, bs[..n]) <= BufferRequests(ds, bs)
    decreases |bs|
  {
    hide RequestsFor;
    hide Names;
    if n == |bs| {
      assert bs[..n] == bs;
    } else {
      assert bs[..|bs| - 1][..n] == bs[..n];
      RequestsPrefix(ds, bs[..|bs| - 1], n);
    }
  }

  /** Which buffer a request is for, and that it lies among the requests of that buffer. */
  lemma {:induction false} BufferOf(ds: seq<KernelDesc>, bs: seq<Buffer>, p: nat) returns (m: nat)
    requires BuffersNamed(ds, bs) && p < |BufferRequests(ds, bs)|
    ensures m < |bs| && BufferRequests(ds, bs)[p].item == bs[m]
    ensures |BufferRequests(ds, bs[..m])| <= p < |BufferRequests(ds, bs[..m + 1])|
  {
    hide RequestsFor;
    hide Names;
    var n := |bs| - 1;
    if p < |BufferRequests(ds, bs[..n])| {
      m := BufferOf(ds, bs[..n], p);
      assert bs[..n][..m] == bs[..m] && bs[..n][..m + 1] == bs[..m + 1];
    } else {
      m := n;
      assert bs[..n + 1] == bs;
    }
  }

  /** Requests for other kernels take no room. */
  lemma {:induction false} UsedSkips(rs: seq<Request<Buffer>>, i: nat, a: nat, b: nat)
    requires a <= b <= |rs| && forall q :: a <= q < b ==> rs[q].kernel != i
    ensures Used(rs[..a], i) == Used(rs[..b], i) && Mapped(rs[..a], i) == Mapped(rs[..b], i)
    decreases b
  {
    if a < b {
      assert rs[..b][..b - 1] == rs[..b - 1];
      UsedSkips(rs, i, a, b - 1);
    }
  }

  /** If nothing but other kernels' requests follows request `p` up to `c`, it ends where the first `c` end. */
  lemma LastEnds(rs: seq<Request<Buffer>>, i: nat, p: nat, c: nat)
    requires p < c <= |rs| && rs[p].kernel == i && forall q :: p < q < c ==> rs[q].kernel != i
    ensures Used(rs[..p], i) + Round64(rs[p].item.size) == Used(rs[..c], i)
    ensures Mapped(rs[..p], i) + 1 == Mapped(rs[..c], i)
  {
    hide Round64;
    assert rs[..p + 1][..p] == rs[..p];
    UsedSkips(rs, i, p + 1, c);
  }

  ghost predicate DistinctBuffers(bs: seq<Buffer>) {
    forall k, l :: 0 <= k < l < |bs| ==> bs[k].id != bs[l].id
  }

  /** Request `p` is the last of buffer `n` for kernel `i`. */
  lemma LastOf(ds: seq<KernelDesc>, bs: seq<Buffer>, i: nat, n: nat, p: nat)
    requires BuffersNamed(ds, bs) && UniqueIds(ds) && DistinctBuffers(bs) && i < |ds| && ds[i].id != 0 && n < |bs|
    requires var rs := BufferRequests(ds, bs);
             && p < |rs| && rs[p] == Request(i, bs[n])
             && forall q :: p < q < |rs| && rs[q].kernel == i ==> rs[q].item.id != bs[n].id
    ensures Used(BufferRequests(ds, bs)[..p], i) + Round64(bs[n].size) == Room(bs[..n + 1], ds[i].id)
    ensures Mapped(BufferRequests(ds, bs)[..p], i) + 1 == Mappings(bs[..n + 1], ds[i].id)
  {
    hide BufferRequests;
    hide Used;
    hide Mapped;
    hide Room;
    hide Mappings;
    hide Names;
    hide Round64;
    var rs, c := BufferRequests(ds, bs), |BufferRequests(ds, bs[..n + 1])|;
    RequestsPrefix(ds, bs, n + 1);
    assert rs[..c] == BufferRequests(ds, bs[..n + 1]);
    var m := BufferOf(ds, bs, p);
    assert m == n;
    forall q | p < q < c ensures rs[q].kernel != i {
      var l := BufferOf(ds, bs, q);
      InBlock(ds, bs, n, l, p, q);
    }
    LastEnds(rs, i, p, c);
    RoomIs(ds, bs[..n + 1], i);
  }

  /** Between two requests of one buffer there are no other buffer's. */
  lemma InBlock(ds: seq<KernelDesc>, bs: seq<Buffer>, n: nat, l: nat, p: nat, q: nat)
    requires BuffersNamed(ds, bs) && n < |bs| && l < |bs| && p < q
    requires |BufferRequests(ds, bs[..n])| <= p && q < |BufferRequests(ds, bs[..n + 1])|
    requires |BufferRequests(ds, bs[..l])| <= q < |BufferRequests(ds, bs[..l + 1])|
    ensures l == n
  {
    hide BufferRequests;
    hide Names;
    if l < n {
      assert bs[..n][..l + 1] == bs[..l + 1];
      RequestsPrefix(ds, bs[..n], l + 1);
    } else if n < l {
      assert bs[..l][..n + 1] == bs[..n + 1];
      RequestsPrefix(ds, bs[..l], n + 1);
    }
  }

  /** The start of a kernel's buffers. */
  function BuffersAt(arch: Arch): nat {
    if arch.NUP? then 0x8000_0000 else 0x5000_0000
  }

  /**
   The address of every buffer in every kernel, and its entry, whether or not the buffers fit: buffers
   come in the order of the graph, each as often as the kernel is listed, and the last time counts.
   */
  lemma BufferAddress(w: World, ds: seq<KernelDesc>, bs: seq<Buffer>, es: seq<Event>, i: nat, n: nat)
    requires Named(w, ds, bs, es) && Distinct(ds) && DistinctBuffers(bs)
    requires i < |ds| && ds[i].id != 0 && n < |bs| && Attached(ds[i].id, bs[n])
    ensures var b, k, t := bs[n], Finished(w, ds, bs, es).kernels[i], FinalTable(w, ds, bs, es, i);
            var at := BuffersAt(ds[i].arch) + Room(bs[..n + 1], ds[i].id) - (b.size + 63) / 64 * 64;
            var e := 2 + Mappings(bs[..n + 1], ds[i].id);
            && b.id in k.buffers && k.buffers[b.id] == at % 0x1_0000_0000
            && e in t && t[e] ==
               Mapping(at % 0x1_0000_0000, (at + b.size + 0xffff_ffff) % 0x1_0000_0000, b.phys, b.bank, true)
  {
    hide Finished;
    hide FinalTable;
    hide BufferRequests;
    hide Used;
    hide Mapped;
    hide Room;
    hide Mappings;
    IdentifiedBuffers(bs);
    var p := SoftwareRequest(w, ds, bs, es, i, bs[n]);
    LastOf(ds, bs, i, n, p);
    RequestEntry(w, ds, bs, es, p);
    AddWraps(AddressOf(ds, BufferRequests(ds, bs), p), bs[n].size + 0xffff_ffff);
  }

  lemma IdentifiedBuffers(bs: seq<Buffer>)
    requires DistinctBuffers(bs)
    ensures Identified(bs)
  {
    forall k, l | 0 <= k < |bs| && 0 <= l < |bs| && bs[k].id == bs[l].id ensures bs[k] == bs[l] {
      if k < l {
      } else if l < k {
      }
    }
  }

  // ----- and nothing else

  /** A pool is opened for no kernel but those of PEAK, NU+ and DCT, and a counter for no tile but theirs. */
  lemma {:induction false} PoolsAndCounters(w: World, ds: seq<KernelDesc>, n: nat, id: Word, u: Word)
    requires n <= |ds| == |w.kernels|
    ensures var w' := KernelsPass(w, ds, n);
            && ((forall j :: 0 <= j < n && ds[j].id == id ==> ds[j].arch.GN? || ds[j].arch.OtherArch?) ==>
                  (id in w'.pool <==> id in w.pool) && (id in w.pool ==> w'.pool[id] == w.pool[id]))
            && (u in w'.entries <==> exists j :: 0 <= j < n && ds[j].unit == u)
  {
    if n > 0 {
      PoolsAndCounters(w, ds, n - 1, id, u);
      assert u == ds[n - 1].unit ==> exists j :: 0 <= j < n && ds[j].unit == u;
    }
  }

  /** `id` has the same address, or none, in both tables. */
  predicate SameAddress(t: map<Word, Word>, t': map<Word, Word>, id: Word) {
    (id in t <==> id in t') && (id in t ==> t[id] == t'[id])
  }

  lemma {:induction false} BuffersLeave(w: World, ds: seq<KernelDesc>, rs: seq<Request<Buffer>>, i: nat, id: Word)
    requires Served(w, ds, rs) && i < |ds|
    requires forall p :: 0 <= p < |rs| && rs[p].kernel == i ==> rs[p].item.id != id
    ensures SameAddress(w.kernels[i].buffers, BuffersPass(w, ds, rs).kernels[i].buffers, id)
  {
    if rs != [] {
      var n := |rs| - 1;
      assert Served(w, ds, rs[..n]) && Ready(w, ds, rs[n].kernel);
      BuffersLeave(w, ds, rs[..n], i, id);
      MapBufferTable(BuffersPass(w, ds, rs[..n]), ds, rs[n].kernel, rs[n].item, i);
    }
  }

  lemma {:induction false} KernelsLeave(w: World, ds: seq<KernelDesc>, n: nat, i: nat)
    requires n <= |ds| == |w.kernels| && i < |ds|
    ensures KernelsPass(w, ds, n).kernels[i].buffers == w.kernels[i].buffers
    ensures KernelsPass(w, ds, n).kernels[i].events == w.kernels[i].events
  {
    if n > 0 {
      KernelsLeave(w, ds, n - 1, i);
    }
  }

  /** A kernel is told no address of a buffer it is not attached to. */
  lemma OnlyAttachedBuffers(w: World, ds: seq<KernelDesc>, bs: seq<Buffer>, es: seq<Event>, i: nat, id: Word)
    requires Named(w, ds, bs, es) && UniqueIds(ds) && i < |ds| && ds[i].id != 0
    requires forall b :: b in bs && Attached(ds[i].id, b) ==> b.id != id
    ensures SameAddress(w.kernels[i].buffers, Finished(w, ds, bs, es).kernels[i].buffers, id)
  {
    hide FindKernel;
    hide RequestsFor;
    var rs, w1 := BufferRequests(ds, bs), KernelsPass(w, ds, |ds|);
    KernelsServe(w, ds, rs);
    forall p | 0 <= p < |rs| && rs[p].kernel == i ensures rs[p].item.id != id {
      RequestsComeFrom(ds, bs, p);
      RequestAttached(ds, bs, p);
    }
    BuffersLeave(w1, ds, rs, i, id);
    KernelsLeave(w, ds, |ds|, i);
    EventsPassKeeps(BuffersPass(w1, ds, rs), ds, es, i);
  }

  lemma {:induction false} ListNames<T>(ds: seq<KernelDesc>, ids: seq<Word>, b: T, p: nat)
    requires Names(ds, ids) && p < |RequestsFor(ds, ids, b)|
    ensures ds[RequestsFor(ds, ids, b)[p].kernel].id in ids
  {
    var n := |ids| - 1;
    assert ids == ids[..n] + [ids[n]];
    if p < |RequestsFor(ds, ids[..n], b)| {
      ListNames(ds, ids[..n], b, p);
    }
  }

  /** Every request is for a kernel the buffer lists. */
  lemma {:induction false} RequestAttached(ds: seq<KernelDesc>, bs: seq<Buffer>, p: nat)
    requires BuffersNamed(ds, bs) && p < |BufferRequests(ds, bs)|
    ensures Attached(ds[BufferRequests(ds, bs)[p].kernel].id, BufferRequests(ds, bs)[p].item)
  {
    hide RequestsFor;
    hide Names;
    var n := |bs| - 1;
    var before, ins, outs :=
      BufferRequests(ds, bs[..n]), RequestsFor(ds, bs[n].kernelsIn, bs[n]), RequestsFor(ds, bs[n].kernelsOut, bs[n]);
    if p < |before| {
      RequestAttached(ds, bs[..n], p);
    } else if p < |before| + |ins| {
      ListNames(ds, bs[n].kernelsIn, bs[n], p - |before|);
    } else {
      ListNames(ds, bs[n].kernelsOut, bs[n], p - |before| - |ins|);
    }
  }

  lemma {:induction false} MapEventsLeave(w: World, ds: seq<KernelDesc>, rs: seq<Request<Event>>, i: nat, id: Word)
    requires |ds| == |w.kernels| && i < |ds| && forall p :: 0 <= p < |rs| ==> rs[p].kernel < |ds|
    requires forall p :: 0 <= p < |rs| && rs[p].kernel == i ==> rs[p].item.id != id
    ensures SameAddress(w.kernels[i].events, MapEvents(w, ds, rs).kernels[i].events, id)
  {
    if rs != [] {
      MapEventsLeave(w, ds, rs[..|rs| - 1], i, id);
    }
  }

  lemma {:induction false} OpenAllLeaves(w: World, ds: seq<KernelDesc>, n: nat, i: nat, id: Word)
    requires n <= |ds| == |w.kernels| && i < |ds|
    requires forall k :: 0 <= k < |ds[i].taskEvents| ==> ds[i].taskEvents[k].id != id
    ensures SameAddress(w.kernels[i].events, OpenAll(w, ds, n).kernels[i].events, id)
  {
    if n > 0 {
      OpenAllLeaves(w, ds, n - 1, i, id);
      var w1 := OpenEvents(OpenAll(w, ds, n - 1), ds, n - 1);
      MapEventsLeave(w1, ds, TaskRequests(n - 1, ds[n - 1].taskEvents), i, id);
    }
  }

  lemma {:induction false} BuffersKeepEvents(w: World, ds: seq<KernelDesc>, rs: seq<Request<Buffer>>, i: nat)
    requires Served(w, ds, rs) && i < |ds|
    ensures BuffersPass(w, ds, rs).kernels[i].events == w.kernels[i].events
  {
    if rs != [] {
      var n := |rs| - 1;
      assert Served(w, ds, rs[..n]) && Ready(w, ds, rs[n].kernel);
      BuffersKeepEvents(w, ds, rs[..n], i);
    }
  }

  /** Every request is for a kernel the event lists. */
  lemma {:induction false} EventAttached(ds: seq<KernelDesc>, es: seq<Event>, p: nat)
    requires EventsNamed(ds, es) && p < |EventRequests(ds, es)|
    ensures var e, id := EventRequests(ds, es)[p].item, ds[EventRequests(ds, es)[p].kernel].id;
            e in es && (id in e.kernelsIn || id in e.kernelsOut)
  {
    hide RequestsFor;
    hide Names;
    var n := |es| - 1;
    var before, ins, outs :=
      EventRequests(ds, es[..n]), RequestsFor(ds, es[n].kernelsIn, es[n]), RequestsFor(ds, es[n].kernelsOut, es[n]);
    if p < |before| {
      EventAttached(ds, es[..n], p);
    } else if p < |before| + |ins| {
      ListNames(ds, es[n].kernelsIn, es[n], p - |before|);
    } else {
      ListNames(ds, es[n].kernelsOut, es[n], p - |before| - |ins|);
    }
  }

  /** Nor of an event that does not concern it. */
  lemma OnlyOwnEvents(w: World, ds: seq<KernelDesc>, bs: seq<Buffer>, es: seq<Event>, i: nat, id: Word)
    requires Named(w, ds, bs, es) && i < |ds|
    requires forall e :: e in es && Concerns(ds[i], e) ==> e.id != id
    requires forall k :: 0 <= k < |ds[i].taskEvents| ==> ds[i].taskEvents[k].id != id
    ensures SameAddress(w.kernels[i].events, Finished(w, ds, bs, es).kernels[i].events, id)
  {
    hide FindKernel;
    hide RequestsFor;
    hide MapEvents;
    hide OpenAll;
    var rs, w1, qs := BufferRequests(ds, bs), KernelsPass(w, ds, |ds|), EventRequests(ds, es);
    KernelsServe(w, ds, rs);
    KernelsLeave(w, ds, |ds|, i);
    BuffersKeepEvents(w1, ds, rs, i);
    var w2 := BuffersPass(w1, ds, rs);
    forall p | 0 <= p < |qs| && qs[p].kernel == i ensures qs[p].item.id != id {
      EventAttached(ds, es, p);
    }
    MapEventsLeave(w2, ds, qs, i, id);
    OpenAllLeaves(MapEvents(w2, ds, qs), ds, |ds|, i, id);
  }

  /** The tile of a kernel of another architecture keeps all entries but the image's. */
  lemma {:induction false} OtherTilesKept(w: World, ds: seq<KernelDesc>, n: nat, u: Word, e: nat)
    requires n <= |ds| == |w.kernels|
    requires forall j :: 0 <= j < n && ds[j].unit == u ==> ds[j].arch.GN? || ds[j].arch.OtherArch?
    ensures SameEntry(w.hw, OpenAll(w, ds, n).hw, u, e)
  {
    if n > 0 {
      OtherTilesKept(w, ds, n - 1, u, e);
    }
  }
}
