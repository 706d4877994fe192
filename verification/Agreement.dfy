/** After the three passes, when the hardware TLBs and the addresses given to kernels agree. */
module Agreement {
  import opened Words
  import opened Translation
  import opened Layout
  import opened Entries
  import opened Limits

  // ----- the passes over a graph

  /** In/out lists name kernels of the graph, and buffers are attached only to kernels that have an address pool. */
  ghost predicate Named(w: World, ds: seq<KernelDesc>, bs: seq<Buffer>, es: seq<Event>) {
    && |ds| == |w.kernels|
    && BuffersNamed(ds, bs) && EventsNamed(ds, es)
    && Poolable(ds, BufferRequests(ds, bs))
  }

  /** The world after all three passes. */
  ghost function Finished(w: World, ds: seq<KernelDesc>, bs: seq<Buffer>, es: seq<Event>): (w': World)
    requires Named(w, ds, bs, es)
    ensures |w'.kernels| == |ds|
  {
    KernelsServe(w, ds, BufferRequests(ds, bs));
    AllPasses(w, ds, bs, es)
  }

  /** The finished table of a kernel's tile. */
  ghost function FinalTable(w: World, ds: seq<KernelDesc>, bs: seq<Buffer>, es: seq<Event>, i: nat): Table
    requires Named(w, ds, bs, es) && i < |ds|
  {
    TableOf(Finished(w, ds, bs, es).hw, ds[i].unit)
  }

  lemma FinalTableIs(w: World, ds: seq<KernelDesc>, bs: seq<Buffer>, es: seq<Event>, i: nat)
    requires Named(w, ds, bs, es) && Distinct(ds) && i < |ds| && Mappable(ds[i].arch)
    ensures var rs, w1 := BufferRequests(ds, bs), KernelsPass(w, ds, |ds|);
            && Begun(w1, ds, rs)
            && FinalTable(w, ds, bs, es, i) == TableAfter(w1, ds, rs, i)[TLB_ENTRY_EVENTS := EventsMapping(ds[i].arch)]
            && Finished(w, ds, bs, es).kernels[i].buffers == BuffersPass(w1, ds, rs).kernels[i].buffers
            && Finished(w, ds, bs, es).kernels[i].vaddr == ImageBase(ds[i].arch)
  {
    var rs, w1 := BufferRequests(ds, bs), KernelsPass(w, ds, |ds|);
    KernelsBegin(w, ds, rs);
    KernelsSetVaddr(w, ds, |ds|, i);
    BuffersKeepVaddr(w1, ds, rs, i);
    AfterEventsPass(BuffersPass(w1, ds, rs), ds, es, i);
    EventsPassKeeps(BuffersPass(w1, ds, rs), ds, es, i);
  }

  // ----- what stood in a tile's TLB before

  function ImageMapping(d: KernelDesc): Mapping {
    MemoryMapping(ImageBase(d.arch), ImageArea(d), d.phys, d.bank)
  }

  /** The entries of a kernel's tile before the call, with the kernel's image in its place. */
  function Prior(w: World, d: KernelDesc): Table {
    TableOf(w.hw, d.unit)[TLB_ENTRY_KERNEL := ImageMapping(d)]
  }

  /** Entry `e` of kernel `i`'s tile is written neither for a buffer nor for the events. */
  predicate Stale(rs: seq<Request<Buffer>>, i: nat, e: nat) {
    e != TLB_ENTRY_EVENTS && !Assigned(rs, i, e)
  }

  lemma UnitOwner(ds: seq<KernelDesc>, i: nat, j: nat)
    requires Distinct(ds) && i < |ds| && j < |ds| && ds[i].unit == ds[j].unit
    ensures i == j
  {
    if i < j {
    } else {
    }
  }

  lemma StaleEntry(w: World, ds: seq<KernelDesc>, bs: seq<Buffer>, es: seq<Event>, i: nat, e: nat)
    requires Named(w, ds, bs, es) && Distinct(ds) && i < |ds| && Mappable(ds[i].arch)
    requires Stale(BufferRequests(ds, bs), i, e)
    ensures var t, t' := Prior(w, ds[i]), FinalTable(w, ds, bs, es, i);
            (e in t <==> e in t') && (e in t ==> t[e] == t'[e])
  {
    hide FinalTable;
    hide Finished;
    FinalTableIs(w, ds, bs, es, i);
    AfterKernels(w, ds, |ds|, i);
    forall j | 0 <= j < |ds| && ds[j].unit == ds[i].unit ensures j == i {
      UnitOwner(ds, i, j);
    }
    BuffersTouch(KernelsPass(w, ds, |ds|), ds, BufferRequests(ds, bs), ds[i].unit, e);
  }

  /** Whatever the buffers need, the entry of a request holds in the end what the request wrote. */
  lemma RequestEntry(w: World, ds: seq<KernelDesc>, bs: seq<Buffer>, es: seq<Event>, p: nat)
    requires Named(w, ds, bs, es) && Distinct(ds) && p < |BufferRequests(ds, bs)|
    ensures var rs := BufferRequests(ds, bs);
            var t, e := FinalTable(w, ds, bs, es, rs[p].kernel), EntryOf(rs, p);
            e in t && t[e] == Written(ds, rs, p)
  {
    hide FinalTable;
    hide Finished;
    var rs := BufferRequests(ds, bs);
    FinalTableIs(w, ds, bs, es, rs[p].kernel);
    EntryStays(KernelsPass(w, ds, |ds|), ds, rs, p);
  }

  // ----- translation

  /** Entry `e`, and no other, translates `va`. */
  ghost predicate Sole(t: Table, e: nat, va: nat) {
    va < WORD && Hit(t, e, va) && forall e' :: Hit(t, e', va) ==> e' == e
  }

  /** Through entry `e` alone, `va` reaches offset `o` of the memory at `phys` in `bank`. */
  ghost predicate ReachesMemory(t: Table, e: nat, va: nat, phys: Word, bank: Word, o: Word) {
    Sole(t, e, va) && t[e].memory && t[e].bank == bank && Target(t[e], va) == Add(phys, o)
  }

  /** Through the events entry alone, `va` reaches offset `o` of the event area. */
  ghost predicate ReachesEvent(t: Table, va: nat, o: nat) {
    Sole(t, TLB_ENTRY_EVENTS, va) && !t[TLB_ENTRY_EVENTS].memory && Target(t[TLB_ENTRY_EVENTS], va) == o
  }

  /** Offset `o` of the buffer of request `p` is reached through the request's own entry alone. */
  ghost predicate BufferReached(w: World, ds: seq<KernelDesc>, bs: seq<Buffer>, es: seq<Event>, p: nat, o: nat)
    requires Named(w, ds, bs, es) && p < |BufferRequests(ds, bs)| && o < BufferRequests(ds, bs)[p].item.size
  {
    var rs := BufferRequests(ds, bs);
    var b, t := rs[p].item, FinalTable(w, ds, bs, es, rs[p].kernel);
    ReachesMemory(t, EntryOf(rs, p), StartOf(ds, rs, p) + o, b.phys, b.bank, o)
  }

  /** Offset `o` of the event area is reached through the events entry alone. */
  ghost predicate EventReached(w: World, ds: seq<KernelDesc>, bs: seq<Buffer>, es: seq<Event>, i: nat, o: nat)
    requires Named(w, ds, bs, es) && i < |ds|
  {
    ReachesEvent(FinalTable(w, ds, bs, es, i), EventBase(ds[i].arch) + o, o)
  }

  /** Offset `o` of the area mapped for the kernel's image is reached through the image's entry alone. */
  ghost predicate ImageReached(w: World, ds: seq<KernelDesc>, bs: seq<Buffer>, es: seq<Event>, i: nat, o: nat)
    requires Named(w, ds, bs, es) && i < |ds| && o < ImageArea(ds[i])
  {
    var d, t := ds[i], FinalTable(w, ds, bs, es, i);
    ReachesMemory(t, TLB_ENTRY_KERNEL, ImageBase(d.arch) + o, d.phys, d.bank, o)
  }

  /** Hardware and software agree: every offset of every request, event area and kernel image is reached. */
  ghost predicate AllReached(w: World, ds: seq<KernelDesc>, bs: seq<Buffer>, es: seq<Event>)
    requires Named(w, ds, bs, es)
  {
    && (forall p, o :: 0 <= p < |BufferRequests(ds, bs)| && 0 <= o < BufferRequests(ds, bs)[p].item.size ==>
          BufferReached(w, ds, bs, es, p, o))
    && (forall i, o :: 0 <= i < |ds| && Mappable(ds[i].arch) && 0 <= o <= 0xff_ffff ==>
          EventReached(w, ds, bs, es, i, o))
    && (forall i, o :: 0 <= i < |ds| && Mappable(ds[i].arch) && 0 <= o < ImageArea(ds[i]) ==>
          ImageReached(w, ds, bs, es, i, o))
  }

  // ----- the exact condition

  predicate InEvents(arch: Arch, va: Word) {
    EventBase(arch) <= va <= EventBase(arch) + 0xff_ffff
  }

  predicate InImage(d: KernelDesc, va: Word) {
    ImageBase(d.arch) <= va < ImageBase(d.arch) + ImageArea(d)
  }

  /** `va` lies in the interval of request `p`. */
  predicate InRequest(ds: seq<KernelDesc>, rs: seq<Request<Buffer>>, p: nat, va: Word)
    requires p < |rs| && rs[p].kernel < |ds|
  {
    StartOf(ds, rs, p) <= va < StartOf(ds, rs, p) + rs[p].item.size
  }

  /** Kernel `i` uses `va`, for a buffer or for an event. */
  ghost predicate Taken(ds: seq<KernelDesc>, rs: seq<Request<Buffer>>, i: nat, va: Word)
    requires i < |ds| && Poolable(ds, rs)
  {
    InEvents(ds[i].arch, va) || exists p :: 0 <= p < |rs| && rs[p].kernel == i && InRequest(ds, rs, p, va)
  }

  /** No entry that stays as it was, nor the image's, translates an address in use for something else. */
  ghost predicate Undisturbed(w: World, ds: seq<KernelDesc>, bs: seq<Buffer>)
    requires BuffersNamed(ds, bs) && Poolable(ds, BufferRequests(ds, bs))
  {
    var rs := BufferRequests(ds, bs);
    forall i, e, va: Word ::
      0 <= i < |ds| && Mappable(ds[i].arch) && Stale(rs, i, e) && Hit(Prior(w, ds[i]), e, va) ==>
        !Taken(ds, rs, i, va) && (e == TLB_ENTRY_KERNEL || !InImage(ds[i], va))
  }

  ghost predicate AllLaid(ds: seq<KernelDesc>, bs: seq<Buffer>)
    requires BuffersNamed(ds, bs) && Poolable(ds, BufferRequests(ds, bs))
  {
    forall i :: 0 <= i < |ds| && Mappable(ds[i].arch) ==> Laid(ds, BufferRequests(ds, bs), i)
  }

  /** The buffers of every kernel fit its window. */
  ghost predicate Fitting(ds: seq<KernelDesc>, bs: seq<Buffer>)
    requires BuffersNamed(ds, bs)
  {
    forall i :: 0 <= i < |ds| && Mappable(ds[i].arch) ==> FitsWindow(ds, BufferRequests(ds, bs), i)
  }

  /** No kernel's image reaches past the end of the address space. */
  ghost predicate ImagesEnd(ds: seq<KernelDesc>) {
    forall i :: 0 <= i < |ds| && Mappable(ds[i].arch) ==> ImageBase(ds[i].arch) + ImageArea(ds[i]) <= WORD
  }

  lemma LaidIffFitting(ds: seq<KernelDesc>, bs: seq<Buffer>)
    requires BuffersNamed(ds, bs) && Poolable(ds, BufferRequests(ds, bs))
    ensures AllLaid(ds, bs) <==> Fitting(ds, bs)
  {
    forall i | 0 <= i < |ds| && Mappable(ds[i].arch)
      ensures Laid(ds, BufferRequests(ds, bs), i) <==> FitsWindow(ds, BufferRequests(ds, bs), i)
    {
      LaidIffFits(ds, BufferRequests(ds, bs), i);
    }
  }

  // ----- what hits what

  /** An interval that does not wrap, and is not empty at 0, is hit exactly at its addresses. */
  lemma IntervalHit(start: Word, size: Word, phys: Word, bank: Word, va: Word)
    requires 0 < start + size <= WORD
    ensures var m := MemoryMapping(start, size, phys, bank); m.start <= va <= m.end <==> start <= va < start + size
  {
    MappingEnds(start, size, phys, bank);
  }

  /** One that wraps hits nothing of its own start, and an empty one at 0 hits everything. */
  lemma WrappedHit(start: Word, size: Word, phys: Word, bank: Word, va: Word)
    ensures var m := MemoryMapping(start, size, phys, bank);
            && (start + size > WORD ==> !(m.start <= va <= m.end))
            && (start + size == 0 ==> m.start <= va <= m.end)
  {
  }

  lemma TargetIs(start: Word, size: Word, phys: Word, bank: Word, o: Word)
    requires start + o < WORD
    ensures var m := MemoryMapping(start, size, phys, bank);
            m.start == start && m.memory && m.bank == bank && Target(m, start + o) == Add(phys, o)
  {
  }

  lemma RequestHit(w: World, ds: seq<KernelDesc>, bs: seq<Buffer>, es: seq<Event>, p: nat, va: Word)
    requires Named(w, ds, bs, es) && Distinct(ds)
    requires p < |BufferRequests(ds, bs)| && Clear(ds, BufferRequests(ds, bs), p)
    ensures var rs := BufferRequests(ds, bs);
            Hit(FinalTable(w, ds, bs, es, rs[p].kernel), EntryOf(rs, p), va) <==> InRequest(ds, rs, p, va)
  {
    hide FinalTable;
    hide StartOf;
    hide EntryOf;
    hide MemoryMapping;
    var rs := BufferRequests(ds, bs);
    RequestEntry(w, ds, bs, es, p);
    IntervalHit(StartOf(ds, rs, p), rs[p].item.size, rs[p].item.phys, rs[p].item.bank, va);
  }

  /** An entry that hits an address is a stale one, the events' or that of a request whose interval it is in. */
  lemma WhoHits(w: World, ds: seq<KernelDesc>, bs: seq<Buffer>, es: seq<Event>, i: nat, e: nat, va: Word)
    returns (p: nat)
    requires Named(w, ds, bs, es) && Distinct(ds) && AllLaid(ds, bs) && i < |ds| && Mappable(ds[i].arch)
    requires Hit(FinalTable(w, ds, bs, es, i), e, va)
    ensures var rs := BufferRequests(ds, bs);
            || (Stale(rs, i, e) && Hit(Prior(w, ds[i]), e, va))
            || (e == TLB_ENTRY_EVENTS && InEvents(ds[i].arch, va))
            || (p < |rs| && rs[p].kernel == i && EntryOf(rs, p) == e && InRequest(ds, rs, p, va))
  {
    hide FinalTable;
    hide InRequest;
    hide EntryOf;
    hide Mapped;
    hide Clear;
    var rs := BufferRequests(ds, bs);
    p := 0;
    if Stale(rs, i, e) {
      StaleEntry(w, ds, bs, es, i, e);
    } else if e == TLB_ENTRY_EVENTS {
      FinalTableIs(w, ds, bs, es, i);
    } else {
      p := RequestOf(rs, i, e);
      assert Clear(ds, rs, p);
      RequestHit(w, ds, bs, es, p, va);
    }
  }

  lemma ClearOfEvents(ds: seq<KernelDesc>, rs: seq<Request<Buffer>>, p: nat, va: Word)
    requires p < |rs| && rs[p].kernel < |ds| && Clear(ds, rs, p) && InRequest(ds, rs, p, va)
    ensures !InEvents(ds[rs[p].kernel].arch, va)
  {
    hide StartOf;
  }

  lemma OneRequest(ds: seq<KernelDesc>, rs: seq<Request<Buffer>>, i: nat, p: nat, q: nat, va: Word)
    requires Poolable(ds, rs) && Laid(ds, rs, i) && p < |rs| && q < |rs| && rs[p].kernel == i && rs[q].kernel == i
    requires InRequest(ds, rs, p, va) && InRequest(ds, rs, q, va)
    ensures p == q
  {
    hide InRequest;
    hide Apart;
    if p < q {
      NotBoth(ds, rs, p, q, va);
    } else if q < p {
      NotBoth(ds, rs, q, p, va);
    }
  }

  lemma NotBoth(ds: seq<KernelDesc>, rs: seq<Request<Buffer>>, p: nat, q: nat, va: Word)
    requires p < |rs| && q < |rs| && rs[p].kernel < |ds| && rs[q].kernel < |ds| && Apart(ds, rs, p, q)
    ensures !InRequest(ds, rs, p, va) || !InRequest(ds, rs, q, va)
  {
    hide StartOf;
  }

  lemma OnlyRequestHits(w: World, ds: seq<KernelDesc>, bs: seq<Buffer>, es: seq<Event>, p: nat, e: nat, va: Word)
    requires Named(w, ds, bs, es) && Distinct(ds) && AllLaid(ds, bs) && Undisturbed(w, ds, bs)
    requires p < |BufferRequests(ds, bs)| && InRequest(ds, BufferRequests(ds, bs), p, va)
    ensures var rs := BufferRequests(ds, bs);
            Hit(FinalTable(w, ds, bs, es, rs[p].kernel), e, va) ==> e == EntryOf(rs, p)
  {
    hide FinalTable;
    hide InRequest;
    hide InEvents;
    var rs := BufferRequests(ds, bs);
    assert Taken(ds, rs, rs[p].kernel, va) && Clear(ds, rs, p);
    ClearOfEvents(ds, rs, p, va);
    if Hit(FinalTable(w, ds, bs, es, rs[p].kernel), e, va) {
      var q := WhoHits(w, ds, bs, es, rs[p].kernel, e, va);
      if q < |rs| && rs[q].kernel == rs[p].kernel && InRequest(ds, rs, q, va) {
        OneRequest(ds, rs, rs[p].kernel, p, q, va);
      }
    }
  }

  lemma OnlyEventsHit(w: World, ds: seq<KernelDesc>, bs: seq<Buffer>, es: seq<Event>, i: nat, e: nat, va: Word)
    requires Named(w, ds, bs, es) && Distinct(ds) && AllLaid(ds, bs) && Undisturbed(w, ds, bs)
    requires i < |ds| && Mappable(ds[i].arch) && InEvents(ds[i].arch, va) && Hit(FinalTable(w, ds, bs, es, i), e, va)
    ensures e == TLB_ENTRY_EVENTS
  {
    hide FinalTable;
    hide InRequest;
    hide InEvents;
    var rs := BufferRequests(ds, bs);
    assert Taken(ds, rs, i, va);
    var q := WhoHits(w, ds, bs, es, i, e, va);
    if q < |rs| && rs[q].kernel == i && InRequest(ds, rs, q, va) {
      assert Clear(ds, rs, q);
      ClearOfEvents(ds, rs, q, va);
    }
  }

  lemma OnlyImageHits(w: World, ds: seq<KernelDesc>, bs: seq<Buffer>, es: seq<Event>, i: nat, e: nat, va: Word)
    requires Named(w, ds, bs, es) && Distinct(ds) && AllLaid(ds, bs) && ImagesEnd(ds) && Undisturbed(w, ds, bs)
    requires i < |ds| && Mappable(ds[i].arch) && InImage(ds[i], va) && Hit(FinalTable(w, ds, bs, es, i), e, va)
    ensures e == TLB_ENTRY_KERNEL
  {
    hide FinalTable;
    hide InRequest;
    hide InEvents;
    hide MemoryMapping;
    var rs := BufferRequests(ds, bs);
    IntervalHit(ImageBase(ds[i].arch), ImageArea(ds[i]), ds[i].phys, ds[i].bank, va);
    assert Stale(rs, i, TLB_ENTRY_KERNEL) && Hit(Prior(w, ds[i]), TLB_ENTRY_KERNEL, va);
    var q := WhoHits(w, ds, bs, es, i, e, va);
  }

  // ----- if the condition holds

  lemma RequestReached(w: World, ds: seq<KernelDesc>, bs: seq<Buffer>, es: seq<Event>, p: nat, o: nat)
    requires Named(w, ds, bs, es) && Distinct(ds) && AllLaid(ds, bs) && Undisturbed(w, ds, bs)
    requires p < |BufferRequests(ds, bs)| && o < BufferRequests(ds, bs)[p].item.size
    ensures BufferReached(w, ds, bs, es, p, o)
  {
    hide FinalTable;
    hide StartOf;
    hide EntryOf;
    hide MemoryMapping;
    hide Undisturbed;
    var rs := BufferRequests(ds, bs);
    var i, b, start := rs[p].kernel, rs[p].item, StartOf(ds, rs, p);
    assert Clear(ds, rs, p);
    var va: Word := start + o;
    RequestEntry(w, ds, bs, es, p);
    RequestHit(w, ds, bs, es, p, va);
    TargetIs(start, b.size, b.phys, b.bank, o);
    hide Clear;
    hide AllLaid;
    forall e | Hit(FinalTable(w, ds, bs, es, i), e, va) ensures e == EntryOf(rs, p) {
      OnlyRequestHits(w, ds, bs, es, p, e, va);
    }
  }

  lemma AreaReached(w: World, ds: seq<KernelDesc>, bs: seq<Buffer>, es: seq<Event>, i: nat, o: nat)
    requires Named(w, ds, bs, es) && Distinct(ds) && AllLaid(ds, bs) && Undisturbed(w, ds, bs)
    requires i < |ds| && Mappable(ds[i].arch) && o <= 0xff_ffff
    ensures EventReached(w, ds, bs, es, i, o)
  {
    hide FinalTable;
    hide Undisturbed;
    hide AllLaid;
    FinalTableIs(w, ds, bs, es, i);
    hide TableAfter;
    var va: Word := EventBase(ds[i].arch) + o;
    forall e | Hit(FinalTable(w, ds, bs, es, i), e, va) ensures e == TLB_ENTRY_EVENTS {
      OnlyEventsHit(w, ds, bs, es, i, e, va);
    }
  }

  lemma KernelReached(w: World, ds: seq<KernelDesc>, bs: seq<Buffer>, es: seq<Event>, i: nat, o: nat)
    requires Named(w, ds, bs, es) && Distinct(ds) && AllLaid(ds, bs) && ImagesEnd(ds) && Undisturbed(w, ds, bs)
    requires i < |ds| && Mappable(ds[i].arch) && o < ImageArea(ds[i])
    ensures ImageReached(w, ds, bs, es, i, o)
  {
    hide FinalTable;
    hide MemoryMapping;
    hide Undisturbed;
    hide AllLaid;
    var d := ds[i];
    var va: Word := ImageBase(d.arch) + o;
    StaleEntry(w, ds, bs, es, i, TLB_ENTRY_KERNEL);
    IntervalHit(ImageBase(d.arch), ImageArea(d), d.phys, d.bank, va);
    TargetIs(ImageBase(d.arch), ImageArea(d), d.phys, d.bank, o);
    forall e | Hit(FinalTable(w, ds, bs, es, i), e, va) ensures e == TLB_ENTRY_KERNEL {
      OnlyImageHits(w, ds, bs, es, i, e, va);
    }
  }

  lemma ConditionReaches(w: World, ds: seq<KernelDesc>, bs: seq<Buffer>, es: seq<Event>)
    requires Named(w, ds, bs, es) && Distinct(ds) && AllLaid(ds, bs) && ImagesEnd(ds) && Undisturbed(w, ds, bs)
    ensures AllReached(w, ds, bs, es)
  {
    forall p, o | 0 <= p < |BufferRequests(ds, bs)| && 0 <= o < BufferRequests(ds, bs)[p].item.size
      ensures BufferReached(w, ds, bs, es, p, o)
    {
      RequestReached(w, ds, bs, es, p, o);
    }
    forall i, o | 0 <= i < |ds| && Mappable(ds[i].arch) && 0 <= o <= 0xff_ffff
      ensures EventReached(w, ds, bs, es, i, o)
    {
      AreaReached(w, ds, bs, es, i, o);
    }
    forall i, o | 0 <= i < |ds| && Mappable(ds[i].arch) && 0 <= o < ImageArea(ds[i])
      ensures ImageReached(w, ds, bs, es, i, o)
    {
      KernelReached(w, ds, bs, es, i, o);
    }
  }

  // ----- if it does not

  /** What everything being reached says about one address: no other entry hits it. */
  lemma SecondHit(w: World, ds: seq<KernelDesc>, bs: seq<Buffer>, es: seq<Event>, i: nat, e: nat, va: Word)
    requires Named(w, ds, bs, es) && i < |ds| && Mappable(ds[i].arch) && Hit(FinalTable(w, ds, bs, es, i), e, va)
    requires InEvents(ds[i].arch, va) && e != TLB_ENTRY_EVENTS
    ensures !AllReached(w, ds, bs, es)
  {
    hide FinalTable;
    assert !EventReached(w, ds, bs, es, i, va - EventBase(ds[i].arch));
  }

  lemma SecondInRequest(w: World, ds: seq<KernelDesc>, bs: seq<Buffer>, es: seq<Event>, p: nat, e: nat, va: Word)
    requires Named(w, ds, bs, es) && p < |BufferRequests(ds, bs)| && InRequest(ds, BufferRequests(ds, bs), p, va)
    requires Hit(FinalTable(w, ds, bs, es, BufferRequests(ds, bs)[p].kernel), e, va)
    requires e != EntryOf(BufferRequests(ds, bs), p)
    ensures !AllReached(w, ds, bs, es)
  {
    hide FinalTable;
    hide StartOf;
    hide EntryOf;
    assert !BufferReached(w, ds, bs, es, p, va - StartOf(ds, BufferRequests(ds, bs), p));
  }

  lemma SecondInImage(w: World, ds: seq<KernelDesc>, bs: seq<Buffer>, es: seq<Event>, i: nat, e: nat, va: Word)
    requires Named(w, ds, bs, es) && i < |ds| && Mappable(ds[i].arch) && Hit(FinalTable(w, ds, bs, es, i), e, va)
    requires InImage(ds[i], va) && e != TLB_ENTRY_KERNEL
    ensures !AllReached(w, ds, bs, es)
  {
    hide FinalTable;
    assert !ImageReached(w, ds, bs, es, i, va - ImageBase(ds[i].arch));
  }

  /** A stale entry that translates an address in use is a second hit. */
  lemma DisturbedNotReached(w: World, ds: seq<KernelDesc>, bs: seq<Buffer>, es: seq<Event>)
    requires Named(w, ds, bs, es) && Distinct(ds) && !Undisturbed(w, ds, bs)
    ensures !AllReached(w, ds, bs, es)
  {
    hide FinalTable;
    hide AllReached;
    hide Hit;
    var rs := BufferRequests(ds, bs);
    var i, e, va: Word :| 0 <= i < |ds| && Mappable(ds[i].arch) && Stale(rs, i, e) && Hit(Prior(w, ds[i]), e, va)
                          && (Taken(ds, rs, i, va) || (e != TLB_ENTRY_KERNEL && InImage(ds[i], va)));
    StaleHits(w, ds, bs, es, i, e, va);
    if InEvents(ds[i].arch, va) {
      SecondHit(w, ds, bs, es, i, e, va);
    } else if p :| 0 <= p < |rs| && rs[p].kernel == i && InRequest(ds, rs, p, va) {
      EntryAssigned(rs, p);
      SecondInRequest(w, ds, bs, es, p, e, va);
    } else {
      SecondInImage(w, ds, bs, es, i, e, va);
    }
  }

  lemma StaleHits(w: World, ds: seq<KernelDesc>, bs: seq<Buffer>, es: seq<Event>, i: nat, e: nat, va: Word)
    requires Named(w, ds, bs, es) && Distinct(ds) && i < |ds| && Mappable(ds[i].arch)
    requires Stale(BufferRequests(ds, bs), i, e) && Hit(Prior(w, ds[i]), e, va)
    ensures Hit(FinalTable(w, ds, bs, es, i), e, va)
  {
    hide FinalTable;
    StaleEntry(w, ds, bs, es, i, e);
  }

  /** An interval that wraps is not hit at its start; an empty one at 0 hits the events, as does one that meets them. */
  lemma UnclearNotReached(w: World, ds: seq<KernelDesc>, bs: seq<Buffer>, es: seq<Event>, p: nat)
    requires Named(w, ds, bs, es) && Distinct(ds) && p < |BufferRequests(ds, bs)|
    requires !Clear(ds, BufferRequests(ds, bs), p)
    ensures !AllReached(w, ds, bs, es)
  {
    hide FinalTable;
    hide AllReached;
    hide MemoryMapping;
    hide StartOf;
    var rs := BufferRequests(ds, bs);
    var i, b, start := rs[p].kernel, rs[p].item, StartOf(ds, rs, p);
    RequestEntry(w, ds, bs, es, p);
    if start + b.size > WORD {
      WrappedHit(start, b.size, b.phys, b.bank, start);
      StartNotHit(w, ds, bs, es, p);
    } else {
      var events := EventBase(ds[i].arch);
      var va: Word := if start <= events then events else start;
      if b.size == 0 {
        va := events;
        WrappedHit(start, b.size, b.phys, b.bank, va);
      } else {
        IntervalHit(start, b.size, b.phys, b.bank, va);
      }
      SecondHit(w, ds, bs, es, i, EntryOf(rs, p), va);
    }
  }

  lemma StartNotHit(w: World, ds: seq<KernelDesc>, bs: seq<Buffer>, es: seq<Event>, p: nat)
    requires Named(w, ds, bs, es) && p < |BufferRequests(ds, bs)| && BufferRequests(ds, bs)[p].item.size > 0
    requires var rs := BufferRequests(ds, bs);
             !Hit(FinalTable(w, ds, bs, es, rs[p].kernel), EntryOf(rs, p), StartOf(ds, rs, p))
    ensures !AllReached(w, ds, bs, es)
  {
    hide FinalTable;
    hide StartOf;
    hide EntryOf;
    assert !BufferReached(w, ds, bs, es, p, 0);
  }

  lemma OverlapNotReached(w: World, ds: seq<KernelDesc>, bs: seq<Buffer>, es: seq<Event>, p: nat, q: nat)
    requires Named(w, ds, bs, es) && Distinct(ds) && p < q < |BufferRequests(ds, bs)|
    requires var rs := BufferRequests(ds, bs);
             rs[p].kernel == rs[q].kernel && Clear(ds, rs, p) && Clear(ds, rs, q) && !Apart(ds, rs, p, q)
    ensures !AllReached(w, ds, bs, es)
  {
    hide FinalTable;
    hide AllReached;
    hide StartOf;
    var rs := BufferRequests(ds, bs);
    var va: Word := if StartOf(ds, rs, p) <= StartOf(ds, rs, q) then StartOf(ds, rs, q) else StartOf(ds, rs, p);
    RequestHit(w, ds, bs, es, q, va);
    EntriesDiffer(rs, p, q);
    SecondInRequest(w, ds, bs, es, p, EntryOf(rs, q), va);
  }

  lemma UnlaidNotReached(w: World, ds: seq<KernelDesc>, bs: seq<Buffer>, es: seq<Event>)
    requires Named(w, ds, bs, es) && Distinct(ds) && !AllLaid(ds, bs)
    ensures !AllReached(w, ds, bs, es)
  {
    hide AllReached;
    hide Clear;
    hide Apart;
    var rs := BufferRequests(ds, bs);
    if p :| 0 <= p < |rs| && !Clear(ds, rs, p) {
      UnclearNotReached(w, ds, bs, es, p);
    } else {
      var p, q :| 0 <= p < q < |rs| && rs[p].kernel == rs[q].kernel && !Apart(ds, rs, p, q);
      OverlapNotReached(w, ds, bs, es, p, q);
    }
  }

  /** An image that reaches past the end of the address space is not hit at its start. */
  lemma WrappedImageNotReached(w: World, ds: seq<KernelDesc>, bs: seq<Buffer>, es: seq<Event>)
    requires Named(w, ds, bs, es) && Distinct(ds) && !ImagesEnd(ds)
    ensures !AllReached(w, ds, bs, es)
  {
    hide FinalTable;
    hide MemoryMapping;
    var i :| 0 <= i < |ds| && Mappable(ds[i].arch) && ImageBase(ds[i].arch) + ImageArea(ds[i]) > WORD;
    var d := ds[i];
    StaleEntry(w, ds, bs, es, i, TLB_ENTRY_KERNEL);
    WrappedHit(ImageBase(d.arch), ImageArea(d), d.phys, d.bank, ImageBase(d.arch));
    assert !ImageReached(w, ds, bs, es, i, 0);
  }

  /**
   When hardware and software agree.  For one kernel per unit, every offset of every request, of every
   event area and of every kernel image is reached through its own entry alone if and only if the
   buffers of each kernel fit its window, no image reaches past 2^32, and neither an entry left in a
   tile from before nor the image's translates an address in use for something else.
   */
  lemma ReachedIff(w: World, ds: seq<KernelDesc>, bs: seq<Buffer>, es: seq<Event>)
    requires Named(w, ds, bs, es) && Distinct(ds)
    ensures AllReached(w, ds, bs, es) <==> Fitting(ds, bs) && ImagesEnd(ds) && Undisturbed(w, ds, bs)
  {
    hide AllReached;
    hide Fitting;
    hide AllLaid;
    hide ImagesEnd;
    hide Undisturbed;
    LaidIffFitting(ds, bs);
    if !AllLaid(ds, bs) {
      UnlaidNotReached(w, ds, bs, es);
    } else if !ImagesEnd(ds) {
      WrappedImageNotReached(w, ds, bs, es);
    } else if !Undisturbed(w, ds, bs) {
      DisturbedNotReached(w, ds, bs, es);
    } else {
      ConditionReaches(w, ds, bs, es);
    }
  }

  // ----- buffers as the software knows them

  /** A buffer id names one buffer. */
  ghost predicate Identified(bs: seq<Buffer>) {
    forall k, l :: 0 <= k < |bs| && 0 <= l < |bs| && bs[k].id == bs[l].id ==> bs[k] == bs[l]
  }

  ghost predicate Placed(w: World, ds: seq<KernelDesc>, bs: seq<Buffer>, es: seq<Event>) {
    Named(w, ds, bs, es) && Distinct(ds) && Identified(bs) && Fitting(ds, bs) && ImagesEnd(ds) && Undisturbed(w, ds, bs)
  }

  /** The address a kernel is given for a buffer is that of one of the requests for it. */
  lemma SoftwareRequest(w: World, ds: seq<KernelDesc>, bs: seq<Buffer>, es: seq<Event>, i: nat, b: Buffer)
    returns (p: nat)
    requires Named(w, ds, bs, es) && Distinct(ds) && Identified(bs)
    requires i < |ds| && ds[i].id != 0 && b in bs && Attached(ds[i].id, b)
    ensures var rs := BufferRequests(ds, bs);
            && p < |rs| && rs[p] == Request(i, b) && Mappable(ds[i].arch)
            && (forall q :: p < q < |rs| && rs[q].kernel == i ==> rs[q].item.id != b.id)
            && b.id in Finished(w, ds, bs, es).kernels[i].buffers
            && Finished(w, ds, bs, es).kernels[i].buffers[b.id] == StartOf(ds, rs, p)
  {
    hide Finished;
    hide StartOf;
    var rs := BufferRequests(ds, bs);
    var q := BufferRequested(ds, bs, b, i);
    FinalTableIs(w, ds, bs, es, i);
    p := SoftwareAddress(KernelsPass(w, ds, |ds|), ds, rs, i, b.id, q);
    RequestsComeFrom(ds, bs, p);
  }

  predicate AtOffset(va: nat, o: nat, at: nat) {
    at == va + o
  }

  /** Through entry `e` alone, every offset of the buffer's memory is reached from `va` plus that offset. */
  ghost predicate WholeReached(t: Table, e: nat, va: nat, b: Buffer) {
    forall o, at :: 0 <= o < b.size && AtOffset(va, o, at) ==> ReachesMemory(t, e, at, b.phys, b.bank, o)
  }

  /**
   Software and hardware agree.  For every kernel and every buffer attached to it, as reader, writer
   or both: from the address the kernel is given plus any offset inside the buffer, which does not
   wrap, one and the same TLB entry of the kernel's tile, and no other, reaches the same offset of the
   buffer's own memory.
   */
  lemma BufferTranslates(w: World, ds: seq<KernelDesc>, bs: seq<Buffer>, es: seq<Event>, i: nat, b: Buffer)
    returns (e: nat)
    requires Placed(w, ds, bs, es) && i < |ds| && ds[i].id != 0 && b in bs && Attached(ds[i].id, b)
    ensures b.id in Finished(w, ds, bs, es).kernels[i].buffers
    ensures WholeReached(FinalTable(w, ds, bs, es, i), e, Finished(w, ds, bs, es).kernels[i].buffers[b.id], b)
  {
    hide FinalTable;
    hide Finished;
    hide StartOf;
    hide ReachesMemory;
    hide Undisturbed;
    hide Fitting;
    hide AllLaid;
    LaidIffFitting(ds, bs);
    var p := SoftwareRequest(w, ds, bs, es, i, b);
    e := EntryOf(BufferRequests(ds, bs), p);
    forall o, at | 0 <= o < b.size && AtOffset(StartOf(ds, BufferRequests(ds, bs), p), o, at)
      ensures ReachesMemory(FinalTable(w, ds, bs, es, i), e, at, b.phys, b.bank, o)
    {
      RequestReached(w, ds, bs, es, p, o);
    }
  }

  /** Every offset of the event area is translated by the events entry alone, to itself. */
  lemma EventTranslates(w: World, ds: seq<KernelDesc>, bs: seq<Buffer>, es: seq<Event>, i: nat, o: nat)
    requires Placed(w, ds, bs, es) && i < |ds| && Mappable(ds[i].arch) && o <= 0xff_ffff
    ensures ReachesEvent(FinalTable(w, ds, bs, es, i), EventBase(ds[i].arch) + o, o)
  {
    LaidIffFitting(ds, bs);
    AreaReached(w, ds, bs, es, i, o);
  }

  /** The kernel's own address plus any offset of its image reaches that offset through the image's entry alone. */
  lemma ImageTranslates(w: World, ds: seq<KernelDesc>, bs: seq<Buffer>, es: seq<Event>, i: nat, o: nat)
    requires Placed(w, ds, bs, es) && i < |ds| && Mappable(ds[i].arch) && o < ImageArea(ds[i])
    ensures var d, t := ds[i], FinalTable(w, ds, bs, es, i);
            ReachesMemory(t, TLB_ENTRY_KERNEL, Finished(w, ds, bs, es).kernels[i].vaddr + o, d.phys, d.bank, o)
  {
    hide FinalTable;
    hide Finished;
    hide Undisturbed;
    hide Fitting;
    hide AllLaid;
    LaidIffFitting(ds, bs);
    FinalTableIs(w, ds, bs, es, i);
    KernelReached(w, ds, bs, es, i, o);
  }
}
