/** Mapping a graph onto tiles that have been used before: set_vaddr_kernels restarts the entries but clears none. */
module Reuse {
  import opened Words
  import opened Translation
  import opened Layout
  import opened Entries
  import opened Limits
  import opened Agreement
  import Lookups

  /** The kernel image does not reach into what buffers and events use. */
  predicate ImageFits(d: KernelDesc) {
    match d.arch
    case PEAK => true
    case NUP => 0 < d.imageSize <= 0x8000_0000
    case _ => 0 < d.imageSize <= 0x2000_0000
  }

  /** An address for buffers, events or the image of the kernel. */
  predicate InUse(d: KernelDesc, va: Word) {
    InWindow(d.arch, va) || InEvents(d.arch, va) || InImage(d, va)
  }

  lemma ImageOutsideWindows(d: KernelDesc, va: Word)
    requires Mappable(d.arch) && ImageFits(d) && ImageMapping(d).start <= va <= ImageMapping(d).end
    ensures !InWindow(d.arch, va) && !InEvents(d.arch, va)
  {
  }

  lemma TakenInUse(ds: seq<KernelDesc>, rs: seq<Request<Buffer>>, i: nat, va: Word)
    requires Poolable(ds, rs) && i < |ds| && Mappable(ds[i].arch) && FitsWindow(ds, rs, i) && Taken(ds, rs, i, va)
    ensures InWindow(ds[i].arch, va) || InEvents(ds[i].arch, va)
  {
    hide StartOf;
    hide FitsWindow;
    if p :| 0 <= p < |rs| && rs[p].kernel == i && InRequest(ds, rs, p, va) {
      RequestInWindow(ds, rs, i, p, va);
    }
  }

  // ----- how far a tile's table has been filled

  /** No entry from number START+n on is in use. */
  ghost predicate FilledTo(t: Table, n: nat) {
    forall e :: e in t ==> e < TLB_ENTRY_START + n
  }

  /** Entry 0, which belongs to the operating system of the tile, keeps clear of the kernel's addresses. */
  ghost predicate QuietOs(t: Table, d: KernelDesc) {
    forall va: Word :: Hit(t, 0, va) ==> !InUse(d, va)
  }

  /** The passes write only the image's entry, the events' entry and those of requests for the tile's kernel. */
  lemma PassesTouch(w: World, ds: seq<KernelDesc>, bs: seq<Buffer>, es: seq<Event>, u: Word, e: nat)
    requires Named(w, ds, bs, es) && Distinct(ds) && e != TLB_ENTRY_KERNEL && e != TLB_ENTRY_EVENTS
    requires forall i :: 0 <= i < |ds| && ds[i].unit == u ==> !Assigned(BufferRequests(ds, bs), i, e)
    ensures SameEntry(w.hw, Finished(w, ds, bs, es).hw, u, e)
  {
    var rs, w1 := BufferRequests(ds, bs), KernelsPass(w, ds, |ds|);
    KernelsBegin(w, ds, rs);
    KernelsTouch(w, ds, |ds|, u, e);
    BuffersTouch(w1, ds, rs, u, e);
    var w2 := BuffersPass(w1, ds, rs);
    OpenTouch(MapEvents(w2, ds, EventRequests(ds, es)), ds, |ds|, u, e);
  }

  /** A graph with at most n requests for a tile leaves it filled at most as far as n requests reach. */
  lemma FillKept(w: World, ds: seq<KernelDesc>, bs: seq<Buffer>, es: seq<Event>, u: Word, n: nat)
    requires Named(w, ds, bs, es) && Distinct(ds) && FilledTo(TableOf(w.hw, u), n)
    requires forall i :: 0 <= i < |ds| && ds[i].unit == u ==> Mapped(BufferRequests(ds, bs), i) <= n
    ensures FilledTo(TableOf(Finished(w, ds, bs, es).hw, u), n)
  {
    forall e | e in TableOf(Finished(w, ds, bs, es).hw, u) ensures e < TLB_ENTRY_START + n {
      if e >= TLB_ENTRY_START + n {
        PassesTouch(w, ds, bs, es, u, e);
      }
    }
  }

  /** A graph with enough requests for each tile to overwrite all that was there is undisturbed. */
  lemma EnoughRequests(w: World, ds: seq<KernelDesc>, bs: seq<Buffer>, es: seq<Event>)
    requires Named(w, ds, bs, es) && Fitting(ds, bs)
    requires forall i :: 0 <= i < |ds| && Mappable(ds[i].arch) ==>
               && ImageFits(ds[i]) && QuietOs(TableOf(w.hw, ds[i].unit), ds[i])
               && FilledTo(TableOf(w.hw, ds[i].unit), Mapped(BufferRequests(ds, bs), i))
    ensures Undisturbed(w, ds, bs) && ImagesEnd(ds)
  {
    var rs := BufferRequests(ds, bs);
    forall i, e, va: Word | 0 <= i < |ds| && Mappable(ds[i].arch) && Stale(rs, i, e) && Hit(Prior(w, ds[i]), e, va)
      ensures !Taken(ds, rs, i, va) && (e == TLB_ENTRY_KERNEL || !InImage(ds[i], va))
    {
      assert e == TLB_ENTRY_KERNEL || e == 0;
      if e == TLB_ENTRY_KERNEL {
        ImageOutsideWindows(ds[i], va);
      } else {
        assert Hit(TableOf(w.hw, ds[i].unit), 0, va);
      }
      if Taken(ds, rs, i, va) {
        TakenInUse(ds, rs, i, va);
      }
    }
  }

  /** A call of the passes, and what it is given. */
  datatype Call = Call(w: World, ds: seq<KernelDesc>, bs: seq<Buffer>, es: seq<Event>) {
    ghost predicate Accepted() {
      Named(w, ds, bs, es) && Distinct(ds)
    }

    /** Kernel images keep to themselves, and before the call the tiles hold at most entries 0 to 2. */
    ghost predicate OnCleanTiles(hw: map<Word, Table>) {
      forall i :: 0 <= i < |ds| && Mappable(ds[i].arch) ==>
        && ImageFits(ds[i]) && QuietOs(TableOf(hw, ds[i].unit), ds[i])
        && FilledTo(TableOf(hw, ds[i].unit), 0)
    }
  }

  /** The second call finds the hardware as the first left it, and has at least as many requests for each tile. */
  ghost predicate FollowsOn(first: Call, second: Call) {
    && first.Accepted() && second.Accepted() && Fitting(second.ds, second.bs)
    && second.w.hw == Finished(first.w, first.ds, first.bs, first.es).hw
    && forall i, j :: 0 <= i < |first.ds| && 0 <= j < |second.ds| && first.ds[i].unit == second.ds[j].unit ==>
         Mapped(BufferRequests(first.ds, first.bs), i) <= Mapped(BufferRequests(second.ds, second.bs), j)
  }

  /**
   A second graph on the same tiles.  If the second graph has at least as many requests for each tile
   as the first, and the tiles were clean from entry START on before the first, the second needs to
   know nothing about the entries the first left: everything in it is reached.
   */
  lemma SecondReaches(first: Call, second: Call)
    requires FollowsOn(first, second) && second.OnCleanTiles(first.w.hw)
    ensures AllReached(second.w, second.ds, second.bs, second.es)
  {
    var hw, hw', rs' := first.w.hw, second.w.hw, BufferRequests(second.ds, second.bs);
    forall j | 0 <= j < |second.ds| && Mappable(second.ds[j].arch)
      ensures QuietOs(TableOf(hw', second.ds[j].unit), second.ds[j])
      ensures FilledTo(TableOf(hw', second.ds[j].unit), Mapped(rs', j))
    {
      var u := second.ds[j].unit;
      FillKept(first.w, first.ds, first.bs, first.es, u, Mapped(rs', j));
      PassesTouch(first.w, first.ds, first.bs, first.es, u, 0);
      assert forall va: Word :: Hit(TableOf(hw', u), 0, va) ==> Hit(TableOf(hw, u), 0, va);
    }
    EnoughRequests(second.w, second.ds, second.bs, second.es);
    ReachedIff(second.w, second.ds, second.bs, second.es);
  }

  // ----- inputs on which it fails

  /** Before the first call: no entry in use, one kernel. */
  function FreshWorld(): World {
    World(map[], map[], map[], [KernelView(0, map[], map[])])
  }

  /** An event of kernel 1, as the kernel or a buffer it reads makes it. */
  function OwnEvent(id: Word): Event {
    Event(id, 4 * (id % 0x100), [1], if id < 20 then [1] else [])
  }

  /** A PEAK kernel with its termination event and three task events. */
  function OneKernel(): seq<KernelDesc> {
    [KernelDesc(1, 7, PEAK, 0x10_0000, 0, 0x1000, OwnEvent(10), [OwnEvent(11), OwnEvent(12), OwnEvent(13)])]
  }

  /** A buffer the kernel reads. */
  function ReadBuffer(id: Word, size: Word, phys: Word): Buffer {
    Buffer(id, size, phys, 0, OwnEvent(20 + id % 100), [1], [])
  }

  /** The events a task graph collects: those of the kernel, then those of the buffers. */
  function Events(bs: seq<Buffer>): seq<Event> {
    [OwnEvent(10), OwnEvent(11), OwnEvent(12), OwnEvent(13)] + seq(|bs|, k requires 0 <= k < |bs| => bs[k].event)
  }

  function TwoBuffers(): seq<Buffer> {
    [ReadBuffer(2, 0x1000, 0x20_0000), ReadBuffer(3, 0x1000, 0x20_1000)]
  }

  function OneBuffer(): seq<Buffer> {
    [ReadBuffer(4, 0x2000, 0x30_0000)]
  }

  /** One byte more than the window holds. */
  function LargeBuffer(): seq<Buffer> {
    [ReadBuffer(5, 0x0E00_0001, 0x40_0000)]
  }

  ghost predicate AllRead(bs: seq<Buffer>) {
    forall k :: 0 <= k < |bs| ==>
      bs[k].kernelsIn == [1] && bs[k].kernelsOut == [] && bs[k].event.kernelsIn == [1] && bs[k].event.kernelsOut == []
  }

  lemma OneRequestFor(b: Buffer)
    ensures Names(OneKernel(), [1]) && Names(OneKernel(), [])
    ensures RequestsFor(OneKernel(), [1], b) == [Request(0, b)] && RequestsFor(OneKernel(), [], b) == []
  {
    var ds := OneKernel();
    assert ds[0].id == 1 && [1 as Word][..0] == [];
    assert Names(ds, [1]) && Names(ds, []);
    assert FindKernel(ds, 1) == 0;
  }

  lemma {:induction false} OneRequestEach(bs: seq<Buffer>)
    requires AllRead(bs)
    ensures BuffersNamed(OneKernel(), bs)
    ensures |BufferRequests(OneKernel(), bs)| == |bs|
    ensures forall k :: 0 <= k < |bs| ==> BufferRequests(OneKernel(), bs)[k] == Request(0, bs[k])
  {
    hide RequestsFor;
    hide FindKernel;
    hide Names;
    if bs != [] {
      OneRequestEach(bs[..|bs| - 1]);
      OneRequestFor(bs[|bs| - 1]);
    }
  }

  lemma GraphEvents(bs: seq<Buffer>)
    requires AllRead(bs)
    ensures EventsNamed(OneKernel(), Events(bs)) && Lookups.Closed(OneKernel(), bs, Events(bs))
  {
    var ds, es := OneKernel(), Events(bs);
    OneRequestFor(ReadBuffer(2, 0, 0));
    hide Names;
    assert es[0] == OwnEvent(10) && es[1] == OwnEvent(11) && es[2] == OwnEvent(12) && es[3] == OwnEvent(13);
    forall k | 0 <= k < |es| ensures Names(ds, es[k].kernelsIn) && Names(ds, es[k].kernelsOut) {
      if k >= 4 {
        assert es[k] == bs[k - 4].event;
      }
    }
    forall k | 0 <= k < |bs| ensures bs[k].event in es {
      assert es[4 + k] == bs[k].event;
    }
  }

  /** These are graphs as the constructor builds them. */
  lemma GraphNamed(w: World, bs: seq<Buffer>)
    requires AllRead(bs) && |w.kernels| == 1
    ensures Named(w, OneKernel(), bs, Events(bs)) && Distinct(OneKernel())
    ensures Lookups.Closed(OneKernel(), bs, Events(bs))
    ensures |BufferRequests(OneKernel(), bs)| == |bs|
    ensures forall k :: 0 <= k < |bs| ==> BufferRequests(OneKernel(), bs)[k] == Request(0, bs[k])
  {
    hide BufferRequests;
    hide BuffersNamed;
    hide EventsNamed;
    hide Lookups.Closed;
    hide Events;
    hide AllRead;
    OneRequestEach(bs);
    GraphEvents(bs);
  }

  /** Of two requests for one kernel, the second starts where the first ends and has the next entry. */
  lemma SecondRequest(ds: seq<KernelDesc>, rs: seq<Request<Buffer>>)
    requires |ds| == 1 && |rs| == 2 && rs[0].kernel == rs[1].kernel == 0
    ensures EntryOf(rs, 1) == TLB_ENTRY_START + 1
    ensures AddressOf(ds, rs, 1) == BufferBase(ds[0].arch) + Round64(rs[0].item.size)
  {
    hide BufferBase;
    hide Round64;
    assert rs[..1][..0] == [];
    assert Mapped(rs[..1], 0) == 1 && Used(rs[..1], 0) == Round64(rs[0].item.size);
  }

  /** One request starts at the base and has the first entry. */
  lemma {:induction false} OnlyRequest(ds: seq<KernelDesc>, rs: seq<Request<Buffer>>)
    requires |ds| == 1 && |rs| == 1 && rs[0].kernel == 0
    ensures Mapped(rs, 0) == 1 && Used(rs, 0) == Round64(rs[0].item.size)
    ensures AddressOf(ds, rs, 0) == BufferBase(ds[0].arch)
  {
    assert rs[..0] == [];
  }

  lemma SecondWritten(rs: seq<Request<Buffer>>)
    requires rs == [Request(0, TwoBuffers()[0]), Request(0, TwoBuffers()[1])]
    ensures EntryOf(rs, 1) == 4
    ensures var m := Written(OneKernel(), rs, 1); m.start == 0x5000_1000 && m.end == 0x5000_1fff
  {
    hide EntryOf;
    hide AddressOf;
    hide MemoryMapping;
    SecondRequest(OneKernel(), rs);
    StartIs(OneKernel(), rs, 1);
    MappingEnds(0x5000_1000, 0x1000, 0x20_1000, 0);
  }

  lemma FirstGraph()
    ensures Named(FreshWorld(), OneKernel(), TwoBuffers(), Events(TwoBuffers()))
    ensures var t := FinalTable(FreshWorld(), OneKernel(), TwoBuffers(), Events(TwoBuffers()), 0);
            4 in t && t[4].start == 0x5000_1000 && t[4].end == 0x5000_1fff
  {
    hide FinalTable;
    hide Events;
    hide BufferRequests;
    hide EntryOf;
    hide Written;
    hide BuffersNamed;
    hide EventsNamed;
    hide Poolable;
    hide Distinct;
    var ds, bs := OneKernel(), TwoBuffers();
    GraphNamed(FreshWorld(), bs);
    SecondWritten(BufferRequests(ds, bs));
    RequestEntry(FreshWorld(), ds, bs, Events(bs), 1);
  }

  /** What the first graph leaves behind. */
  ghost function UsedWorld(): (w: World)
    ensures |w.kernels| == 1
  {
    FirstGraph();
    FreshWorld().(hw := Finished(FreshWorld(), OneKernel(), TwoBuffers(), Events(TwoBuffers())).hw)
  }

  /** The new buffer starts below the second old one and reaches into it. */
  lemma LeftOver(rs: seq<Request<Buffer>>)
    requires rs == [Request(0, OneBuffer()[0])]
    ensures Hit(Prior(UsedWorld(), OneKernel()[0]), 4, 0x5000_1000)
    ensures Stale(rs, 0, 4) && Used(rs, 0) == 0x2000 && InRequest(OneKernel(), rs, 0, 0x5000_1000)
  {
    hide Finished;
    hide AddressOf;
    FirstGraph();
    OnlyRequest(OneKernel(), rs);
    StartIs(OneKernel(), rs, 0);
  }

  /**
   A PEAK kernel with two buffers of 0x1000 bytes, and after it a graph with one buffer of 0x2000 bytes
   on the same tile.  The second call writes entry 3 over 0x50000000..0x50001fff and leaves entry 4 of
   the first over 0x50001000..0x50001fff, so half of the new buffer is translated twice.
   */
  lemma SmallerGraphCollides()
    ensures var ds, bs := OneKernel(), OneBuffer();
            && Named(UsedWorld(), ds, bs, Events(bs)) && Distinct(ds) && Fitting(ds, bs)
            && Lookups.Closed(ds, bs, Events(bs))
            && !AllReached(UsedWorld(), ds, bs, Events(bs))
  {
    hide Events;
    hide BufferRequests;
    hide BuffersNamed;
    hide EventsNamed;
    hide Lookups.Closed;
    hide AllReached;
    hide UsedWorld;
    hide Used;
    hide InRequest;
    hide TableOf;
    hide Prior;
    hide Stale;
    var w, ds, bs := UsedWorld(), OneKernel(), OneBuffer();
    GraphNamed(w, bs);
    var rs := BufferRequests(ds, bs);
    hide ReadBuffer;
    LeftOver(rs);
    assert Taken(ds, rs, 0, 0x5000_1000);
    assert !Undisturbed(w, ds, bs);
    ReachedIff(w, ds, bs, Events(bs));
  }

  /** On a clean tile, a buffer of one byte more than the PEAK window is not translated right. */
  lemma LargeBufferFails()
    ensures var ds, bs := OneKernel(), LargeBuffer();
            && Named(FreshWorld(), ds, bs, Events(bs)) && Distinct(ds) && Lookups.Closed(ds, bs, Events(bs))
            && !AllReached(FreshWorld(), ds, bs, Events(bs))
  {
    var ds, bs := OneKernel(), LargeBuffer();
    GraphNamed(FreshWorld(), bs);
    hide Events;
    hide BufferRequests;
    hide BuffersNamed;
    hide EventsNamed;
    hide Lookups.Closed;
    hide AllReached;
    OnlyRequest(ds, BufferRequests(ds, bs));
    hide Used;
    assert !FitsWindow(ds, BufferRequests(ds, bs), 0);
    ReachedIff(FreshWorld(), ds, bs, Events(bs));
  }
}
