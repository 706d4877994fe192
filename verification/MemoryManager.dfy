/** The memory manager and the objects it updates, each method tied to the pass it performs on values. */
module MemoryManager {
  import opened Words
  import opened Translation
  import opened Layout
  import opened Agreement

  /** The software table of a kernel: the address of each buffer and event it may use. */
  class Tlb {
    var buffers: map<Word, Word>
    var events: map<Word, Word>

    constructor ()
      ensures buffers == map[] && events == map[]
    {
      buffers, events := map[], map[];
    }

    method SetBuffer(b: Buffer, va: Word)
      modifies this
      ensures buffers == old(buffers)[b.id := va] && events == old(events)
    {
      buffers := buffers[b.id := va];
    }

    method SetEvent(e: Event, va: Word)
      modifies this
      ensures events == old(events)[e.id := va] && buffers == old(buffers)
    {
      events := events[e.id := va];
    }
  }

  class Kernel {
    const desc: KernelDesc
    const tlb: Tlb
    var vaddr: Word

    constructor (desc: KernelDesc)
      ensures this.desc == desc && fresh(tlb)
      ensures View() == KernelView(0, map[], map[])
    {
      this.desc, vaddr := desc, 0;
      tlb := new Tlb();
    }

    ghost function View(): KernelView
      reads this, tlb
    {
      KernelView(vaddr, tlb.buffers, tlb.events)
    }
  }

  /** The TLBs of the tiles. */
  class Hardware {
    var tables: map<Word, Table>

    constructor ()
      ensures tables == map[]
    {
      tables := map[];
    }

    method SetTlb(unit: Word, entry: nat, start: Word, end: Word, phys: Word, bank: Word, memory: bool)
      modifies this
      ensures tables == SetEntry(old(tables), unit, entry, Mapping(start, end, phys, bank, memory))
    {
      tables := SetEntry(tables, unit, entry, Mapping(start, end, phys, bank, memory));
    }
  }

  ghost function Descs(ks: seq<Kernel>): (ds: seq<KernelDesc>)
    ensures |ds| == |ks| && forall i :: 0 <= i < |ks| ==> ds[i] == ks[i].desc
  {
    seq(|ks|, i requires 0 <= i < |ks| => ks[i].desc)
  }

  ghost function Tlbs(ks: seq<Kernel>): set<Tlb> {
    set k | k in ks :: k.tlb
  }

  ghost function Views(ks: seq<Kernel>): (vs: seq<KernelView>)
    reads ks, Tlbs(ks)
    ensures |vs| == |ks| && forall i :: 0 <= i < |ks| ==> vs[i] == ks[i].View()
  {
    if ks == [] then []
    else
      var n := |ks| - 1;
      assert forall k :: k in ks[..n] ==> k in ks;
      Views(ks[..n]) + [ks[n].View()]
  }

  /** Every kernel of the list has its own object and its own table. */
  ghost predicate Separate(ks: seq<Kernel>) {
    forall i, j :: 0 <= i < j < |ks| ==> ks[i] != ks[j] && ks[i].tlb != ks[j].tlb
  }

  class TaskGraph {
    var kernels: seq<Kernel>
    var buffers: seq<Buffer>
    var events: seq<Event>

    /** The events of the first `n` kernels: the termination event, then the task events. */
    static ghost function KernelEvents(ks: seq<Kernel>, n: nat): seq<Event>
      requires n <= |ks|
    {
      if n == 0 then [] else KernelEvents(ks, n - 1) + [ks[n - 1].desc.termination] + ks[n - 1].desc.taskEvents
    }

    static ghost function BufferEvents(bs: seq<Buffer>, n: nat): seq<Event>
      requires n <= |bs|
    {
      if n == 0 then [] else BufferEvents(bs, n - 1) + [bs[n - 1].event]
    }

    /** The event list is closed over the kernels and the buffers. */
    constructor (lkernels: seq<Kernel>, lbuffers: seq<Buffer>, levents: seq<Event>)
      ensures kernels == lkernels && buffers == lbuffers
      ensures events == levents + KernelEvents(lkernels, |lkernels|) + BufferEvents(lbuffers, |lbuffers|)
    {
      kernels, buffers, events := [], [], [];
      new;
      for i := 0 to |levents|
        invariant events == levents[..i] && kernels == [] && buffers == []
      {
        events := events + [levents[i]];
      }
      for i := 0 to |lkernels|
        invariant kernels == lkernels[..i] && buffers == []
        invariant events == levents + KernelEvents(lkernels, i)
      {
        kernels := kernels + [lkernels[i]];
        events := events + [lkernels[i].desc.termination];
        var es := lkernels[i].desc.taskEvents;
        for k := 0 to |es|
          invariant kernels == lkernels[..i + 1] && buffers == []
          invariant events == levents + (KernelEvents(lkernels, i) + [lkernels[i].desc.termination] + es[..k])
        {
          events := events + [es[k]];
        }
        assert es[..|es|] == es;
      }
      for i := 0 to |lbuffers|
        invariant kernels == lkernels && buffers == lbuffers[..i]
        invariant events == levents + KernelEvents(lkernels, |lkernels|) + BufferEvents(lbuffers, i)
      {
        buffers := buffers + [lbuffers[i]];
        events := events + [lbuffers[i].event];
      }
    }

    method GetKernelById(id: Word) returns (k: Kernel)
      requires exists i :: 0 <= i < |Descs(kernels)| && Descs(kernels)[i].id == id
      ensures FindKernel(Descs(kernels), id) < |kernels| && k == kernels[FindKernel(Descs(kernels), id)]
    {
      KernelNamed(kernels, id);
      var n := 0;
      while kernels[n].desc.id != id
        invariant n < |kernels| && forall j :: 0 <= j < n ==> kernels[j].desc.id != id
        decreases |kernels| - n
      {
        n := n + 1;
      }
      k := kernels[n];
      assert n == FindKernel(Descs(kernels), id);
    }
  }

  class MemoryManager {
    var entries: map<Word, nat>
    var pool: map<Word, Word>
    const hw: Hardware

    constructor (hw: Hardware)
      ensures this.hw == hw && entries == map[] && pool == map[]
    {
      this.hw, entries, pool := hw, map[], map[];
    }

    /** The manager's state, the hardware and what the kernels have been given, as one value. */
    ghost function Snapshot(ks: seq<Kernel>): World
      reads this, hw, ks, Tlbs(ks)
    {
      World(entries, pool, hw.tables, Views(ks))
    }

    method SetTlbKb(unit: Word, bank: Word, start: Word, size: Word, phys: Word, entry: nat)
      modifies hw
      ensures hw.tables == SetEntry(old(hw.tables), unit, entry, MemoryMapping(start, size, phys, bank))
    {
      hw.SetTlb(unit, entry, start, (start + size + WORD - 1) % WORD, phys, bank, true);
    }

    /** The body of the loop of SetVaddrKernels. */
    method MapKernelImage(k: Kernel, ghost ks: seq<Kernel>, ghost i: nat)
      requires Separate(ks) && i < |ks| && ks[i] == k
      modifies this, hw, k
      ensures Snapshot(ks) == MapKernel(old(Snapshot(ks)), Descs(ks), i)
    {
      var virtAddr, tlbAreaSize := TLB_BASE_KERN, k.desc.imageSize;
      match k.desc.arch {
        case PEAK =>
          tlbAreaSize := PEAK_IMAGE;
          pool := pool[k.desc.id := TLB_BASE_SHRD];
        case NUP =>
          virtAddr := NUP_TLB_BASE_KERN;
          pool := pool[k.desc.id := TLB_BASE_SHRD_NUPLUS];
        case DCT =>
          pool := pool[k.desc.id := TLB_BASE_SHRD_DCT];
        case _ =>
      }
      SetTlbKb(k.desc.unit, k.desc.bank, virtAddr, tlbAreaSize, k.desc.phys, TLB_ENTRY_KERNEL);
      k.vaddr := virtAddr;
      entries := entries[k.desc.unit := TLB_ENTRY_START];
      assert Views(ks) == old(Views(ks))[i := old(k.View()).(vaddr := virtAddr)];
    }

    /** The loop of SetVaddrKernels, once the entry counters are cleared. */
    method MapKernelImages(ks: seq<Kernel>, ghost w: World)
      requires Separate(ks) && |w.kernels| == |ks|
      requires Snapshot(ks) == KernelsPass(w, Descs(ks), 0)
      modifies this, hw, ks
      ensures Snapshot(ks) == KernelsPass(w, Descs(ks), |ks|)
    {
      hide MapKernel;
      for n := 0 to |ks|
        invariant Snapshot(ks) == KernelsPass(w, Descs(ks), n)
      {
        MapKernelImage(ks[n], ks, n);
      }
    }

    method SetVaddrKernels(tg: TaskGraph)
      requires Separate(tg.kernels)
      modifies this, hw, tg.kernels
      ensures Snapshot(tg.kernels) == KernelsPass(old(Snapshot(tg.kernels)), Descs(tg.kernels), |tg.kernels|)
    {
      ghost var w := Snapshot(tg.kernels);
      entries := map[];
      assert Views(tg.kernels) == w.kernels;
      MapKernelImages(tg.kernels, w);
    }

    method SetBuffTlb(k: Kernel, b: Buffer, ghost ks: seq<Kernel>, ghost i: nat)
      requires Separate(ks) && i < |ks| && ks[i] == k
      requires k.desc.id in pool && k.desc.unit in entries
      modifies this, hw, k.tlb
      ensures Ready(old(Snapshot(ks)), Descs(ks), i)
      ensures Snapshot(ks) == MapBuffer(old(Snapshot(ks)), Descs(ks), i, b)
    {
      hide MemoryMapping;
      hide SetEntry;
      hide Views;
      var nextVirtualAddress := pool[k.desc.id];
      k.tlb.SetBuffer(b, nextVirtualAddress);
      var entry := entries[k.desc.unit];
      SetTlbKb(k.desc.unit, b.bank, nextVirtualAddress, b.size, b.phys, entry);
      entries := entries[k.desc.unit := entry + 1];
      var va := nextVirtualAddress;
      nextVirtualAddress := Add(nextVirtualAddress, b.size);
      if nextVirtualAddress % 64 != 0 {
        nextVirtualAddress := Add(nextVirtualAddress, 64 - nextVirtualAddress % 64);
      }
      assert nextVirtualAddress == AlignUp(Add(va, b.size));
      hide AlignUp;
      pool := pool[k.desc.id := nextVirtualAddress];
      ghost var v, vs := old(k.View()), old(Views(ks));
      assert Views(ks) == vs[i := v.(buffers := v.buffers[b.id := va])];
    }

    /** One kernel, found by its id. */
    method MapOne(tg: TaskGraph, id: Word, b: Buffer)
      requires Separate(tg.kernels)
      requires exists i :: 0 <= i < |Descs(tg.kernels)| && Descs(tg.kernels)[i].id == id
      requires Ready(Snapshot(tg.kernels), Descs(tg.kernels), FindKernel(Descs(tg.kernels), id))
      modifies this, hw, Tlbs(tg.kernels)
      ensures Snapshot(tg.kernels) ==
              MapBuffer(old(Snapshot(tg.kernels)), Descs(tg.kernels), FindKernel(Descs(tg.kernels), id), b)
    {
      hide MapBuffer;
      hide FindKernel;
      hide Views;
      var k := tg.GetKernelById(id);
      ghost var i := FindKernel(Descs(tg.kernels), id);
      SetBuffTlb(k, b, tg.kernels, i);
    }

    /** Turn `n` of an inner loop of SetVaddrBuffers; 0 is the host and is skipped. */
    method MapTurn(tg: TaskGraph, ids: seq<Word>, n: nat, b: Buffer, ghost w: World)
      requires Separate(tg.kernels) && Names(Descs(tg.kernels), ids) && n < |ids|
      requires Served(w, Descs(tg.kernels), RequestsFor(Descs(tg.kernels), ids, b))
      requires ServedPrefix(w, Descs(tg.kernels), ids, n, b)
      requires Snapshot(tg.kernels) == BuffersPass(w, Descs(tg.kernels), RequestsFor(Descs(tg.kernels), ids[..n], b))
      modifies this, hw, Tlbs(tg.kernels)
      ensures ServedPrefix(w, Descs(tg.kernels), ids, n + 1, b)
      ensures Snapshot(tg.kernels) == BuffersPass(w, Descs(tg.kernels), RequestsFor(Descs(tg.kernels), ids[..n + 1], b))
    {
      BufferInnerTurn(w, Descs(tg.kernels), ids, n, b);
      if ids[n] != 0 {
        MapOne(tg, ids[n], b);
      }
    }

    /** An inner loop of SetVaddrBuffers: one buffer, for each kernel of a list. */
    method MapFor(tg: TaskGraph, ids: seq<Word>, b: Buffer)
      requires Separate(tg.kernels) && Names(Descs(tg.kernels), ids)
      requires Served(Snapshot(tg.kernels), Descs(tg.kernels), RequestsFor(Descs(tg.kernels), ids, b))
      modifies this, hw, Tlbs(tg.kernels)
      ensures Snapshot(tg.kernels) ==
              BuffersPass(old(Snapshot(tg.kernels)), Descs(tg.kernels), RequestsFor(Descs(tg.kernels), ids, b))
    {
      ghost var ks, ds, w := tg.kernels, Descs(tg.kernels), Snapshot(tg.kernels);
      for n := 0 to |ids|
        invariant tg.kernels == ks && |Views(ks)| == |ks|
        invariant ServedPrefix(w, ds, ids, n, b)
        invariant Snapshot(ks) == BuffersPass(w, ds, RequestsFor(ds, ids[..n], b))
      {
        MapTurn(tg, ids, n, b, w);
      }
      assert ids[..|ids|] == ids;
    }

    method SetVaddrBuffers(tg: TaskGraph)
      requires Separate(tg.kernels) && BuffersNamed(Descs(tg.kernels), tg.buffers)
      requires Served(Snapshot(tg.kernels), Descs(tg.kernels), BufferRequests(Descs(tg.kernels), tg.buffers))
      modifies this, hw, Tlbs(tg.kernels)
      ensures Snapshot(tg.kernels) ==
              BuffersPass(old(Snapshot(tg.kernels)), Descs(tg.kernels), BufferRequests(Descs(tg.kernels), tg.buffers))
    {
      ghost var ks, ds, bs, w := tg.kernels, Descs(tg.kernels), tg.buffers, Snapshot(tg.kernels);
      for n := 0 to |tg.buffers|
        invariant tg.kernels == ks && tg.buffers == bs
        invariant BuffersNamed(ds, bs[..n]) && Served(w, ds, BufferRequests(ds, bs[..n]))
        invariant Snapshot(ks) == BuffersPass(w, ds, BufferRequests(ds, bs[..n]))
      {
        var b := tg.buffers[n];
        BufferTurn(w, ds, bs, n);
        MapFor(tg, b.kernelsIn, b);
        MapFor(tg, b.kernelsOut, b);
      }
      assert bs[..|bs|] == bs;
    }

    method SetEventTlb(k: Kernel, e: Event, ghost ks: seq<Kernel>, ghost i: nat)
      requires Separate(ks) && i < |ks| && ks[i] == k
      modifies k.tlb
      ensures Snapshot(ks) == MapEvent(old(Snapshot(ks)), Descs(ks), i, e)
    {
      match k.desc.arch {
        case NUP => k.tlb.SetEvent(e, Add(NUP_TLB_BASE_SYNCH, e.phys));
        case DCT => k.tlb.SetEvent(e, Add(TLB_BASE_SYNCH_DCT, e.phys));
        case _ => k.tlb.SetEvent(e, Add(TLB_BASE_SYNCH, e.phys));
      }
      ghost var v := old(k.View());
      assert Views(ks) == old(Views(ks))[i := v.(events := v.events[e.id := Add(EventBase(k.desc.arch), e.phys)])];
    }

    method MapOneEvent(tg: TaskGraph, id: Word, e: Event)
      requires Separate(tg.kernels)
      requires exists i :: 0 <= i < |Descs(tg.kernels)| && Descs(tg.kernels)[i].id == id
      modifies Tlbs(tg.kernels)
      ensures Snapshot(tg.kernels) ==
              MapEvents(old(Snapshot(tg.kernels)), Descs(tg.kernels), [Request(FindKernel(Descs(tg.kernels), id), e)])
    {
      hide MapEvent;
      hide FindKernel;
      hide Views;
      var k := tg.GetKernelById(id);
      ghost var i := FindKernel(Descs(tg.kernels), id);
      SingleEvent(Snapshot(tg.kernels), Descs(tg.kernels), i, e);
      SetEventTlb(k, e, tg.kernels, i);
    }

    /** Turn `n` of an inner loop of SetVaddrEvents. */
    method MapEventTurn(tg: TaskGraph, ids: seq<Word>, n: nat, e: Event, ghost w: World)
      requires Separate(tg.kernels) && Names(Descs(tg.kernels), ids) && n < |ids| && |w.kernels| == |tg.kernels|
      requires Snapshot(tg.kernels) == MapEvents(w, Descs(tg.kernels), RequestsFor(Descs(tg.kernels), ids[..n], e))
      modifies Tlbs(tg.kernels)
      ensures Snapshot(tg.kernels) == MapEvents(w, Descs(tg.kernels), RequestsFor(Descs(tg.kernels), ids[..n + 1], e))
    {
      EventInnerTurn(w, Descs(tg.kernels), ids, n, e);
      if ids[n] != 0 {
        MapOneEvent(tg, ids[n], e);
      }
    }

    method MapEventFor(tg: TaskGraph, ids: seq<Word>, e: Event)
      requires Separate(tg.kernels) && Names(Descs(tg.kernels), ids)
      modifies Tlbs(tg.kernels)
      ensures Snapshot(tg.kernels) ==
              MapEvents(old(Snapshot(tg.kernels)), Descs(tg.kernels), RequestsFor(Descs(tg.kernels), ids, e))
    {
      ghost var ks, ds, w := tg.kernels, Descs(tg.kernels), Snapshot(tg.kernels);
      for n := 0 to |ids|
        invariant tg.kernels == ks && |Views(ks)| == |ks|
        invariant Snapshot(ks) == MapEvents(w, ds, RequestsFor(ds, ids[..n], e))
      {
        MapEventTurn(tg, ids, n, e, w);
      }
      assert ids[..|ids|] == ids;
    }

    /** The body of the second loop of SetVaddrEvents. */
    method OpenKernelEvents(k: Kernel, ghost ks: seq<Kernel>, ghost i: nat)
      requires Separate(ks) && i < |ks| && ks[i] == k
      modifies hw, k.tlb
      ensures Snapshot(ks) == OpenTurn(old(Snapshot(ks)), Descs(ks), i)
    {
      match k.desc.arch {
        case PEAK =>
          hw.SetTlb(k.desc.unit, TLB_ENTRY_EVENTS, TLB_BASE_SYNCH, TLB_BASE_SYNCH + 0xff_ffff, 0, 0, false);
        case NUP =>
          hw.SetTlb(k.desc.unit, TLB_ENTRY_EVENTS, NUP_TLB_BASE_SYNCH, NUP_TLB_BASE_SYNCH + 0xff_ffff, 0, 0, false);
        case DCT =>
          hw.SetTlb(k.desc.unit, TLB_ENTRY_EVENTS, TLB_BASE_SYNCH_DCT, TLB_BASE_SYNCH_DCT + 0xff_ffff, 0, 0, false);
        case _ =>
      }
      ghost var w := Snapshot(ks);
      assert w == OpenEvents(old(Snapshot(ks)), Descs(ks), i);
      var es := k.desc.taskEvents;
      for n := 0 to |es|
        invariant Snapshot(ks) == MapEvents(w, Descs(ks), TaskRequests(i, es[..n]))
      {
        SetEventTlb(k, es[n], ks, i);
        assert TaskRequests(i, es[..n + 1])[..n] == TaskRequests(i, es[..n]);
      }
      assert es[..|es|] == es;
    }

    /** Turn `n` of the second loop of SetVaddrEvents. */
    method EventsTurn(tg: TaskGraph, n: nat, ghost w: World)
      requires Separate(tg.kernels) && n < |tg.kernels| == |w.kernels|
      requires Snapshot(tg.kernels) == OpenAll(w, Descs(tg.kernels), n)
      modifies hw, Tlbs(tg.kernels)
      ensures Snapshot(tg.kernels) == OpenAll(w, Descs(tg.kernels), n + 1)
    {
      OpenKernelEvents(tg.kernels[n], tg.kernels, n);
    }

    /** The second loop of SetVaddrEvents. */
    method OpenAllEvents(tg: TaskGraph)
      requires Separate(tg.kernels)
      modifies hw, Tlbs(tg.kernels)
      ensures Snapshot(tg.kernels) == OpenAll(old(Snapshot(tg.kernels)), Descs(tg.kernels), |tg.kernels|)
    {
      hide OpenTurn;
      ghost var ks, ds, w := tg.kernels, Descs(tg.kernels), Snapshot(tg.kernels);
      for n := 0 to |tg.kernels|
        invariant tg.kernels == ks && |Views(ks)| == |ks|
        invariant Snapshot(ks) == OpenAll(w, ds, n)
      {
        EventsTurn(tg, n, w);
      }
    }

    method SetVaddrEvents(tg: TaskGraph)
      requires Separate(tg.kernels) && EventsNamed(Descs(tg.kernels), tg.events)
      modifies this, hw, Tlbs(tg.kernels)
      ensures Snapshot(tg.kernels) == EventsPass(old(Snapshot(tg.kernels)), Descs(tg.kernels), tg.events)
    {
      MapAllEvents(tg);
      OpenAllEvents(tg);
    }

    /** The first loop of SetVaddrEvents. */
    method MapAllEvents(tg: TaskGraph)
      requires Separate(tg.kernels) && EventsNamed(Descs(tg.kernels), tg.events)
      modifies Tlbs(tg.kernels)
      ensures Snapshot(tg.kernels) ==
              MapEvents(old(Snapshot(tg.kernels)), Descs(tg.kernels), EventRequests(Descs(tg.kernels), tg.events))
    {
      ghost var ks, ds, es, w := tg.kernels, Descs(tg.kernels), tg.events, Snapshot(tg.kernels);
      for n := 0 to |tg.events|
        invariant tg.kernels == ks && tg.events == es
        invariant Snapshot(ks) == MapEvents(w, ds, EventRequests(ds, es[..n]))
      {
        var e := tg.events[n];
        MapEventFor(tg, e.kernelsIn, e);
        MapEventFor(tg, e.kernelsOut, e);
        EventTurn(w, ds, es, n);
      }
      assert es[..|es|] == es;
    }

    /** The TLB part of BBQContext::resource_allocation. */
    method MapGraph(tg: TaskGraph)
      requires Separate(tg.kernels)
      requires BuffersNamed(Descs(tg.kernels), tg.buffers) && EventsNamed(Descs(tg.kernels), tg.events)
      requires Poolable(Descs(tg.kernels), BufferRequests(Descs(tg.kernels), tg.buffers))
      modifies this, hw, tg.kernels, Tlbs(tg.kernels)
      ensures Named(old(Snapshot(tg.kernels)), Descs(tg.kernels), tg.buffers, tg.events)
      ensures Snapshot(tg.kernels) == Finished(old(Snapshot(tg.kernels)), Descs(tg.kernels), tg.buffers, tg.events)
    {
      KernelsServe(Snapshot(tg.kernels), Descs(tg.kernels), BufferRequests(Descs(tg.kernels), tg.buffers));
      SetVaddrKernels(tg);
      SetVaddrBuffers(tg);
      SetVaddrEvents(tg);
    }
  }

  lemma KernelNamed(ks: seq<Kernel>, id: Word)
    requires exists i :: 0 <= i < |Descs(ks)| && Descs(ks)[i].id == id
    ensures exists i :: 0 <= i < |ks| && ks[i].desc.id == id
  {
    var i :| 0 <= i < |Descs(ks)| && Descs(ks)[i].id == id;
    assert ks[i].desc.id == id;
  }

  lemma {:induction false} BuffersPassAppend(
      w: World, ds: seq<KernelDesc>, xs: seq<Request<Buffer>>, ys: seq<Request<Buffer>>)
    requires Served(w, ds, xs) && Served(w, ds, ys)
    ensures Served(w, ds, xs + ys) && Served(BuffersPass(w, ds, xs), ds, ys)
    ensures BuffersPass(w, ds, xs + ys) == BuffersPass(BuffersPass(w, ds, xs), ds, ys)
  {
    hide MapBuffer;
    if ys == [] {
      assert xs + ys == xs;
    } else {
      var n := |ys| - 1;
      assert (xs + ys)[..|xs| + n] == xs + ys[..n];
      assert Served(w, ds, ys[..n]);
      BuffersPassAppend(w, ds, xs, ys[..n]);
    }
  }

  lemma {:induction false} MapEventsAppend(
      w: World, ds: seq<KernelDesc>, xs: seq<Request<Event>>, ys: seq<Request<Event>>)
    requires |ds| == |w.kernels|
    requires forall p :: 0 <= p < |xs| ==> xs[p].kernel < |ds|
    requires forall p :: 0 <= p < |ys| ==> ys[p].kernel < |ds|
    ensures MapEvents(w, ds, xs + ys) == MapEvents(MapEvents(w, ds, xs), ds, ys)
  {
    if ys == [] {
      assert xs + ys == xs;
    } else {
      var n := |ys| - 1;
      assert (xs + ys)[..|xs| + n] == xs + ys[..n];
      MapEventsAppend(w, ds, xs, ys[..n]);
    }
  }

  lemma RequestsStep<T>(ds: seq<KernelDesc>, ids: seq<Word>, n: nat, item: T)
    requires Names(ds, ids) && n < |ids|
    ensures Names(ds, ids[..n]) && Names(ds, ids[..n + 1])
    ensures RequestsFor(ds, ids[..n + 1], item) ==
            RequestsFor(ds, ids[..n], item) + (if ids[n] == 0 then [] else [Request(FindKernel(ds, ids[n]), item)])
  {
    assert ids[..n + 1][..n] == ids[..n];
  }

  /** The first `n` ids of a list name kernels whose requests are served. */
  ghost predicate ServedPrefix(w: World, ds: seq<KernelDesc>, ids: seq<Word>, n: nat, b: Buffer) {
    n <= |ids| && Names(ds, ids[..n]) && Served(w, ds, RequestsFor(ds, ids[..n], b))
  }

  lemma BufferInnerTurn(w: World, ds: seq<KernelDesc>, ids: seq<Word>, n: nat, b: Buffer)
    requires Names(ds, ids) && n < |ids| && Served(w, ds, RequestsFor(ds, ids, b)) && ServedPrefix(w, ds, ids, n, b)
    ensures ServedPrefix(w, ds, ids, n + 1, b)
    ensures ids[n] != 0 ==> Ready(BuffersPass(w, ds, RequestsFor(ds, ids[..n], b)), ds, FindKernel(ds, ids[n]))
    ensures var w' := BuffersPass(w, ds, RequestsFor(ds, ids[..n], b));
            BuffersPass(w, ds, RequestsFor(ds, ids[..n + 1], b)) ==
            if ids[n] == 0 then w' else MapBuffer(w', ds, FindKernel(ds, ids[n]), b)
  {
    RequestsStep(ds, ids, n, b);
    var before := RequestsFor(ds, ids[..n], b);
    if ids[n] != 0 {
      var i := FindKernel(ds, ids[n]);
      RequestMember(ds, ids, n, b);
      assert (before + [Request(i, b)])[..|before|] == before;
    } else {
      assert before + [] == before;
    }
  }

  /** The request for an id of the list is among the requests for the list. */
  lemma {:induction false} RequestMember<T>(ds: seq<KernelDesc>, ids: seq<Word>, n: nat, item: T)
    requires Names(ds, ids) && n < |ids| && ids[n] != 0
    ensures Request(FindKernel(ds, ids[n]), item) in RequestsFor(ds, ids, item)
    decreases |ids|
  {
    if n < |ids| - 1 {
      RequestMember(ds, ids[..|ids| - 1], n, item);
    }
  }

  lemma EventInnerTurn(w: World, ds: seq<KernelDesc>, ids: seq<Word>, n: nat, e: Event)
    requires |ds| == |w.kernels| && Names(ds, ids) && n < |ids|
    ensures var w' := MapEvents(w, ds, RequestsFor(ds, ids[..n], e));
            MapEvents(w, ds, RequestsFor(ds, ids[..n + 1], e)) ==
            if ids[n] == 0 then w' else MapEvents(w', ds, [Request(FindKernel(ds, ids[n]), e)])
  {
    RequestsStep(ds, ids, n, e);
    if ids[n] != 0 {
      MapEventsAppend(w, ds, RequestsFor(ds, ids[..n], e), [Request(FindKernel(ds, ids[n]), e)]);
    } else {
      assert RequestsFor(ds, ids[..n], e) + [] == RequestsFor(ds, ids[..n], e);
    }
  }

  lemma SingleEvent(w: World, ds: seq<KernelDesc>, i: nat, e: Event)
    requires |ds| == |w.kernels| && i < |ds|
    ensures MapEvents(w, ds, [Request(i, e)]) == MapEvent(w, ds, i, e)
  {
    assert [Request(i, e)][..0] == [];
  }

  /** One turn of the outer loop: the requests of one more buffer. */
  lemma BufferTurn(w: World, ds: seq<KernelDesc>, bs: seq<Buffer>, n: nat)
    requires BuffersNamed(ds, bs) && n < |bs| && Served(w, ds, BufferRequests(ds, bs))
    ensures BuffersNamed(ds, bs[..n]) && BuffersNamed(ds, bs[..n + 1])
    ensures Served(w, ds, BufferRequests(ds, bs[..n])) && Served(w, ds, BufferRequests(ds, bs[..n + 1]))
    ensures var w1 := BuffersPass(w, ds, BufferRequests(ds, bs[..n]));
            var ins, outs := RequestsFor(ds, bs[n].kernelsIn, bs[n]), RequestsFor(ds, bs[n].kernelsOut, bs[n]);
            && Served(w1, ds, ins) && Served(BuffersPass(w1, ds, ins), ds, outs)
            && BuffersPass(w, ds, BufferRequests(ds, bs[..n + 1])) == BuffersPass(BuffersPass(w1, ds, ins), ds, outs)
  {
    hide BuffersPass;
    hide RequestsFor;
    hide Names;
    var before := BufferRequests(ds, bs[..n]);
    var ins, outs := RequestsFor(ds, bs[n].kernelsIn, bs[n]), RequestsFor(ds, bs[n].kernelsOut, bs[n]);
    assert bs[..n + 1][..n] == bs[..n];
    RequestsServed(w, ds, bs, n + 1);
    ServedParts(w, ds, before, ins, outs);
    BuffersPassAppend(w, ds, before, ins);
    BuffersPassAppend(w, ds, before + ins, outs);
  }

  lemma ServedParts(
      w: World, ds: seq<KernelDesc>, xs: seq<Request<Buffer>>, ys: seq<Request<Buffer>>, zs: seq<Request<Buffer>>)
    requires Served(w, ds, xs + ys + zs)
    ensures Served(w, ds, xs) && Served(w, ds, ys) && Served(w, ds, zs)
  {
    var all := xs + ys + zs;
    assert forall p :: 0 <= p < |xs| ==> xs[p] == all[p];
    assert forall p :: 0 <= p < |ys| ==> ys[p] == all[|xs| + p];
    assert forall p :: 0 <= p < |zs| ==> zs[p] == all[|xs| + |ys| + p];
  }

  /** Requests of the first buffers are served if all are. */
  lemma {:induction false} RequestsServed(w: World, ds: seq<KernelDesc>, bs: seq<Buffer>, n: nat)
    requires BuffersNamed(ds, bs) && n <= |bs| && Served(w, ds, BufferRequests(ds, bs))
    ensures Served(w, ds, BufferRequests(ds, bs[..n]))
    decreases |bs|
  {
    if n == |bs| {
      assert bs[..n] == bs;
    } else {
      var m := |bs| - 1;
      var ins, outs := RequestsFor(ds, bs[m].kernelsIn, bs[m]), RequestsFor(ds, bs[m].kernelsOut, bs[m]);
      ServedParts(w, ds, BufferRequests(ds, bs[..m]), ins, outs);
      assert bs[..m][..n] == bs[..n];
      RequestsServed(w, ds, bs[..m], n);
    }
  }

  lemma EventTurn(w: World, ds: seq<KernelDesc>, es: seq<Event>, n: nat)
    requires |ds| == |w.kernels| && EventsNamed(ds, es) && n < |es|
    ensures EventsNamed(ds, es[..n]) && EventsNamed(ds, es[..n + 1])
    ensures MapEvents(w, ds, EventRequests(ds, es[..n + 1])) ==
            var w1 := MapEvents(w, ds, EventRequests(ds, es[..n]));
            var ins, outs := RequestsFor(ds, es[n].kernelsIn, es[n]), RequestsFor(ds, es[n].kernelsOut, es[n]);
            MapEvents(MapEvents(w1, ds, ins), ds, outs)
  {
    var before, ins := EventRequests(ds, es[..n]), RequestsFor(ds, es[n].kernelsIn, es[n]);
    assert es[..n + 1][..n] == es[..n];
    MapEventsAppend(w, ds, before, ins);
    MapEventsAppend(w, ds, before + ins, RequestsFor(ds, es[n].kernelsOut, es[n]));
  }
}
