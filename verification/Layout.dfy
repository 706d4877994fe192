/** Where buffers, kernel images and events end up, whatever they need. */
module Layout {
  import opened Words
  import opened Translation

  /** Size of the virtual window for the buffers of a kernel. */
  function Window(arch: Arch): nat {
    match arch
    case PEAK => 0x0E00_0000
    case NUP => 0x7F00_0000
    case _ => 0xB000_0000
  }

  function Round64(n: nat): nat {
    (n + 63) / 64 * 64
  }

  /** Bytes of virtual space the requests take for kernel `i`. */
  function Used(rs: seq<Request<Buffer>>, i: nat): nat {
    if rs == [] then 0
    else
      var n := |rs| - 1;
      Used(rs[..n], i) + if rs[n].kernel == i then Round64(rs[n].item.size) else 0
  }

  /** How many of the requests are for kernel `i`. */
  function Mapped(rs: seq<Request<Buffer>>, i: nat): nat {
    if rs == [] then 0
    else
      var n := |rs| - 1;
      Mapped(rs[..n], i) + if rs[n].kernel == i then 1 else 0
  }

  lemma {:induction false} UsedAligned(rs: seq<Request<Buffer>>, i: nat)
    ensures Used(rs, i) % 64 == 0
  {
    if rs != [] {
      UsedAligned(rs[..|rs| - 1], i);
    }
  }

  /** Every request for `i` before `q` lies wholly below the address of `q`. */
  lemma {:induction false} UsedGrows(rs: seq<Request<Buffer>>, i: nat, p: nat, q: nat)
    requires p < q <= |rs|
    ensures Used(rs[..p], i) <= Used(rs[..q], i) && Mapped(rs[..p], i) <= Mapped(rs[..q], i)
    ensures rs[p].kernel == i ==> Used(rs[..p], i) + Round64(rs[p].item.size) <= Used(rs[..q], i)
    ensures rs[p].kernel == i ==> Mapped(rs[..p], i) < Mapped(rs[..q], i)
    decreases q
  {
    assert rs[..q][..q - 1] == rs[..q - 1];
    if p < q - 1 {
      UsedGrows(rs, i, p, q - 1);
    }
  }

  lemma AlignUpIs(v: Word)
    ensures AlignUp(v) == Round64(v) % WORD
  {
  }

  lemma RoundWraps(x: nat)
    requires x < 2 * WORD
    ensures Round64(x % WORD) % WORD == Round64(x) % WORD
  {
    if x >= WORD {
      assert x % WORD == x - WORD;
      assert (x - WORD + 63) / 64 == (x + 63) / 64 - WORD / 64;
    }
  }

  lemma RoundFrom(v: nat, size: nat)
    requires v % 64 == 0
    ensures Round64(v + size) == v + Round64(size)
  {
    assert (v + size + 63) / 64 == v / 64 + (size + 63) / 64;
  }

  lemma AddWraps(a: nat, b: nat)
    ensures (a % WORD + b) % WORD == (a + b) % WORD
  {
  }

  /** In 32 bits, stepping over a buffer from an aligned address lands on the next aligned one. */
  lemma AlignUpStep(va: nat, size: Word)
    requires va % 64 == 0
    ensures AlignUp(Add(va % WORD, size)) == (va + Round64(size)) % WORD
  {
    var v := va % WORD;
    assert v % 64 == 0;
    hide Round64;
    hide AlignUp;
    AlignUpIs(Add(v, size));
    RoundWraps(v + size);
    RoundFrom(v, size);
    AddWraps(va, Round64(size));
  }

  ghost predicate UniqueIds(ds: seq<KernelDesc>) {
    forall i, j :: 0 <= i < j < |ds| ==> ds[i].id != ds[j].id
  }

  ghost predicate OnePerUnit(ds: seq<KernelDesc>) {
    forall i, j :: 0 <= i < j < |ds| ==> ds[i].unit != ds[j].unit
  }

  ghost predicate Distinct(ds: seq<KernelDesc>) {
    UniqueIds(ds) && OnePerUnit(ds)
  }

  lemma DistinctKernels(ds: seq<KernelDesc>, i: nat, j: nat)
    requires Distinct(ds) && i < |ds| && j < |ds| && i != j
    ensures ds[i].id != ds[j].id && ds[i].unit != ds[j].unit
  {
    if i < j {
    } else {
    }
  }

  // ----- the kernels pass

  lemma {:induction false} AfterKernels(w: World, ds: seq<KernelDesc>, n: nat, i: nat)
    requires n <= |ds| == |w.kernels| && Distinct(ds) && i < n
    ensures var w', d := KernelsPass(w, ds, n), ds[i];
            && d.unit in w'.entries && w'.entries[d.unit] == TLB_ENTRY_START
            && (Mappable(d.arch) ==> d.id in w'.pool && w'.pool[d.id] == BufferBase(d.arch))
            && TableOf(w'.hw, d.unit) ==
               TableOf(w.hw, d.unit)[TLB_ENTRY_KERNEL := MemoryMapping(ImageBase(d.arch), ImageArea(d), d.phys, d.bank)]
  {
    if i < n - 1 {
      AfterKernels(w, ds, n - 1, i);
    } else {
      KernelsUntouched(w, ds, n - 1, i);
    }
  }

  lemma {:induction false} KernelsUntouched(w: World, ds: seq<KernelDesc>, n: nat, i: nat)
    requires n <= i < |ds| == |w.kernels| && Distinct(ds)
    ensures TableOf(KernelsPass(w, ds, n).hw, ds[i].unit) == TableOf(w.hw, ds[i].unit)
  {
    if n > 0 {
      KernelsUntouched(w, ds, n - 1, i);
    }
  }

  /** Every request is for a kernel of the graph that has a pool. */
  ghost predicate Poolable(ds: seq<KernelDesc>, rs: seq<Request<Buffer>>) {
    forall p :: 0 <= p < |rs| ==> rs[p].kernel < |ds| && Mappable(ds[rs[p].kernel].arch)
  }

  /** After the kernels pass, set_buff_tlb finds a pool and a counter for every such kernel. */
  lemma {:induction false} KernelReady(w: World, ds: seq<KernelDesc>, n: nat, i: nat)
    requires n <= |ds| == |w.kernels| && i < n && Mappable(ds[i].arch)
    ensures Ready(KernelsPass(w, ds, n), ds, i)
  {
    if i < n - 1 {
      KernelReady(w, ds, n - 1, i);
    }
  }

  lemma KernelsServe(w: World, ds: seq<KernelDesc>, rs: seq<Request<Buffer>>)
    requires |ds| == |w.kernels| && Poolable(ds, rs)
    ensures Served(KernelsPass(w, ds, |ds|), ds, rs)
  {
    forall p | 0 <= p < |rs| ensures Ready(KernelsPass(w, ds, |ds|), ds, rs[p].kernel) {
      KernelReady(w, ds, |ds|, rs[p].kernel);
    }
  }

  // ----- the buffers pass

  /** Kernel `i` gets its next buffer at `va`, in 32 bits, and in TLB entry `entry`. */
  predicate At(w: World, ds: seq<KernelDesc>, i: nat, va: nat, entry: nat) {
    Ready(w, ds, i) && w.pool[ds[i].id] == va % WORD && w.entries[ds[i].unit] == entry
  }

  /** The kernels pass has just run. */
  ghost predicate Begun(w: World, ds: seq<KernelDesc>, rs: seq<Request<Buffer>>) {
    && |ds| == |w.kernels| && Distinct(ds) && Poolable(ds, rs) && Served(w, ds, rs)
    && forall i :: 0 <= i < |ds| && Mappable(ds[i].arch) ==> At(w, ds, i, BufferBase(ds[i].arch), TLB_ENTRY_START)
  }

  lemma KernelsBegin(w: World, ds: seq<KernelDesc>, rs: seq<Request<Buffer>>)
    requires |ds| == |w.kernels| && Distinct(ds) && Poolable(ds, rs)
    ensures Begun(KernelsPass(w, ds, |ds|), ds, rs)
  {
    hide KernelsPass;
    hide At;
    KernelsServe(w, ds, rs);
    forall i | 0 <= i < |ds| && Mappable(ds[i].arch)
      ensures At(KernelsPass(w, ds, |ds|), ds, i, BufferBase(ds[i].arch), TLB_ENTRY_START)
    {
      KernelStarts(w, ds, i);
    }
  }

  lemma KernelStarts(w: World, ds: seq<KernelDesc>, i: nat)
    requires |ds| == |w.kernels| && Distinct(ds) && i < |ds| && Mappable(ds[i].arch)
    ensures At(KernelsPass(w, ds, |ds|), ds, i, BufferBase(ds[i].arch), TLB_ENTRY_START)
  {
    hide KernelsPass;
    AfterKernels(w, ds, |ds|, i);
  }

  /** Mapping a buffer for another kernel changes nothing for kernel `i`. */
  lemma MapBufferOther(w: World, ds: seq<KernelDesc>, j: nat, b: Buffer, i: nat, va: nat, entry: nat)
    requires Ready(w, ds, j) && Distinct(ds) && i < |ds| && i != j && At(w, ds, i, va, entry)
    ensures At(MapBuffer(w, ds, j, b), ds, i, va, entry)
  {
    hide SetEntry;
    hide AlignUp;
    DistinctKernels(ds, i, j);
  }

  /** Mapping a buffer for kernel `i` itself. */
  lemma MapBufferOwn(w: World, ds: seq<KernelDesc>, i: nat, b: Buffer, va: nat, entry: nat)
    requires At(w, ds, i, va, entry) && va % 64 == 0
    ensures At(MapBuffer(w, ds, i, b), ds, i, va + Round64(b.size), entry + 1)
  {
    hide SetEntry;
    hide Round64;
    hide AlignUp;
    AlignUpStep(va, b.size);
  }

  /**
   The pool and the entry counter of every kernel after any number of requests, whether or not the
   address has wrapped around.
   */
  lemma {:induction false} Cursor(w: World, ds: seq<KernelDesc>, rs: seq<Request<Buffer>>, i: nat)
    requires Begun(w, ds, rs) && i < |ds| && Mappable(ds[i].arch)
    ensures At(BuffersPass(w, ds, rs), ds, i, BufferBase(ds[i].arch) + Used(rs, i), TLB_ENTRY_START + Mapped(rs, i))
  {
    hide MapBuffer;
    hide At;
    hide Round64;
    if rs != [] {
      var n := |rs| - 1;
      assert Begun(w, ds, rs[..n]);
      Cursor(w, ds, rs[..n], i);
      var w0 := BuffersPass(w, ds, rs[..n]);
      var va, entry := BufferBase(ds[i].arch) + Used(rs[..n], i), TLB_ENTRY_START + Mapped(rs[..n], i);
      UsedAligned(rs[..n], i);
      if i == rs[n].kernel {
        MapBufferOwn(w0, ds, i, rs[n].item, va, entry);
      } else {
        MapBufferOther(w0, ds, rs[n].kernel, rs[n].item, i, va, entry);
      }
    }
  }

  /** The address of request `p`, were addresses unbounded. */
  function AddressOf(ds: seq<KernelDesc>, rs: seq<Request<Buffer>>, p: nat): nat
    requires p < |rs| && rs[p].kernel < |ds|
  {
    BufferBase(ds[rs[p].kernel].arch) + Used(rs[..p], rs[p].kernel)
  }

  /** The address request `p` gets. */
  function StartOf(ds: seq<KernelDesc>, rs: seq<Request<Buffer>>, p: nat): Word
    requires p < |rs| && rs[p].kernel < |ds|
  {
    AddressOf(ds, rs, p) % WORD
  }

  function EntryOf(rs: seq<Request<Buffer>>, p: nat): nat
    requires p < |rs|
  {
    TLB_ENTRY_START + Mapped(rs[..p], rs[p].kernel)
  }

  /** The table of kernel `i`'s tile after the buffers pass. */
  ghost function TableAfter(w: World, ds: seq<KernelDesc>, rs: seq<Request<Buffer>>, i: nat): Table
    requires Served(w, ds, rs) && i < |ds|
  {
    TableOf(BuffersPass(w, ds, rs).hw, ds[i].unit)
  }

  lemma MapBufferTable(w: World, ds: seq<KernelDesc>, j: nat, b: Buffer, i: nat)
    requires Ready(w, ds, j) && i < |ds|
    ensures MapBuffer(w, ds, j, b).kernels[i].buffers ==
            if i == j then w.kernels[i].buffers[b.id := w.pool[ds[i].id]] else w.kernels[i].buffers
  {
    hide SetEntry;
    hide AlignUp;
  }

  lemma LastPass(w: World, ds: seq<KernelDesc>, rs: seq<Request<Buffer>>)
    requires Begun(w, ds, rs) && rs != []
    ensures var n := |rs| - 1;
            && Begun(w, ds, rs[..n])
            && Ready(BuffersPass(w, ds, rs[..n]), ds, rs[n].kernel)
            && BuffersPass(w, ds, rs) == MapBuffer(BuffersPass(w, ds, rs[..n]), ds, rs[n].kernel, rs[n].item)
  {
    hide MapBuffer;
    hide At;
    hide Distinct;
  }

  lemma {:induction false} LastGiven(w: World, ds: seq<KernelDesc>, rs: seq<Request<Buffer>>, i: nat)
    requires Begun(w, ds, rs) && i < |ds| && rs != []
    ensures Begun(w, ds, rs[..|rs| - 1])
    ensures var n := |rs| - 1;
            var t, t' := BuffersPass(w, ds, rs[..n]).kernels[i].buffers, BuffersPass(w, ds, rs).kernels[i].buffers;
            t' == if rs[n].kernel == i then t[rs[n].item.id := StartOf(ds, rs, n)] else t
  {
    hide BuffersPass;
    hide MapBuffer;
    hide Used;
    hide Mapped;
    hide Distinct;
    hide Add;
    hide BufferBase;
    var n := |rs| - 1;
    LastPass(w, ds, rs);
    Cursor(w, ds, rs[..n], rs[n].kernel);
    MapBufferTable(BuffersPass(w, ds, rs[..n]), ds, rs[n].kernel, rs[n].item, i);
  }

  /** The software table holds the address of the last request for the buffer. */
  lemma {:induction false} SoftwareAddress(
      w: World, ds: seq<KernelDesc>, rs: seq<Request<Buffer>>, i: nat, id: Word, q: nat) returns (p: nat)
    requires Begun(w, ds, rs) && i < |ds|
    requires q < |rs| && rs[q].kernel == i && rs[q].item.id == id
    ensures p < |rs| && rs[p].kernel == i && rs[p].item.id == id
    ensures forall q :: p < q < |rs| && rs[q].kernel == i ==> rs[q].item.id != id
    ensures var t := BuffersPass(w, ds, rs).kernels[i].buffers; id in t && t[id] == StartOf(ds, rs, p)
    decreases |rs|
  {
    hide BuffersPass;
    hide Used;
    var n := |rs| - 1;
    LastGiven(w, ds, rs, i);
    if rs[n].kernel == i && rs[n].item.id == id {
      p := n;
    } else {
      assert rs[..n][q] == rs[q];
      p := SoftwareAddress(w, ds, rs[..n], i, id, q);
      assert rs[..n][..p] == rs[..p];
    }
  }

  /** Mapping buffers leaves the kernels' own addresses alone. */
  lemma {:induction false} BuffersKeepVaddr(w: World, ds: seq<KernelDesc>, rs: seq<Request<Buffer>>, i: nat)
    requires Served(w, ds, rs) && i < |ds|
    ensures BuffersPass(w, ds, rs).kernels[i].vaddr == w.kernels[i].vaddr
  {
    if rs != [] {
      var n := |rs| - 1;
      assert Served(w, ds, rs[..n]) && Ready(w, ds, rs[n].kernel);
      BuffersKeepVaddr(w, ds, rs[..n], i);
    }
  }

  lemma {:induction false} KernelsSetVaddr(w: World, ds: seq<KernelDesc>, n: nat, i: nat)
    requires i < n <= |ds| == |w.kernels|
    ensures KernelsPass(w, ds, n).kernels[i].vaddr == ImageBase(ds[i].arch)
  {
    if i < n - 1 {
      KernelsSetVaddr(w, ds, n - 1, i);
    }
  }

  /** The entry of an interval that does not wrap and is not empty at 0. */
  lemma MappingEnds(start: Word, size: Word, phys: Word, bank: Word)
    requires 0 < start + size <= WORD
    ensures MemoryMapping(start, size, phys, bank).start == start
    ensures MemoryMapping(start, size, phys, bank).end == start + size - 1
  {
  }

  // ----- the events pass

  lemma {:induction false} EventsKeepRest(w: World, ds: seq<KernelDesc>, rs: seq<Request<Event>>)
    requires |ds| == |w.kernels| && forall p :: 0 <= p < |rs| ==> rs[p].kernel < |ds|
    ensures var w' := MapEvents(w, ds, rs);
            forall i :: 0 <= i < |ds| ==>
              w'.kernels[i].buffers == w.kernels[i].buffers && w'.kernels[i].vaddr == w.kernels[i].vaddr
  {
    if rs != [] {
      EventsKeepRest(w, ds, rs[..|rs| - 1]);
    }
  }

  function EventsMapping(arch: Arch): Mapping {
    Mapping(EventBase(arch), EventBase(arch) + 0xff_ffff, 0, 0, false)
  }

  /** The events entry of a tile, once opened. */
  function WithEvents(t: Table, arch: Arch): Table {
    t[TLB_ENTRY_EVENTS := EventsMapping(arch)]
  }

  lemma OpenTurnTable(w: World, ds: seq<KernelDesc>, j: nat, i: nat)
    requires |ds| == |w.kernels| && Distinct(ds) && i < |ds| && j < |ds| && Mappable(ds[i].arch)
    ensures var t, t' := TableOf(w.hw, ds[i].unit), TableOf(OpenTurn(w, ds, j).hw, ds[i].unit);
            if i == j then t' == WithEvents(t, ds[i].arch) else t' == t
  {
    assert i < j || j < i ==> ds[i].unit != ds[j].unit;
  }

  /** Opening the events adds one entry to each tile. */
  lemma {:induction false} OpenAllTable(w: World, ds: seq<KernelDesc>, n: nat, i: nat)
    requires n <= |ds| == |w.kernels| && Distinct(ds) && i < |ds| && Mappable(ds[i].arch)
    ensures var t, t' := TableOf(w.hw, ds[i].unit), TableOf(OpenAll(w, ds, n).hw, ds[i].unit);
            if i < n then t' == WithEvents(t, ds[i].arch) else t' == t
  {
    hide OpenTurn;
    hide WithEvents;
    hide Distinct;
    if n > 0 {
      OpenAllTable(w, ds, n - 1, i);
      OpenTurnTable(OpenAll(w, ds, n - 1), ds, n - 1, i);
    }
  }

  /** Opening the events leaves the addresses of buffers and kernels alone. */
  lemma {:induction false} OpenAllBuffers(w: World, ds: seq<KernelDesc>, n: nat, i: nat)
    requires n <= |ds| == |w.kernels| && i < |ds|
    ensures OpenAll(w, ds, n).kernels[i].buffers == w.kernels[i].buffers
    ensures OpenAll(w, ds, n).kernels[i].vaddr == w.kernels[i].vaddr
  {
    if n > 0 {
      OpenAllBuffers(w, ds, n - 1, i);
      EventsKeepRest(OpenEvents(OpenAll(w, ds, n - 1), ds, n - 1), ds, TaskRequests(n - 1, ds[n - 1].taskEvents));
    }
  }

  lemma EventsPassKeeps(w: World, ds: seq<KernelDesc>, es: seq<Event>, i: nat)
    requires |ds| == |w.kernels| && i < |ds| && EventsNamed(ds, es)
    ensures var k, k' := w.kernels[i], EventsPass(w, ds, es).kernels[i]; k'.buffers == k.buffers && k'.vaddr == k.vaddr
  {
    EventsKeepRest(w, ds, EventRequests(ds, es));
    OpenAllBuffers(MapEvents(w, ds, EventRequests(ds, es)), ds, |ds|, i);
  }

  lemma AfterEventsPass(w: World, ds: seq<KernelDesc>, es: seq<Event>, i: nat)
    requires |ds| == |w.kernels| && Distinct(ds) && i < |ds| && Mappable(ds[i].arch) && EventsNamed(ds, es)
    ensures var u := ds[i].unit; TableOf(EventsPass(w, ds, es).hw, u) == WithEvents(TableOf(w.hw, u), ds[i].arch)
  {
    OpenAllTable(MapEvents(w, ds, EventRequests(ds, es)), ds, |ds|, i);
  }

  // ----- requests

  lemma {:induction false} RequestPresent<T>(ds: seq<KernelDesc>, ids: seq<Word>, item: T, i: nat) returns (p: nat)
    requires Names(ds, ids) && UniqueIds(ds) && i < |ds| && ds[i].id != 0 && ds[i].id in ids
    ensures p < |RequestsFor(ds, ids, item)| && RequestsFor(ds, ids, item)[p] == Request(i, item)
  {
    var n := |ids| - 1;
    if ids[n] == ds[i].id {
      p := |RequestsFor(ds, ids[..n], item)|;
      assert FindKernel(ds, ids[n]) == i;
    } else {
      assert ids == ids[..n] + [ids[n]];
      p := RequestPresent(ds, ids[..n], item, i);
    }
  }

  /** Buffer `b` is read or written by the kernel with this id. */
  predicate Attached(id: Word, b: Buffer) {
    id in b.kernelsIn || id in b.kernelsOut
  }

  lemma {:induction false} BufferRequested(ds: seq<KernelDesc>, bs: seq<Buffer>, b: Buffer, i: nat) returns (p: nat)
    requires BuffersNamed(ds, bs) && UniqueIds(ds) && b in bs
    requires i < |ds| && ds[i].id != 0 && Attached(ds[i].id, b)
    ensures p < |BufferRequests(ds, bs)| && BufferRequests(ds, bs)[p] == Request(i, b)
  {
    hide RequestsFor;
    hide FindKernel;
    var n := |bs| - 1;
    var before := BufferRequests(ds, bs[..n]);
    if bs[n] == b {
      if ds[i].id in b.kernelsIn {
        p := RequestPresent(ds, b.kernelsIn, b, i);
        p := |before| + p;
      } else {
        p := RequestPresent(ds, b.kernelsOut, b, i);
        p := |before| + |RequestsFor(ds, b.kernelsIn, b)| + p;
      }
    } else {
      assert bs == bs[..n] + [bs[n]];
      p := BufferRequested(ds, bs[..n], b, i);
    }
  }

  /** Every request is for a buffer of the graph. */
  lemma {:induction false} RequestsComeFrom(ds: seq<KernelDesc>, bs: seq<Buffer>, p: nat)
    requires BuffersNamed(ds, bs) && p < |BufferRequests(ds, bs)|
    ensures BufferRequests(ds, bs)[p].item in bs
  {
    var n := |bs| - 1;
    if p < |BufferRequests(ds, bs[..n])| {
      RequestsComeFrom(ds, bs[..n], p);
    }
  }
}
