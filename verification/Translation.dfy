/**
 Virtual addresses and TLB entries as values: what each pass of the memory manager does to the
 per-tile TLBs, to the table of addresses kept for every kernel, and to its own counters.
 */
module Translation {
  import opened Words

  datatype Arch = PEAK | NUP | DCT | GN | OtherArch

  /** An event; `phys` is its offset in the event area, the lists name the kernels attached to it (0 is the host). */
  datatype Event = Event(id: Word, phys: Word, kernelsIn: seq<Word>, kernelsOut: seq<Word>)

  datatype Buffer = Buffer(id: Word, size: Word, phys: Word, bank: Word, event: Event,
                           kernelsIn: seq<Word>, kernelsOut: seq<Word>)

  /** What is fixed about a kernel once resources are allocated. */
  datatype KernelDesc = KernelDesc(id: Word, unit: Word, arch: Arch, phys: Word, bank: Word, imageSize: Word,
                                   termination: Event, taskEvents: seq<Event>)

  /** What the memory manager sets in a kernel: its own address and its software TLB. */
  datatype KernelView = KernelView(vaddr: Word, buffers: map<Word, Word>, events: map<Word, Word>)

  /** One hardware TLB entry: virtual range, target, and whether it maps memory or the event registers. */
  datatype Mapping = Mapping(start: Word, end: Word, phys: Word, bank: Word, memory: bool)

  type Table = map<nat, Mapping>

  /** `entries` and `pool` are the manager's fields; `hw` holds one table per tile. */
  datatype World = World(entries: map<Word, nat>, pool: map<Word, Word>, hw: map<Word, Table>, kernels: seq<KernelView>)

  const TLB_BASE_SHRD: Word := 0x5000_0000
  const TLB_BASE_SYNCH: Word := 0x5e00_0000
  const TLB_BASE_KERN: Word := 0x3000_0000
  const NUP_TLB_BASE_SYNCH: Word := 0xFF00_0000
  const NUP_TLB_BASE_KERN: Word := 0
  const TLB_BASE_SHRD_NUPLUS: Word := 0x8000_0000
  const TLB_BASE_SHRD_DCT: Word := 0x5000_0000
  const TLB_BASE_SYNCH_DCT: Word := 0x1000_0000
  const TLB_ENTRY_KERNEL: nat := 1
  const TLB_ENTRY_EVENTS: nat := 2
  const TLB_ENTRY_START: nat := 3
  const PEAK_IMAGE: Word := 256 * 1024 * 1024

  // ----- the hardware

  function TableOf(hw: map<Word, Table>, unit: Word): Table {
    if unit in hw then hw[unit] else map[]
  }

  /** hn_set_tlb */
  function SetEntry(hw: map<Word, Table>, unit: Word, entry: nat, m: Mapping): map<Word, Table> {
    hw[unit := TableOf(hw, unit)[entry := m]]
  }

  /** MM::set_tlb_kb: an entry for `size` bytes; the last address is computed in 32 bits. */
  function MemoryMapping(start: Word, size: Word, phys: Word, bank: Word): Mapping {
    Mapping(start, (start + size + WORD - 1) % WORD, phys, bank, true)
  }

  predicate Hit(t: Table, entry: nat, va: Word) {
    entry in t && t[entry].start <= va <= t[entry].end
  }

  /** Where an entry sends an address of its range. */
  function Target(m: Mapping, va: Word): Word
    requires m.start <= va
  {
    Add(m.phys, va - m.start)
  }

  // ----- one kernel

  predicate Mappable(arch: Arch) {
    arch.PEAK? || arch.NUP? || arch.DCT?
  }

  function BufferBase(arch: Arch): Word {
    match arch
    case PEAK => TLB_BASE_SHRD
    case NUP => TLB_BASE_SHRD_NUPLUS
    case _ => TLB_BASE_SHRD_DCT
  }

  function EventBase(arch: Arch): Word {
    match arch
    case NUP => NUP_TLB_BASE_SYNCH
    case DCT => TLB_BASE_SYNCH_DCT
    case _ => TLB_BASE_SYNCH
  }

  function ImageBase(arch: Arch): Word {
    if arch.NUP? then NUP_TLB_BASE_KERN else TLB_BASE_KERN
  }

  function ImageArea(d: KernelDesc): Word {
    if d.arch.PEAK? then PEAK_IMAGE else d.imageSize
  }

  /** One turn of the loop of MM::set_vaddr_kernels. */
  function MapKernel(w: World, ds: seq<KernelDesc>, i: nat): World
    requires i < |ds| == |w.kernels|
  {
    var d := ds[i];
    w.(pool := if Mappable(d.arch) then w.pool[d.id := BufferBase(d.arch)] else w.pool,
       hw := SetEntry(w.hw, d.unit, TLB_ENTRY_KERNEL, MemoryMapping(ImageBase(d.arch), ImageArea(d), d.phys, d.bank)),
       kernels := w.kernels[i := w.kernels[i].(vaddr := ImageBase(d.arch))],
       entries := w.entries[d.unit := TLB_ENTRY_START])
  }

  /** The next 64-byte boundary, in 32 bits. */
  function AlignUp(v: Word): Word {
    if v % 64 != 0 then Add(v, 64 - v % 64) else v
  }

  /** MM::set_buff_tlb has the kernel's pool and its tile's entry counter to work on. */
  predicate Ready(w: World, ds: seq<KernelDesc>, i: nat) {
    i < |ds| == |w.kernels| && ds[i].id in w.pool && ds[i].unit in w.entries
  }

  function MapBuffer(w: World, ds: seq<KernelDesc>, i: nat, b: Buffer): (w': World)
    requires Ready(w, ds, i)
    ensures |w'.kernels| == |w.kernels| && forall j :: Ready(w, ds, j) ==> Ready(w', ds, j)
  {
    var d := ds[i];
    var va, entry := w.pool[d.id], w.entries[d.unit];
    w.(kernels := w.kernels[i := w.kernels[i].(buffers := w.kernels[i].buffers[b.id := va])],
       hw := SetEntry(w.hw, d.unit, entry, MemoryMapping(va, b.size, b.phys, b.bank)),
       entries := w.entries[d.unit := entry + 1],
       pool := w.pool[d.id := AlignUp(Add(va, b.size))])
  }

  /** MM::set_event_tlb */
  function MapEvent(w: World, ds: seq<KernelDesc>, i: nat, e: Event): World
    requires i < |ds| == |w.kernels|
  {
    var events := w.kernels[i].events[e.id := Add(EventBase(ds[i].arch), e.phys)];
    w.(kernels := w.kernels[i := w.kernels[i].(events := events)])
  }

  /** The one entry for all events of a tile. */
  function OpenEvents(w: World, ds: seq<KernelDesc>, i: nat): World
    requires i < |ds| == |w.kernels|
  {
    var d := ds[i];
    if Mappable(d.arch) then
      var area := Mapping(EventBase(d.arch), EventBase(d.arch) + 0xff_ffff, 0, 0, false);
      w.(hw := SetEntry(w.hw, d.unit, TLB_ENTRY_EVENTS, area))
    else w
  }

  // ----- the passes

  /** Index of the first kernel with this id, as TaskGraph::get_kernel_by_id finds it. */
  function FindKernel(ds: seq<KernelDesc>, id: Word): (i: nat)
    requires exists k :: 0 <= k < |ds| && ds[k].id == id
    ensures i < |ds| && ds[i].id == id
    ensures forall j :: 0 <= j < i ==> ds[j].id != id
    decreases |ds|
  {
    if ds[0].id == id then 0
    else
      assert exists k :: 0 <= k < |ds[1..]| && ds[1..][k].id == id by {
        var k :| 0 <= k < |ds| && ds[k].id == id;
        assert ds[1..][k - 1].id == id;
      }
      1 + FindKernel(ds[1..], id)
  }

  predicate Names(ds: seq<KernelDesc>, ids: seq<Word>) {
    forall k :: 0 <= k < |ids| ==> ids[k] == 0 || exists i :: 0 <= i < |ds| && ds[i].id == ids[k]
  }

  /** A request to map `item` for the kernel at index `kernel`. */
  datatype Request<T> = Request(kernel: nat, item: T)

  /** One request per kernel named in `ids`, in order; 0 stands for the host and is skipped. */
  function RequestsFor<T>(ds: seq<KernelDesc>, ids: seq<Word>, item: T): (rs: seq<Request<T>>)
    requires Names(ds, ids)
    ensures forall p :: 0 <= p < |rs| ==> rs[p].kernel < |ds| && rs[p].item == item
  {
    if ids == [] then []
    else
      var n := |ids| - 1;
      RequestsFor(ds, ids[..n], item) + (if ids[n] == 0 then [] else [Request(FindKernel(ds, ids[n]), item)])
  }

  ghost predicate BuffersNamed(ds: seq<KernelDesc>, bs: seq<Buffer>) {
    forall k :: 0 <= k < |bs| ==> Names(ds, bs[k].kernelsIn) && Names(ds, bs[k].kernelsOut)
  }

  /** The order in which MM::set_vaddr_buffers calls set_buff_tlb. */
  function BufferRequests(ds: seq<KernelDesc>, bs: seq<Buffer>): (rs: seq<Request<Buffer>>)
    requires BuffersNamed(ds, bs)
    ensures forall p :: 0 <= p < |rs| ==> rs[p].kernel < |ds|
  {
    if bs == [] then []
    else
      var n := |bs| - 1;
      BufferRequests(ds, bs[..n]) + RequestsFor(ds, bs[n].kernelsIn, bs[n]) + RequestsFor(ds, bs[n].kernelsOut, bs[n])
  }

  ghost predicate EventsNamed(ds: seq<KernelDesc>, es: seq<Event>) {
    forall k :: 0 <= k < |es| ==> Names(ds, es[k].kernelsIn) && Names(ds, es[k].kernelsOut)
  }

  /** The order in which the first loop of MM::set_vaddr_events calls set_event_tlb. */
  function EventRequests(ds: seq<KernelDesc>, es: seq<Event>): (rs: seq<Request<Event>>)
    requires EventsNamed(ds, es)
    ensures forall p :: 0 <= p < |rs| ==> rs[p].kernel < |ds|
  {
    if es == [] then []
    else
      var n := |es| - 1;
      EventRequests(ds, es[..n]) + RequestsFor(ds, es[n].kernelsIn, es[n]) + RequestsFor(ds, es[n].kernelsOut, es[n])
  }

  function KernelsPass(w: World, ds: seq<KernelDesc>, n: nat): (w': World)
    requires n <= |ds| == |w.kernels|
    ensures |w'.kernels| == |w.kernels|
  {
    if n == 0 then w.(entries := map[]) else MapKernel(KernelsPass(w, ds, n - 1), ds, n - 1)
  }

  /** Every request is for a kernel that has a pool, on a tile that has an entry counter. */
  ghost predicate Served(w: World, ds: seq<KernelDesc>, rs: seq<Request<Buffer>>) {
    |ds| == |w.kernels| && forall p :: 0 <= p < |rs| ==> Ready(w, ds, rs[p].kernel)
  }

  ghost function BuffersPass(w: World, ds: seq<KernelDesc>, rs: seq<Request<Buffer>>): (w': World)
    requires Served(w, ds, rs)
    ensures |w'.kernels| == |w.kernels| && forall j :: Ready(w, ds, j) ==> Ready(w', ds, j)
  {
    if rs == [] then w
    else
      var n := |rs| - 1;
      assert Served(w, ds, rs[..n]) && Ready(w, ds, rs[n].kernel);
      MapBuffer(BuffersPass(w, ds, rs[..n]), ds, rs[n].kernel, rs[n].item)
  }

  function MapEvents(w: World, ds: seq<KernelDesc>, rs: seq<Request<Event>>): (w': World)
    requires |ds| == |w.kernels| && forall p :: 0 <= p < |rs| ==> rs[p].kernel < |ds|
    ensures |w'.kernels| == |w.kernels| && w' == w.(kernels := w'.kernels)
  {
    if rs == [] then w
    else
      var n := |rs| - 1;
      MapEvent(MapEvents(w, ds, rs[..n]), ds, rs[n].kernel, rs[n].item)
  }

  /** The task events of one kernel, as requests. */
  function TaskRequests(i: nat, es: seq<Event>): (rs: seq<Request<Event>>)
    ensures |rs| == |es| && forall p :: 0 <= p < |rs| ==> rs[p] == Request(i, es[p])
  {
    seq(|es|, p requires 0 <= p < |es| => Request(i, es[p]))
  }

  /** One turn of the second loop of MM::set_vaddr_events. */
  function OpenTurn(w: World, ds: seq<KernelDesc>, i: nat): (w': World)
    requires i < |ds| == |w.kernels|
    ensures |w'.kernels| == |w.kernels| && w'.hw == OpenEvents(w, ds, i).hw
  {
    MapEvents(OpenEvents(w, ds, i), ds, TaskRequests(i, ds[i].taskEvents))
  }

  /** That loop over the first `n` kernels. */
  function OpenAll(w: World, ds: seq<KernelDesc>, n: nat): (w': World)
    requires n <= |ds| == |w.kernels|
    ensures |w'.kernels| == |w.kernels|
  {
    if n == 0 then w else OpenTurn(OpenAll(w, ds, n - 1), ds, n - 1)
  }

  function EventsPass(w: World, ds: seq<KernelDesc>, es: seq<Event>): (w': World)
    requires |ds| == |w.kernels| && EventsNamed(ds, es)
    ensures |w'.kernels| == |w.kernels|
  {
    OpenAll(MapEvents(w, ds, EventRequests(ds, es)), ds, |ds|)
  }

  /** BBQContext::resource_allocation runs the three passes in this order. */
  ghost function AllPasses(w: World, ds: seq<KernelDesc>, bs: seq<Buffer>, es: seq<Event>): (w': World)
    requires |ds| == |w.kernels| && BuffersNamed(ds, bs) && EventsNamed(ds, es)
    requires Served(KernelsPass(w, ds, |ds|), ds, BufferRequests(ds, bs))
    ensures |w'.kernels| == |ds|
  {
    EventsPass(BuffersPass(KernelsPass(w, ds, |ds|), ds, BufferRequests(ds, bs)), ds, es)
  }
}
