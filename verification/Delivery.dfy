/** From a task graph to the device: the graph is closed, arguments can be set up, and addresses survive the trip. */
module Delivery {
  import opened Words
  import opened Translation
  import opened Layout
  import opened Limits
  import opened Agreement
  import opened Lookups
  import opened MemoryManager
  import opened Hex
  import opened Arguments

  // ----- the graph

  /** As a kernel is built, its termination event lists it. */
  ghost predicate OwnTermination(ks: seq<Kernel>) {
    forall i :: 0 <= i < |ks| ==> ks[i].desc.id in ks[i].desc.termination.kernelsIn
  }

  /** The event list `es` holds the events of a kernel. */
  ghost predicate EventsOf(d: KernelDesc, es: seq<Event>) {
    d.termination in es && forall k :: 0 <= k < |d.taskEvents| ==> d.taskEvents[k] in es
  }

  lemma {:induction false} KernelEventsHold(ks: seq<Kernel>, n: nat, i: nat)
    requires i < n <= |ks|
    ensures EventsOf(ks[i].desc, TaskGraph.KernelEvents(ks, n))
  {
    if i < n - 1 {
      KernelEventsHold(ks, n - 1, i);
    }
  }

  lemma {:induction false} BufferEventsHold(bs: seq<Buffer>, n: nat, k: nat)
    requires k < n <= |bs|
    ensures bs[k].event in TaskGraph.BufferEvents(bs, n)
  {
    if k < n - 1 {
      BufferEventsHold(bs, n - 1, k);
    }
  }

  /** How many events the first `n` kernels put into the list. */
  function EventsBefore(ks: seq<Kernel>, n: nat): nat
    requires n <= |ks|
  {
    if n == 0 then 0 else EventsBefore(ks, n - 1) + 1 + |ks[n - 1].desc.taskEvents|
  }

  lemma {:induction false} EventsCounted(ks: seq<Kernel>, n: nat)
    requires n <= |ks|
    ensures |TaskGraph.KernelEvents(ks, n)| == EventsBefore(ks, n)
  {
    if n > 0 {
      EventsCounted(ks, n - 1);
    }
  }

  lemma {:induction false} KernelEventsPrefix(ks: seq<Kernel>, m: nat, n: nat)
    requires m <= n <= |ks|
    ensures TaskGraph.KernelEvents(ks, m) <= TaskGraph.KernelEvents(ks, n)
    decreases n
  {
    if m < n {
      KernelEventsPrefix(ks, m, n - 1);
    }
  }

  /** A kernel's events stand together, its termination event first. */
  lemma {:induction false} KernelEventsAt(ks: seq<Kernel>, i: nat)
    requires i < |ks|
    ensures var o, own := EventsBefore(ks, i), [ks[i].desc.termination] + ks[i].desc.taskEvents;
            && o + |own| <= EventsBefore(ks, |ks|) == |TaskGraph.KernelEvents(ks, |ks|)|
            && TaskGraph.KernelEvents(ks, |ks|)[o..o + |own|] == own
  {
    EventsCounted(ks, i);
    EventsCounted(ks, |ks|);
    KernelEventsPrefix(ks, i + 1, |ks|);
    var before, own := TaskGraph.KernelEvents(ks, i), [ks[i].desc.termination] + ks[i].desc.taskEvents;
    assert TaskGraph.KernelEvents(ks, i + 1) == before + own;
    hide EventsBefore;
    NextPart(before, own, TaskGraph.KernelEvents(ks, |ks|));
  }

  lemma NextPart<T>(before: seq<T>, part: seq<T>, all: seq<T>)
    requires before + part <= all
    ensures |before| + |part| <= |all| && all[|before|..|before| + |part|] == part
  {
    assert all[..|before| + |part|] == before + part;
  }

  lemma PartOf<T>(before: seq<T>, all: seq<T>, after: seq<T>, a: nat, b: nat)
    requires a <= b <= |all|
    ensures (before + all + after)[|before| + a..|before| + b] == all[a..b]
  {
  }

  lemma {:induction false} BufferEventsAt(bs: seq<Buffer>, n: nat)
    requires n <= |bs|
    ensures |TaskGraph.BufferEvents(bs, n)| == n
    ensures forall k :: 0 <= k < n ==> TaskGraph.BufferEvents(bs, n)[k] == bs[k].event
  {
    if n > 0 {
      BufferEventsAt(bs, n - 1);
    }
  }

  /** The order of the constructor's list: the caller's events, each kernel's in turn, then the buffers'. */
  lemma EventOrder(ks: seq<Kernel>, bs: seq<Buffer>, levents: seq<Event>, i: nat, k: nat)
    requires i < |ks| && k < |bs|
    ensures var es := levents + TaskGraph.KernelEvents(ks, |ks|) + TaskGraph.BufferEvents(bs, |bs|);
            var o, own := |levents| + EventsBefore(ks, i), [ks[i].desc.termination] + ks[i].desc.taskEvents;
            && |es| == |levents| + EventsBefore(ks, |ks|) + |bs| && es[..|levents|] == levents
            && o + |own| <= |es| && es[o..o + |own|] == own
            && es[|levents| + EventsBefore(ks, |ks|) + k] == bs[k].event
  {
    hide EventsBefore;
    KernelEventsAt(ks, i);
    BufferEventsAt(bs, |bs|);
    var all, others := TaskGraph.KernelEvents(ks, |ks|), TaskGraph.BufferEvents(bs, |bs|);
    PartOf(levents, all, others, EventsBefore(ks, i), EventsBefore(ks, i) + 1 + |ks[i].desc.taskEvents|);
  }

  /** The event list the constructor of a task graph builds is closed, whatever the caller's own events. */
  lemma GraphClosed(ks: seq<Kernel>, bs: seq<Buffer>, levents: seq<Event>)
    requires OwnTermination(ks)
    ensures Closed(Descs(ks), bs, levents + TaskGraph.KernelEvents(ks, |ks|) + TaskGraph.BufferEvents(bs, |bs|))
  {
    var own, others := TaskGraph.KernelEvents(ks, |ks|), TaskGraph.BufferEvents(bs, |bs|);
    forall i | 0 <= i < |ks| ensures EventsOf(ks[i].desc, own) {
      KernelEventsHold(ks, |ks|, i);
    }
    forall k | 0 <= k < |bs| ensures bs[k].event in others {
      BufferEventsHold(bs, |bs|, k);
    }
    PartsClosed(Descs(ks), bs, levents, own, others);
  }

  lemma PartsClosed(ds: seq<KernelDesc>, bs: seq<Buffer>, levents: seq<Event>, own: seq<Event>, others: seq<Event>)
    requires forall i :: 0 <= i < |ds| ==> ds[i].id in ds[i].termination.kernelsIn && EventsOf(ds[i], own)
    requires forall k :: 0 <= k < |bs| ==> bs[k].event in others
    ensures Closed(ds, bs, levents + own + others)
  {
    var es := levents + own + others;
    forall e | e in own || e in others ensures e in es {
    }
    forall i | 0 <= i < |ds| ensures EventsOf(ds[i], es) {
    }
  }

  // ----- setting the arguments up

  /** The caller's arguments name buffers attached to the kernel and events that concern it. */
  ghost predicate Suitable(d: KernelDesc, bs: seq<Buffer>, es: seq<Event>, args: seq<Arg>) {
    forall n :: 0 <= n < |args| ==>
      && (args[n].BufferArg? ==> exists b :: b in bs && b.id == args[n].id && Attached(d.id, b))
      && (args[n].EventArg? ==> exists e :: e in es && e.id == args[n].id && Concerns(d, e))
  }

  /** Every address the setup of a kernel's arguments asks its software TLB for is there. */
  lemma SetupReady(w: World, ds: seq<KernelDesc>, k: Kernel, bs: seq<Buffer>, es: seq<Event>, i: nat, args: seq<Arg>)
    requires Named(w, ds, bs, es) && UniqueIds(ds) && Closed(ds, bs, es) && Coherent(es)
    requires i < |ds| && ds[i].id != 0 && k.desc == ds[i]
    ensures k.View() == Finished(w, ds, bs, es).kernels[i] && Suitable(ds[i], bs, es, args) ==> SetupKnown(args, k)
  {
    if k.View() == Finished(w, ds, bs, es).kernels[i] && Suitable(ds[i], bs, es, args) {
      LookupsSucceed(w, ds, bs, es, i);
      hide Finished;
      hide Closed;
      hide Coherent;
      hide Suitable;
      forall n | 0 <= n < |ds[i].taskEvents| ensures ds[i].taskEvents[n].id in k.tlb.events {
        assert Knows(Finished(w, ds, bs, es), ds, i, ds[i].taskEvents[n]);
      }
      forall n | 0 <= n < |args| ensures Known(args[n], k) {
        ArgumentKnown(w, ds, bs, es, i, args, n);
      }
    }
  }

  lemma ArgumentKnown(w: World, ds: seq<KernelDesc>, bs: seq<Buffer>, es: seq<Event>, i: nat, args: seq<Arg>, n: nat)
    requires Named(w, ds, bs, es) && UniqueIds(ds) && Closed(ds, bs, es) && Coherent(es)
    requires i < |ds| && ds[i].id != 0 && Suitable(ds[i], bs, es, args) && n < |args|
    ensures args[n].BufferArg? ==> args[n].id in Finished(w, ds, bs, es).kernels[i].buffers
    ensures args[n].EventArg? ==> args[n].id in Finished(w, ds, bs, es).kernels[i].events
  {
    if args[n].BufferArg? {
      var b :| b in bs && b.id == args[n].id && Attached(ds[i].id, b);
      BufferKnown(w, ds, bs, es, i, b);
    } else if args[n].EventArg? {
      var e :| e in es && e.id == args[n].id && Concerns(ds[i], e);
      EventKnown(w, ds, bs, es, i, e);
    }
  }

  // ----- reading the addresses back

  /**
   How a device reads a word.  The generated entry point uses strtol in base 16 on every architecture,
   with the device's long; the NU+ library has a parser of its own, which nothing in the repository
   applies to the command line.
   */
  datatype Reader = EntryPoint(longMax: nat) | NuplusParser

  function Reads(r: Reader, token: string): int {
    match r
    case EntryPoint(longMax) => Strtol16(token, longMax)
    case NuplusParser => AtoxOf(token)
  }

  /** The addresses a reader gets right. */
  predicate CanRead(r: Reader, va: Word) {
    match r
    case EntryPoint(longMax) => va <= longMax
    case NuplusParser => va >= 0x1000_0000
  }

  /** An address printed for a buffer or an event is read right exactly when it is in the reader's range. */
  lemma ReadsIff(r: Reader, a: Arg)
    requires a.BufferArg? || a.EventArg?
    ensures Reads(r, Token(a)) == a.value <==> CanRead(r, a.value)
  {
    match r
    case EntryPoint(longMax) => StrtolExactIff(a.value, longMax);
    case NuplusParser => AtoxReadsPrinted(a.value);
  }

  /** NU+ addresses lie in the upper half of the address space, PEAK addresses in the lower. */
  predicate InHalf(arch: Arch, va: Word) {
    (arch.NUP? ==> va >= 0x8000_0000) && (arch.PEAK? ==> 0x1000_0000 <= va <= 0x7fff_ffff)
  }

  /**
   So every reader reads PEAK addresses, even with a 32-bit long, and NU+ ones need a wider long or
   their own parser.
   */
  lemma HalfReadable(arch: Arch, r: Reader, va: Word)
    requires InHalf(arch, va)
    ensures arch.PEAK? && (r.EntryPoint? ==> r.longMax >= 0x7fff_ffff) ==> CanRead(r, va)
    ensures arch.NUP? && r == EntryPoint(0x7fff_ffff) ==> !CanRead(r, va)
    ensures arch.NUP? && (r.EntryPoint? ==> r.longMax >= 0xffff_ffff) ==> CanRead(r, va)
  {
  }

  lemma BufferHalf(w: World, ds: seq<KernelDesc>, bs: seq<Buffer>, es: seq<Event>, i: nat, b: Buffer)
    requires Placed(w, ds, bs, es) && i < |ds| && ds[i].id != 0 && b in bs && Attached(ds[i].id, b)
    ensures b.id in Finished(w, ds, bs, es).kernels[i].buffers
    ensures InHalf(ds[i].arch, Finished(w, ds, bs, es).kernels[i].buffers[b.id])
  {
    hide Finished;
    hide StartOf;
    hide InHalf;
    var p := SoftwareRequest(w, ds, bs, es, i, b);
    StartHalf(ds, BufferRequests(ds, bs), p);
  }

  lemma StartHalf(ds: seq<KernelDesc>, rs: seq<Request<Buffer>>, p: nat)
    requires p < |rs| && rs[p].kernel < |ds| && FitsWindow(ds, rs, rs[p].kernel)
    ensures InHalf(ds[rs[p].kernel].arch, StartOf(ds, rs, p))
  {
    RequestBelow(rs, rs[p].kernel, p);
    StartIs(ds, rs, p);
    hide Used;
    hide StartOf;
  }

  lemma EventHalf(arch: Arch, o: nat)
    requires Mappable(arch) && o <= 0xff_ffff
    ensures InHalf(arch, Add(EventBase(arch), o))
  {
  }

  /**
   When a buffer argument arrives.  A reader reads the word printed for a buffer attached to the kernel
   as the address the kernel was given if and only if it can read that address; and from that address
   every offset of the buffer's memory is reached.
   */
  lemma BufferArrives(w: World, ds: seq<KernelDesc>, bs: seq<Buffer>, es: seq<Event>, i: nat, b: Buffer, r: Reader)
    returns (va: Word, e: nat)
    requires Placed(w, ds, bs, es) && i < |ds| && ds[i].id != 0 && b in bs && Attached(ds[i].id, b)
    ensures b.id in Finished(w, ds, bs, es).kernels[i].buffers && va == Finished(w, ds, bs, es).kernels[i].buffers[b.id]
    ensures Reads(r, Token(BufferArg(b.id, va))) == va <==> CanRead(r, va)
    ensures InHalf(ds[i].arch, va)
    ensures WholeReached(FinalTable(w, ds, bs, es, i), e, va, b)
  {
    BufferHalf(w, ds, bs, es, i, b);
    hide Placed;
    hide WholeReached;
    hide InHalf;
    hide Reads;
    hide CanRead;
    va := Finished(w, ds, bs, es).kernels[i].buffers[b.id];
    ReadsIff(r, BufferArg(b.id, va));
    e := BufferTranslates(w, ds, bs, es, i, b);
  }

  /** When an event argument arrives: likewise, and from the address the event's own register is reached. */
  lemma EventArrives(w: World, ds: seq<KernelDesc>, bs: seq<Buffer>, es: seq<Event>, i: nat, e: Event, r: Reader)
    returns (va: Word)
    requires Placed(w, ds, bs, es) && Closed(ds, bs, es) && Coherent(es)
    requires i < |ds| && ds[i].id != 0 && Mappable(ds[i].arch)
    requires e in es && e.phys <= 0xff_ffff && Concerns(ds[i], e)
    ensures Knows(Finished(w, ds, bs, es), ds, i, e) && va == Finished(w, ds, bs, es).kernels[i].events[e.id]
    ensures Reads(r, Token(EventArg(e.id, va))) == va <==> CanRead(r, va)
    ensures InHalf(ds[i].arch, va)
    ensures ReachesEvent(FinalTable(w, ds, bs, es, i), va, e.phys)
  {
    EventAddressTranslates(w, ds, bs, es, i, e);
    va := Finished(w, ds, bs, es).kernels[i].events[e.id];
    EventHalf(ds[i].arch, e.phys);
    ReadsIff(r, EventArg(e.id, va));
  }

  // ----- the whole command line

  lemma {:induction false} KeptResolved(args: seq<Arg>, k: Kernel)
    requires forall n :: 0 <= n < |args| ==> Known(args[n], k)
    ensures |Kept(ResolvedAll(args, k))| == |Kept(args)|
    ensures forall j :: 0 <= j < |Kept(args)| ==>
              Known(Kept(args)[j], k) && Kept(ResolvedAll(args, k))[j] == Resolved(Kept(args)[j], k)
  {
    if args != [] {
      var n := |args| - 1;
      KeptResolved(args[..n], k);
      assert ResolvedAll(args, k)[..n] == ResolvedAll(args[..n], k);
      assert Recognised(Resolved(args[n], k)) <==> Recognised(args[n]);
    }
  }

  lemma {:induction false} UserWords(k: Kernel, args: seq<Arg>, launch: Launch)
    requires SetupKnown(args, k)
    requires |k.desc.taskEvents| == 3 && (launch.Emulated? ==> OneWord(launch.path))
    ensures var argv, base := Argv(k, args, launch), FirstIndex(launch.Emulated?);
            && |argv| == base + |Kept(args)|
            && forall j :: 0 <= j < |Kept(args)| ==>
                 Known(Kept(args)[j], k) && argv[base + j] == Token(Resolved(Kept(args)[j], k))
  {
    hide OneWord;
    hide Token;
    hide Argv;
    hide Known;
    hide Resolved;
    hide Split;
    hide EmitAll;
    hide Header;
    OwnResolved(k);
    KeptResolved(args, k);
    ArgvIs(k, args, launch);
    var own, user := ResolvedAll(OwnEvents(k.desc), k), ResolvedAll(args, k);
    hide ResolvedAll;
    hide OwnEvents;
    hide SetupKnown;
    ArgumentWords(launch, own, user);
  }

  lemma {:induction false} OwnWords(k: Kernel, args: seq<Arg>, launch: Launch)
    requires SetupKnown(args, k)
    requires |k.desc.taskEvents| == 3 && (launch.Emulated? ==> OneWord(launch.path))
    ensures var argv, base, es := Argv(k, args, launch), FirstIndex(launch.Emulated?), k.desc.taskEvents;
            && |argv| >= base
            && argv[base - 4] == "0x" + Print(k.tlb.events[k.desc.termination.id])
            && argv[base - 3] == "0x" + Print(k.tlb.events[es[0].id])
            && argv[base - 2] == "0x" + Print(k.tlb.events[es[1].id])
            && argv[base - 1] == "0x" + Print(k.tlb.events[es[2].id])
  {
    hide OneWord;
    hide Print;
    hide Argv;
    hide Known;
    hide Resolved;
    hide Split;
    hide EmitAll;
    hide Header;
    OwnResolved(k);
    ArgvIs(k, args, launch);
    var own, user := ResolvedAll(OwnEvents(k.desc), k), ResolvedAll(args, k);
    hide ResolvedAll;
    hide OwnEvents;
    ArgumentWords(launch, own, user);
    assert Token(own[0]) == "0x" + Print(own[0].value) && Token(own[1]) == "0x" + Print(own[1].value);
    assert Token(own[2]) == "0x" + Print(own[2].value) && Token(own[3]) == "0x" + Print(own[3].value);
  }

  lemma {:induction false} ArgvIs(k: Kernel, args: seq<Arg>, launch: Launch)
    requires SetupKnown(args, k)
    ensures forall n :: 0 <= n < |OwnEvents(k.desc)| ==> Known(OwnEvents(k.desc)[n], k)
    ensures Argv(k, args, launch) ==
            Split(EmitAll(Header(launch), ResolvedAll(OwnEvents(k.desc), k) + ResolvedAll(args, k)).text)
  {
    hide Split;
    hide EmitAll;
    hide Header;
    hide Known;
    hide Resolved;
    ListedResolved(k, args);
    ListedResolved(k, []);
    assert Listed(k, []) == OwnEvents(k.desc);
  }

  /**
   The words of a kernel's command line: for the j-th argument of the caller that is kept, word base+j
   is that argument with the value the kernel's table has for it; before the base stand the table's
   addresses of the termination event and of the three task events, in this order.
   */
  lemma {:induction false} CommandLineWords(k: Kernel, args: seq<Arg>, launch: Launch)
    requires SetupKnown(args, k)
    requires |k.desc.taskEvents| == 3 && (launch.Emulated? ==> OneWord(launch.path))
    ensures var argv, base, es := Argv(k, args, launch), FirstIndex(launch.Emulated?), k.desc.taskEvents;
            && |argv| == base + |Kept(args)|
            && (forall j :: 0 <= j < |Kept(args)| ==>
                  Known(Kept(args)[j], k) && argv[base + j] == Token(Resolved(Kept(args)[j], k)))
            && argv[base - 4] == "0x" + Print(k.tlb.events[k.desc.termination.id])
            && argv[base - 3] == "0x" + Print(k.tlb.events[es[0].id])
            && argv[base - 2] == "0x" + Print(k.tlb.events[es[1].id])
            && argv[base - 1] == "0x" + Print(k.tlb.events[es[2].id])
  {
    hide *;
    UserWords(k, args, launch);
    OwnWords(k, args, launch);
  }

  /** Where the device sees an address of its kernel's table: under emulation, inside its memory. */
  function DeviceAddress(va: Word, launch: Launch, longMax: nat, memoryMap: int -> int): int {
    if launch.Emulated? then memoryMap(Clamp(va, longMax)) else Clamp(va, longMax)
  }

  /**
   The device takes its exit, task, barrier and release events from the termination event and the three
   task events of the kernel, saturated to its long.
   */
  lemma {:induction false} DeviceEventsAre(
      k: Kernel, args: seq<Arg>, launch: Launch, longMax: nat, memoryMap: int -> int)
    requires SetupKnown(args, k)
    requires |k.desc.taskEvents| == 3 && (launch.Emulated? ==> OneWord(launch.path))
    ensures var argv, es, own := Argv(k, args, launch), k.desc.taskEvents, k.tlb.events;
            && |argv| >= FirstIndex(launch.Emulated?)
            && var m := InitEvents(argv, launch.Emulated?, longMax, memoryMap);
               && m.exit == DeviceAddress(own[k.desc.termination.id], launch, longMax, memoryMap)
               && m.task == DeviceAddress(own[es[0].id], launch, longMax, memoryMap)
               && m.barrier == DeviceAddress(own[es[1].id], launch, longMax, memoryMap)
               && m.release == DeviceAddress(own[es[2].id], launch, longMax, memoryMap)
  {
    hide Argv;
    hide Strtol16;
    hide OneWord;
    CommandLineWords(k, args, launch);
    forall v: nat ensures Strtol16("0x" + Print(v), longMax) == Clamp(v, longMax) {
      StrtolReadsPrinted(v, longMax);
    }
  }

  /** The reader reads the word as `va` if and only if it can. */
  predicate ReadAs(r: Reader, word: string, arch: Arch, va: Word) {
    InHalf(arch, va) && (Reads(r, word) == va <==> CanRead(r, va))
  }

  /** What a word means to kernel `i` for the argument `a`: the address it stands for, and what is there. */
  ghost predicate Delivered(
      w: World, ds: seq<KernelDesc>, bs: seq<Buffer>, es: seq<Event>, i: nat, a: Arg, word: string, r: Reader)
    requires Named(w, ds, bs, es) && i < |ds|
  {
    match a
    case BufferArg(id, _) =>
      exists b, va: Word, e :: b in bs && b.id == id
        && WholeReached(FinalTable(w, ds, bs, es, i), e, va, b) && ReadAs(r, word, ds[i].arch, va)
    case EventArg(id, _) =>
      exists ev, va: Word :: ev in es && ev.id == id
        && ReachesEvent(FinalTable(w, ds, bs, es, i), va, ev.phys) && ReadAs(r, word, ds[i].arch, va)
    case ScalarArg(v) => Reads(r, word) == v <==> (r.EntryPoint? ==> v <= r.longMax)
    case OtherArg(_) => false
  }

  lemma BufferWord(w: World, ds: seq<KernelDesc>, bs: seq<Buffer>, es: seq<Event>, i: nat, a: Arg, va: Word, r: Reader)
    requires Placed(w, ds, bs, es) && i < |ds| && ds[i].id != 0 && a.BufferArg?
    requires exists b :: b in bs && b.id == a.id && Attached(ds[i].id, b)
    requires a.id in Finished(w, ds, bs, es).kernels[i].buffers
    requires va == Finished(w, ds, bs, es).kernels[i].buffers[a.id]
    ensures Delivered(w, ds, bs, es, i, a, Token(BufferArg(a.id, va)), r)
  {
    hide Placed;
    hide Reads;
    hide InHalf;
    hide WholeReached;
    PlacedNamed(w, ds, bs, es);
    var b :| b in bs && b.id == a.id && Attached(ds[i].id, b);
    var va', e := BufferArrives(w, ds, bs, es, i, b, r);
    assert WholeReached(FinalTable(w, ds, bs, es, i), e, va, b);
    assert ReadAs(r, Token(BufferArg(a.id, va)), ds[i].arch, va);
  }

  lemma EventWord(w: World, ds: seq<KernelDesc>, bs: seq<Buffer>, es: seq<Event>, i: nat, a: Arg, va: Word, r: Reader)
    requires Placed(w, ds, bs, es) && Closed(ds, bs, es) && Coherent(es) && i < |ds| && ds[i].id != 0 && a.EventArg?
    requires Mappable(ds[i].arch) && forall e :: e in es ==> e.phys <= 0xff_ffff
    requires exists e :: e in es && e.id == a.id && Concerns(ds[i], e)
    requires a.id in Finished(w, ds, bs, es).kernels[i].events && va == Finished(w, ds, bs, es).kernels[i].events[a.id]
    ensures Delivered(w, ds, bs, es, i, a, Token(EventArg(a.id, va)), r)
  {
    hide Placed;
    hide Reads;
    hide InHalf;
    hide ReachesEvent;
    hide Finished;
    hide FinalTable;
    hide Closed;
    hide Coherent;
    hide Token;
    PlacedNamed(w, ds, bs, es);
    var e :| e in es && e.id == a.id && Concerns(ds[i], e);
    var va' := EventArrives(w, ds, bs, es, i, e, r);
    assert ReachesEvent(FinalTable(w, ds, bs, es, i), va, e.phys);
    assert ReadAs(r, Token(EventArg(a.id, va)), ds[i].arch, va);
  }

  lemma PlacedNamed(w: World, ds: seq<KernelDesc>, bs: seq<Buffer>, es: seq<Event>)
    requires Placed(w, ds, bs, es)
    ensures Named(w, ds, bs, es) && UniqueIds(ds)
  {
  }

  lemma SuitableOne(d: KernelDesc, bs: seq<Buffer>, es: seq<Event>, a: Arg)
    requires Suitable(d, bs, es, [a])
    ensures a.BufferArg? ==> exists b :: b in bs && b.id == a.id && Attached(d.id, b)
    ensures a.EventArg? ==> exists e :: e in es && e.id == a.id && Concerns(d, e)
  {
    assert [a][0] == a;
  }

  /** `a'` is `a` with the value a kernel's table has for it. */
  predicate Valued(view: KernelView, a: Arg, a': Arg) {
    match a
    case BufferArg(id, _) => id in view.buffers && a' == BufferArg(id, view.buffers[id])
    case EventArg(id, _) => id in view.events && a' == EventArg(id, view.events[id])
    case _ => a' == a
  }

  lemma WordDelivered(
      w: World, ds: seq<KernelDesc>, bs: seq<Buffer>, es: seq<Event>, i: nat, a: Arg, a': Arg, r: Reader)
    requires Placed(w, ds, bs, es) && Closed(ds, bs, es) && Coherent(es)
    requires i < |ds| && ds[i].id != 0 && Mappable(ds[i].arch)
    requires Suitable(ds[i], bs, es, [a]) && Recognised(a) && Valued(Finished(w, ds, bs, es).kernels[i], a, a')
    requires forall e :: e in es ==> e.phys <= 0xff_ffff
    ensures Delivered(w, ds, bs, es, i, a, Token(a'), r)
  {
    PlacedNamed(w, ds, bs, es);
    SuitableOne(ds[i], bs, es, a);
    hide Placed;
    hide Closed;
    hide Coherent;
    hide Finished;
    hide Token;
    hide Suitable;
    hide Attached;
    hide Concerns;
    hide Delivered;
    match a
    case BufferArg(id, _) => BufferWord(w, ds, bs, es, i, a, a'.value, r);
    case EventArg(id, _) => EventWord(w, ds, bs, es, i, a, a'.value, r);
    case ScalarArg(v) => ScalarWord(w, ds, bs, es, i, v, r);
  }

  lemma ScalarWord(w: World, ds: seq<KernelDesc>, bs: seq<Buffer>, es: seq<Event>, i: nat, v: Word, r: Reader)
    requires Named(w, ds, bs, es) && i < |ds|
    ensures Delivered(w, ds, bs, es, i, ScalarArg(v), Token(ScalarArg(v)), r)
  {
    match r
    case EntryPoint(longMax) => StrtolExactIff(v, longMax);
    case NuplusParser => AtoxReadsPrinted(v);
  }

  lemma ResolvedValued(k: Kernel, view: KernelView, a: Arg)
    requires k.tlb.buffers == view.buffers && k.tlb.events == view.events && Known(a, k)
    ensures Valued(view, a, Resolved(a, k))
  {
  }

  /**
   What a word means to a kernel, for an event of the protocol: the address of that event's own
   register, which is reached from there, and which the reader reads right exactly when it can.
   */
  ghost predicate Registers(t: Table, arch: Arch, e: Event, word: string, r: Reader) {
    exists va: Word :: ReachesEvent(t, va, e.phys) && word == "0x" + Print(va) && ReadAs(r, word, arch, va)
  }

  lemma OwnArrives(
      w: World, ds: seq<KernelDesc>, k: Kernel, bs: seq<Buffer>, es: seq<Event>, i: nat, e: Event, r: Reader)
    requires Placed(w, ds, bs, es) && Closed(ds, bs, es) && Coherent(es)
    requires i < |ds| && k.View() == Finished(w, ds, bs, es).kernels[i]
    requires ds[i].id != 0 && Mappable(ds[i].arch) && e in es && e.phys <= 0xff_ffff && Concerns(ds[i], e)
    ensures Named(w, ds, bs, es) && e.id in k.tlb.events
    ensures Registers(FinalTable(w, ds, bs, es, i), ds[i].arch, e, "0x" + Print(k.tlb.events[e.id]), r)
  {
    PlacedNamed(w, ds, bs, es);
    hide Placed;
    hide Closed;
    hide Coherent;
    hide Finished;
    hide FinalTable;
    hide ReachesEvent;
    hide InHalf;
    var va := EventArrives(w, ds, bs, es, i, e, r);
    assert Token(EventArg(e.id, va)) == "0x" + Print(va);
    hide Reads;
    hide CanRead;
    hide Print;
    assert ReadAs(r, "0x" + Print(va), ds[i].arch, va);
  }

  /** An argument known to the kernel and suitable for it is delivered by the word printed for it. */
  lemma {:induction false} OneArrives(
      w: World, ds: seq<KernelDesc>, k: Kernel, bs: seq<Buffer>, es: seq<Event>, i: nat, a: Arg, r: Reader)
    requires Placed(w, ds, bs, es) && Closed(ds, bs, es) && Coherent(es)
    requires i < |ds| && k.desc == ds[i] && k.View() == Finished(w, ds, bs, es).kernels[i]
    requires ds[i].id != 0 && Mappable(ds[i].arch)
    requires Suitable(ds[i], bs, es, [a]) && Recognised(a) && Known(a, k)
    requires forall e :: e in es ==> e.phys <= 0xff_ffff
    ensures Named(w, ds, bs, es)
    ensures Delivered(w, ds, bs, es, i, a, Token(Resolved(a, k)), r)
  {
    hide Delivered;
    hide Valued;
    hide Known;
    hide Resolved;
    hide Suitable;
    hide Closed;
    hide Coherent;
    hide Finished;
    hide Token;
    PlacedNamed(w, ds, bs, es);
    hide Placed;
    ResolvedValued(k, Finished(w, ds, bs, es).kernels[i], a);
    WordDelivered(w, ds, bs, es, i, a, Resolved(a, k), r);
  }

  /**
   End to end.  For a kernel of a mapped graph with three task events and suitable arguments: split the
   kernel's argument string, and word base+j delivers the j-th of the caller's arguments that are kept,
   a buffer or event at an address from which its own memory or register is reached, which the reader
   reads right exactly when it can, or a scalar, likewise.  The four words before the base are, in this
   order, the addresses of the registers of the termination event and of the three task events.
   */
  lemma {:induction false} ArgumentsArrive(
      w: World, ds: seq<KernelDesc>, k: Kernel, bs: seq<Buffer>, es: seq<Event>, i: nat, args: seq<Arg>,
      launch: Launch, r: Reader)
    requires Placed(w, ds, bs, es) && Closed(ds, bs, es) && Coherent(es)
    requires i < |ds| && k.desc == ds[i] && k.View() == Finished(w, ds, bs, es).kernels[i]
    requires ds[i].id != 0 && Mappable(ds[i].arch)
    requires Suitable(ds[i], bs, es, args) && |ds[i].taskEvents| == 3
    requires forall e :: e in es ==> e.phys <= 0xff_ffff
    requires launch.Emulated? ==> OneWord(launch.path)
    ensures SetupKnown(args, k)
    ensures var argv, base := Argv(k, args, launch), FirstIndex(launch.Emulated?);
            && |argv| == base + |Kept(args)|
            && (forall j :: 0 <= j < |Kept(args)| ==> Delivered(w, ds, bs, es, i, Kept(args)[j], argv[base + j], r))
            && Registers(FinalTable(w, ds, bs, es, i), ds[i].arch, ds[i].termination, argv[base - 4], r)
            && Registers(FinalTable(w, ds, bs, es, i), ds[i].arch, ds[i].taskEvents[0], argv[base - 3], r)
            && Registers(FinalTable(w, ds, bs, es, i), ds[i].arch, ds[i].taskEvents[1], argv[base - 2], r)
            && Registers(FinalTable(w, ds, bs, es, i), ds[i].arch, ds[i].taskEvents[2], argv[base - 1], r)
  {
    hide Argv;
    hide Placed;
    hide Delivered;
    hide Registers;
    hide Finished;
    hide Token;
    hide Print;
    hide OneWord;
    PlacedNamed(w, ds, bs, es);
    SetupReady(w, ds, k, bs, es, i, args);
    CommandLineWords(k, args, launch);
    OwnArrives(w, ds, k, bs, es, i, ds[i].termination, r);
    OwnArrives(w, ds, k, bs, es, i, ds[i].taskEvents[0], r);
    OwnArrives(w, ds, k, bs, es, i, ds[i].taskEvents[1], r);
    OwnArrives(w, ds, k, bs, es, i, ds[i].taskEvents[2], r);
    hide Closed;
    hide Suitable;
    forall j | 0 <= j < |Kept(args)|
      ensures Delivered(w, ds, bs, es, i, Kept(args)[j], Token(Resolved(Kept(args)[j], k)), r)
    {
      KeptSuitable(ds[i], bs, es, args, j);
      OneArrives(w, ds, k, bs, es, i, Kept(args)[j], r);
    }
  }

  lemma {:induction false} KeptSuitable(d: KernelDesc, bs: seq<Buffer>, es: seq<Event>, args: seq<Arg>, j: nat)
    requires Suitable(d, bs, es, args) && j < |Kept(args)|
    ensures Suitable(d, bs, es, [Kept(args)[j]])
  {
    var n := |args| - 1;
    if j < |Kept(args[..n])| {
      KeptSuitable(d, bs, es, args[..n], j);
    }
  }

  lemma RegisterReached(t: Table, e: Event, word: string, longMax: nat)
    requires longMax >= 0x7fff_ffff
    ensures Registers(t, PEAK, e, word, EntryPoint(longMax)) ==>
              Strtol16(word, longMax) >= 0 && ReachesEvent(t, Strtol16(word, longMax), e.phys)
  {
    hide ReachesEvent;
    hide Strtol16;
    hide Print;
  }

  lemma {:induction false} InitReaches(
      t: Table, d: KernelDesc, argv: seq<string>, longMax: nat, memoryMap: int -> int)
    requires longMax >= 0x7fff_ffff && |argv| >= 5 && |d.taskEvents| == 3
    ensures && Registers(t, PEAK, d.termination, argv[1], EntryPoint(longMax))
            && Registers(t, PEAK, d.taskEvents[0], argv[2], EntryPoint(longMax))
            && Registers(t, PEAK, d.taskEvents[1], argv[3], EntryPoint(longMax))
            && Registers(t, PEAK, d.taskEvents[2], argv[4], EntryPoint(longMax)) ==>
              FindsEvents(t, d, InitEvents(argv, false, longMax, memoryMap))
  {
    hide Registers;
    hide ReachesEvent;
    hide Strtol16;
    RegisterReached(t, d.termination, argv[1], longMax);
    RegisterReached(t, d.taskEvents[0], argv[2], longMax);
    RegisterReached(t, d.taskEvents[1], argv[3], longMax);
    RegisterReached(t, d.taskEvents[2], argv[4], longMax);
  }

  /** From the device's four addresses the registers of the kernel's four events are reached, each from its own. */
  ghost predicate FindsEvents(t: Table, d: KernelDesc, m: DeviceEvents) {
    && |d.taskEvents| == 3 && m.exit >= 0 && m.task >= 0 && m.barrier >= 0 && m.release >= 0
    && ReachesEvent(t, m.exit, d.termination.phys)
    && ReachesEvent(t, m.task, d.taskEvents[0].phys)
    && ReachesEvent(t, m.barrier, d.taskEvents[1].phys)
    && ReachesEvent(t, m.release, d.taskEvents[2].phys)
  }

  /**
   The protocol's registers.  On a PEAK tile, `mango_init` finds the kernel's exit, task, barrier and
   release events at addresses from which the registers of the termination event and of the three task
   events are reached.
   */
  lemma {:induction false} PeakEventsReached(
      w: World, ds: seq<KernelDesc>, k: Kernel, bs: seq<Buffer>, es: seq<Event>, i: nat, args: seq<Arg>,
      longMax: nat, memoryMap: int -> int)
    requires Placed(w, ds, bs, es) && Closed(ds, bs, es) && Coherent(es)
    requires i < |ds| && k.desc == ds[i] && k.View() == Finished(w, ds, bs, es).kernels[i]
    requires ds[i].id != 0 && ds[i].arch.PEAK? && longMax >= 0x7fff_ffff
    requires Suitable(ds[i], bs, es, args) && |ds[i].taskEvents| == 3
    requires forall e :: e in es ==> e.phys <= 0xff_ffff
    ensures SetupKnown(args, k) && |Argv(k, args, Placeholder)| >= 5
    ensures var m := InitEvents(Argv(k, args, Placeholder), false, longMax, memoryMap);
            FindsEvents(FinalTable(w, ds, bs, es, i), ds[i], m)
  {
    hide Argv;
    hide Placed;
    hide Delivered;
    hide Registers;
    hide Finished;
    hide FinalTable;
    hide FindsEvents;
    hide InitEvents;
    PlacedNamed(w, ds, bs, es);
    ArgumentsArrive(w, ds, k, bs, es, i, args, Placeholder, EntryPoint(longMax));
    hide Closed;
    hide Coherent;
    hide Suitable;
    hide SetupKnown;
    hide Named;
    InitReaches(FinalTable(w, ds, bs, es, i), ds[i], Argv(k, args, Placeholder), longMax, memoryMap);
  }

  // ----- the parameters of the kernel

  /** `v` is a pointer to `va`, from where the whole of the buffer is reached, if the long can hold `va`. */
  ghost predicate PointsAt(
      t: Table, e: nat, va: Word, b: Buffer, longMax: nat, memoryMap: int -> int, v: ParamValue)
  {
    WholeReached(t, e, va, b) && (va <= longMax ==> v == Pointer(memoryMap(va)))
  }

  /** `v` is an event at `va`, from where the event's own register is reached, if the long can hold `va`. */
  ghost predicate NamesEvent(t: Table, va: Word, ev: Event, longMax: nat, memoryMap: int -> int, v: ParamValue) {
    ReachesEvent(t, va, ev.phys) && (va <= longMax ==> v == EventAt(memoryMap(va)))
  }

  /**
   What a parameter of kernel `i` holds for the argument `a`: a pointer to the buffer's whole memory, an
   event on its own register, or the number itself, as far as the device's long can hold the word.
   */
  ghost predicate Conveys(
      w: World, ds: seq<KernelDesc>, bs: seq<Buffer>, es: seq<Event>, i: nat, a: Arg, p: Param,
      longMax: nat, memoryMap: int -> int, v: ParamValue)
    requires Named(w, ds, bs, es) && i < |ds|
  {
    match a
    case BufferArg(id, _) =>
      p.PointerParam? ==> exists b, va, e ::
        b in bs && b.id == id && PointsAt(FinalTable(w, ds, bs, es, i), e, va, b, longMax, memoryMap, v)
    case EventArg(id, _) =>
      p.EventParam? ==> exists ev, va ::
        ev in es && ev.id == id && NamesEvent(FinalTable(w, ds, bs, es, i), va, ev, longMax, memoryMap, v)
    case ScalarArg(u) => p.IntegerParam? && u <= longMax ==> v == Number(u)
    case OtherArg(_) => false
  }

  lemma DeliveredConveys(
      w: World, ds: seq<KernelDesc>, bs: seq<Buffer>, es: seq<Event>, i: nat, a: Arg, p: Param,
      word: string, longMax: nat, memoryMap: int -> int, v: ParamValue)
    requires Named(w, ds, bs, es) && i < |ds|
    requires Delivered(w, ds, bs, es, i, a, word, EntryPoint(longMax)) && Suits(p, word, longMax, memoryMap, v)
    ensures Conveys(w, ds, bs, es, i, a, p, longMax, memoryMap, v)
  {
    hide Named;
    hide WholeReached;
    hide ReachesEvent;
    hide FinalTable;
    hide Strtol16;
    hide InHalf;
    var r := EntryPoint(longMax);
    match a
    case BufferArg(id, _) =>
      var b, va: Word, e :| b in bs && b.id == id
        && WholeReached(FinalTable(w, ds, bs, es, i), e, va, b) && ReadAs(r, word, ds[i].arch, va);
      if p.PointerParam? {
        assert PointsAt(FinalTable(w, ds, bs, es, i), e, va, b, longMax, memoryMap, v);
      }
    case EventArg(id, _) =>
      var ev, va: Word :| ev in es && ev.id == id
        && ReachesEvent(FinalTable(w, ds, bs, es, i), va, ev.phys) && ReadAs(r, word, ds[i].arch, va);
      if p.EventParam? {
        assert NamesEvent(FinalTable(w, ds, bs, es, i), va, ev, longMax, memoryMap, v);
      }
    case _ =>
  }

  /**
   From the host's argument to the kernel's parameter.  For any parameter list that the generator has
   bound: parameter j is assigned once, and the value it is assigned from the kernel's own command line
   is what the j-th of the caller's arguments that are kept stands for.
   */
  lemma {:induction false} ParametersArrive(
      w: World, ds: seq<KernelDesc>, k: Kernel, bs: seq<Buffer>, es: seq<Event>, i: nat, args: seq<Arg>,
      launch: Launch, params: seq<Param>, out: seq<Binding>, longMax: nat, memoryMap: int -> int, j: nat)
    returns (n: nat)
    requires Placed(w, ds, bs, es) && Closed(ds, bs, es) && Coherent(es)
    requires i < |ds| && k.desc == ds[i] && k.View() == Finished(w, ds, bs, es).kernels[i]
    requires ds[i].id != 0 && Mappable(ds[i].arch)
    requires Suitable(ds[i], bs, es, args) && |ds[i].taskEvents| == 3
    requires forall e :: e in es ==> e.phys <= 0xff_ffff
    requires launch.Emulated? ==> OneWord(launch.path)
    requires Bound(out, params, |params|, launch.Emulated?)
    requires j < |Kept(args)| && j < |params| && params[j] != UnknownParam
    ensures SetupKnown(args, k) && n < |out| && out[n].param == j && out[n].argv < |Argv(k, args, launch)|
    ensures forall m :: 0 <= m < |out| && out[m].param == j ==> m == n
    ensures Conveys(w, ds, bs, es, i, Kept(args)[j], params[j], longMax, memoryMap,
                  ValueGiven(out[n], Argv(k, args, launch), longMax, memoryMap))
  {
    hide Argv;
    hide Placed;
    hide Delivered;
    hide Registers;
    hide Finished;
    hide Conveys;
    hide Suits;
    hide ValueGiven;
    PlacedNamed(w, ds, bs, es);
    ArgumentsArrive(w, ds, k, bs, es, i, args, launch, EntryPoint(longMax));
    hide Closed;
    hide Coherent;
    hide Suitable;
    n :| 0 <= n < |out| && out[n].param == j;
    assert Binds(out[n], params, launch.Emulated?);
    var argv := Argv(k, args, launch);
    var word := argv[FirstIndex(launch.Emulated?) + j];
    DeliveredConveys(w, ds, bs, es, i, Kept(args)[j], params[j], word, longMax, memoryMap,
                   ValueGiven(out[n], argv, longMax, memoryMap));
  }

  /** An `int` argument of the host is the same `int` in the kernel, where the long can hold its 32 bits. */
  lemma IntArrives(
      w: World, ds: seq<KernelDesc>, bs: seq<Buffer>, es: seq<Event>, i: nat, x: int, p: Param,
      longMax: nat, memoryMap: int -> int, v: ParamValue)
    requires Named(w, ds, bs, es) && i < |ds| && -0x8000_0000 <= x < 0x8000_0000
    requires p == IntegerParam && Conveys(w, ds, bs, es, i, ScalarArg(x % WORD), p, longMax, memoryMap, v)
    requires longMax >= 0xffff_ffff || (longMax >= 0x7fff_ffff && x >= 0)
    ensures v.Number? && ToInt(v.value) == x
  {
    ToIntFromInt(x);
  }
}
