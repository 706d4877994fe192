/** How a kernel's arguments reach it: looked up and printed by the host, split and parsed by the device. */
module Arguments {
  import opened Words
  import opened Hex
  import Translation
  import MemoryManager

  /** An argument; buffers and events get their value from the kernel's software TLB. */
  datatype Arg =
    | BufferArg(id: Word, value: Word)
    | EventArg(id: Word, value: Word)
    | ScalarArg(value: Word)
    | OtherArg(value: Word)

  /** A string stream: its text, and whether it prints integers in base 16, which once set stays set. */
  datatype Stream = Stream(text: string, hex: bool)

  /** What comes first on the command line: a placeholder, or under emulation the program and the memory size. */
  datatype Launch = Placeholder | Emulated(path: string, memory: nat)

  // ----- looking the addresses up

  ghost predicate Known(a: Arg, k: MemoryManager.Kernel)
    reads k.tlb
  {
    (a.BufferArg? ==> a.id in k.tlb.buffers) && (a.EventArg? ==> a.id in k.tlb.events)
  }

  /** The kernel can look up its own events and the caller's arguments. */
  ghost predicate SetupKnown(arguments: seq<Arg>, k: MemoryManager.Kernel)
    reads k.tlb
  {
    && k.desc.termination.id in k.tlb.events
    && (forall n :: 0 <= n < |k.desc.taskEvents| ==> k.desc.taskEvents[n].id in k.tlb.events)
    && forall n :: 0 <= n < |arguments| ==> Known(arguments[n], k)
  }

  ghost function Resolved(a: Arg, k: MemoryManager.Kernel): Arg
    requires Known(a, k)
    reads k.tlb
  {
    match a
    case BufferArg(id, _) => BufferArg(id, k.tlb.buffers[id])
    case EventArg(id, _) => EventArg(id, k.tlb.events[id])
    case _ => a
  }

  /** The events every kernel is given: the termination event, then the task events. */
  ghost function OwnEvents(d: Translation.KernelDesc): seq<Arg> {
    [EventArg(d.termination.id, 0)] + EventArgs(d.taskEvents)
  }

  /** The kernel's own events, and then the caller's arguments. */
  ghost function Listed(k: MemoryManager.Kernel, arguments: seq<Arg>): seq<Arg> {
    OwnEvents(k.desc) + arguments
  }

  ghost function EventArgs(es: seq<Translation.Event>): (args: seq<Arg>)
    ensures |args| == |es| && forall n :: 0 <= n < |es| ==> args[n] == EventArg(es[n].id, 0)
  {
    seq(|es|, n requires 0 <= n < |es| => EventArg(es[n].id, 0))
  }

  /** The arguments as the device is to get them: each with its value looked up. */
  ghost function ResolvedAll(args: seq<Arg>, k: MemoryManager.Kernel): (r: seq<Arg>)
    requires forall n :: 0 <= n < |args| ==> Known(args[n], k)
    reads k.tlb
    ensures |r| == |args| && forall n :: 0 <= n < |args| ==> r[n] == Resolved(args[n], k)
  {
    if args == [] then [] else ResolvedAll(args[..|args| - 1], k) + [Resolved(args[|args| - 1], k)]
  }

  class KernelArguments {
    var args: seq<Arg>

    constructor ()
      ensures args == []
    {
      args := [];
    }

    /** Arg::set_value, for the argument's own class. */
    method SetValue(a: Arg, kernel: MemoryManager.Kernel) returns (r: Arg)
      requires Known(a, kernel)
      ensures r == Resolved(a, kernel)
    {
      match a {
        case BufferArg(id, _) => r := BufferArg(id, kernel.tlb.buffers[id]);
        case EventArg(id, _) => r := EventArg(id, kernel.tlb.events[id]);
        case _ => r := a;
      }
    }

    /** The first loop of Setup. */
    method AppendEvents(es: seq<Translation.Event>, kernel: MemoryManager.Kernel)
      requires forall n :: 0 <= n < |es| ==> es[n].id in kernel.tlb.events
      modifies this
      ensures args == old(args) + ResolvedAll(EventArgs(es), kernel)
    {
      for n := 0 to |es|
        invariant args == old(args) + ResolvedAll(EventArgs(es)[..n], kernel)
      {
        var r := SetValue(EventArg(es[n].id, 0), kernel);
        args := args + [r];
        assert EventArgs(es)[..n + 1][..n] == EventArgs(es)[..n];
      }
      assert EventArgs(es)[..|es|] == EventArgs(es);
    }

    /** The second loop. */
    method AppendAll(arguments: seq<Arg>, kernel: MemoryManager.Kernel)
      requires forall n :: 0 <= n < |arguments| ==> Known(arguments[n], kernel)
      modifies this
      ensures args == old(args) + ResolvedAll(arguments, kernel)
    {
      for n := 0 to |arguments|
        invariant args == old(args) + ResolvedAll(arguments[..n], kernel)
      {
        var r := SetValue(arguments[n], kernel);
        args := args + [r];
        assert arguments[..n + 1][..n] == arguments[..n];
      }
      assert arguments[..|arguments|] == arguments;
    }

    /** The termination event first, then the task events, then the caller's arguments. */
    method Setup(arguments: seq<Arg>, kernel: MemoryManager.Kernel)
      requires SetupKnown(arguments, kernel)
      modifies this
      ensures var id, es := kernel.desc.termination.id, kernel.desc.taskEvents;
              args == old(args) + [EventArg(id, kernel.tlb.events[id])]
                    + ResolvedAll(EventArgs(es), kernel) + ResolvedAll(arguments, kernel)
    {
      var r := SetValue(EventArg(kernel.desc.termination.id, 0), kernel);
      args := args + [r];
      AppendEvents(kernel.desc.taskEvents, kernel);
      AppendAll(arguments, kernel);
    }

    method GetArguments(launch: Launch) returns (text: string)
      ensures text == EmitAll(Header(launch), args).text
      ensures StartsAs(launch, Split(text))
    {
      var ss := Stream("", false);
      match launch {
        case Placeholder => ss := PutText(ss, "x");
        case Emulated(path, memory) =>
          ss := PutText(ss, path);
          ss := PutNumber(PutText(ss, " 0x").(hex := true), memory);
      }
      assert ss == Header(launch);
      for n := 0 to |args|
        invariant ss == EmitAll(Header(launch), args[..n])
      {
        assert args[..n + 1][..n] == args[..n];
        match args[n] {
          case BufferArg(_, v) => ss := PutNumber(PutText(ss, " 0x").(hex := true), v);
          case EventArg(_, v) => ss := PutNumber(PutText(ss, " 0x").(hex := true), v);
          case ScalarArg(v) => ss := PutNumber(PutText(ss, " "), v);
          case OtherArg(_) =>
        }
      }
      assert args[..|args|] == args;
      text := ss.text;
      HeaderWordsAre(launch, args);
    }
  }

  /** The argument string of a kernel: set up, then printed. */
  method ArgumentString(k: MemoryManager.Kernel, arguments: seq<Arg>, launch: Launch) returns (text: string)
    requires SetupKnown(arguments, k)
    ensures Split(text) == Argv(k, arguments, launch) && StartsAs(launch, Split(text))
  {
    hide Known;
    hide Split;
    hide EmitAll;
    hide Header;
    hide StartsAs;
    hide Recognised;
    ListedResolved(k, arguments);
    ghost var resolved := ResolvedAll(Listed(k, arguments), k);
    var args := new KernelArguments();
    args.Setup(arguments, k);
    assert args.args == resolved;
    text := args.GetArguments(launch);
  }

  /** The words the device is started with. */
  ghost function Argv(k: MemoryManager.Kernel, args: seq<Arg>, launch: Launch): seq<string>
    requires SetupKnown(args, k)
    reads k.tlb
  {
    ListedResolved(k, args);
    Split(EmitAll(Header(launch), ResolvedAll(Listed(k, args), k)).text)
  }

  lemma {:induction false} ResolvedAppend(xs: seq<Arg>, ys: seq<Arg>, k: MemoryManager.Kernel)
    requires forall n :: 0 <= n < |xs| ==> Known(xs[n], k)
    requires forall n :: 0 <= n < |ys| ==> Known(ys[n], k)
    ensures forall n :: 0 <= n < |xs + ys| ==> Known((xs + ys)[n], k)
    ensures ResolvedAll(xs + ys, k) == ResolvedAll(xs, k) + ResolvedAll(ys, k)
  {
    assert forall n :: 0 <= n < |xs| ==> (xs + ys)[n] == xs[n];
    assert forall n :: 0 <= n < |ys| ==> (xs + ys)[|xs| + n] == ys[n];
  }

  /** Everything that is listed can be looked up, and what the lookups give is what Setup appends. */
  lemma ListedResolved(k: MemoryManager.Kernel, args: seq<Arg>)
    requires SetupKnown(args, k)
    ensures var id := k.desc.termination.id;
            ResolvedAll(OwnEvents(k.desc), k) ==
            [EventArg(id, k.tlb.events[id])] + ResolvedAll(EventArgs(k.desc.taskEvents), k)
    ensures forall n :: 0 <= n < |Listed(k, args)| ==> Known(Listed(k, args)[n], k)
    ensures ResolvedAll(Listed(k, args), k) == ResolvedAll(OwnEvents(k.desc), k) + ResolvedAll(args, k)
  {
    ResolvedAppend([EventArg(k.desc.termination.id, 0)], EventArgs(k.desc.taskEvents), k);
    ResolvedAppend(OwnEvents(k.desc), args, k);
  }

  /** An event's argument, once its address is looked up. */
  ghost function LookedUp(k: MemoryManager.Kernel, id: Word): Arg
    requires id in k.tlb.events
    reads k.tlb
  {
    EventArg(id, k.tlb.events[id])
  }

  /** A kernel's own events with their addresses, in order, when it has three task events. */
  lemma OwnResolved(k: MemoryManager.Kernel)
    requires SetupKnown([], k) && |k.desc.taskEvents| == 3
    ensures |OwnEvents(k.desc)| == 4 && forall n :: 0 <= n < 4 ==> Known(OwnEvents(k.desc)[n], k)
    ensures var es := k.desc.taskEvents;
            ResolvedAll(OwnEvents(k.desc), k) ==
            [LookedUp(k, k.desc.termination.id), LookedUp(k, es[0].id), LookedUp(k, es[1].id), LookedUp(k, es[2].id)]
  {
    ListedResolved(k, []);
    var es := k.desc.taskEvents;
    assert OwnEvents(k.desc)[1] == EventArgs(es)[0] && OwnEvents(k.desc)[2] == EventArgs(es)[1];
    assert OwnEvents(k.desc)[3] == EventArgs(es)[2];
  }

  // ----- printing

  function PrintDecimal(v: nat): string {
    if v < 10 then [Digit(v)] else PrintDecimal(v / 10) + [Digit(v % 10)]
  }

  function PutText(ss: Stream, s: string): Stream {
    ss.(text := ss.text + s)
  }

  function PutNumber(ss: Stream, v: nat): Stream {
    PutText(ss, if ss.hex then Print(v) else PrintDecimal(v))
  }

  function Header(launch: Launch): Stream {
    match launch
    case Placeholder => Stream("x", false)
    case Emulated(path, memory) => Stream(path + " 0x" + Print(memory), true)
  }

  function Emit(ss: Stream, a: Arg): Stream {
    match a
    case BufferArg(_, v) => PutNumber(PutText(ss, " 0x").(hex := true), v)
    case EventArg(_, v) => PutNumber(PutText(ss, " 0x").(hex := true), v)
    case ScalarArg(v) => PutNumber(PutText(ss, " "), v)
    case OtherArg(_) => ss
  }

  function EmitAll(ss: Stream, args: seq<Arg>): Stream {
    if args == [] then ss else Emit(EmitAll(ss, args[..|args| - 1]), args[|args| - 1])
  }

  // ----- splitting

  /** The words of a command line, one space between each. */
  function Split(s: string): (words: seq<string>)
    ensures words != []
  {
    if s == "" then [""]
    else
      var n := |s| - 1;
      var words := Split(s[..n]);
      if s[n] == ' ' then words + [""]
      else words[|words| - 1 := words[|words| - 1] + [s[n]]]
  }

  predicate OneWord(s: string) {
    forall k :: 0 <= k < |s| ==> s[k] != ' '
  }

  lemma {:induction false} SplitCounts(s: string)
    ensures |Split(s)| == 1 <==> OneWord(s)
  {
    if s != "" {
      var n := |s| - 1;
      SplitCounts(s[..n]);
      assert OneWord(s) <==> OneWord(s[..n]) && s[n] != ' ';
    }
  }

  lemma {:induction false} SplitAppend(s: string, t: string)
    requires OneWord(t)
    ensures Split(s + " " + t) == Split(s) + [t]
  {
    var u := s + " " + t;
    var n := |u| - 1;
    if t == "" {
      assert u[..n] == s;
    } else {
      var m := |t| - 1;
      SplitAppend(s, t[..m]);
      assert u[..n] == s + " " + t[..m];
      assert t[..m] + [t[m]] == t;
    }
  }

  // ----- the command line a device sees

  predicate Recognised(a: Arg) {
    !a.OtherArg?
  }

  function Token(a: Arg): string {
    if a.ScalarArg? then Print(a.value) else "0x" + Print(a.value)
  }

  lemma PrintedIsWord(v: nat)
    ensures OneWord(Print(v)) && OneWord("0x" + Print(v))
  {
    var s := Print(v);
    assert forall k :: 0 <= k < |s| ==> IsHex(s[k]);
  }

  function TokensOf(args: seq<Arg>): seq<string> {
    if args == [] then [] else TokensOf(args[..|args| - 1]) + [Token(args[|args| - 1])]
  }

  lemma {:induction false} TokensAt(args: seq<Arg>)
    ensures |TokensOf(args)| == |args|
    ensures forall n :: 0 <= n < |args| ==> TokensOf(args)[n] == Token(args[n])
  {
    hide Token;
    if args != [] {
      TokensAt(args[..|args| - 1]);
    }
  }

  lemma EmitText(ss: Stream, a: Arg)
    requires Recognised(a) && (ss.hex || !a.ScalarArg?)
    ensures Emit(ss, a).hex && Emit(ss, a).text == ss.text + " " + Token(a)
  {
    assert ss.text + " 0x" + Print(a.value) == ss.text + " " + ("0x" + Print(a.value));
  }

  lemma EmitToken(ss: Stream, a: Arg)
    requires Recognised(a) && (ss.hex || !a.ScalarArg?)
    ensures Emit(ss, a).hex && Split(Emit(ss, a).text) == Split(ss.text) + [Token(a)]
  {
    EmitText(ss, a);
    PrintedIsWord(a.value);
    SplitAppend(ss.text, Token(a));
  }

  /** In a stream that prints base 16, or when an address comes first, every argument becomes one word. */
  lemma {:induction false} EmitTokens(ss: Stream, args: seq<Arg>)
    requires ss.hex || (args != [] && !args[0].ScalarArg?)
    requires forall n :: 0 <= n < |args| ==> Recognised(args[n])
    ensures args != [] ==> EmitAll(ss, args).hex
    ensures Split(EmitAll(ss, args).text) == Split(ss.text) + TokensOf(args)
    decreases |args|
  {
    hide Emit;
    hide Token;
    hide Split;
    if args != [] {
      var n := |args| - 1;
      if n > 0 {
        EmitTokens(ss, args[..n]);
      }
      EmitToken(EmitAll(ss, args[..n]), args[n]);
    }
  }

  /** Number of words before the first argument: the program, and the memory size under emulation. */
  function HeaderWords(launch: Launch): nat {
    if launch.Emulated? then 2 else 1
  }

  /** The arguments start where the device expects them exactly when the program's path has no space. */
  lemma HeaderSplits(launch: Launch)
    ensures |Split(Header(launch).text)| == HeaderWords(launch) <==> (launch.Emulated? ==> OneWord(launch.path))
  {
    match launch
    case Placeholder => SplitCounts("x");
    case Emulated(path, memory) =>
      SplitCounts(path);
      PrintedIsWord(memory);
      SplitAppend(path, "0x" + Print(memory));
      assert path + " 0x" + Print(memory) == path + " " + ("0x" + Print(memory));
  }

  /**
   The words before the arguments: the placeholder, or under emulation the program, and the size of the
   memory as the device reads it.
   */
  ghost predicate StartsAs(launch: Launch, argv: seq<string>) {
    match launch
    case Placeholder => |argv| >= 1 && argv[0] == "x"
    case Emulated(path, memory) =>
      OneWord(path) ==>
        && |argv| >= 2 && argv[0] == path
        && forall longMax: nat :: Strtol16(argv[1], longMax) == Clamp(memory, longMax)
  }

  lemma {:induction false} DecimalIsWord(v: nat)
    ensures OneWord(PrintDecimal(v))
  {
    if v >= 10 {
      DecimalIsWord(v / 10);
    }
  }

  /** Whatever comes next, the words that are there stay. */
  lemma EmitKeepsWords(ss: Stream, a: Arg)
    ensures Split(ss.text) <= Split(Emit(ss, a).text)
  {
    hide Split;
    if Recognised(a) {
      PrintedIsWord(a.value);
      DecimalIsWord(a.value);
      var word := if a.ScalarArg? && !ss.hex then PrintDecimal(a.value) else Token(a);
      SplitAppend(ss.text, word);
      assert ss.text + " 0x" + Print(a.value) == ss.text + " " + ("0x" + Print(a.value));
      assert Emit(ss, a).text == ss.text + " " + word;
    }
  }

  lemma {:induction false} EmitAllKeepsWords(ss: Stream, args: seq<Arg>)
    ensures Split(ss.text) <= Split(EmitAll(ss, args).text)
  {
    hide Split;
    hide Emit;
    if args != [] {
      var n := |args| - 1;
      EmitAllKeepsWords(ss, args[..n]);
      EmitKeepsWords(EmitAll(ss, args[..n]), args[n]);
    }
  }

  lemma {:induction false} OneWordSplit(s: string)
    requires OneWord(s)
    ensures Split(s) == [s]
  {
    if s != "" {
      var n := |s| - 1;
      OneWordSplit(s[..n]);
      assert s[..n] + [s[n]] == s;
    }
  }

  /** With any arguments, the text starts with the words of the launch. */
  lemma HeaderWordsAre(launch: Launch, args: seq<Arg>)
    ensures StartsAs(launch, Split(EmitAll(Header(launch), args).text))
  {
    hide Split;
    hide EmitAll;
    EmitAllKeepsWords(Header(launch), args);
    match launch
    case Placeholder => OneWordSplit("x");
    case Emulated(path, memory) =>
      if OneWord(path) {
        OneWordSplit(path);
        PrintedIsWord(memory);
        SplitAppend(path, "0x" + Print(memory));
        assert path + " 0x" + Print(memory) == path + " " + ("0x" + Print(memory));
        forall longMax: nat ensures Strtol16("0x" + Print(memory), longMax) == Clamp(memory, longMax) {
          StrtolReadsPrinted(memory, longMax);
        }
      }
  }

  /** argv index of the first user argument in the generated entry point. */
  function FirstIndex(gn: bool): nat {
    if gn then 6 else 5
  }

  /** Arguments of a class the host does not recognise are left out of the text. */
  function Kept(args: seq<Arg>): (kept: seq<Arg>)
    ensures forall n :: 0 <= n < |kept| ==> Recognised(kept[n])
  {
    if args == [] then []
    else
      var n := |args| - 1;
      Kept(args[..n]) + if Recognised(args[n]) then [args[n]] else []
  }

  lemma {:induction false} EmitKept(ss: Stream, args: seq<Arg>)
    ensures EmitAll(ss, args) == EmitAll(ss, Kept(args))
  {
    if args != [] {
      var n := |args| - 1;
      EmitKept(ss, args[..n]);
      if Recognised(args[n]) {
        assert (Kept(args[..n]) + [args[n]])[..|Kept(args[..n])|] == Kept(args[..n]);
      } else {
        assert Kept(args) == Kept(args[..n]);
      }
    }
  }

  lemma {:induction false} KeptAppend(xs: seq<Arg>, ys: seq<Arg>)
    requires forall n :: 0 <= n < |xs| ==> Recognised(xs[n])
    ensures Kept(xs + ys) == xs + Kept(ys)
    decreases |xs| + |ys|
  {
    if ys != [] {
      var n := |ys| - 1;
      assert (xs + ys)[..|xs| + n] == xs + ys[..n];
      KeptAppend(xs, ys[..n]);
    } else if xs != [] {
      var n := |xs| - 1;
      KeptAppend(xs[..n], []);
      assert xs[..n] + [] == xs[..n] && xs + [] == xs;
    }
  }

  /** The words of the command line: those of the header, then one per argument. */
  lemma CommandLine(launch: Launch, args: seq<Arg>)
    requires launch.Emulated? ==> OneWord(launch.path)
    requires args != [] && !args[0].ScalarArg?
    requires forall n :: 0 <= n < |args| ==> Recognised(args[n])
    ensures var argv := Split(EmitAll(Header(launch), args).text);
            && |argv| == HeaderWords(launch) + |args|
            && forall n :: 0 <= n < |args| ==> argv[HeaderWords(launch) + n] == Token(args[n])
  {
    hide Split;
    hide EmitAll;
    hide OneWord;
    hide Header;
    hide TokensOf;
    hide Token;
    HeaderSplits(launch);
    EmitTokens(Header(launch), args);
    TokensAt(args);
  }

  /**
   The words of a kernel's command line, for its termination event and three task events: one for each
   of the user's arguments that are kept, from the base on, and before the base one for each event.
   */
  lemma ArgumentWords(launch: Launch, events: seq<Arg>, user: seq<Arg>)
    requires launch.Emulated? ==> OneWord(launch.path)
    requires |events| == 4 && forall n :: 0 <= n < 4 ==> events[n].EventArg?
    ensures var argv := Split(EmitAll(Header(launch), events + user).text);
            var base, kept := FirstIndex(launch.Emulated?), Kept(user);
            && |argv| == base + |kept|
            && (forall j :: 0 <= j < |kept| ==> argv[base + j] == Token(kept[j]))
            && (forall j :: 0 <= j < 4 ==> argv[base - 4 + j] == Token(events[j]))
  {
    hide EmitAll;
    hide Split;
    hide OneWord;
    hide Token;
    hide Header;
    hide Kept;
    KeptAppend(events, user);
    EmitKept(Header(launch), events + user);
    var args := events + Kept(user);
    CommandLine(launch, args);
    assert forall j :: 0 <= j < |Kept(user)| ==> args[4 + j] == Kept(user)[j];
    assert forall j :: 0 <= j < 4 ==> args[j] == events[j];
  }

  /**
   The round trip.  Split the text and parse word base+j in base 16: it is the j-th of the user's
   arguments that are kept, saturated to the device's long; and the four words before the base are the
   exit, task, barrier and release events.
   */
  lemma ArgumentsRoundTrip(launch: Launch, events: seq<Arg>, user: seq<Arg>, longMax: nat)
    requires launch.Emulated? ==> OneWord(launch.path)
    requires |events| == 4 && forall n :: 0 <= n < 4 ==> events[n].EventArg?
    ensures var argv := Split(EmitAll(Header(launch), events + user).text);
            var base, kept := FirstIndex(launch.Emulated?), Kept(user);
            && |argv| == base + |kept|
            && (forall j :: 0 <= j < |kept| ==> Strtol16(argv[base + j], longMax) == Clamp(kept[j].value, longMax))
            && (forall j :: 0 <= j < 4 ==> Strtol16(argv[base - 4 + j], longMax) == Clamp(events[j].value, longMax))
  {
    hide EmitAll;
    hide Split;
    hide OneWord;
    hide Token;
    hide Strtol16;
    ArgumentWords(launch, events, user);
    forall a ensures Strtol16(Token(a), longMax) == Clamp(a.value, longMax) {
      TokenReads(a, longMax);
    }
  }

  lemma TokenReads(a: Arg, longMax: nat)
    ensures Strtol16(Token(a), longMax) == Clamp(a.value, longMax)
  {
    StrtolReadsPrinted(a.value, longMax);
  }

  // ----- the generated entry point

  /** Kinds of kernel parameter the generator tells apart. */
  datatype Param = PointerParam | EventParam | IntegerParam | FloatParam | DoubleParam | UnknownParam

  /** How a parameter is read: `strtol` in base 16, perhaps mapped into memory, or a float parser. */
  datatype Conversion = MappedLong | MappedEvent | PlainLong | Strtof | Strtod

  /** The assignment emitted for the parameter at `param`. */
  datatype Binding = Binding(param: nat, argv: nat, conversion: Conversion)

  /** What a parameter of the kernel can be given; the float parsers' results are left as the word. */
  datatype ParamValue =
    | Pointer(address: int)
    | EventAt(address: int)
    | Number(value: int)
    | FloatOf(word: string)
    | DoubleOf(word: string)

  /** The value the emitted assignment gives, for the device's long and its `mango_memory_map`. */
  function ValueGiven(b: Binding, argv: seq<string>, longMax: nat, memoryMap: int -> int): ParamValue
    requires b.argv < |argv|
  {
    var word := argv[b.argv];
    match b.conversion
    case MappedLong => Pointer(memoryMap(Strtol16(word, longMax)))
    case MappedEvent => EventAt(memoryMap(Strtol16(word, longMax)))
    case PlainLong => Number(Strtol16(word, longMax))
    case Strtof => FloatOf(word)
    case Strtod => DoubleOf(word)
  }

  /** What a parameter of each type is to hold, when its word is `word`. */
  ghost predicate Suits(p: Param, word: string, longMax: nat, memoryMap: int -> int, v: ParamValue) {
    match p
    case PointerParam => v == Pointer(memoryMap(Strtol16(word, longMax)))
    case EventParam => v == EventAt(memoryMap(Strtol16(word, longMax)))
    case IntegerParam => v == Number(Strtol16(word, longMax))
    case FloatParam => v == FloatOf(word)
    case DoubleParam => v == DoubleOf(word)
    case UnknownParam => false
  }

  /** On every command line, with every long and memory map, the binding gives its parameter its own word's value. */
  ghost predicate Binds(b: Binding, params: seq<Param>, gn: bool) {
    && b.param < |params| && b.argv == FirstIndex(gn) + b.param
    && forall argv: seq<string>, longMax: nat, memoryMap: int -> int :: b.argv < |argv| ==>
         var word := argv[FirstIndex(gn) + b.param];
         Suits(params[b.param], word, longMax, memoryMap, ValueGiven(b, argv, longMax, memoryMap))
  }

  /** Every parameter of a known type is bound once, in order, and no other. */
  ghost predicate Bound(out: seq<Binding>, params: seq<Param>, n: nat, gn: bool)
    requires n <= |params|
  {
    && (forall m :: 0 <= m < |out| ==> out[m].param < n && Binds(out[m], params, gn))
    && (forall p :: 0 <= p < n && params[p] != UnknownParam ==> exists m :: 0 <= m < |out| && out[m].param == p)
    && forall l, m :: 0 <= l < m < |out| ==> out[l].param < out[m].param
  }

  lemma BoundMore(out: seq<Binding>, more: seq<Binding>, params: seq<Param>, p: nat, gn: bool)
    requires p < |params| && Bound(out, params, p, gn)
    requires if params[p] == UnknownParam then more == []
             else |more| == 1 && more[0].param == p && Binds(more[0], params, gn)
    ensures Bound(out + more, params, p + 1, gn)
  {
    hide Binds;
    var all := out + more;
    forall q | 0 <= q < p + 1 && params[q] != UnknownParam ensures exists m :: 0 <= m < |all| && all[m].param == q {
      if q < p {
        var m :| 0 <= m < |out| && out[m].param == q;
        assert all[m].param == q;
      } else {
        assert all[|out|].param == q;
      }
    }
  }

  /** The assignment for one parameter, if its type is known. */
  method BindOne(params: seq<Param>, p: nat, i: nat, gn: bool) returns (out: seq<Binding>)
    requires p < |params| && i == FirstIndex(gn) + p
    ensures if params[p] == UnknownParam then out == []
            else |out| == 1 && out[0].param == p && Binds(out[0], params, gn)
  {
    hide Strtol16;
    match params[p] {
      case PointerParam => out := [Binding(p, i, MappedLong)];
      case EventParam => out := [Binding(p, i, MappedEvent)];
      case IntegerParam => out := [Binding(p, i, PlainLong)];
      case FloatParam => out := [Binding(p, i, Strtof)];
      case DoubleParam => out := [Binding(p, i, Strtod)];
      case UnknownParam => out := [];
    }
  }

  /**
   The generator's loop.  Each parameter of a known type is bound to its own word, in order, and one
   of an unknown type still takes up its place.
   */
  method BindParameters(params: seq<Param>, gn: bool) returns (out: seq<Binding>)
    ensures Bound(out, params, |params|, gn)
  {
    hide Binds;
    var i := 5;
    if gn {
      i := 6;
    }
    out := [];
    for p := 0 to |params|
      invariant i == FirstIndex(gn) + p && Bound(out, params, p, gn)
    {
      var more := BindOne(params, p, i, gn);
      BoundMore(out, more, params, p, gn);
      hide Bound;
      out := out + more;
      i := i + 1;
    }
  }

  /** Where the device finds its exit, task, barrier and release events. */
  datatype DeviceEvents = DeviceEvents(exit: int, task: int, barrier: int, release: int)

  /** `mango_init` of the GN and the PEAK device, the former adding the base of its memory. */
  function InitEvents(argv: seq<string>, gn: bool, longMax: nat, memoryMap: int -> int): DeviceEvents
    requires |argv| >= FirstIndex(gn)
  {
    if gn then
      DeviceEvents(memoryMap(Strtol16(argv[2], longMax)), memoryMap(Strtol16(argv[3], longMax)),
                   memoryMap(Strtol16(argv[4], longMax)), memoryMap(Strtol16(argv[5], longMax)))
    else
      DeviceEvents(Strtol16(argv[1], longMax), Strtol16(argv[2], longMax),
                   Strtol16(argv[3], longMax), Strtol16(argv[4], longMax))
  }

  // ----- signed integers

  /** The value of a C `int` argument as ScalarArg keeps it: converted to uint32_t. */
  function FromInt(x: int): Word
    requires -0x8000_0000 <= x < 0x8000_0000
  {
    if x < 0 then x + WORD else x
  }

  /** Assigning a long to an `int` parameter keeps the low 32 bits. */
  function ToInt(v: int): int {
    var low := v % WORD;
    if low < 0x8000_0000 then low else low - WORD
  }

  /** An `int` comes through a 64-bit long whatever its sign, and through a 32-bit long, which
      saturates, exactly when it is not negative. */
  lemma IntRoundTrip(x: int)
    requires -0x8000_0000 <= x < 0x8000_0000
    ensures ToInt(Strtol16(Print(FromInt(x)), 0x7fff_ffff_ffff_ffff)) == x
    ensures ToInt(Strtol16(Print(FromInt(x)), 0x7fff_ffff)) == x <==> x >= 0
  {
    ReadInt(x, 0x7fff_ffff_ffff_ffff);
    ReadInt(x, 0x7fff_ffff);
    ToIntFromInt(x);
    ToIntFromInt(0x7fff_ffff);
  }

  lemma ToIntFromInt(x: int)
    requires -0x8000_0000 <= x < 0x8000_0000
    ensures ToInt(FromInt(x)) == x
  {
  }

  lemma ReadInt(x: int, longMax: nat)
    requires -0x8000_0000 <= x < 0x8000_0000 && longMax >= 0x7fff_ffff
    ensures Strtol16(Print(FromInt(x)), longMax) == if FromInt(x) > longMax then longMax else FromInt(x)
  {
    StrtolReadsPrinted(FromInt(x), longMax);
  }
}
