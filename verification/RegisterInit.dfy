/** How the host prepares the event registers before a kernel starts (BBQContext::from_bbque). */
module RegisterInit {
  import opened Words
  import opened Protocol

  /** The synchronisation registers: a read clears, a write overwrites or increments. */
  class RegisterFile {
    var cells: map<Word, Word>
    const store: StoreKind

    constructor (store: StoreKind, cells: map<Word, Word>)
      ensures this.store == store && this.cells == cells
    {
      this.store, this.cells := store, cells;
    }

    function Cell(addr: Word): Word
      reads this
    {
      if addr in cells then cells[addr] else 0
    }

    method Read(addr: Word) returns (v: Word)
      modifies this
      ensures v == old(Cell(addr)) && cells == old(cells)[addr := 0]
    {
      v := Cell(addr);
      cells := cells[addr := 0];
    }

    method Write(addr: Word, v: Word)
      modifies this
      ensures cells == old(cells)[addr := Protocol.Store(store, old(Cell(addr)), v)]
    {
      cells := cells[addr := Protocol.Store(store, Cell(addr), v)];
    }
  }

  /** An event of the application; its place in the event area is set here. */
  class EventCell {
    const id: Word
    var phys: Word

    constructor (id: Word)
      ensures this.id == id && phys == 0
    {
      this.id, phys := id, 0;
    }
  }

  datatype BufferRef = BufferRef(id: Word, event: EventCell)

  /** What the resource manager assigns to an event. */
  datatype Place = Place(id: Word, phys: Word)

  /** Each event is placed once, and no two share a register. */
  ghost predicate DistinctAddresses(places: seq<Place>) {
    forall i, j :: 0 <= i < j < |places| ==> places[i].id != places[j].id && places[i].phys != places[j].phys
  }

  /** The event ids of the list belong to one object each. */
  ghost predicate OneObjectPerId(events: seq<EventCell>) {
    forall e, f :: e in events && f in events && e.id == f.id ==> e == f
  }

  ghost predicate Given(places: seq<Place>, n: nat, id: Word)
    requires n <= |places|
  {
    exists i :: 0 <= i < n && places[i].id == id
  }

  /** The first `n` placed events of the graph know their address and their register reads 0. */
  ghost predicate Cleared(regs: RegisterFile, places: seq<Place>, n: nat, events: seq<EventCell>)
    requires n <= |places|
    reads regs, events
  {
    forall i, e :: 0 <= i < n && e in events && e.id == places[i].id ==>
      e.phys == places[i].phys && regs.Cell(e.phys) == 0
  }

  predicate Lists(events: seq<EventCell>, id: Word) {
    exists e :: e in events && e.id == id
  }

  /** Address `addr` is given to an event of the graph by one of the first `n` places. */
  predicate Touched(places: seq<Place>, n: nat, events: seq<EventCell>, addr: Word)
    requires n <= |places|
  {
    exists i :: 0 <= i < n && places[i].phys == addr && Lists(events, places[i].id)
  }

  /** One turn of the first loop: the graph's list may name an event several times. */
  method ClearEvent(regs: RegisterFile, a: Place, events: seq<EventCell>)
    modifies regs, events
    ensures forall e :: e in events && e.id == a.id ==> e.phys == a.phys && regs.Cell(e.phys) == 0
    ensures forall e :: e in events && e.id != a.id ==> e.phys == old(e.phys)
    ensures forall addr: Word :: addr != a.phys || !Lists(events, a.id) ==> regs.Cell(addr) == old(regs.Cell(addr))
  {
    for k := 0 to |events|
      invariant forall j :: 0 <= j < k && events[j].id == a.id ==> events[j].phys == a.phys && regs.Cell(a.phys) == 0
      invariant forall e :: e in events && e.id != a.id ==> e.phys == old(e.phys)
      invariant forall addr: Word ::
                  addr != a.phys || !Lists(events, a.id) ==> regs.Cell(addr) == old(regs.Cell(addr))
    {
      if events[k].id == a.id {
        assert events[k] in events;
        events[k].phys := a.phys;
        var _ := regs.Read(events[k].phys);
        var value := regs.Read(events[k].phys);
        assert value == 0;
      }
    }
  }

  method ClearEvents(regs: RegisterFile, places: seq<Place>, events: seq<EventCell>)
    requires DistinctAddresses(places)
    modifies regs, events
    ensures Cleared(regs, places, |places|, events)
    ensures forall addr: Word :: !Touched(places, |places|, events, addr) ==> regs.Cell(addr) == old(regs.Cell(addr))
  {
    for n := 0 to |places|
      invariant Cleared(regs, places, n, events)
      invariant forall addr: Word :: !Touched(places, n, events, addr) ==> regs.Cell(addr) == old(regs.Cell(addr))
    {
      ClearEvent(regs, places[n], events);
    }
  }

  /** `e` is the event of one of the buffers. */
  ghost predicate IsBufferEvent(e: EventCell, buffers: seq<BufferRef>) {
    exists b :: b in buffers && b.event == e
  }

  /** No event of the list has its register at `addr`. */
  ghost predicate Foreign(events: seq<EventCell>, addr: Word)
    reads events
  {
    forall e :: e in events ==> e.phys != addr
  }

  /** The register of an event, once the buffers named in `ids` are prepared. */
  ghost predicate Prepared(regs: RegisterFile, ids: seq<Word>, buffers: seq<BufferRef>, events: seq<EventCell>)
    reads regs, events
  {
    forall e :: e in events ==>
      regs.Cell(e.phys) == if exists b :: b in buffers && b.event == e && b.id in ids then WRITE else 0
  }

  ghost predicate DistinctRegisters(events: seq<EventCell>)
    reads events
  {
    forall e, f :: e in events && f in events && e.phys == f.phys ==> e == f
  }

  /** One turn of the second loop: a buffer's event is read twice and set to WRITE. */
  method PrepareBuffer(regs: RegisterFile, id: Word, buffers: seq<BufferRef>, ghost events: seq<EventCell>)
    requires forall b :: b in buffers ==> b.event in events && b.event.phys != 0
    requires DistinctRegisters(events)
    modifies regs
    ensures forall addr: Word :: Foreign(events, addr) ==> regs.Cell(addr) == old(regs.Cell(addr))
    ensures forall e :: e in events ==>
              regs.Cell(e.phys) ==
              if exists b :: b in buffers && b.event == e && b.id == id then WRITE else old(regs.Cell(e.phys))
  {
    for k := 0 to |buffers|
      invariant forall addr: Word :: Foreign(events, addr) ==> regs.Cell(addr) == old(regs.Cell(addr))
      invariant forall e :: e in events ==>
                  regs.Cell(e.phys) ==
                  if exists j :: 0 <= j < k && buffers[j].event == e && buffers[j].id == id then WRITE
                  else old(regs.Cell(e.phys))
    {
      if buffers[k].id == id {
        var et := buffers[k].event;
        assert buffers[k] in buffers;
        assert et.phys != 0;
        var _ := regs.Read(et.phys);
        var value := regs.Read(et.phys);
        assert value == 0;
        regs.Write(et.phys, WRITE);
      }
    }
    forall e | e in events
      ensures (exists j :: 0 <= j < |buffers| && buffers[j].event == e && buffers[j].id == id)
              <==> exists b :: b in buffers && b.event == e && b.id == id
    {
      if b :| b in buffers && b.event == e && b.id == id {
        var j :| 0 <= j < |buffers| && buffers[j] == b;
      }
    }
  }

  method PrepareBuffers(regs: RegisterFile, ids: seq<Word>, buffers: seq<BufferRef>, ghost events: seq<EventCell>)
    requires forall b :: b in buffers ==> b.event in events && b.event.phys != 0
    requires DistinctRegisters(events) && Prepared(regs, [], buffers, events)
    modifies regs
    ensures Prepared(regs, ids, buffers, events)
    ensures forall addr: Word :: Foreign(events, addr) ==> regs.Cell(addr) == old(regs.Cell(addr))
  {
    for n := 0 to |ids|
      invariant forall addr: Word :: Foreign(events, addr) ==> regs.Cell(addr) == old(regs.Cell(addr))
      invariant Prepared(regs, ids[..n], buffers, events)
    {
      PrepareBuffer(regs, ids[n], buffers, events);
      assert forall id :: id in ids[..n + 1] <==> id in ids[..n] || id == ids[n];
    }
    assert ids[..|ids|] == ids;
  }

  /**
   Register initialisation: whatever the registers held, under either kind of write and however
   often the lists repeat an event or a buffer, every buffer's event ends at WRITE and every other
   event of the graph at 0; a register that no event of the graph has keeps its value.
   */
  method FromBbque(regs: RegisterFile, places: seq<Place>, bufferIds: seq<Word>,
                   events: seq<EventCell>, buffers: seq<BufferRef>)
    requires DistinctAddresses(places) && OneObjectPerId(events)
    requires forall e :: e in events ==> Given(places, |places|, e.id)
    requires forall b :: b in buffers ==> b.event in events && b.id in bufferIds
    requires forall b, i :: b in buffers && 0 <= i < |places| && places[i].id == b.event.id ==> places[i].phys != 0
    modifies regs, events
    ensures forall e, i :: e in events && 0 <= i < |places| && places[i].id == e.id ==> e.phys == places[i].phys
    ensures DistinctRegisters(events)
    ensures forall e :: e in events ==> regs.Cell(e.phys) == if IsBufferEvent(e, buffers) then WRITE else 0
    ensures forall addr: Word :: Foreign(events, addr) ==> regs.Cell(addr) == old(regs.Cell(addr))
  {
    ClearEvents(regs, places, events);
    assert forall addr: Word :: Touched(places, |places|, events, addr) ==> !Foreign(events, addr);
    assert DistinctRegisters(events);
    assert Prepared(regs, [], buffers, events);
    PrepareBuffers(regs, bufferIds, buffers, events);
  }

  // ----- the protocol's first state

  /** The registers of a kernel's tasks and of one FIFO buffer, as the protocol sees them. */
  function TaskRegs(regs: RegisterFile, exit: Word, barrier: Word, release: Word, fifo: Word): Regs
    reads regs
  {
    Regs(regs.Cell(exit), regs.Cell(barrier), regs.Cell(release), regs.Cell(fifo))
  }

  /** The stores of `mango_gn_spawn`, which go straight to memory. */
  method Spawn(regs: RegisterFile, exit: Word, barrier: Word, release: Word, range: nat)
    modifies regs
    ensures regs.cells == old(regs.cells)[exit := ToWord(range + 1)][barrier := ToWord(range + 1)][release := 2]
  {
    regs.cells := regs.cells[exit := ToWord(range + 1)];
    regs.cells := regs.cells[barrier := ToWord(range + 1)];
    regs.cells := regs.cells[release := 2];
  }

  /**
   From any register contents, the host's preparation of a graph followed by the spawn of its kernel
   leaves the registers in which the protocol starts, the graph's other events prepared, and the
   registers of other graphs as they were.
   */
  method PrepareAndSpawn(regs: RegisterFile, places: seq<Place>, bufferIds: seq<Word>,
                         events: seq<EventCell>, buffers: seq<BufferRef>,
                         exit: EventCell, barrier: EventCell, release: EventCell, fifo: EventCell, range: nat)
    requires DistinctAddresses(places) && OneObjectPerId(events)
    requires forall e :: e in events ==> Given(places, |places|, e.id)
    requires forall b :: b in buffers ==> b.event in events && b.id in bufferIds
    requires forall b, i :: b in buffers && 0 <= i < |places| && places[i].id == b.event.id ==> places[i].phys != 0
    requires exit in events && barrier in events && release in events && IsBufferEvent(fifo, buffers)
    requires exit != barrier && exit != release && barrier != release
    requires exit != fifo && barrier != fifo && release != fifo
    modifies regs, events
    ensures TaskRegs(regs, exit.phys, barrier.phys, release.phys, fifo.phys) == SpawnRegs(range)
    ensures forall e :: e in events && e != exit && e != barrier && e != release ==>
              regs.Cell(e.phys) == if IsBufferEvent(e, buffers) then WRITE else 0
    ensures forall addr: Word :: Foreign(events, addr) ==> regs.Cell(addr) == old(regs.Cell(addr))
  {
    FromBbque(regs, places, bufferIds, events, buffers);
    assert fifo in events;
    Spawn(regs, exit.phys, barrier.phys, release.phys, range);
  }
}
