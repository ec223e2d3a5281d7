/** Reuse of D3D12 command allocators, src/dawn_native/d3d12/CommandAllocatorManager.cpp, together with
    the serials, the fence and the command queue of src/dawn_native/d3d12/DeviceD3D12.cpp. */
module AllocatorPool {
  import opened Wrappers
  import opened SerialQueues

  const MAX_ALLOCATORS: nat := 32

  /** Allocators by index: the free ones, how many were ever created, and those in flight with the
      serial they were reserved at, in the order of their reservation. */
  datatype Pool = Pool(free: set<nat>, count: nat, inFlight: seq<Entry<nat>>)

  /** Work on the command queue: command lists by their allocators, or a signal of the fence. */
  datatype Work = Executes(lists: set<nat>) | Signals(serial: Serial)

  /** The serial of the next signal, the value the fence has reached, the queue, and the allocators
      of the command lists being recorded: the pending one and the one of a submit. */
  datatype Device = Device(serial: Serial, completed: Serial, queue: seq<Work>, pending: Option<nat>, submit: Option<nat>, pool: Pool)

  function IndicesUpTo(n: nat): (s: set<nat>)
    ensures forall i: nat :: i in s <==> i < n
  {
    if n == 0 then {} else IndicesUpTo(n - 1) + {n - 1}
  }

  function AllIndices(): set<nat> { IndicesUpTo(MAX_ALLOCATORS) }

  /** After creation the fence is at zero and zero is signalled once. */
  const INITIAL: Device := Device(1, 0, [Signals(0)], None, None, Pool(AllIndices(), 0, []))

  // ----- The manager -----

  function Indices(es: seq<Entry<nat>>): set<nat> {
    set e | e in es :: e.value
  }

  function TickPool(pool: Pool, serial: Serial): Pool {
    pool.(free := pool.free + Indices(Below(pool.inFlight, serial)), inFlight := Above(pool.inFlight, serial))
  }

  // ----- The fence -----

  /** The GPU finishes the first piece of work. */
  function GpuStep(d: Device): Device
    requires d.queue != []
  {
    d.(completed := if d.queue[0].Signals? then d.queue[0].serial else d.completed, queue := d.queue[1..])
  }

  /** `WaitForSerial`; nothing if the fence never gets there. */
  function WaitForSerial(d: Device, serial: Serial): Option<Device>
    decreases |d.queue|
  {
    if d.completed >= serial then Some(d)
    else if d.queue == [] then None
    else WaitForSerial(GpuStep(d), serial)
  }

  /** `NextSerial`. */
  function NextSerial(d: Device): Device {
    d.(queue := d.queue + [Signals(d.serial)], serial := d.serial + 1)
  }

  // ----- Reserving -----

  /** A free allocator is taken at the current serial. */
  function TakeFree(d: Device): (Device, nat)
    requires d.pool.free != {}
  {
    var index := Least(d.pool.free);
    var pool := d.pool;
    (d.(pool := Pool(pool.free - {index}, if index >= pool.count then pool.count + 1 else pool.count,
                     pool.inFlight + [Entry(d.serial, index)])),
     index)
  }

  /** `ReserveCommandAllocator`; nothing if it waits forever. */
  function Reserve(d: Device): Option<(Device, nat)> {
    if d.pool.free != {} then Some(TakeFree(d))
    else if d.pool.inFlight == [] then None
    else
      var first := d.pool.inFlight[0].serial;
      match WaitForSerial(d, first)
      case None => None
      case Some(d1) =>
        var d2 := d1.(pool := TickPool(d1.pool, first));
        if d2.pool.free == {} then None else Some(TakeFree(d2))
  }

  // ----- The device -----

  function ToSet(o: Option<nat>): set<nat> {
    if o.Some? then {o.value} else {}
  }

  /** `ExecuteCommandLists` with the pending list in front. */
  function Execute(d: Device, lists: set<nat>): Device {
    d.(queue := d.queue + [Executes(ToSet(d.pending) + lists)], pending := None)
  }

  /** `TickImpl`. */
  function Tick(d: Device): Device {
    NextSerial(Execute(d.(pool := TickPool(d.pool, d.completed)), {}))
  }

  /** What the CPU does in one go, and the GPU finishing a piece of work. */
  datatype Action = OpenPending | TickDevice | BeginSubmit | EndSubmit | Present | GpuProgress

  predicate Enabled(d: Device, a: Action) {
    match a
    case OpenPending => true
    case TickDevice => d.submit.None?
    case BeginSubmit => d.submit.None?
    case EndSubmit => d.submit.Some?
    case Present => d.submit.None?
    case GpuProgress => d.queue != []
  }

  /** `GetPendingCommandList`. */
  function Opened(d: Device): Option<Device> {
    if d.pending.Some? then Some(d)
    else
      match Reserve(d)
      case None => None
      case Some(r) => Some(r.0.(pending := Some(r.1)))
  }

  function Step(d: Device, a: Action): Option<Device>
    requires Enabled(d, a)
  {
    match a
    case OpenPending => Opened(d)
    case TickDevice => Some(Tick(d))
    case BeginSubmit =>
      (match Reserve(Tick(d))
       case None => None
       case Some(r) => Some(r.0.(submit := Some(r.1))))
    case EndSubmit => Some(NextSerial(Execute(d, ToSet(d.submit)).(submit := None)))
    case Present =>
      (match Opened(d)
       case None => None
       case Some(d1) => Some(NextSerial(Execute(d1, {}))))
    case GpuProgress => Some(GpuStep(d))
  }

  // ----- What every run keeps -----

  /** Free and in-flight indices partition the pool, those not yet created are free, and serials do
      not decrease. */
  predicate PoolFits(pool: Pool, serial: Serial) {
    && pool.free !! Indices(pool.inFlight) && pool.free + Indices(pool.inFlight) == AllIndices()
    && (forall i, j :: 0 <= i < j < |pool.inFlight| ==> pool.inFlight[i].value != pool.inFlight[j].value)
    && (forall i, j :: 0 <= i < j < |pool.inFlight| ==> pool.inFlight[i].serial <= pool.inFlight[j].serial)
    && (forall e | e in pool.inFlight :: e.serial <= serial && e.value < pool.count)
    && pool.count <= MAX_ALLOCATORS
  }

  /** Signals come in order, from behind the fence to before the current serial, none missing. */
  predicate SignalsFit(d: Device) {
    && d.completed < d.serial
    && (forall i :: 0 <= i < |d.queue| && d.queue[i].Signals? ==> d.completed <= d.queue[i].serial < d.serial)
    && (forall i, j :: 0 <= i < j < |d.queue| && d.queue[i].Signals? && d.queue[j].Signals? ==> d.queue[i].serial < d.queue[j].serial)
    && (d.serial - 1 == d.completed || Signals(d.serial - 1) in d.queue)
  }

  function Open(d: Device): set<nat> { ToSet(d.pending) + ToSet(d.submit) }

  /** Work on the queue that uses an allocator is in front of the signal of the serial the allocator
      was reserved at. */
  predicate WorkFits(d: Device) {
    forall k, i :: 0 <= k < |d.queue| && d.queue[k].Executes? && i in d.queue[k].lists ==>
      exists e | e in d.pool.inFlight :: e.value == i && d.completed < e.serial < d.serial && SignalsBelow(d.queue[..k], e.serial)
  }

  predicate SignalsBelow(queue: seq<Work>, serial: Serial) {
    forall w | w in queue :: w.Signals? ==> w.serial < serial
  }

  /** The allocators reserved at the current serial are those being recorded with. */
  predicate OpenFits(d: Device) {
    && (d.pending.Some? && d.submit.Some? ==> d.pending != d.submit)
    && (forall e | e in d.pool.inFlight :: e.serial == d.serial <==> e.value in Open(d))
    && Open(d) <= Indices(d.pool.inFlight)
  }

  predicate Inv(d: Device) {
    PoolFits(d.pool, d.serial) && SignalsFit(d) && WorkFits(d) && OpenFits(d)
  }

  /** The CPU records with the allocator, or the GPU may still run commands from it. */
  predicate InUse(d: Device, index: nat) {
    index in Open(d) || exists k :: 0 <= k < |d.queue| && d.queue[k].Executes? && index in d.queue[k].lists
  }

  // ----- Filtering by serial -----

  lemma {:induction false} InBelow(es: seq<Entry<nat>>, serial: Serial, e: Entry<nat>)
    ensures e in Below(es, serial) <==> e in es && e.serial <= serial
    ensures e in Above(es, serial) <==> e in es && e.serial > serial
  {
    if es != [] {
      InBelow(es[1..], serial, e);
      assert e in es <==> e == es[0] || e in es[1..];
    }
  }

  predicate Sorted(es: seq<Entry<nat>>) {
    forall i, j :: 0 <= i < j < |es| ==> es[i].serial <= es[j].serial
  }

  /** A sorted list is cut in two by a serial. */
  lemma SortedCut(es: seq<Entry<nat>>, serial: Serial) returns (k: nat)
    requires Sorted(es)
    ensures k <= |es| && Below(es, serial) == es[..k] && Above(es, serial) == es[k..]
  {
    k := 0;
    while k < |es| && es[k].serial <= serial
      invariant k <= |es| && forall i :: 0 <= i < k ==> es[i].serial <= serial
    {
      k := k + 1;
    }
    assert es == es[..k] + es[k..];
    CutBySerial(es[..k], es[k..], serial);
  }

  // ----- Ticking the manager -----

  /** The entries given back are signalled, so nothing uses their allocators any more. */
  lemma ReleasedUnused(d: Device, serial: Serial, index: nat)
    requires Inv(d) && serial <= d.completed && index in Indices(Below(d.pool.inFlight, serial))
    ensures !InUse(d, index)
  {
    var e :| e in Below(d.pool.inFlight, serial) && e.value == index;
    InBelow(d.pool.inFlight, serial, e);
    assert e.serial != d.serial;
    forall k | 0 <= k < |d.queue| && d.queue[k].Executes? ensures index !in d.queue[k].lists {
      if index in d.queue[k].lists {
        UsedIsNotReached(d, k, e);
      }
    }
  }

  lemma UsedIsNotReached(d: Device, k: nat, e: Entry<nat>)
    requires Inv(d) && k < |d.queue| && d.queue[k].Executes? && e in d.pool.inFlight && e.value in d.queue[k].lists
    ensures d.completed < e.serial
  {
    var e' :| e' in d.pool.inFlight && e'.value == e.value && d.completed < e'.serial < d.serial && SignalsBelow(d.queue[..k], e'.serial);
    SameEntry(d.pool, e, e');
  }

  lemma SameEntry(pool: Pool, e: Entry<nat>, e': Entry<nat>)
    requires forall i, j :: 0 <= i < j < |pool.inFlight| ==> pool.inFlight[i].value != pool.inFlight[j].value
    requires e in pool.inFlight && e' in pool.inFlight && e.value == e'.value
    ensures e == e'
  {
    var i :| 0 <= i < |pool.inFlight| && pool.inFlight[i] == e;
    var j :| 0 <= j < |pool.inFlight| && pool.inFlight[j] == e';
    assert i == j;
  }

  lemma TickKeepsPool(pool: Pool, serial: Serial, current: Serial)
    requires PoolFits(pool, current)
    ensures PoolFits(TickPool(pool, serial), current)
  {
    hide Below, Above, AllIndices, Indices;
    var k := SortedCut(pool.inFlight, serial);
    var low, high := pool.inFlight[..k], pool.inFlight[k..];
    IndicesJoin(pool.inFlight, k);
    IndicesApart(pool, k);
  }

  lemma IndicesJoin(es: seq<Entry<nat>>, k: nat)
    requires k <= |es|
    ensures Indices(es) == Indices(es[..k]) + Indices(es[k..])
    ensures forall e :: e in es <==> e in es[..k] || e in es[k..]
  {
    assert es == es[..k] + es[k..];
  }

  lemma IndicesApart(pool: Pool, k: nat)
    requires forall i, j :: 0 <= i < j < |pool.inFlight| ==> pool.inFlight[i].value != pool.inFlight[j].value
    requires k <= |pool.inFlight|
    ensures Indices(pool.inFlight[..k]) !! Indices(pool.inFlight[k..])
  {
    var low, high := pool.inFlight[..k], pool.inFlight[k..];
    forall e, e' | e in low && e' in high ensures e.value != e'.value {
      var x :| 0 <= x < k && low[x] == e;
      var y :| 0 <= y < |high| && high[y] == e';
      assert pool.inFlight[x] == e && pool.inFlight[k + y] == e';
    }
  }

  lemma TickKeepsInv(d: Device, serial: Serial)
    requires Inv(d) && serial <= d.completed
    ensures Inv(d.(pool := TickPool(d.pool, serial)))
  {
    hide PoolFits;
    TickKeepsPool(d.pool, serial, d.serial);
    var d' := d.(pool := TickPool(d.pool, serial));
    forall e ensures e in d'.pool.inFlight <==> e in d.pool.inFlight && e.serial > serial {
      InBelow(d.pool.inFlight, serial, e);
    }
    forall k, i | 0 <= k < |d'.queue| && d'.queue[k].Executes? && i in d'.queue[k].lists
      ensures exists e | e in d'.pool.inFlight :: e.value == i && d.completed < e.serial < d.serial && SignalsBelow(d'.queue[..k], e.serial)
    {
      var e :| e in d.pool.inFlight && e.value == i && d.completed < e.serial < d.serial && SignalsBelow(d.queue[..k], e.serial);
      assert e in d'.pool.inFlight;
    }
    forall i | i in Open(d) ensures i in Indices(d'.pool.inFlight) {
      var e :| e in d.pool.inFlight && e.value == i;
      assert e in d'.pool.inFlight;
    }
  }

  // ----- The GPU -----

  lemma GpuKeepsSignals(d: Device)
    requires SignalsFit(d) && d.queue != []
    ensures SignalsFit(GpuStep(d)) && d.completed <= GpuStep(d).completed
  {
    var d' := GpuStep(d);
    assert forall i :: 0 <= i < |d'.queue| ==> d'.queue[i] == d.queue[i + 1];
    assert forall w :: w in d.queue <==> w == d.queue[0] || w in d'.queue;
  }

  lemma GpuKeepsInv(d: Device)
    requires Inv(d) && d.queue != []
    ensures Inv(GpuStep(d))
  {
    hide PoolFits, OpenFits, SignalsFit;
    GpuKeepsSignals(d);
    GpuKeepsOthers(d);
    var d' := GpuStep(d);
    forall k, i | 0 <= k < |d'.queue| && d'.queue[k].Executes? && i in d'.queue[k].lists
      ensures exists e | e in d'.pool.inFlight :: e.value == i && d'.completed < e.serial < d'.serial && SignalsBelow(d'.queue[..k], e.serial)
    {
      assert d.queue[k + 1] == d'.queue[k];
      var e :| e in d.pool.inFlight && e.value == i && d.completed < e.serial < d.serial && SignalsBelow(d.queue[..k + 1], e.serial);
      assert d.queue[..k + 1] == [d.queue[0]] + d'.queue[..k];
      assert d.queue[0] in d.queue[..k + 1];
    }
  }

  lemma GpuKeepsOthers(d: Device)
    requires Inv(d) && d.queue != []
    ensures PoolFits(GpuStep(d).pool, GpuStep(d).serial) && OpenFits(GpuStep(d))
  {
  }

  /** The fence reaches every serial that has been signalled. */
  lemma {:induction false} WaitEnds(d: Device, serial: Serial)
    requires Inv(d) && serial < d.serial
    ensures WaitForSerial(d, serial).Some?
    ensures var d' := WaitForSerial(d, serial).value;
            && Inv(d') && d'.completed >= serial && d'.serial == d.serial && d'.pool == d.pool
            && d'.pending == d.pending && d'.submit == d.submit
    decreases |d.queue|
  {
    if d.completed < serial {
      assert d.queue != [];
      GpuKeepsInv(d);
      WaitEnds(GpuStep(d), serial);
    }
  }

  // ----- Reserving -----

  /** Taking a free allocator into the command list that is opened with it. */
  function OpenedWith(d: Device, index: nat, forSubmit: bool): Device {
    if forSubmit then d.(submit := Some(index)) else d.(pending := Some(index))
  }

  lemma InFlightIsCreated(d: Device, index: nat)
    requires PoolFits(d.pool, d.serial) && index in Indices(d.pool.inFlight)
    ensures index < d.pool.count
  {
  }

  lemma TakeKeepsPool(d: Device)
    requires PoolFits(d.pool, d.serial) && d.pool.free != {}
    ensures PoolFits(TakeFree(d).0.pool, d.serial)
  {
    var index := TakeFree(d).1;
    var pool, pool' := d.pool, TakeFree(d).0.pool;
    var one: Entry<nat> := Entry(d.serial, index);
    assert forall e :: e in pool'.inFlight <==> e in pool.inFlight || e == one;
    assert Indices(pool'.inFlight) == Indices(pool.inFlight) + {index};
    assert index <= pool.count by {
      if pool.count < MAX_ALLOCATORS {
        assert pool.count in AllIndices();
        if pool.count in Indices(pool.inFlight) {
          InFlightIsCreated(d, pool.count);
        }
      }
      assert index in AllIndices();
    }
  }

  lemma TakeKeepsInv(d: Device, forSubmit: bool)
    requires Inv(d) && d.pool.free != {} && (if forSubmit then d.submit.None? else d.pending.None?)
    ensures var (d', index) := TakeFree(d); Inv(OpenedWith(d', index, forSubmit))
  {
    hide PoolFits;
    TakeKeepsPool(d);
    TakenIsNew(d);
    var (d1, index) := TakeFree(d);
    var d' := OpenedWith(d1, index, forSubmit);
    var one: Entry<nat> := Entry(d.serial, index);
    assert forall e :: e in d'.pool.inFlight <==> e in d.pool.inFlight || e == one;
    assert Open(d') == Open(d) + {index};
    forall k, i | 0 <= k < |d'.queue| && d'.queue[k].Executes? && i in d'.queue[k].lists
      ensures exists e | e in d'.pool.inFlight :: e.value == i && d.completed < e.serial < d.serial && SignalsBelow(d'.queue[..k], e.serial)
    {
      var e :| e in d.pool.inFlight && e.value == i && d.completed < e.serial < d.serial && SignalsBelow(d.queue[..k], e.serial);
      assert e in d'.pool.inFlight;
    }
  }

  lemma TakenIsNew(d: Device)
    requires Inv(d) && d.pool.free != {}
    ensures var index := TakeFree(d).1;
            index !in Indices(d.pool.inFlight) && (forall e | e in d.pool.inFlight :: e.value != index) && index !in Open(d)
    ensures forall e | e in d.pool.inFlight :: e.value in Indices(d.pool.inFlight)
  {
  }

  /** When no allocator is free, the oldest is not among the at most one being recorded with. */
  lemma OldestIsSignalled(d: Device)
    requires Inv(d) && d.pool.free == {} && (d.pending.None? || d.submit.None?)
    ensures d.pool.inFlight != [] && d.pool.inFlight[0].serial < d.serial
  {
    assert 0 in AllIndices() && 1 in AllIndices();
    var e0 :| e0 in d.pool.inFlight && e0.value == 0;
    var e1 :| e1 in d.pool.inFlight && e1.value == 1;
    assert d.pool.inFlight[0].serial <= e0.serial && d.pool.inFlight[0].serial <= e1.serial;
  }

  lemma OldestIsReleased(d: Device)
    requires PoolFits(d.pool, d.serial) && d.pool.inFlight != []
    ensures TickPool(d.pool, d.pool.inFlight[0].serial).free != {}
  {
    var e := d.pool.inFlight[0];
    InBelow(d.pool.inFlight, e.serial, e);
    assert e.value in Indices(Below(d.pool.inFlight, e.serial));
  }

  lemma InvMeans(d: Device)
    requires Inv(d)
    ensures PoolFits(d.pool, d.serial) && SignalsFit(d)
  {
  }

  /** A reservation always succeeds while at most one command list is open. */
  lemma ReserveSucceeds(d: Device, forSubmit: bool)
    requires Inv(d) && (if forSubmit then d.submit.None? else d.pending.None?)
    ensures Reserve(d).Some?
    ensures var (d', index) := Reserve(d).value; Inv(OpenedWith(d', index, forSubmit))
    ensures var (d', index) := Reserve(d).value; d'.pending == d.pending && d'.submit == d.submit
  {
    hide Inv, TickPool, OpenedWith;
    InvMeans(d);
    if d.pool.free != {} {
      TakeKeepsInv(d, forSubmit);
    } else {
      OldestIsSignalled(d);
      var first := d.pool.inFlight[0].serial;
      WaitEnds(d, first);
      var d1 := WaitForSerial(d, first).value;
      OldestIsReleased(d1);
      TickKeepsInv(d1, first);
      TakeKeepsInv(d1.(pool := TickPool(d1.pool, first)), forSubmit);
    }
  }

  // ----- Executing and signalling -----

  /** All open command lists are executed and the serial is signalled. */
  function CloseAll(d: Device): Device {
    d.(queue := d.queue + [Executes(Open(d)), Signals(d.serial)], serial := d.serial + 1, pending := None, submit := None)
  }

  lemma CloseKeepsSignals(d: Device)
    requires SignalsFit(d)
    ensures SignalsFit(CloseAll(d))
  {
    var d' := CloseAll(d);
    assert d'.queue[|d'.queue| - 1] == Signals(d.serial) && Signals(d.serial) in d'.queue;
  }

  lemma CloseKeepsWork(d: Device)
    requires Inv(d)
    ensures WorkFits(CloseAll(d))
  {
    var d' := CloseAll(d);
    forall k, i | 0 <= k < |d'.queue| && d'.queue[k].Executes? && i in d'.queue[k].lists
      ensures exists e | e in d'.pool.inFlight :: e.value == i && d'.completed < e.serial < d'.serial && SignalsBelow(d'.queue[..k], e.serial)
    {
      if k < |d.queue| {
        assert d'.queue[..k] == d.queue[..k];
        var e :| e in d.pool.inFlight && e.value == i && d.completed < e.serial < d.serial && SignalsBelow(d.queue[..k], e.serial);
      } else {
        assert i in Open(d) && d'.queue[..k] == d.queue;
        var e :| e in d.pool.inFlight && e.value == i;
        assert e.serial == d.serial;
        assert SignalsBelow(d.queue, e.serial);
      }
    }
  }

  lemma CloseKeepsInv(d: Device)
    requires Inv(d)
    ensures Inv(CloseAll(d))
  {
    hide WorkFits, SignalsFit;
    CloseKeepsSignals(d);
    CloseKeepsWork(d);
  }

  lemma ExecuteCloses(d: Device)
    ensures d.submit.None? ==> NextSerial(Execute(d, {})) == CloseAll(d)
    ensures NextSerial(Execute(d, ToSet(d.submit)).(submit := None)) == CloseAll(d)
  {
    assert ToSet(d.pending) + {} == Open(d) || d.submit.Some?;
    assert d.queue + [Executes(Open(d))] + [Signals(d.serial)] == d.queue + [Executes(Open(d)), Signals(d.serial)];
  }

  lemma TickDeviceKeepsInv(d: Device)
    requires Inv(d) && d.submit.None?
    ensures Inv(Tick(d)) && Tick(d).submit.None? && Tick(d).pending.None?
  {
    var d1 := d.(pool := TickPool(d.pool, d.completed));
    TickKeepsInv(d, d.completed);
    ExecuteCloses(d1);
    CloseKeepsInv(d1);
  }

  lemma OpenKeepsInv(d: Device)
    requires Inv(d)
    ensures Opened(d).Some? && Inv(Opened(d).value) && Opened(d).value.submit == d.submit
  {
    if d.pending.None? {
      ReserveSucceeds(d, false);
    }
  }

  // ----- Runs -----

  /** No step waits forever, and every step keeps the invariant. */
  lemma StepKeepsInv(d: Device, a: Action)
    requires Inv(d) && Enabled(d, a)
    ensures Step(d, a).Some? && Inv(Step(d, a).value)
  {
    hide Inv, Reserve, Tick, Opened, CloseAll;
    match a
    case OpenPending => OpenKeepsInv(d);
    case TickDevice => TickDeviceKeepsInv(d);
    case BeginSubmit =>
      TickDeviceKeepsInv(d);
      ReserveSucceeds(Tick(d), true);
    case EndSubmit =>
      ExecuteCloses(d);
      CloseKeepsInv(d);
    case Present =>
      OpenKeepsInv(d);
      ExecuteCloses(Opened(d).value);
      CloseKeepsInv(Opened(d).value);
    case GpuProgress => GpuKeepsInv(d);
  }

  lemma InitialInv()
    ensures Inv(INITIAL)
  {
  }

  /** The device after a run, unless an action is not enabled or waits forever. */
  datatype Outcome = Reached(device: Device) | NotEnabled | WaitsForever

  function Run(d: Device, actions: seq<Action>): Outcome
    decreases |actions|
  {
    if actions == [] then Reached(d)
    else if !Enabled(d, actions[0]) then NotEnabled
    else
      match Step(d, actions[0])
      case None => WaitsForever
      case Some(d') => Run(d', actions[1..])
  }

  lemma {:induction false} RunKeepsInv(d: Device, actions: seq<Action>)
    requires Inv(d)
    ensures Run(d, actions) != WaitsForever && (Run(d, actions).Reached? ==> Inv(Run(d, actions).device))
    decreases |actions|
  {
    if actions != [] && Enabled(d, actions[0]) {
      StepKeepsInv(d, actions[0]);
      RunKeepsInv(Step(d, actions[0]).value, actions[1..]);
    }
  }

  /** In every run, free and in-flight allocators partition the pool, and reserving one never waits
      forever. */
  lemma RunsAreFine(actions: seq<Action>)
    ensures var outcome := Run(INITIAL, actions);
            outcome != WaitsForever && (outcome.Reached? ==> PoolFits(outcome.device.pool, outcome.device.serial))
  {
    InitialInv();
    RunKeepsInv(INITIAL, actions);
  }

  // ----- Resets -----

  /** A tick of the manager in some state, up to a serial. */
  datatype Reset = Reset(device: Device, serial: Serial)

  function ReserveResets(d: Device): seq<Reset> {
    if d.pool.free != {} || d.pool.inFlight == [] then []
    else
      var first := d.pool.inFlight[0].serial;
      match WaitForSerial(d, first)
      case None => []
      case Some(d1) => [Reset(d1, first)]
  }

  /** The ticks in a step. */
  function Resets(d: Device, a: Action): seq<Reset> {
    match a
    case OpenPending => if d.pending.Some? then [] else ReserveResets(d)
    case TickDevice => [Reset(d, d.completed)]
    case BeginSubmit => [Reset(d, d.completed)] + ReserveResets(Tick(d))
    case EndSubmit => []
    case Present => if d.pending.Some? then [] else ReserveResets(d)
    case GpuProgress => []
  }

  /** Every allocator the tick resets has been reached by the fence and is not in use. */
  predicate SafeReset(r: Reset) {
    && (forall e | e in Below(r.device.pool.inFlight, r.serial) :: e.serial <= r.device.completed)
    && (forall i | i in Indices(Below(r.device.pool.inFlight, r.serial)) :: !InUse(r.device, i))
  }

  lemma ReachedIsSafe(d: Device, serial: Serial)
    requires Inv(d) && serial <= d.completed
    ensures SafeReset(Reset(d, serial))
  {
    forall e | e in Below(d.pool.inFlight, serial) ensures e.serial <= d.completed {
      InBelow(d.pool.inFlight, serial, e);
    }
    forall i | i in Indices(Below(d.pool.inFlight, serial)) ensures !InUse(d, i) {
      ReleasedUnused(d, serial, i);
    }
  }

  lemma ReserveResetsAreSafe(d: Device)
    requires Inv(d) && (d.pending.None? || d.submit.None?)
    ensures forall r | r in ReserveResets(d) :: SafeReset(r)
  {
    hide Inv, SafeReset;
    if d.pool.free == {} && d.pool.inFlight != [] {
      OldestIsSignalled(d);
      WaitEnds(d, d.pool.inFlight[0].serial);
      ReachedIsSafe(WaitForSerial(d, d.pool.inFlight[0].serial).value, d.pool.inFlight[0].serial);
    }
  }

  /** In every run, an allocator is reset only after the fence has reached the serial it was reserved
      at, when neither the CPU nor the GPU uses it. */
  lemma RunResetsAreSafe(actions: seq<Action>, a: Action)
    requires Run(INITIAL, actions).Reached? && Enabled(Run(INITIAL, actions).device, a)
    ensures forall r | r in Resets(Run(INITIAL, actions).device, a) :: SafeReset(r)
  {
    hide Inv, SafeReset, Tick;
    InitialInv();
    RunKeepsInv(INITIAL, actions);
    var d := Run(INITIAL, actions).device;
    ReachedIsSafe(d, d.completed);
    match a {
      case OpenPending | Present =>
        if d.pending.None? {
          ReserveResetsAreSafe(d);
        }
      case BeginSubmit =>
        TickDeviceKeepsInv(d);
        ReserveResetsAreSafe(Tick(d));
      case _ =>
    }
  }

  // ----- What a tick gives back -----

  /** After a tick, the allocators in flight are those whose serial the fence has not reached, and the
      free ones are those that were free and those given back. */
  lemma TickGivesBack(d: Device)
    ensures forall e :: e in Tick(d).pool.inFlight <==> e in d.pool.inFlight && e.serial > d.completed
    ensures forall i :: i in Tick(d).pool.free
                        <==> i in d.pool.free || exists e :: e in d.pool.inFlight && e.serial <= d.completed && e.value == i
  {
    forall e ensures e in Tick(d).pool.inFlight <==> e in d.pool.inFlight && e.serial > d.completed {
      InBelow(d.pool.inFlight, d.completed, e);
    }
    var low := Below(d.pool.inFlight, d.completed);
    forall e ensures e in low <==> e in d.pool.inFlight && e.serial <= d.completed {
      InBelow(d.pool.inFlight, d.completed, e);
    }
    assert forall i :: i in Indices(low) <==> exists e :: e in low && e.value == i;
  }

  /** In every run that ends with a tick of the device, nothing is in flight whose serial the fence had
      reached. */
  lemma RunTickGivesBack(actions: seq<Action>)
    requires Run(INITIAL, actions + [TickDevice]).Reached?
    ensures var d := Run(INITIAL, actions + [TickDevice]).device;
            forall i | 0 <= i < |d.pool.inFlight| :: d.pool.inFlight[i].serial > d.completed
  {
    RunAppends(INITIAL, actions, TickDevice);
    TickGivesBack(Run(INITIAL, actions).device);
  }

  lemma {:induction false} RunAppends(d: Device, actions: seq<Action>, a: Action)
    ensures Run(d, actions + [a]).Reached? ==>
              var before := Run(d, actions);
              && before.Reached? && Enabled(before.device, a)
              && Step(before.device, a) == Some(Run(d, actions + [a]).device)
    decreases |actions|
  {
    hide Step, Enabled;
    if actions == [] {
      assert (actions + [a])[1..] == [];
    } else {
      assert (actions + [a])[1..] == actions[1..] + [a];
      if Enabled(d, actions[0]) && Step(d, actions[0]).Some? {
        RunAppends(Step(d, actions[0]).value, actions[1..], a);
      }
    }
  }

  /** The index is in a command list on the queue in front of the signal of the serial it was reserved at. */
  predicate Queued(d: Device, queue: seq<Work>, index: nat) {
    exists e, k, m | e in d.pool.inFlight && 0 <= k < m < |queue| ::
      e.value == index && queue[k].Executes? && index in queue[k].lists && queue[m] == Signals(e.serial)
  }

  lemma CloseQueues(d: Device, pool: Pool, index: nat)
    requires Inv(d) && index in Open(d)
    ensures Queued(d, CloseAll(d.(pool := pool)).queue, index) && Open(CloseAll(d.(pool := pool))) == {}
  {
    var queue := CloseAll(d.(pool := pool)).queue;
    var e :| e in d.pool.inFlight && e.value == index;
    assert e.serial == d.serial;
    assert queue[|d.queue|] == Executes(Open(d)) && queue[|d.queue| + 1] == Signals(e.serial);
  }

  /** In every run, when the device ticks, ends a submit or presents, all command lists that are being
      recorded go to the queue, in front of the signal of the serial their allocators were reserved at. */
  lemma RunQueuesLists(actions: seq<Action>, a: Action, index: nat)
    requires Run(INITIAL, actions).Reached? && a in {TickDevice, EndSubmit, Present} && Enabled(Run(INITIAL, actions).device, a)
    requires index in Open(Run(INITIAL, actions).device)
    ensures var d := Run(INITIAL, actions).device;
            Step(d, a).Some? && Open(Step(d, a).value) == {} && Queued(d, Step(d, a).value.queue, index)
  {
    hide Inv, CloseAll, Queued, TickPool;
    InitialInv();
    RunKeepsInv(INITIAL, actions);
    var d := Run(INITIAL, actions).device;
    var pool := if a.TickDevice? then TickPool(d.pool, d.completed) else d.pool;
    ExecuteCloses(d.(pool := pool));
    CloseQueues(d, pool, index);
  }

  // ----- Destruction -----

  /** The tick in the destructor of the device, which signals the current serial and waits for it first;
      command lists that are still being recorded are not executed before. */
  function DestructionReset(d: Device): Option<Reset> {
    match WaitForSerial(NextSerial(d), d.serial)
    case None => None
    case Some(d') => Some(Reset(d', d'.completed))
  }

  lemma {:induction false} WaitIgnoresPending(d: Device, serial: Serial)
    ensures WaitForSerial(d.(pending := None), serial)
            == match WaitForSerial(d, serial) case None => None case Some(d') => Some(d'.(pending := None))
    ensures WaitForSerial(d, serial).Some? ==> WaitForSerial(d, serial).value.pending == d.pending
    decreases |d.queue|
  {
    if d.completed < serial && d.queue != [] {
      WaitIgnoresPending(GpuStep(d), serial);
    }
  }

  /** Apart from the pending list, signalling once more keeps the invariant. */
  lemma SignalKeepsInv(d: Device)
    requires Inv(d) && d.submit.None?
    ensures Inv(NextSerial(d).(pending := None))
  {
    var d' := NextSerial(d).(pending := None);
    assert Signals(d.serial) in d'.queue by { assert d'.queue[|d.queue|] == Signals(d.serial); }
    forall k, i | 0 <= k < |d'.queue| && d'.queue[k].Executes? && i in d'.queue[k].lists
      ensures exists e | e in d'.pool.inFlight :: e.value == i && d'.completed < e.serial < d'.serial && SignalsBelow(d'.queue[..k], e.serial)
    {
      assert d'.queue[k] == d.queue[k] && d'.queue[..k] == d.queue[..k];
      var e :| e in d.pool.inFlight && e.value == i && d.completed < e.serial < d.serial && SignalsBelow(d.queue[..k], e.serial);
      assert e in d'.pool.inFlight;
    }
  }

  /** The allocator of the pending list is among those reset. */
  lemma PendingIsReset(d: Device, d': Device)
    requires Inv(d) && d.pending.Some? && d'.pool == d.pool && d'.pending == d.pending && d'.completed >= d.serial
    ensures !SafeReset(Reset(d', d'.completed))
  {
    var index := d.pending.value;
    assert index in Open(d) && index in Open(d');
    var e :| e in d.pool.inFlight && e.value == index;
    InBelow(d'.pool.inFlight, d'.completed, e);
    assert index in Indices(Below(d'.pool.inFlight, d'.completed)) && InUse(d', index);
  }

  /** After every run, destruction of the device waits for an end that comes, and resets only allocators
      that are not in use if and only if no pending list is open. */
  lemma DestructionIsSafeExactly(actions: seq<Action>)
    requires Run(INITIAL, actions).Reached? && Run(INITIAL, actions).device.submit.None?
    ensures var d := Run(INITIAL, actions).device;
            DestructionReset(d).Some? && (SafeReset(DestructionReset(d).value) <==> d.pending.None?)
  {
    hide Inv, SafeReset, Run;
    InitialInv();
    RunKeepsInv(INITIAL, actions);
    var d := Run(INITIAL, actions).device;
    SignalKeepsInv(d);
    var quiet := NextSerial(d).(pending := None);
    WaitEnds(quiet, d.serial);
    WaitIgnoresPending(NextSerial(d), d.serial);
    if d.pending.None? {
      ReachedIsSafe(WaitForSerial(quiet, d.serial).value, WaitForSerial(quiet, d.serial).value.completed);
    } else {
      PendingIsReset(d, WaitForSerial(NextSerial(d), d.serial).value);
    }
  }

  /** A run after which destruction resets an allocator that is being recorded with. */
  lemma DestructionWithPendingList()
    ensures Run(INITIAL, [OpenPending]).Reached?
    ensures var reset := DestructionReset(Run(INITIAL, [OpenPending]).device); reset.Some? && !SafeReset(reset.value)
  {
    hide AllIndices;
    InitialInv();
    assert [OpenPending][1..] == [];
    OpenKeepsInv(INITIAL);
    assert Run(INITIAL, [OpenPending]) == Run(Opened(INITIAL).value, []);
    DestructionIsSafeExactly([OpenPending]);
  }
}
