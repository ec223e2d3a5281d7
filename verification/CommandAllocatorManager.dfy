/** The classes behind the pool of command allocators: the device's fence, and the manager with its
    bitset of free allocators and its queue of allocators in flight. */
module CommandAllocatorManager {
  import opened Wrappers
  import opened SerialQueues
  import P = AllocatorPool

  /** Serials and fence of the device, and the work on the command queue. */
  class DeviceFence {
    var serial: Serial
    var completed: Serial
    var queue: seq<P.Work>

    constructor ()
      ensures serial == P.INITIAL.serial && completed == P.INITIAL.completed && queue == P.INITIAL.queue
    {
      serial := 0;
      completed := 0;
      queue := [];
      new;
      NextSerial();
    }

    method NextSerial()
      modifies this
      ensures queue == old(queue) + [P.Signals(old(serial))] && serial == old(serial) + 1 && completed == old(completed)
    {
      queue := queue + [P.Signals(serial)];
      serial := serial + 1;
    }
  }

  class CommandAllocatorManager {
    const device: DeviceFence
    var allocatorCount: nat
    var freeAllocators: set<nat>
    const inFlightCommandAllocators: SerialQueue<nat>

    predicate Valid()
      reads this, device, inFlightCommandAllocators
    {
      && inFlightCommandAllocators.Valid() && inFlightCommandAllocators.Accepts(device.serial)
    }

    /** The device as far as reservations see it. */
    function Value(): P.Device
      reads this, device, inFlightCommandAllocators
    {
      P.Device(device.serial, device.completed, device.queue, None, None,
               P.Pool(freeAllocators, allocatorCount, inFlightCommandAllocators.Contents()))
    }

    constructor (device: DeviceFence)
      ensures Valid() && this.device == device && fresh(inFlightCommandAllocators)
      ensures Value().pool == P.INITIAL.pool
    {
      this.device := device;
      allocatorCount := 0;
      freeAllocators := P.AllIndices();
      inFlightCommandAllocators := new SerialQueue<nat>();
    }

    method Tick(lastCompletedSerial: Serial)
      requires Valid()
      modifies this`freeAllocators, inFlightCommandAllocators
      ensures Valid() && Value() == old(Value()).(pool := P.TickPool(old(Value().pool), lastCompletedSerial))
    {
      ghost var below := Below(inFlightCommandAllocators.Contents(), lastCompletedSerial);
      var indices := inFlightCommandAllocators.IterateUpTo(lastCompletedSerial);
      var i := 0;
      while i < |indices|
        invariant i <= |indices|
        invariant freeAllocators == old(freeAllocators) + (set x | x in indices[..i])
        modifies this`freeAllocators
      {
        freeAllocators := freeAllocators + {indices[i]};
        assert forall x :: x in indices[..i + 1] <==> x in indices[..i] || x == indices[i];
        i := i + 1;
      }
      assert indices[..i] == indices;
      ValuesAreIndices(below);
      inFlightCommandAllocators.ClearUpTo(lastCompletedSerial);
    }

    static lemma {:induction false} ValuesAreIndices(es: seq<Entry<nat>>)
      ensures (set x | x in Values(es)) == P.Indices(es)
    {
      if es != [] {
        ValuesAreIndices(es[1..]);
        assert forall x :: x in Values(es) <==> x == es[0].value || x in Values(es[1..]);
        assert forall e :: e in es <==> e == es[0] || e in es[1..];
        assert P.Indices(es) == {es[0].value} + P.Indices(es[1..]);
      }
    }

    /** `WaitForSerial`. */
    method WaitForSerial(serial: Serial)
      requires P.WaitForSerial(Value(), serial).Some?
      modifies device`completed, device`queue
      ensures P.WaitForSerial(old(Value()), serial) == Some(Value())
    {
      while device.completed < serial
        invariant P.WaitForSerial(Value(), serial) == P.WaitForSerial(old(Value()), serial)
        invariant freeAllocators == old(freeAllocators) && allocatorCount == old(allocatorCount)
        invariant inFlightCommandAllocators.Contents() == old(inFlightCommandAllocators.Contents())
        decreases |device.queue|
      {
        if device.queue[0].Signals? {
          device.completed := device.queue[0].serial;
        }
        device.queue := device.queue[1..];
      }
    }

    /** The caller must not wait forever; it returns the index of the allocator it takes. */
    method ReserveCommandAllocator() returns (index: nat)
      requires Valid() && P.Reserve(Value()).Some?
      modifies this, device`completed, device`queue, inFlightCommandAllocators
      ensures Valid() && P.Reserve(old(Value())) == Some((Value(), index))
    {
      hide P.TickPool, P.WaitForSerial, Ordered;
      if freeAllocators == {} {
        var firstSerial := inFlightCommandAllocators.FirstSerial();
        WaitForSerial(firstSerial);
        Tick(firstSerial);
      }
      index := Least(freeAllocators);
      if index >= allocatorCount {
        allocatorCount := allocatorCount + 1;
      }
      freeAllocators := freeAllocators - {index};
      inFlightCommandAllocators.Enqueue(index, device.serial);
    }
  }
}
