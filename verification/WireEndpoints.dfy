/** The two ends of the wire in the form the source gives them: objects whose tables are updated
    call by call. Each method is tied to the step WireSystem describes. */
module WireEndpoints {
  import opened Wrappers
  import NB = NativeBuffer
  import opened WireModel
  import opened WireSystem

  // ----- Client -----

  class WireClient {
    var mObjects: seq<ClientSlot>
    var mFreeIds: seq<nat>
    var mCurrentId: nat
    /** What was written to the command buffer so far. */
    var mSent: seq<Command>

    ghost function Model(): Client
      reads this
    {
      Client(mObjects, mFreeIds, mCurrentId)
    }

    constructor ()
      ensures Model() == START.client && mSent == []
    {
      mObjects := [NULL_CLIENT_SLOT];
      mFreeIds := [];
      mCurrentId := 1;
      mSent := [];
    }

    method GetNewId() returns (id: nat)
      modifies `mFreeIds, `mCurrentId
      ensures id == old(NewId(Model()))
      ensures mFreeIds == if old(mFreeIds) == [] then [] else old(mFreeIds)[..|old(mFreeIds)| - 1]
      ensures mCurrentId == if old(mFreeIds) == [] then (old(mCurrentId) + 1) % U32_RANGE else old(mCurrentId)
    {
      if |mFreeIds| == 0 {
        id := mCurrentId;
        mCurrentId := (mCurrentId + 1) % U32_RANGE;
      } else {
        id := mFreeIds[|mFreeIds| - 1];
        mFreeIds := mFreeIds[..|mFreeIds| - 1];
      }
    }

    /** Creation of a buffer: `ObjectAllocator::New` and the command that carries its result. */
    method CreateBuffer() returns (id: nat)
      requires AllocatorValid(Model())
      modifies this
      ensures Model() == AllocateObject(old(Model()))
      ensures id == old(NewId(Model())) && id < |mObjects|
      ensures mSent == old(mSent) + [Command.CreateBuffer(id, mObjects[id].serial)]
    {
      NewIdIsFree(Model());
      id := GetNewId();
      var object' := Some(ClientBuffer(1, map[], 0, None));
      if id >= |mObjects| {
        assert id == |mObjects|;
        mObjects := mObjects + [ClientSlot(0, object', {}, multiset{})];
      } else {
        assert mObjects[id].buffer.None?;
        mObjects := mObjects[id := mObjects[id].(serial := (mObjects[id].serial + 1) % U32_RANGE, buffer := object')];
      }
      mSent := mSent + [Command.CreateBuffer(id, mObjects[id].serial)];
    }

    /** Fires the callback of every outstanding request and forgets the requests. */
    method ClearMapRequests(id: nat)
      requires IsObject(Model(), id)
      modifies `mObjects
      ensures var c := old(mObjects)[id];
              mObjects == old(mObjects)[id := c.(buffer := Some(c.buffer.value.(requests := map[])),
                                                 answered := c.answered + multiset(Outstanding(c)))]
    {
      var c := mObjects[id];
      var requests := c.buffer.value.requests;
      var answered := c.answered;
      ghost var fired: set<RequestKey> := {};
      var left := requests.Keys;
      while left != {}
        invariant left <= requests.Keys
        invariant fired == set rs | rs in requests && rs !in left :: (c.serial, rs)
        invariant answered == c.answered + multiset(fired)
        decreases left
      {
        var rs :| rs in left;
        answered := answered + multiset{(c.serial, rs)};
        left := left - {rs};
        assert (c.serial, rs) !in fired;
        fired := fired + {(c.serial, rs)};
      }
      assert fired == Outstanding(c);
      mObjects := mObjects[id := c.(buffer := Some(c.buffer.value.(requests := map[])), answered := answered)];
    }

    method ReferenceBuffer(id: nat)
      requires IsObject(Model(), id)
      modifies `mObjects
      ensures Model() == WithSlot(old(Model()), id, ReferenceObject(old(mObjects)[id]))
    {
      var b := mObjects[id].buffer.value;
      mObjects := mObjects[id := mObjects[id].(buffer := Some(b.(refcount := (b.refcount + 1) % U32_RANGE)))];
    }

    method ReleaseBuffer(id: nat)
      requires IsObject(Model(), id) && mObjects[id].buffer.value.refcount < U32_RANGE
      modifies this
      ensures Model() == ReleaseInTable(old(Model()), id)
      ensures mSent == old(mSent) + ReleaseCommands(old(mObjects)[id], id)
    {
      var b := mObjects[id].buffer.value;
      var refcount := (b.refcount + U32_RANGE - 1) % U32_RANGE;
      if refcount > 0 {
        mObjects := mObjects[id := mObjects[id].(buffer := Some(b.(refcount := refcount)))];
        return;
      }
      mSent := mSent + [DestroyBuffer(id)];
      mFreeIds := mFreeIds + [id];
      ClearMapRequests(id);
      mObjects := mObjects[id := mObjects[id].(buffer := None)];
    }

    method BufferMapAsync(id: nat, start: nat, size: nat, isWrite: bool)
      requires IsObject(Model(), id)
      modifies this
      ensures Model() == WithSlot(old(Model()), id, MapObject(old(mObjects)[id], size, isWrite))
      ensures mSent == old(mSent) + MapCommands(old(mObjects)[id], id, start, size, isWrite)
    {
      var c := mObjects[id];
      var serial := c.buffer.value.requestSerial;
      mObjects := mObjects[id := c.(buffer := Some(c.buffer.value.(
        requests := c.buffer.value.requests[serial := MapRequest(size, isWrite)],
        requestSerial := (serial + 1) % U32_RANGE)),
        issued := c.issued + {(c.serial, serial)})];
      mSent := mSent + [Command.BufferMapAsync(id, serial, start, size, isWrite)];
    }

    /** `ProxyClientBufferUnmap`. */
    method BufferUnmap(id: nat)
      requires IsObject(Model(), id)
      modifies this
      ensures Model() == WithSlot(old(Model()), id, UnmapObject(old(mObjects)[id]))
      ensures mSent == old(mSent) + UnmapCommands(old(mObjects)[id], id)
    {
      var m := mObjects[id].buffer.value.mapped;
      if HasPointer(m) {
        if m.value.isWrite {
          var source := Mapping(mObjects[id].serial, m.value.requestSerial, m.value.size);
          mSent := mSent + [BufferUpdateMappedData(id, m.value.size, source)];
        }
      }
      ClearMapRequests(id);
      mObjects := mObjects[id := mObjects[id].(buffer := Some(mObjects[id].buffer.value.(mapped := None)))];
      mSent := mSent + [Command.BufferUnmap(id)];
    }

    /** The two handlers of map replies. */
    method HandleMapCallback(r: Return, zeroIsNull: bool) returns (ok: bool)
      requires !r.DeviceErrorCallback?
      modifies `mObjects
      ensures r.id >= |old(mObjects)| ==> ok && mObjects == old(mObjects)
      ensures r.id < |old(mObjects)| ==>
                var handled := HandleReturn(old(mObjects)[r.id], r, zeroIsNull);
                ok == handled.ok && mObjects == old(mObjects)[r.id := handled.slot]
    {
      if r.id >= |mObjects| { return true; }
      var c := mObjects[r.id];
      if c.buffer.None? || c.serial != r.bufferSerial { return true; }
      var b := c.buffer.value;
      if r.requestSerial !in b.requests { return true; }
      var request := b.requests[r.requestSerial];
      if request.isWrite != r.MapWriteCallback? { return false; }
      b := b.(requests := b.requests - {r.requestSerial});
      mObjects := mObjects[r.id := c.(buffer := Some(b))];
      if r.status == NB.Success {
        if r.MapReadCallback? && request.size != r.dataLength { return false; }
        if HasPointer(b.mapped) { return false; }
        var isNull := request.size == 0 && zeroIsNull;
        b := b.(mapped := Some(ClientMapping(r.requestSerial, request.size, request.isWrite, isNull)));
      }
      mObjects := mObjects[r.id := c.(buffer := Some(b),
                                      answered := c.answered + multiset{(c.serial, r.requestSerial)})];
      return true;
    }
  }

  // ----- Server -----

  class WireServer {
    var mKnown: seq<ServerSlot>
    /** What was written to the return buffer so far. */
    var mSent: seq<Return>

    constructor ()
      ensures mKnown == START.known && mSent == []
    {
      mKnown := [NULL_SERVER_SLOT];
      mSent := [];
    }

    /** `KnownObjects::Allocate`: refuses an id in use or too far ahead. */
    method Allocate(id: nat, serial: int) returns (ok: bool)
      modifies `mKnown
      ensures ok <==> id <= |old(mKnown)| && !ServerSlotOf(old(mKnown), id).isAllocated
      ensures !ok ==> mKnown == old(mKnown)
      ensures ok ==>
                var data := HandleCreate(ServerSlotOf(old(mKnown), id), serial, None).slot;
                mKnown == if id < |old(mKnown)| then old(mKnown)[id := data] else old(mKnown) + [data]
    {
      if id > |mKnown| { return false; }
      var data := ServerSlot(true, false, serial, None, NB.NewBuffer(0, false, false), []);
      if id >= |mKnown| {
        mKnown := mKnown + [data];
        return true;
      }
      if mKnown[id].isAllocated { return false; }
      mKnown := mKnown[id := data.(retired := mKnown[id].retired)];
      return true;
    }

    method HandleCreateBuffer(id: nat, serial: int, created: Option<NewNative>) returns (ok: bool)
      modifies this
      ensures var r := HandleInTable(old(mKnown), CreateBuffer(id, serial), created, false);
              ok == r.ok && mKnown == r.known && mSent == old(mSent) + r.sent
    {
      ok := Allocate(id, serial);
      if ok && created.Some? {
        var native := NB.NewBuffer(created.value.size, created.value.canMapRead, created.value.canMapWrite);
        mKnown := mKnown[id := mKnown[id].(isValid := true, native := native)];
      }
    }

    method HandleDestroyBuffer(id: nat, heldElsewhere: bool) returns (ok: bool)
      modifies this
      ensures var r := HandleInTable(old(mKnown), DestroyBuffer(id), None, heldElsewhere);
              ok == r.ok && mKnown == r.known && mSent == old(mSent) + r.sent
    {
      if id == 0 || id >= |mKnown| || !mKnown[id].isAllocated { return false; }
      if mKnown[id].isValid {
        if heldElsewhere {
          mKnown := mKnown[id := mKnown[id].(retired := mKnown[id].retired + [mKnown[id].native])];
        } else {
          mSent := mSent + ToReturns(NB.Destroy(mKnown[id].native));
        }
      }
      mKnown := mKnown[id := mKnown[id].(isAllocated := false)];
      return true;
    }

    method HandleBufferMapAsync(id: nat, requestSerial: nat, start: nat, size: nat, isWrite: bool) returns (ok: bool)
      modifies this
      ensures var r := HandleInTable(old(mKnown), BufferMapAsync(id, requestSerial, start, size, isWrite), None, false);
              ok == r.ok && mKnown == r.known && mSent == old(mSent) + r.sent
    {
      if id >= |mKnown| || !mKnown[id].isAllocated { return false; }
      var u := MapUserdata(id, mKnown[id].serial, requestSerial, size, isWrite);
      if !mKnown[id].isValid {
        mSent := mSent + [ToReturn(NB.Callback(isWrite, NB.Error, u))];
        return true;
      }
      var out := NB.MapAsync(mKnown[id].native, isWrite, start, size, u);
      mKnown := mKnown[id := mKnown[id].(native := out.state)];
      mSent := mSent + (DeviceErrors(out.deviceError) + ToReturns(out.fired));
      return true;
    }

    method HandleBufferUpdateMappedData(id: nat, length: nat, source: Mapping) returns (ok: bool)
      ensures ok == HandleInTable(mKnown, BufferUpdateMappedData(id, length, source), None, false).ok
      ensures var r := HandleInTable(mKnown, BufferUpdateMappedData(id, length, source), None, false);
              r.known == mKnown && r.sent == []
    {
      if id >= |mKnown| || !mKnown[id].isAllocated || !mKnown[id].isValid || mKnown[id].mapped.None?
         || mKnown[id].mapped.value.size != length { return false; }
      return true;
    }

    /** `PreHandleBufferUnmap` and the generic handler behind it. */
    method HandleBufferUnmap(id: nat) returns (ok: bool)
      modifies this
      ensures var r := HandleInTable(old(mKnown), BufferUnmap(id), None, false);
              ok == r.ok && mKnown == r.known && mSent == old(mSent) + r.sent
    {
      if id >= |mKnown| || !mKnown[id].isAllocated { return false; }
      mKnown := mKnown[id := mKnown[id].(mapped := None)];
      if !mKnown[id].isValid { return true; }
      var out := NB.Unmapped(mKnown[id].native);
      mKnown := mKnown[id := mKnown[id].(native := out.state)];
      mSent := mSent + (DeviceErrors(out.deviceError) + ToReturns(out.fired));
      return true;
    }
  }
}
