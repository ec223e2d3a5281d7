/** Data model and per-object operations of the wire protocol for buffers: what the client
    keeps for one id (generator/templates/dawn_wire/WireClient.cpp), what the server keeps for
    it (generator/templates/dawn_wire/WireServer.cpp), and how each side treats one message.

    Serials of slots are integers; -1 is the serial of a slot that was never used, so that the
    first object of a slot has serial 0 and every later one the next serial. */
module WireModel {
  import opened Wrappers
  import NB = NativeBuffer

  const U32_RANGE: nat := NB.U32_RANGE

  // ----- Messages -----

  /** Identity of one mapping: the request that led to it and its size. It stands for the
      pointer to the mapped memory and for the bytes found there. */
  datatype Mapping = Mapping(bufferSerial: int, requestSerial: nat, size: nat)

  datatype Command =
    | CreateBuffer(id: nat, serial: int)
    | DestroyBuffer(id: nat)
    | BufferMapAsync(id: nat, requestSerial: nat, start: nat, size: nat, isWrite: bool)
    | BufferUpdateMappedData(id: nat, length: nat, source: Mapping)
    | BufferUnmap(id: nat)

  datatype Return =
    | DeviceErrorCallback
    | MapReadCallback(id: nat, bufferSerial: int, requestSerial: nat, status: NB.MapStatus, dataLength: nat)
    | MapWriteCallback(id: nat, bufferSerial: int, requestSerial: nat, status: NB.MapStatus)

  // ----- Client side of one id -----

  datatype MapRequest = MapRequest(size: nat, isWrite: bool)

  /** What the client holds of a mapping. The pointer is null when an allocation of zero bytes
      yields null; to the code that looks like no mapping at all. */
  datatype ClientMapping = ClientMapping(requestSerial: nat, size: nat, isWrite: bool, isNull: bool)

  /** `mappedData` is not null. */
  predicate HasPointer(m: Option<ClientMapping>) { m.Some? && !m.value.isNull }

  datatype ClientBuffer = ClientBuffer(
    refcount: nat,
    requests: map<nat, MapRequest>,
    requestSerial: nat,
    mapped: Option<ClientMapping>)

  /** A request is identified by the serial of its buffer and its own serial. */
  type RequestKey = (int, nat)

  /** One entry of the client's object table. `issued` and `answered` are the history of the
      id: every map request ever made and every map callback ever fired. */
  datatype ClientSlot = ClientSlot(
    serial: int,
    buffer: Option<ClientBuffer>,
    issued: set<RequestKey>,
    answered: multiset<RequestKey>)

  const UNUSED_CLIENT_SLOT := ClientSlot(-1, None, {}, multiset{})

  function Outstanding(c: ClientSlot): set<RequestKey> {
    match c.buffer
    case None => {}
    case Some(b) => set rs | rs in b.requests :: (c.serial, rs)
  }

  /** `ObjectAllocator::New` on the slot it picked. */
  function NewObject(c: ClientSlot): ClientSlot {
    c.(serial := (c.serial + 1) % U32_RANGE, buffer := Some(ClientBuffer(1, map[], 0, None)))
  }

  function ReferenceObject(c: ClientSlot): ClientSlot
    requires c.buffer.Some?
  {
    var b := c.buffer.value;
    c.(buffer := Some(b.(refcount := (b.refcount + 1) % U32_RANGE)))
  }

  /** Whether the next release drops the last reference. */
  predicate LastReference(c: ClientSlot) {
    c.buffer.Some? && c.buffer.value.refcount == 1
  }

  function ReleaseObject(c: ClientSlot): ClientSlot
    requires c.buffer.Some?
  {
    var b := c.buffer.value;
    if LastReference(c) then
      // The destructor of the buffer fires every outstanding map callback.
      c.(buffer := None, answered := c.answered + multiset(Outstanding(c)))
    else
      c.(buffer := Some(b.(refcount := (b.refcount + U32_RANGE - 1) % U32_RANGE)))
  }

  function ReleaseCommands(c: ClientSlot, id: nat): seq<Command> {
    if LastReference(c) then [DestroyBuffer(id)] else []
  }

  function MapObject(c: ClientSlot, size: nat, isWrite: bool): ClientSlot
    requires c.buffer.Some?
  {
    var b := c.buffer.value;
    c.(buffer := Some(b.(requests := b.requests[b.requestSerial := MapRequest(size, isWrite)],
                         requestSerial := (b.requestSerial + 1) % U32_RANGE)),
       issued := c.issued + {(c.serial, b.requestSerial)})
  }

  function MapCommands(c: ClientSlot, id: nat, start: nat, size: nat, isWrite: bool): seq<Command>
    requires c.buffer.Some?
  {
    [BufferMapAsync(id, c.buffer.value.requestSerial, start, size, isWrite)]
  }

  function UnmapObject(c: ClientSlot): ClientSlot
    requires c.buffer.Some?
  {
    c.(buffer := Some(c.buffer.value.(requests := map[], mapped := None)),
       answered := c.answered + multiset(Outstanding(c)))
  }

  function UnmapCommands(c: ClientSlot, id: nat): seq<Command>
    requires c.buffer.Some?
  {
    var m := c.buffer.value.mapped;
    if HasPointer(m) && m.value.isWrite then
      [BufferUpdateMappedData(id, m.value.size, Mapping(c.serial, m.value.requestSerial, m.value.size)),
       BufferUnmap(id)]
    else [BufferUnmap(id)]
  }

  datatype ClientResult = ClientResult(slot: ClientSlot, ok: bool)

  /** `HandleBufferMapReadAsyncCallback` and `HandleBufferMapWriteAsyncCallback`.
      `zeroIsNull` says whether an allocation of zero bytes yields a null pointer. */
  function HandleReturn(c: ClientSlot, r: Return, zeroIsNull: bool): ClientResult
    requires !r.DeviceErrorCallback?
  {
    if c.buffer.None? || c.serial != r.bufferSerial then ClientResult(c, true)
    else
      var b := c.buffer.value;
      if r.requestSerial !in b.requests then ClientResult(c, true)
      else
        var request := b.requests[r.requestSerial];
        if request.isWrite != r.MapWriteCallback? then ClientResult(c, false)
        else
          var erased := b.(requests := b.requests - {r.requestSerial});
          var answered := c.answered + multiset{(c.serial, r.requestSerial)};
          if r.status != NB.Success then
            ClientResult(c.(buffer := Some(erased), answered := answered), true)
          else if (r.MapReadCallback? && request.size != r.dataLength) || HasPointer(b.mapped) then
            ClientResult(c.(buffer := Some(erased)), false)
          else
            var m := ClientMapping(r.requestSerial, request.size, request.isWrite, request.size == 0 && zeroIsNull);
            ClientResult(c.(buffer := Some(erased.(mapped := Some(m))), answered := answered), true)
  }

  // ----- Server side of one id -----

  datatype MapUserdata = MapUserdata(
    bufferId: nat, bufferSerial: int, requestSerial: nat, size: nat, isWrite: bool)

  type Native = NB.State<MapUserdata>

  /** What a successful creation on the native side yields. */
  datatype NewNative = NewNative(size: nat, canMapRead: bool, canMapWrite: bool)

  /** One entry of `KnownObjects`. `native` is the object behind the handle, meaningful when the
      slot is allocated and valid. `retired` holds the native buffers whose id was destroyed
      while something else still referred to them. */
  datatype ServerSlot = ServerSlot(
    isAllocated: bool,
    isValid: bool,
    serial: int,
    mapped: Option<Mapping>,
    native: Native,
    retired: seq<Native>)

  const UNUSED_SERVER_SLOT := ServerSlot(false, false, -1, None, NB.NewBuffer(0, false, false), [])

  datatype ServerResult = ServerResult(slot: ServerSlot, ok: bool, sent: seq<Return>)

  function ToReturn(cb: NB.Callback<MapUserdata>): Return {
    var u := cb.userdata;
    if cb.isWrite then MapWriteCallback(u.bufferId, u.bufferSerial, u.requestSerial, cb.status)
    else MapReadCallback(u.bufferId, u.bufferSerial, u.requestSerial, cb.status,
                         if cb.status == NB.Success then u.size else 0)
  }

  /** At most two callbacks are ever fired at once. */
  function ToReturns(fired: seq<NB.Callback<MapUserdata>>): seq<Return> {
    seq(|fired|, i requires 0 <= i < |fired| => ToReturn(fired[i]))
  }

  function DeviceErrors(deviceError: bool): seq<Return> {
    if deviceError then [DeviceErrorCallback] else []
  }

  /** `KnownObjects::Allocate` on the slot followed by the native creation. */
  function HandleCreate(s: ServerSlot, serial: int, created: Option<NewNative>): ServerResult {
    if s.isAllocated then ServerResult(s, false, [])
    else
      var native := match created
                    case None => NB.NewBuffer(0, false, false)
                    case Some(n) => NB.NewBuffer(n.size, n.canMapRead, n.canMapWrite);
      ServerResult(ServerSlot(true, created.Some?, serial, None, native, s.retired), true, [])
  }

  /** `heldElsewhere` says whether something besides the handle keeps the native buffer alive. */
  function HandleDestroy(s: ServerSlot, id: nat, heldElsewhere: bool): ServerResult {
    if id == 0 || !s.isAllocated then ServerResult(s, false, [])
    else if !s.isValid then ServerResult(s.(isAllocated := false), true, [])
    else if heldElsewhere then ServerResult(s.(isAllocated := false, retired := s.retired + [s.native]), true, [])
    else ServerResult(s.(isAllocated := false), true, ToReturns(NB.Destroy(s.native)))
  }

  function HandleMapAsync(s: ServerSlot, id: nat, requestSerial: nat, start: nat, size: nat, isWrite: bool): ServerResult {
    var u := MapUserdata(id, s.serial, requestSerial, size, isWrite);
    if !s.isAllocated then ServerResult(s, false, [])
    else if !s.isValid then ServerResult(s, true, [ToReturn(NB.Callback(isWrite, NB.Error, u))])
    else
      var out := NB.MapAsync(s.native, isWrite, start, size, u);
      ServerResult(s.(native := out.state), true, DeviceErrors(out.deviceError) + ToReturns(out.fired))
  }

  function HandleUpdateMappedData(s: ServerSlot, length: nat): ServerResult {
    ServerResult(s, s.isAllocated && s.isValid && s.mapped.Some? && s.mapped.value.size == length, [])
  }

  function HandleUnmap(s: ServerSlot): ServerResult {
    if !s.isAllocated then ServerResult(s, false, [])
    else if !s.isValid then ServerResult(s.(mapped := None), true, [])
    else
      var out := NB.Unmapped(s.native);
      ServerResult(s.(mapped := None, native := out.state), true,
                   DeviceErrors(out.deviceError) + ToReturns(out.fired))
  }

  function HandleCommand(s: ServerSlot, cmd: Command, created: Option<NewNative>, heldElsewhere: bool): ServerResult {
    match cmd
    case CreateBuffer(_, serial) => HandleCreate(s, serial, created)
    case DestroyBuffer(id) => HandleDestroy(s, id, heldElsewhere)
    case BufferMapAsync(id, rs, start, size, isWrite) => HandleMapAsync(s, id, rs, start, size, isWrite)
    case BufferUpdateMappedData(_, length, _) => HandleUpdateMappedData(s, length)
    case BufferUnmap(_) => HandleUnmap(s)
  }

  /** `OnMapWriteAsyncCallback` looks the id of the request up again to store the mapping; it
      does not look at the serial. A missing entry is a null dereference. */
  function StoreMapping(s: ServerSlot, fired: seq<NB.Callback<MapUserdata>>): ServerResult
    requires |fired| <= 1
  {
    if fired != [] && fired[0].isWrite && fired[0].status == NB.Success then
      if !s.isAllocated then ServerResult(s, false, [])
      else
        var u := fired[0].userdata;
        ServerResult(s.(mapped := Some(Mapping(u.bufferSerial, u.requestSerial, u.size))), true, ToReturns(fired))
    else ServerResult(s, true, ToReturns(fired))
  }

  /** The backend completes a map command of the buffer the slot names now. */
  function BackendComplete(s: ServerSlot, isWrite: bool, serial: nat, status: NB.MapStatus): ServerResult {
    var out := NB.Complete(s.native, isWrite, serial, status);
    StoreMapping(s.(native := out.state), out.fired)
  }

  /** The backend completes a map command of a buffer whose id was destroyed. */
  function LateComplete(s: ServerSlot, n: nat, isWrite: bool, serial: nat, status: NB.MapStatus): ServerResult
    requires n < |s.retired|
  {
    var out := NB.Complete(s.retired[n], isWrite, serial, status);
    StoreMapping(s.(retired := s.retired[n := out.state]), out.fired)
  }

  /** The last reference to a retired buffer goes away. */
  function LateDestroy(s: ServerSlot, n: nat): ServerResult
    requires n < |s.retired|
  {
    ServerResult(s.(retired := s.retired[..n] + s.retired[n + 1..]), true, ToReturns(NB.Destroy(s.retired[n])))
  }
}
