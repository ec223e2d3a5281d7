/** One id of the wire protocol in isolation: the client slot, the server slot, and the messages
    about that id in the two channels, oldest first. The channels are FIFO, so the messages of
    one id reach the other side in the order they were sent; WireSystem shows that the whole
    protocol is one such lane per id. */
module WireLane {
  import opened Wrappers
  import NB = NativeBuffer
  import opened WireModel

  datatype Lane = Lane(
    id: nat,
    client: ClientSlot,
    commands: seq<Command>,
    server: ServerSlot,
    replies: seq<Return>)

  datatype LaneAction =
    | New
    | Reference
    | Release
    | Map(start: nat, size: nat, isWrite: bool)
    | Unmap
    | Handle(created: Option<NewNative>, heldElsewhere: bool)
    | Complete(isWrite: bool, serial: nat, status: NB.MapStatus)
    | Late(n: nat, isWrite: bool, serial: nat, status: NB.MapStatus)
    | LateFree(n: nat)
    | Receive(zeroIsNull: bool)

  datatype LaneResult = LaneResult(lane: Lane, ok: bool)

  predicate Enabled(l: Lane, a: LaneAction) {
    match a
    case New => l.client.buffer.None?
    case Reference => l.client.buffer.Some?
    case Release => l.client.buffer.Some?
    case Map(_, _, _) => l.client.buffer.Some?
    case Unmap => l.client.buffer.Some?
    case Handle(_, _) => l.commands != []
    case Complete(_, _, _) => l.server.isAllocated && l.server.isValid
    case Late(n, _, _, _) => n < |l.server.retired|
    case LateFree(n) => n < |l.server.retired|
    case Receive(_) => l.replies != [] && !l.replies[0].DeviceErrorCallback?
  }

  /** The messages about one id, without device errors, which name no id. */
  function Own(sent: seq<Return>, id: nat): seq<Return> {
    if sent == [] then []
    else (if !sent[0].DeviceErrorCallback? && sent[0].id == id then [sent[0]] else []) + Own(sent[1..], id)
  }

  function ClientStep(l: Lane, c: ClientSlot, sent: seq<Command>): LaneResult {
    LaneResult(l.(client := c, commands := l.commands + sent), true)
  }

  function ServerStep(l: Lane, r: ServerResult): LaneResult {
    LaneResult(l.(server := r.slot, replies := l.replies + Own(r.sent, l.id)), r.ok)
  }

  function Step(l: Lane, a: LaneAction): LaneResult
    requires Enabled(l, a)
  {
    match a
    case New => ClientStep(l, NewObject(l.client), [CreateBuffer(l.id, NewObject(l.client).serial)])
    case Reference => ClientStep(l, ReferenceObject(l.client), [])
    case Release => ClientStep(l, ReleaseObject(l.client), ReleaseCommands(l.client, l.id))
    case Map(start, size, isWrite) =>
      ClientStep(l, MapObject(l.client, size, isWrite), MapCommands(l.client, l.id, start, size, isWrite))
    case Unmap => ClientStep(l, UnmapObject(l.client), UnmapCommands(l.client, l.id))
    case Handle(created, heldElsewhere) =>
      ServerStep(l.(commands := l.commands[1..]), HandleCommand(l.server, l.commands[0], created, heldElsewhere))
    case Complete(isWrite, serial, status) => ServerStep(l, BackendComplete(l.server, isWrite, serial, status))
    case Late(n, isWrite, serial, status) => ServerStep(l, LateComplete(l.server, n, isWrite, serial, status))
    case LateFree(n) => ServerStep(l, LateDestroy(l.server, n))
    case Receive(zeroIsNull) =>
      var r := HandleReturn(l.client, l.replies[0], zeroIsNull);
      LaneResult(l.(client := r.slot, replies := l.replies[1..]), r.ok)
  }

  /** The one server step the protocol cannot absorb: a write mapping of a buffer whose id was
      already destroyed completes with success and its callback fires. */
  predicate LateWriteSuccess(l: Lane, a: LaneAction)
    requires Enabled(l, a)
  {
    && a.Late? && a.isWrite && a.status == NB.Success
    && NB.Complete(l.server.retired[a.n], true, a.serial, a.status).fired != []
  }

  /** The serial an action takes is the last one before its 32 bits wrap. */
  predicate SerialWraps(l: Lane, a: LaneAction)
    requires Enabled(l, a)
  {
    || (a.New? && l.client.serial + 1 == U32_RANGE)
    || (a.Map? && l.client.buffer.value.requestSerial + 1 == U32_RANGE)
  }

  predicate Admissible(l: Lane, a: LaneAction) {
    Enabled(l, a) && !LateWriteSuccess(l, a) && !SerialWraps(l, a)
  }

  // ----- Both sides agree on the entry of the id -----

  /** Whether an id names an object, and the serial of the last object it named. */
  datatype Entry = Entry(live: bool, serial: int)

  function ClientEntry(c: ClientSlot): Entry { Entry(c.buffer.Some?, c.serial) }

  function ServerEntry(s: ServerSlot): Entry { Entry(s.isAllocated, s.serial) }

  /** What a command does to an entry; None for a command that comes at the wrong time. */
  function Apply(e: Entry, c: Command): Option<Entry> {
    match c
    case CreateBuffer(_, serial) => if !e.live && serial == e.serial + 1 then Some(Entry(true, serial)) else None
    case DestroyBuffer(_) => if e.live then Some(Entry(false, e.serial)) else None
    case _ => if e.live then Some(e) else None
  }

  function Fold(e: Entry, q: seq<Command>): Option<Entry>
    decreases |q|
  {
    if q == [] then Some(e)
    else match Apply(e, q[0])
         case None => None
         case Some(e') => Fold(e', q[1..])
  }

  /** The pending commands lead from the server's entry to the client's. */
  predicate Linked(l: Lane) {
    Fold(ServerEntry(l.server), l.commands) == Some(ClientEntry(l.client))
  }

  predicate HasCreate(q: seq<Command>) { exists i :: 0 <= i < |q| && q[i].CreateBuffer? }

  predicate HasDestroy(q: seq<Command>) { exists i :: 0 <= i < |q| && q[i].DestroyBuffer? }

  lemma {:induction false} FoldAppend(e: Entry, q: seq<Command>, c: Command)
    ensures Fold(e, q + [c]) == (match Fold(e, q) case None => None case Some(f) => Apply(f, c))
    decreases |q|
  {
    if q == [] {
      assert [] + [c] == [c];
      if Apply(e, c).Some? { assert Fold(Apply(e, c).value, []) == Apply(e, c); }
    } else {
      assert (q + [c])[0] == q[0] && (q + [c])[1..] == q[1..] + [c];
      if Apply(e, q[0]).Some? {
        FoldAppend(Apply(e, q[0]).value, q[1..], c);
      }
    }
  }

  /** Serials only grow along a fold, and they grow exactly when an object is created. */
  lemma {:induction false} FoldFacts(e: Entry, q: seq<Command>)
    requires Fold(e, q).Some?
    ensures e.serial <= Fold(e, q).value.serial
    ensures HasCreate(q) ==> e.serial < Fold(e, q).value.serial
    ensures !HasCreate(q) ==> e.serial == Fold(e, q).value.serial
    ensures !HasCreate(q) && Fold(e, q).value.live ==> e.live && !HasDestroy(q)
    decreases |q|
  {
    if q != [] {
      var e' := Apply(e, q[0]).value;
      FoldFacts(e', q[1..]);
      assert forall i :: 1 <= i < |q| ==> q[i] == q[1..][i - 1];
      if HasCreate(q[1..]) {
        var i :| 0 <= i < |q[1..]| && q[1..][i].CreateBuffer?;
        assert q[i + 1].CreateBuffer?;
      }
      assert q[0].CreateBuffer? ==> HasCreate(q);
    }
  }

  // ----- What the two sides know about each other -----

  /** The message ends an epoch of its buffer: the requests made before it cannot be answered
      with a mapping after it. */
  predicate IsMarker(c: Command) { c.CreateBuffer? || c.DestroyBuffer? || c.BufferUnmap? }

  predicate HasMarker(q: seq<Command>) { exists i :: 0 <= i < |q| && IsMarker(q[i]) }

  /** The commands behind the one at `i`. */
  function Rest(q: seq<Command>, i: nat): seq<Command>
    requires i < |q|
  {
    q[i + 1..]
  }

  /** The client still waits for this request. */
  predicate Asked(c: ClientSlot, bufferSerial: int, requestSerial: nat) {
    c.buffer.Some? && bufferSerial == c.serial && requestSerial in c.buffer.value.requests
  }

  /** A request met somewhere outside the client agrees with what the client remembers. */
  predicate Fits(c: ClientSlot, bufferSerial: int, requestSerial: nat, size: nat, isWrite: bool) {
    && bufferSerial <= c.serial
    && (c.buffer.Some? && bufferSerial == c.serial ==> requestSerial < c.buffer.value.requestSerial)
    && (Asked(c, bufferSerial, requestSerial) ==>
          c.buffer.value.requests[requestSerial] == MapRequest(size, isWrite))
  }

  predicate ReplyFits(c: ClientSlot, r: Return) {
    && !r.DeviceErrorCallback?
    && r.bufferSerial <= c.serial
    && (c.buffer.Some? && r.bufferSerial == c.serial ==> r.requestSerial < c.buffer.value.requestSerial)
    && (Asked(c, r.bufferSerial, r.requestSerial) ==>
          var request := c.buffer.value.requests[r.requestSerial];
          && request.isWrite == r.MapWriteCallback?
          && (r.MapReadCallback? && r.status == NB.Success ==> r.dataLength == request.size))
  }

  predicate RepliesFit(l: Lane) {
    forall k :: 0 <= k < |l.replies| ==> ReplyFits(l.client, l.replies[k])
  }

  predicate UserdataFits(l: Lane, u: MapUserdata, isWrite: bool) {
    && u.bufferId == l.id && u.isWrite == isWrite
    && u.bufferSerial == l.server.serial
    && Fits(l.client, u.bufferSerial, u.requestSerial, u.size, u.isWrite)
  }

  predicate Bound(s: ServerSlot) { s.isAllocated && s.isValid }

  predicate NativeFits(l: Lane) {
    Bound(l.server) ==>
      && NB.Valid(l.server.native)
      && (l.server.native.readRequest.Some? ==> UserdataFits(l, l.server.native.readRequest.value, false))
      && (l.server.native.writeRequest.Some? ==> UserdataFits(l, l.server.native.writeRequest.value, true))
  }

  /** A retired buffer holds requests of an earlier object of the id. */
  predicate Stale(l: Lane, u: MapUserdata, isWrite: bool) {
    && u.bufferId == l.id && u.isWrite == isWrite
    && u.bufferSerial <= l.server.serial
    && (l.server.isAllocated ==> u.bufferSerial < l.server.serial)
  }

  predicate RetiredFits(l: Lane, b: Native) {
    && NB.Valid(b)
    && (b.readRequest.Some? ==> Stale(l, b.readRequest.value, false))
    && (b.writeRequest.Some? ==> Stale(l, b.writeRequest.value, true))
  }

  predicate RetiredFit(l: Lane) {
    forall n :: 0 <= n < |l.server.retired| ==> RetiredFits(l, l.server.retired[n])
  }

  /** A pending map command of the object the client has now is outstanding exactly when no
      marker follows it. */
  predicate CommandFits(c: ClientSlot, q: seq<Command>, i: nat)
    requires i < |q|
  {
    q[i].BufferMapAsync? && c.buffer.Some? && !HasCreate(Rest(q, i)) ==>
      && q[i].requestSerial < c.buffer.value.requestSerial
      && (q[i].requestSerial in c.buffer.value.requests <==> !HasMarker(Rest(q, i)))
      && (!HasMarker(Rest(q, i)) ==>
            c.buffer.value.requests[q[i].requestSerial] == MapRequest(q[i].size, q[i].isWrite))
  }

  predicate CommandsFit(l: Lane) {
    forall i :: 0 <= i < |l.commands| ==> CommandFits(l.client, l.commands, i)
  }

  /** The buffer counts as mapped and no callback is pending. */
  predicate Settled(s: ServerSlot) {
    && Bound(s) && s.native.isMapped
    && s.native.readRequest.None? && s.native.writeRequest.None?
  }

  /** A pending update is followed by the unmap it was sent with, comes before any other marker,
      and finds the mapping its bytes come from. */
  predicate UpdateFits(l: Lane, i: nat)
    requires i < |l.commands|
  {
    l.commands[i].BufferUpdateMappedData? ==>
      && i + 1 < |l.commands| && l.commands[i + 1].BufferUnmap?
      && !HasMarker(l.commands[..i])
      && Settled(l.server)
      && l.server.mapped == Some(l.commands[i].source)
      && l.commands[i].length == l.commands[i].source.size
  }

  predicate UpdatesFit(l: Lane) {
    forall i :: 0 <= i < |l.commands| ==> UpdateFits(l, i)
  }

  /** A mapping the server remembers belongs to the object the id names and is complete. */
  predicate MappingFits(l: Lane) {
    l.server.isAllocated && l.server.mapped.Some? ==>
      Settled(l.server) && l.server.mapped.value.bufferSerial == l.server.serial
  }

  predicate AskedPending(l: Lane, u: Option<MapUserdata>) {
    u.Some? && Asked(l.client, u.value.bufferSerial, u.value.requestSerial)
  }

  predicate AskedReply(l: Lane, k: nat)
    requires k < |l.replies| && !l.replies[k].DeviceErrorCallback?
  {
    Asked(l.client, l.replies[k].bufferSerial, l.replies[k].requestSerial)
  }

  /** While a marker is on its way the client holds no mapping, and nothing the server did so
      far answers a request the client still waits for. */
  predicate ClosedEpoch(l: Lane)
    requires l.client.buffer.Some? && RepliesFit(l)
  {
    && l.client.buffer.value.mapped.None?
    && (forall k :: 0 <= k < |l.replies| ==> !AskedReply(l, k))
    && (Bound(l.server) ==>
          && !AskedPending(l, l.server.native.readRequest)
          && !AskedPending(l, l.server.native.writeRequest))
  }

  predicate SuccessReply(l: Lane, k: nat)
    requires k < |l.replies| && !l.replies[k].DeviceErrorCallback?
  {
    AskedReply(l, k) && l.replies[k].status == NB.Success
  }

  /** The one mapping of an open epoch is in one place: with the client, in a reply on its way,
      or still to be completed by the backend. */
  predicate OneMapping(l: Lane)
    requires l.client.buffer.Some? && RepliesFit(l)
  {
    var b := l.client.buffer.value;
    && (b.mapped.Some? ==>
          && Settled(l.server)
          && (b.mapped.value.isWrite ==>
                l.server.mapped == Some(Mapping(l.client.serial, b.mapped.value.requestSerial, b.mapped.value.size)))
          && forall k :: 0 <= k < |l.replies| ==> !SuccessReply(l, k))
    && (forall k :: 0 <= k < |l.replies| && SuccessReply(l, k) ==>
          && Settled(l.server)
          && (l.replies[k].MapWriteCallback? ==>
                l.server.mapped == Some(Mapping(l.client.serial, l.replies[k].requestSerial,
                                                b.requests[l.replies[k].requestSerial].size))))
    && (forall k, k' :: 0 <= k < k' < |l.replies| ==> !(SuccessReply(l, k) && SuccessReply(l, k')))
  }

  /** A pending native request of an open epoch is outstanding and nothing else carries it. */
  predicate PendingFits(l: Lane, u: MapUserdata)
    requires RepliesFit(l)
  {
    && Asked(l.client, u.bufferSerial, u.requestSerial)
    && (forall k :: 0 <= k < |l.replies| && AskedReply(l, k) ==> l.replies[k].requestSerial != u.requestSerial)
    && (forall i :: 0 <= i < |l.commands| && l.commands[i].BufferMapAsync? ==>
          l.commands[i].requestSerial != u.requestSerial)
  }

  predicate OpenEpoch(l: Lane)
    requires l.client.buffer.Some? && RepliesFit(l)
  {
    && OneMapping(l)
    && (Bound(l.server) && l.server.native.readRequest.Some? ==> PendingFits(l, l.server.native.readRequest.value))
    && (Bound(l.server) && l.server.native.writeRequest.Some? ==> PendingFits(l, l.server.native.writeRequest.value))
    && (forall k, i :: 0 <= k < |l.replies| && 0 <= i < |l.commands| && AskedReply(l, k) && l.commands[i].BufferMapAsync? ==>
          l.replies[k].requestSerial != l.commands[i].requestSerial)
  }

  /** Outstanding map commands carry different requests. */
  predicate CommandsDistinct(l: Lane) {
    forall i, j :: 0 <= i < j < |l.commands| && l.commands[i].BufferMapAsync? && l.commands[j].BufferMapAsync?
                   && !HasMarker(Rest(l.commands, i)) ==>
      l.commands[i].requestSerial != l.commands[j].requestSerial
  }

  predicate Epochs(l: Lane)
    requires RepliesFit(l)
  {
    l.client.buffer.Some? ==> if HasMarker(l.commands) then ClosedEpoch(l) else OpenEpoch(l)
  }

  predicate Addressed(l: Lane) {
    && -1 <= l.client.serial < U32_RANGE
    && (l.client.buffer.Some? ==> l.client.buffer.value.requestSerial < U32_RANGE)
    && (forall i :: 0 <= i < |l.commands| ==> l.commands[i].id == l.id)
    && (forall k :: 0 <= k < |l.replies| ==> !l.replies[k].DeviceErrorCallback? && l.replies[k].id == l.id)
  }

  predicate Inv(l: Lane) {
    && l.id > 0
    && Linked(l)
    && Addressed(l)
    && RepliesFit(l)
    && NativeFits(l)
    && RetiredFit(l)
    && CommandsFit(l)
    && CommandsDistinct(l)
    && UpdatesFit(l)
    && MappingFits(l)
    && Epochs(l)
  }

  function FreshLane(id: nat): Lane {
    Lane(id, UNUSED_CLIENT_SLOT, [], UNUSED_SERVER_SLOT, [])
  }

  // ----- Queues -----

  /** A suffix after one more command. */
  lemma SuffixAppend(q: seq<Command>, c: Command, i: nat)
    requires i < |q|
    ensures Rest(q + [c], i) == Rest(q, i) + [c]
    ensures HasMarker(Rest(q + [c], i)) <==> HasMarker(Rest(q, i)) || IsMarker(c)
    ensures HasCreate(Rest(q + [c], i)) <==> HasCreate(Rest(q, i)) || c.CreateBuffer?
  {
    MarkerAppend(Rest(q, i), c);
  }

  lemma MarkerAppend(q: seq<Command>, c: Command)
    ensures HasMarker(q + [c]) <==> HasMarker(q) || IsMarker(c)
    ensures HasCreate(q + [c]) <==> HasCreate(q) || c.CreateBuffer?
  {
    var r := q + [c];
    if HasMarker(q) { var i :| 0 <= i < |q| && IsMarker(q[i]); assert IsMarker(r[i]); }
    if HasCreate(q) { var i :| 0 <= i < |q| && q[i].CreateBuffer?; assert r[i].CreateBuffer?; }
    if IsMarker(c) { assert IsMarker(r[|q|]); }
    if c.CreateBuffer? { assert r[|q|].CreateBuffer?; }
    if HasMarker(r) { var i :| 0 <= i < |r| && IsMarker(r[i]); assert i < |q| ==> IsMarker(q[i]); }
    if HasCreate(r) { var i :| 0 <= i < |r| && r[i].CreateBuffer?; assert i < |q| ==> q[i].CreateBuffer?; }
  }

  lemma NoMarkerNoCreate(q: seq<Command>)
    ensures HasCreate(q) ==> HasMarker(q)
  {
    if HasCreate(q) { var i :| 0 <= i < |q| && q[i].CreateBuffer?; assert IsMarker(q[i]); }
  }

  lemma PopFacts(q: seq<Command>)
    requires q != []
    ensures HasMarker(q) <==> IsMarker(q[0]) || HasMarker(q[1..])
    ensures HasCreate(q) <==> q[0].CreateBuffer? || HasCreate(q[1..])
    ensures forall i :: 0 <= i < |q| - 1 ==> q[1..][i] == q[i + 1] && Rest(q[1..], i) == Rest(q, i + 1)
  {
    if HasMarker(q[1..]) { var i :| 0 <= i < |q[1..]| && IsMarker(q[1..][i]); assert IsMarker(q[i + 1]); }
    if HasCreate(q[1..]) { var i :| 0 <= i < |q[1..]| && q[1..][i].CreateBuffer?; assert q[i + 1].CreateBuffer?; }
    if HasMarker(q) && !IsMarker(q[0]) {
      var i :| 0 <= i < |q| && IsMarker(q[i]);
      assert IsMarker(q[1..][i - 1]);
    }
    if HasCreate(q) && !q[0].CreateBuffer? {
      var i :| 0 <= i < |q| && q[i].CreateBuffer?;
      assert q[1..][i - 1].CreateBuffer?;
    }
  }

  lemma {:induction false} OwnAppend(a: seq<Return>, b: seq<Return>, id: nat)
    ensures Own(a + b, id) == Own(a, id) + Own(b, id)
  {
    if a == [] {
      assert a + b == b;
    } else {
      assert (a + b)[1..] == a[1..] + b;
      OwnAppend(a[1..], b, id);
    }
  }

  lemma {:induction false} OwnAll(a: seq<Return>, id: nat)
    requires forall k :: 0 <= k < |a| ==> !a[k].DeviceErrorCallback? && a[k].id == id
    ensures Own(a, id) == a
  {
    if a != [] {
      OwnAll(a[1..], id);
    }
  }

  /** What a server step adds to the lane's replies: the replies proper, without the device
      error before them. */
  lemma OwnReplies(deviceError: bool, fired: seq<NB.Callback<MapUserdata>>, id: nat)
    requires forall k :: 0 <= k < |fired| ==> fired[k].userdata.bufferId == id
    ensures Own(DeviceErrors(deviceError) + ToReturns(fired), id) == ToReturns(fired)
  {
    OwnAppend(DeviceErrors(deviceError), ToReturns(fired), id);
    OwnAll(ToReturns(fired), id);
    if deviceError { assert Own([DeviceErrorCallback], id) == Own([], id); }
  }

  /** In an open epoch both sides name the same object. */
  lemma OpenEpochNames(l: Lane)
    requires Inv(l) && l.client.buffer.Some? && !HasMarker(l.commands)
    ensures l.server.isAllocated && l.server.serial == l.client.serial
    ensures !HasCreate(l.commands) && !HasDestroy(l.commands)
  {
    NoMarkerNoCreate(l.commands);
    FoldFacts(ServerEntry(l.server), l.commands);
  }
}
