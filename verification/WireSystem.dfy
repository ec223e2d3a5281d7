/** The whole wire protocol: the client's object table with its id allocator, the server's
    `KnownObjects`, and the two FIFO channels. Every id is one lane of WireLane; the table
    itself is followed by folding the pending commands. */
module WireSystem {
  import opened Wrappers
  import NB = NativeBuffer
  import opened WireModel
  import L = WireLane
  import WireLaneServer
  import WireLaneSteps
  import R = WireRequests

  /** `ObjectAllocator`: slot 0 stands for the null object. */
  datatype Client = Client(slots: seq<ClientSlot>, freeIds: seq<nat>, currentId: nat)

  /** `ok` turns false when one side gives up on the stream. */
  datatype System = System(
    client: Client,
    commands: seq<Command>,
    known: seq<ServerSlot>,
    replies: seq<Return>,
    ok: bool)

  const NULL_CLIENT_SLOT := ClientSlot(0, None, {}, multiset{})
  const NULL_SERVER_SLOT := ServerSlot(true, true, 0, None, NB.NewBuffer(0, false, false), [])
  const START := System(Client([NULL_CLIENT_SLOT], [], 1), [], [NULL_SERVER_SLOT], [], true)

  datatype Action =
    | Create
    | Reference(id: nat)
    | Release(id: nat)
    | Map(id: nat, start: nat, size: nat, isWrite: bool)
    | Unmap(id: nat)
    | ServerHandle(created: Option<NewNative>, heldElsewhere: bool)
    | Complete(id: nat, isWrite: bool, serial: nat, status: NB.MapStatus)
    | Late(id: nat, n: nat, isWrite: bool, serial: nat, status: NB.MapStatus)
    | LateFree(id: nat, n: nat)
    | ClientHandle(zeroIsNull: bool)

  // ----- Client calls -----

  function ClientSlotOf(c: Client, id: nat): ClientSlot {
    if id < |c.slots| then c.slots[id] else UNUSED_CLIENT_SLOT
  }

  predicate IsObject(c: Client, id: nat) { 0 < id < |c.slots| && c.slots[id].buffer.Some? }

  /** `GetNewId`: the id freed last, or the next one never used. */
  function NewId(c: Client): nat {
    if c.freeIds == [] then c.currentId else c.freeIds[|c.freeIds| - 1]
  }

  /** `ObjectAllocator::New`. */
  function AllocateObject(c: Client): Client {
    var id := NewId(c);
    var slot := NewObject(ClientSlotOf(c, id));
    Client(
      if id < |c.slots| then c.slots[id := slot] else c.slots + [slot],
      if c.freeIds == [] then [] else c.freeIds[..|c.freeIds| - 1],
      if c.freeIds == [] then (c.currentId + 1) % U32_RANGE else c.currentId)
  }

  function WithSlot(c: Client, id: nat, slot: ClientSlot): Client
    requires id < |c.slots|
  {
    c.(slots := c.slots[id := slot])
  }

  function ReleaseInTable(c: Client, id: nat): Client
    requires IsObject(c, id)
  {
    var freed := WithSlot(c, id, ReleaseObject(c.slots[id]));
    if LastReference(c.slots[id]) then freed.(freeIds := c.freeIds + [id]) else freed
  }

  // ----- Server handling -----

  function ServerSlotOf(known: seq<ServerSlot>, id: nat): ServerSlot {
    if id < |known| then known[id] else UNUSED_SERVER_SLOT
  }

  datatype KnownResult = KnownResult(known: seq<ServerSlot>, ok: bool, sent: seq<Return>)

  /** A command reaches the table of known objects. An id further than one past the end cannot
      be allocated, and no other command finds an id past the end. */
  function HandleInTable(known: seq<ServerSlot>, c: Command, created: Option<NewNative>, heldElsewhere: bool): KnownResult {
    if c.id > |known| then KnownResult(known, false, [])
    else
      var r := HandleCommand(ServerSlotOf(known, c.id), c, created, heldElsewhere);
      if !r.ok then KnownResult(known, false, [])
      else KnownResult(if c.id < |known| then known[c.id := r.slot] else known + [r.slot], true, r.sent)
  }

  function ServerSide(s: System, id: nat, r: ServerResult): System
    requires id < |s.known|
  {
    s.(known := s.known[id := r.slot], replies := s.replies + r.sent, ok := r.ok)
  }

  predicate Enabled(s: System, a: Action) {
    s.ok &&
    match a
    case Create => true
    case Reference(id) => IsObject(s.client, id)
    case Release(id) => IsObject(s.client, id)
    case Map(id, _, _, _) => IsObject(s.client, id)
    case Unmap(id) => IsObject(s.client, id)
    case ServerHandle(_, _) => s.commands != []
    case Complete(id, _, _, _) => 0 < id < |s.known| && s.known[id].isAllocated && s.known[id].isValid
    case Late(id, n, _, _, _) => 0 < id < |s.known| && n < |s.known[id].retired|
    case LateFree(id, n) => 0 < id < |s.known| && n < |s.known[id].retired|
    case ClientHandle(_) => s.replies != []
  }

  function Step(s: System, a: Action): System
    requires Enabled(s, a)
  {
    match a
    case Create =>
      var id := NewId(s.client);
      s.(client := AllocateObject(s.client),
         commands := s.commands + [CreateBuffer(id, NewObject(ClientSlotOf(s.client, id)).serial)])
    case Reference(id) => s.(client := WithSlot(s.client, id, ReferenceObject(s.client.slots[id])))
    case Release(id) =>
      s.(client := ReleaseInTable(s.client, id), commands := s.commands + ReleaseCommands(s.client.slots[id], id))
    case Map(id, start, size, isWrite) =>
      s.(client := WithSlot(s.client, id, MapObject(s.client.slots[id], size, isWrite)),
         commands := s.commands + MapCommands(s.client.slots[id], id, start, size, isWrite))
    case Unmap(id) =>
      s.(client := WithSlot(s.client, id, UnmapObject(s.client.slots[id])),
         commands := s.commands + UnmapCommands(s.client.slots[id], id))
    case ServerHandle(created, heldElsewhere) =>
      var r := HandleInTable(s.known, s.commands[0], created, heldElsewhere);
      s.(commands := s.commands[1..], known := r.known, replies := s.replies + r.sent, ok := r.ok)
    case Complete(id, isWrite, serial, status) =>
      ServerSide(s, id, BackendComplete(s.known[id], isWrite, serial, status))
    case Late(id, n, isWrite, serial, status) =>
      ServerSide(s, id, LateComplete(s.known[id], n, isWrite, serial, status))
    case LateFree(id, n) => ServerSide(s, id, LateDestroy(s.known[id], n))
    case ClientHandle(zeroIsNull) =>
      var rest := s.(replies := s.replies[1..]);
      var r := s.replies[0];
      if r.DeviceErrorCallback? || r.id >= |s.client.slots| then rest
      else
        var handled := HandleReturn(s.client.slots[r.id], r, zeroIsNull);
        rest.(client := WithSlot(s.client, r.id, handled.slot), ok := handled.ok)
  }

  /** Neither a 32-bit counter wraps nor a destroyed buffer completes a write mapping. */
  predicate Admissible(s: System, a: Action) {
    && Enabled(s, a)
    && (match a
        case Create =>
          && (s.client.freeIds == [] ==> s.client.currentId + 1 < U32_RANGE)
          && ClientSlotOf(s.client, NewId(s.client)).serial + 1 < U32_RANGE
        case Map(id, _, _, _) => s.client.slots[id].buffer.value.requestSerial + 1 < U32_RANGE
        case Late(id, n, isWrite, serial, status) =>
          !(isWrite && status == NB.Success && NB.Complete(s.known[id].retired[n], true, serial, status).fired != [])
        case _ => true)
  }

  // ----- One lane per id -----

  function OwnCommands(q: seq<Command>, id: nat): seq<Command> {
    if q == [] then []
    else (if q[0].id == id then [q[0]] else []) + OwnCommands(q[1..], id)
  }

  function LaneOf(s: System, id: nat): L.Lane {
    L.Lane(id, ClientSlotOf(s.client, id), OwnCommands(s.commands, id),
           ServerSlotOf(s.known, id), L.Own(s.replies, id))
  }

  lemma {:induction false} OwnCommandsAppend(a: seq<Command>, b: seq<Command>, id: nat)
    ensures OwnCommands(a + b, id) == OwnCommands(a, id) + OwnCommands(b, id)
  {
    if a == [] {
      assert a + b == b;
    } else {
      assert (a + b)[1..] == a[1..] + b;
      OwnCommandsAppend(a[1..], b, id);
    }
  }

  /** The id an action is about; 0 for the arrival of a device error. */
  function Target(s: System, a: Action): nat
    requires Enabled(s, a)
  {
    match a
    case Create => NewId(s.client)
    case ServerHandle(_, _) => s.commands[0].id
    case ClientHandle(_) => if s.replies[0].DeviceErrorCallback? then 0 else s.replies[0].id
    case Reference(id) => id
    case Release(id) => id
    case Map(id, _, _, _) => id
    case Unmap(id) => id
    case Complete(id, _, _, _) => id
    case Late(id, _, _, _, _) => id
    case LateFree(id, _) => id
  }

  function InLane(a: Action): L.LaneAction {
    match a
    case Create => L.New
    case Reference(_) => L.Reference
    case Release(_) => L.Release
    case Map(_, start, size, isWrite) => L.Map(start, size, isWrite)
    case Unmap(_) => L.Unmap
    case ServerHandle(created, heldElsewhere) => L.Handle(created, heldElsewhere)
    case Complete(_, isWrite, serial, status) => L.Complete(isWrite, serial, status)
    case Late(_, n, isWrite, serial, status) => L.Late(n, isWrite, serial, status)
    case LateFree(_, n) => L.LateFree(n)
    case ClientHandle(zeroIsNull) => L.Receive(zeroIsNull)
  }

  // ----- Both tables -----

  function ClientTable(slots: seq<ClientSlot>): seq<L.Entry> {
    seq(|slots|, i requires 0 <= i < |slots| => if i == 0 then L.Entry(true, 0) else L.ClientEntry(slots[i]))
  }

  function ServerTable(known: seq<ServerSlot>): seq<L.Entry> {
    seq(|known|, i requires 0 <= i < |known| => L.ServerEntry(known[i]))
  }

  /** What a command does to a table of entries; None for one that comes at the wrong time. */
  function TableApply(t: seq<L.Entry>, c: Command): Option<seq<L.Entry>> {
    if c.id == 0 || c.id > |t| then None
    else match L.Apply(if c.id < |t| then t[c.id] else L.Entry(false, -1), c)
         case None => None
         case Some(e) => Some(if c.id < |t| then t[c.id := e] else t + [e])
  }

  function TableFold(t: seq<L.Entry>, q: seq<Command>): Option<seq<L.Entry>>
    decreases |q|
  {
    if q == [] then Some(t)
    else match TableApply(t, q[0])
         case None => None
         case Some(t') => TableFold(t', q[1..])
  }

  lemma {:induction false} TableFoldAppend(t: seq<L.Entry>, q: seq<Command>, c: Command)
    ensures TableFold(t, q + [c]) == (match TableFold(t, q) case None => None case Some(t') => TableApply(t', c))
    decreases |q|
  {
    if q == [] {
      assert [] + [c] == [c];
      if TableApply(t, c).Some? { assert TableFold(TableApply(t, c).value, []) == TableApply(t, c); }
    } else {
      assert (q + [c])[0] == q[0] && (q + [c])[1..] == q[1..] + [c];
      if TableApply(t, q[0]).Some? { TableFoldAppend(TableApply(t, q[0]).value, q[1..], c); }
    }
  }

  /** Folding the pending commands over what the server knows gives the client's table: the same
      live ids with the same serials. */
  predicate TablesAgree(s: System) {
    TableFold(ServerTable(s.known), s.commands) == Some(ClientTable(s.client.slots))
  }

  /** The free list holds every unused id of the table, once. */
  predicate AllocatorValid(c: Client) {
    && |c.slots| > 0 && c.currentId == |c.slots|
    && c.slots[0].buffer.None? && c.slots[0].serial == 0
    && (forall i :: 0 <= i < |c.freeIds| ==> 0 < c.freeIds[i] < |c.slots| && c.slots[c.freeIds[i]].buffer.None?)
    && (forall i, j :: 0 <= i < j < |c.freeIds| ==> c.freeIds[i] != c.freeIds[j])
    && (forall id :: 0 < id < |c.slots| && c.slots[id].buffer.None? ==> id in c.freeIds)
  }

  predicate LaneFine(s: System, id: nat) {
    && L.Inv(LaneOf(s, id))
    && R.Accounted(LaneOf(s, id).client)
    && R.Located(LaneOf(s, id))
  }

  ghost predicate Inv(s: System) {
    && s.ok
    && AllocatorValid(s.client)
    && TablesAgree(s)
    && (forall id: nat :: id > 0 ==> LaneFine(s, id))
  }

  lemma StartIsFine()
    ensures Inv(START)
  {
    assert ClientTable(START.client.slots) == ServerTable(START.known);
    forall id: nat | id > 0 ensures LaneFine(START, id) {
      assert LaneOf(START, id) == L.FreshLane(id);
    }
  }

  // ----- The tables and the id allocator -----

  /** Ids come from the free list, or are the next one past the table. */
  lemma NewIdIsFree(c: Client)
    requires AllocatorValid(c)
    ensures 0 < NewId(c) <= |c.slots| && ClientSlotOf(c, NewId(c)).buffer.None?
    ensures NewId(c) == |c.slots| <==> c.freeIds == []
  {
  }

  lemma AllocateKeepsAllocator(c: Client)
    requires AllocatorValid(c) && (c.freeIds == [] ==> c.currentId + 1 < U32_RANGE)
    ensures AllocatorValid(AllocateObject(c))
  {
    var c' := AllocateObject(c);
    forall id | 0 < id < |c'.slots| && c'.slots[id].buffer.None? ensures id in c'.freeIds {
      assert id in c.freeIds;
      var i :| 0 <= i < |c.freeIds| && c.freeIds[i] == id;
      assert c'.freeIds[i] == id;
    }
  }

  lemma ReleaseKeepsAllocator(c: Client, id: nat)
    requires AllocatorValid(c) && IsObject(c, id)
    ensures AllocatorValid(ReleaseInTable(c, id))
  {
    var c' := ReleaseInTable(c, id);
    forall j | 0 < j < |c'.slots| && c'.slots[j].buffer.None? ensures j in c'.freeIds {
      if j == id {
        assert c'.freeIds[|c.freeIds|] == id;
      } else {
        var i :| 0 <= i < |c.freeIds| && c.freeIds[i] == j;
        assert c'.freeIds[i] == j;
      }
    }
  }

  /** Changing a live object changes no entry. */
  lemma SameTable(slots: seq<ClientSlot>, id: nat, slot: ClientSlot)
    requires 0 < id < |slots| && L.ClientEntry(slot) == L.ClientEntry(slots[id])
    ensures ClientTable(slots[id := slot]) == ClientTable(slots)
  {
  }

  lemma CreateKeepsTables(s: System)
    requires AllocatorValid(s.client) && TablesAgree(s) && Admissible(s, Create)
    requires ClientSlotOf(s.client, NewId(s.client)).serial >= -1
    ensures TablesAgree(Step(s, Create)) && AllocatorValid(Step(s, Create).client)
  {
    NewIdIsFree(s.client);
    AllocateKeepsAllocator(s.client);
    var id := NewId(s.client);
    var slot := NewObject(ClientSlotOf(s.client, id));
    TableFoldAppend(ServerTable(s.known), s.commands, CreateBuffer(id, slot.serial));
    TableOfCreate(s.client, id, slot);
  }

  lemma TableOfCreate(c: Client, id: nat, slot: ClientSlot)
    requires 0 < id <= |c.slots| && ClientSlotOf(c, id).buffer.None? && slot.buffer.Some?
    requires slot.serial == ClientSlotOf(c, id).serial + 1
    ensures TableApply(ClientTable(c.slots), CreateBuffer(id, slot.serial))
         == Some(ClientTable(if id < |c.slots| then c.slots[id := slot] else c.slots + [slot]))
  {
    var t := ClientTable(c.slots);
    if id < |t| {
      assert t[id := L.ClientEntry(slot)] == ClientTable(c.slots[id := slot]);
    } else {
      assert t + [L.ClientEntry(slot)] == ClientTable(c.slots + [slot]);
    }
  }

  lemma ReleaseKeepsTables(s: System, id: nat)
    requires Inv(s) && Enabled(s, Release(id))
    ensures TablesAgree(Step(s, Release(id))) && AllocatorValid(Step(s, Release(id)).client)
  {
    var s' := Step(s, Release(id));
    ReleaseKeepsAllocator(s.client, id);
    if LastReference(s.client.slots[id]) {
      TableFoldAppend(ServerTable(s.known), s.commands, DestroyBuffer(id));
      assert ClientTable(s'.client.slots) == ClientTable(s.client.slots)[id := L.ClientEntry(s'.client.slots[id])];
    } else {
      assert s.commands + [] == s.commands;
      SameTable(s.client.slots, id, s'.client.slots[id]);
    }
  }

  /** Commands that only use a live object. */
  lemma UseKeepsTables(s: System, id: nat, slot: ClientSlot, sent: seq<Command>)
    requires Inv(s) && IsObject(s.client, id) && L.ClientEntry(slot) == L.ClientEntry(s.client.slots[id])
    requires forall i :: 0 <= i < |sent| ==> sent[i].id == id && !sent[i].CreateBuffer? && !sent[i].DestroyBuffer?
    requires |sent| <= 2
    ensures var s' := s.(client := WithSlot(s.client, id, slot), commands := s.commands + sent);
            TablesAgree(s') && AllocatorValid(s'.client)
  {
    SameTable(s.client.slots, id, slot);
    var t, table := ServerTable(s.known), ClientTable(s.client.slots);
    if sent == [] {
      assert s.commands + sent == s.commands;
    } else {
      NoChange(table, sent[0]);
      TableFoldAppend(t, s.commands, sent[0]);
      if |sent| == 2 {
        NoChange(table, sent[1]);
        TableFoldAppend(t, s.commands + [sent[0]], sent[1]);
        assert s.commands + sent == s.commands + [sent[0]] + [sent[1]];
      } else {
        assert sent == [sent[0]];
      }
    }
  }

  lemma ClientStepKeepsTables(s: System, a: Action)
    requires Inv(s) && Admissible(s, a) && (a.Create? || a.Reference? || a.Release? || a.Map? || a.Unmap?)
    ensures TablesAgree(Step(s, a)) && AllocatorValid(Step(s, a).client)
  {
    match a
    case Create =>
      NewIdIsFree(s.client);
      assert LaneFine(s, NewId(s.client));
      CreateKeepsTables(s);
    case Release(id) => ReleaseKeepsTables(s, id);
    case Reference(id) =>
      assert s.commands + [] == s.commands;
      UseKeepsTables(s, id, ReferenceObject(s.client.slots[id]), []);
    case Map(id, start, size, isWrite) =>
      UseKeepsTables(s, id, MapObject(s.client.slots[id], size, isWrite),
                     MapCommands(s.client.slots[id], id, start, size, isWrite));
    case Unmap(id) =>
      UseKeepsTables(s, id, UnmapObject(s.client.slots[id]), UnmapCommands(s.client.slots[id], id));
  }

  /** A command that only uses a live object leaves a table as it is. */
  lemma NoChange(t: seq<L.Entry>, c: Command)
    requires 0 < c.id < |t| && t[c.id].live && !c.CreateBuffer? && !c.DestroyBuffer?
    ensures TableApply(t, c) == Some(t)
  {
    assert t[c.id := t[c.id]] == t;
  }

  /** What the server's table becomes is what the command does to its entries. */
  lemma HandleFollowsTable(s: System, created: Option<NewNative>, heldElsewhere: bool)
    requires TablesAgree(s) && s.commands != []
    ensures var c, n := s.commands[0], |s.known|;
            && 0 < c.id <= n
            && L.Apply(L.ServerEntry(ServerSlotOf(s.known, c.id)), c).Some?
            && var r := HandleInTable(s.known, c, created, heldElsewhere);
               r.ok ==> TableFold(ServerTable(r.known), s.commands[1..]) == Some(ClientTable(s.client.slots))
  {
    var c := s.commands[0];
    var t := ServerTable(s.known);
    assert TableApply(t, c).Some?;
    assert L.ServerEntry(ServerSlotOf(s.known, c.id)) == if c.id < |t| then t[c.id] else L.Entry(false, -1);
    var r := HandleInTable(s.known, c, created, heldElsewhere);
    if r.ok {
      HandleFollowsEntry(ServerSlotOf(s.known, c.id), c, created, heldElsewhere);
      assert ServerTable(r.known) == TableApply(t, c).value;
    }
  }

  lemma HandleFollowsEntry(slot: ServerSlot, c: Command, created: Option<NewNative>, heldElsewhere: bool)
    requires L.Apply(L.ServerEntry(slot), c).Some? && HandleCommand(slot, c, created, heldElsewhere).ok
    ensures L.ServerEntry(HandleCommand(slot, c, created, heldElsewhere).slot) == L.Apply(L.ServerEntry(slot), c).value
  {
  }

  // ----- A step of the system is a step of one lane -----

  /** Everything a lane sends names the lane's id, or is a device error. */
  predicate SentFor(sent: seq<Return>, id: nat) {
    forall k :: 0 <= k < |sent| ==> sent[k].DeviceErrorCallback? || sent[k].id == id
  }

  lemma {:induction false} SentForNobodyElse(sent: seq<Return>, id: nat, other: nat)
    requires SentFor(sent, id) && id != other
    ensures L.Own(sent, other) == []
  {
    if sent != [] {
      SentForNobodyElse(sent[1..], id, other);
    }
  }

  lemma ServerSendsOwn(l: L.Lane, a: L.LaneAction)
    requires L.Inv(l) && L.Enabled(l, a)
    ensures a.Handle? ==> SentFor(HandleCommand(l.server, l.commands[0], a.created, a.heldElsewhere).sent, l.id)
    ensures a.Complete? ==> SentFor(BackendComplete(l.server, a.isWrite, a.serial, a.status).sent, l.id)
    ensures a.Late? ==> SentFor(LateComplete(l.server, a.n, a.isWrite, a.serial, a.status).sent, l.id)
    ensures a.LateFree? ==> SentFor(LateDestroy(l.server, a.n).sent, l.id)
  {
    hide L.CommandsFit, L.UpdatesFit, L.CommandsDistinct, L.RepliesFit, L.Linked, L.Epochs, L.MappingFits;
    if a.Late? || a.LateFree? { assert L.RetiredFits(l, l.server.retired[a.n]); }
    if a.Handle? { assert l.commands[0].id == l.id; }
  }

  lemma OwnHead(s: System, id: nat)
    ensures s.commands != [] && s.commands[0].id == id ==>
              OwnCommands(s.commands, id) == [s.commands[0]] + OwnCommands(s.commands[1..], id)
    ensures s.commands != [] && s.commands[0].id != id ==>
              OwnCommands(s.commands, id) == OwnCommands(s.commands[1..], id)
    ensures s.replies != [] && !s.replies[0].DeviceErrorCallback? && s.replies[0].id == id ==>
              L.Own(s.replies, id) == [s.replies[0]] + L.Own(s.replies[1..], id)
    ensures s.replies != [] && (s.replies[0].DeviceErrorCallback? || s.replies[0].id != id) ==>
              L.Own(s.replies, id) == L.Own(s.replies[1..], id)
  {
  }

  lemma {:induction false} OwnCommandsOf(sent: seq<Command>, id: nat, other: nat)
    requires forall i :: 0 <= i < |sent| ==> sent[i].id == id
    ensures OwnCommands(sent, other) == if other == id then sent else []
  {
    if sent != [] {
      OwnCommandsOf(sent[1..], id, other);
    }
  }

  /** A change of one client slot with the commands sent for it, seen from any lane. */
  lemma ClientChangeInLane(s: System, s': System, t: nat, slot: ClientSlot, sent: seq<Command>, id: nat)
    requires s' == s.(client := s'.client, commands := s.commands + sent)
    requires forall j :: ClientSlotOf(s'.client, j) == if j == t then slot else ClientSlotOf(s.client, j)
    requires forall i :: 0 <= i < |sent| ==> sent[i].id == t
    ensures LaneOf(s', id) == if id == t
      then LaneOf(s, id).(client := slot, commands := OwnCommands(s.commands, id) + sent) else LaneOf(s, id)
  {
    OwnCommandsAppend(s.commands, sent, id);
    OwnCommandsOf(sent, t, id);
    assert OwnCommands(s.commands, id) + [] == OwnCommands(s.commands, id);
  }

  /** A change of one server slot with the replies sent for it, seen from any lane. */
  lemma ServerChangeInLane(s: System, s': System, t: nat, slot: ServerSlot, sent: seq<Return>, id: nat)
    requires s' == s.(known := s'.known, replies := s.replies + sent, ok := s'.ok)
    requires forall j :: ServerSlotOf(s'.known, j) == if j == t then slot else ServerSlotOf(s.known, j)
    requires SentFor(sent, t)
    ensures LaneOf(s', id) == if id == t
      then LaneOf(s, id).(server := slot, replies := L.Own(s.replies, id) + L.Own(sent, id)) else LaneOf(s, id)
  {
    L.OwnAppend(s.replies, sent, id);
    if id != t { SentForNobodyElse(sent, t, id); }
    assert L.Own(s.replies, id) + [] == L.Own(s.replies, id);
  }

  predicate IsClientCall(a: Action) { a.Create? || a.Reference? || a.Release? || a.Map? || a.Unmap? }

  /** What a client call makes of the slot it is about, and what it sends. */
  function CalledSlot(s: System, a: Action): ClientSlot
    requires Enabled(s, a) && IsClientCall(a)
  {
    var slot := ClientSlotOf(s.client, Target(s, a));
    match a
    case Create => NewObject(slot)
    case Reference(_) => ReferenceObject(slot)
    case Release(_) => ReleaseObject(slot)
    case Map(_, _, size, isWrite) => MapObject(slot, size, isWrite)
    case Unmap(_) => UnmapObject(slot)
  }

  function CallSends(s: System, a: Action): seq<Command>
    requires Enabled(s, a) && IsClientCall(a)
  {
    var slot, t := ClientSlotOf(s.client, Target(s, a)), Target(s, a);
    match a
    case Create => [CreateBuffer(t, NewObject(slot).serial)]
    case Reference(_) => []
    case Release(_) => ReleaseCommands(slot, t)
    case Map(_, start, size, isWrite) => MapCommands(slot, t, start, size, isWrite)
    case Unmap(_) => UnmapCommands(slot, t)
  }

  lemma CallChanges(s: System, a: Action)
    requires AllocatorValid(s.client) && Enabled(s, a) && IsClientCall(a)
    ensures var s', t := Step(s, a), Target(s, a);
            && s' == s.(client := s'.client, commands := s.commands + CallSends(s, a))
            && (forall j :: ClientSlotOf(s'.client, j) == if j == t then CalledSlot(s, a) else ClientSlotOf(s.client, j))
  {
    hide NewObject, ReferenceObject, ReleaseObject, MapObject, UnmapObject, ReleaseCommands, MapCommands, UnmapCommands;
    NewIdIsFree(s.client);
    assert s.commands + [] == s.commands;
  }

  lemma CallNamesTarget(s: System, a: Action)
    requires Enabled(s, a) && IsClientCall(a)
    ensures forall i :: 0 <= i < |CallSends(s, a)| ==> CallSends(s, a)[i].id == Target(s, a)
  {
  }

  /** The same call in the lane of its id. */
  lemma CallInLane(s: System, a: Action)
    requires AllocatorValid(s.client) && Admissible(s, a) && IsClientCall(a)
    ensures var l := LaneOf(s, Target(s, a));
            && L.Admissible(l, InLane(a))
            && L.Step(l, InLane(a)).lane == l.(client := CalledSlot(s, a), commands := l.commands + CallSends(s, a))
  {
    hide ReferenceObject, ReleaseObject, MapObject, UnmapObject, ReleaseCommands, MapCommands, UnmapCommands;
    NewIdIsFree(s.client);
  }

  /** The client's half of a step seen from one lane. */
  lemma ClientStepInLane(s: System, a: Action, id: nat)
    requires AllocatorValid(s.client) && Admissible(s, a) && id > 0 && IsClientCall(a)
    ensures id != Target(s, a) ==> LaneOf(Step(s, a), id) == LaneOf(s, id)
    ensures id == Target(s, a) ==>
              && L.Admissible(LaneOf(s, id), InLane(a))
              && LaneOf(Step(s, a), id) == L.Step(LaneOf(s, id), InLane(a)).lane
  {
    hide CalledSlot, CallSends, Step, L.Step, L.Admissible, InLane, ClientSlotOf;
    CallChanges(s, a);
    CallNamesTarget(s, a);
    CallInLane(s, a);
    ClientChangeInLane(s, Step(s, a), Target(s, a), CalledSlot(s, a), CallSends(s, a), id);
  }

  lemma HandleChanges(s: System, created: Option<NewNative>, heldElsewhere: bool)
    requires s.ok && s.commands != [] && s.commands[0].id <= |s.known|
    requires HandleCommand(ServerSlotOf(s.known, s.commands[0].id), s.commands[0], created, heldElsewhere).ok
    ensures var s', t := Step(s, ServerHandle(created, heldElsewhere)), s.commands[0].id;
            var r := HandleCommand(ServerSlotOf(s.known, t), s.commands[0], created, heldElsewhere);
            && s' == s.(commands := s.commands[1..], known := s'.known, replies := s.replies + r.sent)
            && forall j :: ServerSlotOf(s'.known, j) == if j == t then r.slot else ServerSlotOf(s.known, j)
  {
    hide HandleCommand;
  }

  lemma HandleInLane(s: System, created: Option<NewNative>, heldElsewhere: bool, id: nat)
    requires TablesAgree(s) && s.ok && s.commands != [] && id > 0
    requires s.commands[0].id > 0 ==> L.Inv(LaneOf(s, s.commands[0].id))
    ensures var a, t := ServerHandle(created, heldElsewhere), s.commands[0].id;
            && t > 0 && Step(s, a).ok
            && (id != t ==> LaneOf(Step(s, a), id) == LaneOf(s, id))
            && (id == t ==>
                  && L.Admissible(LaneOf(s, id), InLane(a))
                  && LaneOf(Step(s, a), id) == L.Step(LaneOf(s, id), InLane(a)).lane)
  {
    hide L.Inv, Step, HandleCommand;
    var a, t := ServerHandle(created, heldElsewhere), s.commands[0].id;
    HandleFollowsTable(s, created, heldElsewhere);
    OwnHead(s, t);
    OwnHead(s, id);
    WireLaneSteps.StepKeepsInv(LaneOf(s, t), InLane(a));
    ServerSendsOwn(LaneOf(s, t), InLane(a));
    HandleChanges(s, created, heldElsewhere);
    var r := HandleCommand(ServerSlotOf(s.known, t), s.commands[0], created, heldElsewhere);
    ServerChangeInLane(s.(commands := s.commands[1..]), Step(s, a), t, r.slot, r.sent, id);
  }

  lemma BackendStepInLane(s: System, a: Action, id: nat)
    requires Admissible(s, a) && (a.Complete? || a.Late? || a.LateFree?) && id > 0
    requires L.Inv(LaneOf(s, Target(s, a)))
    ensures Step(s, a).ok
    ensures id != Target(s, a) ==> LaneOf(Step(s, a), id) == LaneOf(s, id)
    ensures id == Target(s, a) ==>
              && L.Admissible(LaneOf(s, id), InLane(a))
              && LaneOf(Step(s, a), id) == L.Step(LaneOf(s, id), InLane(a)).lane
  {
    hide L.Inv;
    var t := Target(s, a);
    WireLaneSteps.StepKeepsInv(LaneOf(s, t), InLane(a));
    ServerSendsOwn(LaneOf(s, t), InLane(a));
    var r := match a
             case Complete(_, isWrite, serial, status) => BackendComplete(s.known[t], isWrite, serial, status)
             case Late(_, n, isWrite, serial, status) => LateComplete(s.known[t], n, isWrite, serial, status)
             case LateFree(_, n) => LateDestroy(s.known[t], n);
    ServerChangeInLane(s, Step(s, a), t, r.slot, r.sent, id);
  }

  /** The slots of the client after a reply; a reply that meets no object changes nothing. */
  lemma ReplyChanges(s: System, zeroIsNull: bool)
    requires AllocatorValid(s.client) && Enabled(s, ClientHandle(zeroIsNull))
    ensures var s', r := Step(s, ClientHandle(zeroIsNull)), s.replies[0];
            && (r.DeviceErrorCallback? ==> s' == s.(replies := s.replies[1..]))
            && (!r.DeviceErrorCallback? ==>
                  var handled := HandleReturn(ClientSlotOf(s.client, r.id), r, zeroIsNull);
                  && s' == s.(client := s'.client, replies := s.replies[1..], ok := handled.ok)
                  && forall j :: ClientSlotOf(s'.client, j) == if j == r.id then handled.slot else ClientSlotOf(s.client, j))
            && (Target(s, ClientHandle(zeroIsNull)) == 0 ==> s'.ok)
  {
  }

  lemma ReceiveInLane(s: System, zeroIsNull: bool, id: nat)
    requires Inv(s) && Enabled(s, ClientHandle(zeroIsNull)) && id > 0
    ensures var a := ClientHandle(zeroIsNull);
            && Step(s, a).ok
            && (id != Target(s, a) ==> LaneOf(Step(s, a), id) == LaneOf(s, id))
            && (id == Target(s, a) ==>
                  && L.Admissible(LaneOf(s, id), L.Receive(zeroIsNull))
                  && LaneOf(Step(s, a), id) == L.Step(LaneOf(s, id), L.Receive(zeroIsNull)).lane)
  {
    hide L.Inv, TablesAgree, HandleReturn, ClientSlotOf, Step;
    var t := Target(s, ClientHandle(zeroIsNull));
    ReplyChanges(s, zeroIsNull);
    OwnHead(s, id);
    OwnHead(s, t);
    if t > 0 {
      assert LaneFine(s, t);
      WireLaneSteps.StepKeepsInv(LaneOf(s, t), L.Receive(zeroIsNull));
    }
  }

  // ----- Every run -----

  lemma OtherStepsKeepTables(s: System, a: Action)
    requires Inv(s) && Admissible(s, a) && Step(s, a).ok
    requires a.ServerHandle? || a.Complete? || a.Late? || a.LateFree? || a.ClientHandle?
    ensures TablesAgree(Step(s, a)) && AllocatorValid(Step(s, a).client)
  {
    hide LaneFine, L.Inv;
    var s' := Step(s, a);
    if a.ServerHandle? {
      HandleFollowsTable(s, a.created, a.heldElsewhere);
    } else if a.ClientHandle? {
      assert ClientTable(s'.client.slots) == ClientTable(s.client.slots);
    } else {
      assert ServerTable(s'.known) == ServerTable(s.known);
    }
  }

  lemma StepInLane(s: System, a: Action, id: nat)
    requires Inv(s) && Admissible(s, a) && id > 0
    ensures Step(s, a).ok
    ensures id != Target(s, a) ==> LaneOf(Step(s, a), id) == LaneOf(s, id)
    ensures id == Target(s, a) ==>
              && L.Admissible(LaneOf(s, id), InLane(a))
              && LaneOf(Step(s, a), id) == L.Step(LaneOf(s, id), InLane(a)).lane
  {
    var t := Target(s, a);
    assert t > 0 ==> LaneFine(s, t);
    if a.Complete? || a.Late? || a.LateFree? {
      BackendStepInLane(s, a, id);
    } else if a.ServerHandle? {
      HandleInLane(s, a.created, a.heldElsewhere, id);
    } else if a.ClientHandle? {
      ReceiveInLane(s, a.zeroIsNull, id);
    } else {
      ClientStepInLane(s, a, id);
    }
  }

  /** Whatever side takes the next step, and whichever buffer it concerns. */
  lemma StepKeepsInv(s: System, a: Action)
    requires Inv(s) && Admissible(s, a)
    ensures Inv(Step(s, a))
  {
    var s' := Step(s, a);
    forall id: nat | id > 0 ensures s'.ok && LaneFine(s', id) {
      StepInLane(s, a, id);
      assert LaneFine(s, id);
      if id == Target(s, a) {
        WireLaneSteps.StepKeepsInv(LaneOf(s, id), InLane(a));
        R.StepKeepsAccount(LaneOf(s, id), InLane(a));
        R.StepKeepsLocated(LaneOf(s, id), InLane(a));
      }
    }
    assert LaneFine(s', 1) && s'.ok;
    if a.Create? || a.Reference? || a.Release? || a.Map? || a.Unmap? {
      ClientStepKeepsTables(s, a);
    } else {
      OtherStepsKeepTables(s, a);
    }
  }

  /** The state after a run, or None when some step of it is not admissible. */
  function Run(s: System, actions: seq<Action>): Option<System>
    decreases |actions|
  {
    if actions == [] then Some(s)
    else if Admissible(s, actions[0]) then Run(Step(s, actions[0]), actions[1..])
    else None
  }

  lemma {:induction false} RunKeepsInv(s: System, actions: seq<Action>)
    requires Inv(s) && Run(s, actions).Some?
    ensures Inv(Run(s, actions).value)
    decreases |actions|
  {
    if actions != [] {
      StepKeepsInv(s, actions[0]);
      RunKeepsInv(Step(s, actions[0]), actions[1..]);
    }
  }

  /** In every run neither side ever gives up on the stream. */
  lemma NoRunIsRejected(actions: seq<Action>)
    requires Run(START, actions).Some?
    ensures Run(START, actions).value.ok
    ensures TablesAgree(Run(START, actions).value)
  {
    StartIsFine();
    RunKeepsInv(START, actions);
  }

  /** A map reply that meets the request it names, after any run: it has the kind of the
      request; a success also has its size and finds nothing mapped. */
  lemma MatchedReplyIsAccepted(actions: seq<Action>)
    requires Run(START, actions).Some?
    requires var s := Run(START, actions).value;
             && s.replies != [] && !s.replies[0].DeviceErrorCallback?
             && L.Asked(ClientSlotOf(s.client, s.replies[0].id), s.replies[0].bufferSerial, s.replies[0].requestSerial)
             && s.replies[0].id > 0
    ensures var s := Run(START, actions).value;
            var r := s.replies[0];
            var b := s.client.slots[r.id].buffer.value;
            var request := b.requests[r.requestSerial];
            && request.isWrite == r.MapWriteCallback?
            && (r.status == NB.Success ==> b.mapped.None? && (r.MapReadCallback? ==> r.dataLength == request.size))
  {
    StartIsFine();
    RunKeepsInv(START, actions);
    var s := Run(START, actions).value;
    var r := s.replies[0];
    assert LaneFine(s, r.id);
    OwnHead(s, r.id);
    var l := LaneOf(s, r.id);
    assert l.replies[0] == r && L.ReplyFits(l.client, r) && L.AskedReply(l, 0);
    if r.status == NB.Success { assert L.SuccessReply(l, 0); }
  }

  /** The data of a write mapping, when the server gets it after any run, finds the mapping it
      was written for. */
  lemma UpdateFindsItsMapping(actions: seq<Action>)
    requires Run(START, actions).Some?
    requires var s := Run(START, actions).value; s.commands != [] && s.commands[0].BufferUpdateMappedData?
    ensures var s := Run(START, actions).value;
            var c := s.commands[0];
            && 0 < c.id < |s.known|
            && HandleUpdateMappedData(s.known[c.id], c.length).ok
            && s.known[c.id].mapped == Some(c.source)
            && c.source.bufferSerial == s.known[c.id].serial
  {
    StartIsFine();
    RunKeepsInv(START, actions);
    var s := Run(START, actions).value;
    var c := s.commands[0];
    HandleFollowsTable(s, None, false);
    assert LaneFine(s, c.id);
    OwnHead(s, c.id);
    var l := LaneOf(s, c.id);
    assert l.commands[0] == c && L.UpdateFits(l, 0);
    WireLaneServer.HandleUpdateKeepsInv(l, None, false);
  }

  /** While the client has been given a mapping, no other success for the same buffer is on its
      way, until the client unmaps. */
  lemma OneSuccessPerEpoch(actions: seq<Action>, id: nat, k: nat)
    requires Run(START, actions).Some?
    requires var s := Run(START, actions).value;
             && IsObject(s.client, id) && s.client.slots[id].buffer.value.mapped.Some?
             && k < |L.Own(s.replies, id)|
    ensures var s := Run(START, actions).value;
            var r := L.Own(s.replies, id)[k];
            && !r.DeviceErrorCallback?
            && !(r.status == NB.Success && L.Asked(s.client.slots[id], r.bufferSerial, r.requestSerial))
  {
    StartIsFine();
    RunKeepsInv(START, actions);
    var s := Run(START, actions).value;
    assert LaneFine(s, id);
    var l := LaneOf(s, id);
    assert L.Epochs(l) && L.OpenEpoch(l);
    assert !L.SuccessReply(l, k);
  }

  /** Every map request made for an id is answered once or outstanding; when nothing about the
      id is in flight, all of them have been answered. */
  lemma RequestsAnsweredOnce(actions: seq<Action>, id: nat)
    requires Run(START, actions).Some? && id > 0
    ensures var c := ClientSlotOf(Run(START, actions).value.client, id);
            multiset(c.issued) == c.answered + multiset(Outstanding(c))
    ensures R.Quiet(LaneOf(Run(START, actions).value, id)) ==>
              Outstanding(ClientSlotOf(Run(START, actions).value.client, id)) == {}
  {
    StartIsFine();
    RunKeepsInv(START, actions);
    var s := Run(START, actions).value;
    assert LaneFine(s, id);
    if R.Quiet(LaneOf(s, id)) {
      R.QuietMeansAnswered(LaneOf(s, id));
    }
  }

  // ----- Serials name objects -----

  lemma LaneKeepsSerial(l: L.Lane, a: L.LaneAction)
    requires L.Inv(l) && L.Admissible(l, a)
    ensures var c, c' := l.client, L.Step(l, a).lane.client;
            && c.serial <= c'.serial
            && (c.serial == c'.serial && c'.buffer.Some? ==> c.buffer.Some?)
  {
  }

  lemma StepKeepsSerial(s: System, a: Action, id: nat)
    requires Inv(s) && Admissible(s, a) && id > 0
    ensures var c, c' := ClientSlotOf(s.client, id), ClientSlotOf(Step(s, a).client, id);
            && c.serial <= c'.serial
            && (c.serial == c'.serial && c'.buffer.Some? ==> c.buffer.Some?)
  {
    hide L.Inv, L.Admissible, L.Step, Step;
    StepInLane(s, a, id);
    if id == Target(s, a) {
      assert LaneFine(s, id);
      LaneKeepsSerial(LaneOf(s, id), InLane(a));
    }
  }

  /** A pair of id and serial names one object for good: if after more steps the id is live with
      the serial it has now, it has been live all along. So a reply tagged with the pair can
      reach no other object. */
  lemma {:induction false} SerialNamesOneObject(s: System, actions: seq<Action>, id: nat)
    requires Inv(s) && Run(s, actions).Some? && id > 0
    ensures var c, c' := ClientSlotOf(s.client, id), ClientSlotOf(Run(s, actions).value.client, id);
            && c.serial <= c'.serial
            && (c.serial == c'.serial && c'.buffer.Some? ==> c.buffer.Some?)
    decreases |actions|
  {
    if actions != [] {
      StepKeepsSerial(s, actions[0], id);
      StepKeepsInv(s, actions[0]);
      SerialNamesOneObject(Step(s, actions[0]), actions[1..], id);
    }
  }
}
