/** What the two ends hold and send, said from the history of a run: the calls and replies that reached
    the client, and the commands and completions that reached the server. */
module WireHistories {
  import opened Wrappers
  import NB = NativeBuffer
  import opened WireModel
  import opened WireSystem
  import L = WireLane
  import R = WireReferences

  // ----- What the client was told -----

  /** A map request the application made. */
  datatype Ask = Ask(start: nat, size: nat, isWrite: bool)

  /** How many objects the id has named; for the last one the requests made in order, those neither answered
      nor unmapped, and the request whose mapping it holds. */
  datatype Told = Told(made: nat, asks: seq<Ask>, waiting: set<nat>, given: Option<nat>)

  /** The reply answers a request that waits. */
  predicate Answers(r: Return, id: nat, h: Told) {
    && !r.DeviceErrorCallback? && r.id == id && r.bufferSerial == h.made - 1
    && r.requestSerial in h.waiting && r.requestSerial < |h.asks|
  }

  function Tells(s: System, a: Action, id: nat, h: Told): Told
    requires Enabled(s, a)
  {
    match a
    case Create => if R.Creates(s, Step(s, a), id) then Told(h.made + 1, [], {}, None) else h
    case Map(i, start, size, isWrite) =>
      if i == id then h.(asks := h.asks + [Ask(start, size, isWrite)], waiting := h.waiting + {|h.asks|}) else h
    case Unmap(i) => if i == id then h.(waiting := {}, given := None) else h
    case ClientHandle(zeroIsNull) =>
      var r := s.replies[0];
      if !Answers(r, id, h) then h
      else
        var isNull := h.asks[r.requestSerial].size == 0 && zeroIsNull;
        h.(waiting := h.waiting - {r.requestSerial},
           given := if r.status == NB.Success && !isNull then Some(r.requestSerial) else h.given)
    case _ => h
  }

  function ToldAfter(s: System, actions: seq<Action>, id: nat, h: Told): Told
    requires Run(s, actions).Some?
    decreases |actions|
  {
    if actions == [] then h else ToldAfter(Step(s, actions[0]), actions[1..], id, Tells(s, actions[0], id, h))
  }

  const NOT_TOLD: Told := Told(0, [], {}, None)

  predicate Remembers(c: ClientSlot, h: Told) {
    && c.serial == h.made - 1
    && (c.buffer.Some? ==>
          var b := c.buffer.value;
          && b.requestSerial == |h.asks| && b.requests.Keys == h.waiting
          && (forall rs | rs in h.waiting :: rs < |h.asks| && b.requests[rs] == MapRequest(h.asks[rs].size, h.asks[rs].isWrite))
          && (h.given.None? ==> !HasPointer(b.mapped))
          && (h.given.Some? ==>
                var rs := h.given.value;
                rs < |h.asks| && b.mapped == Some(ClientMapping(rs, h.asks[rs].size, h.asks[rs].isWrite, false))))
  }

  /** What a call does to what the client was told under the id it names. */
  lemma TellsOwn(s: System, a: Action, id: nat, h: Told)
    requires AllocatorValid(s.client) && Admissible(s, a) && IsClientCall(a)
    ensures id != Target(s, a) ==> Tells(s, a, id, h) == h
    ensures id == Target(s, a) ==>
              Tells(s, a, id, h) ==
                match a
                case Create => Told(h.made + 1, [], {}, None)
                case Map(_, start, size, isWrite) =>
                  h.(asks := h.asks + [Ask(start, size, isWrite)], waiting := h.waiting + {|h.asks|})
                case Unmap(_) => h.(waiting := {}, given := None)
                case _ => h
  {
    hide AllocatorValid, Step;
    R.CallCreates(s, a, id);
  }

  lemma MapIsRemembered(c: ClientSlot, start: nat, size: nat, isWrite: bool, h: Told)
    requires Remembers(c, h) && c.buffer.Some? && c.buffer.value.requestSerial + 1 < U32_RANGE
    ensures Remembers(MapObject(c, size, isWrite), h.(asks := h.asks + [Ask(start, size, isWrite)], waiting := h.waiting + {|h.asks|}))
  {
    assert forall rs | 0 <= rs < |h.asks| :: (h.asks + [Ask(start, size, isWrite)])[rs] == h.asks[rs];
  }

  lemma CalledIsRemembered(s: System, a: Action, h: Told)
    requires AllocatorValid(s.client) && Admissible(s, a) && IsClientCall(a) && Remembers(ClientSlotOf(s.client, Target(s, a)), h)
    ensures Remembers(CalledSlot(s, a), Tells(s, a, Target(s, a), h))
  {
    hide AllocatorValid, Step, Tells;
    TellsOwn(s, a, Target(s, a), h);
    if a.Map? {
      hide Remembers;
      MapIsRemembered(s.client.slots[a.id], a.start, a.size, a.isWrite, h);
    }
  }

  lemma CallIsRemembered(s: System, a: Action, id: nat, h: Told)
    requires AllocatorValid(s.client) && Admissible(s, a) && IsClientCall(a) && Remembers(ClientSlotOf(s.client, id), h) && id > 0
    ensures Remembers(ClientSlotOf(Step(s, a).client, id), Tells(s, a, id, h))
  {
    hide AllocatorValid, Step, Remembers, CalledSlot, Tells;
    CallChanges(s, a);
    if id == Target(s, a) { CalledIsRemembered(s, a, h); } else { TellsOwn(s, a, id, h); }
  }

  lemma ReplyIsRemembered(s: System, zeroIsNull: bool, id: nat, h: Told)
    requires AllocatorValid(s.client) && Enabled(s, ClientHandle(zeroIsNull)) && Step(s, ClientHandle(zeroIsNull)).ok
    requires Remembers(ClientSlotOf(s.client, id), h) && id > 0
    ensures Remembers(ClientSlotOf(Step(s, ClientHandle(zeroIsNull)).client, id), Tells(s, ClientHandle(zeroIsNull), id, h))
  {
    hide AllocatorValid, Step;
    ReplyChanges(s, zeroIsNull);
  }

  lemma StepIsRemembered(s: System, a: Action, id: nat, h: Told)
    requires Inv(s) && Admissible(s, a) && Remembers(ClientSlotOf(s.client, id), h) && id > 0
    ensures Remembers(ClientSlotOf(Step(s, a).client, id), Tells(s, a, id, h))
  {
    hide Remembers, LaneFine, TablesAgree, AllocatorValid;
    StepInLane(s, a, id);
    if IsClientCall(a) {
      CallIsRemembered(s, a, id, h);
    } else if a.ClientHandle? {
      ReplyIsRemembered(s, a.zeroIsNull, id, h);
    }
  }

  lemma {:induction false} RunIsRemembered(s: System, actions: seq<Action>, id: nat, h: Told)
    requires Inv(s) && Run(s, actions).Some? && Remembers(ClientSlotOf(s.client, id), h) && id > 0
    ensures Remembers(ClientSlotOf(Run(s, actions).value.client, id), ToldAfter(s, actions, id, h))
    decreases |actions|
  {
    hide Inv, Step, Enabled, Remembers, Tells;
    if actions != [] {
      StepIsRemembered(s, actions[0], id, h);
      StepKeepsInv(s, actions[0]);
      RunIsRemembered(Step(s, actions[0]), actions[1..], id, Tells(s, actions[0], id, h));
    }
  }

  /** After every run, the client holds what the history says: its counter of requests is their number, it
      waits for the requests made and neither answered nor unmapped, with their sizes and kinds, and it
      holds the mapping of the last success since the last unmap, with the size and kind of its request. */
  lemma ClientHoldsHistory(actions: seq<Action>, id: nat)
    requires Run(START, actions).Some? && id > 0
    ensures Remembers(ClientSlotOf(Run(START, actions).value.client, id), ToldAfter(START, actions, id, NOT_TOLD))
  {
    StartIsFine();
    RunIsRemembered(START, actions, id, NOT_TOLD);
  }

  function KeysOf(h: Told): multiset<RequestKey> {
    multiset(set rs | rs in h.waiting :: (h.made - 1, rs))
  }

  /** After every run, an unmap answers what waits and sends the data of the mapping before the unmap if
      and only if the client holds a mapping for writing; a map request carries its number and what was
      asked. */
  lemma CallsSendExactly(actions: seq<Action>, id: nat)
    requires Run(START, actions).Some? && id > 0 && Enabled(Run(START, actions).value, Unmap(id))
    ensures var s, h := Run(START, actions).value, ToldAfter(START, actions, id, NOT_TOLD);
            var s' := Step(s, Unmap(id));
            && s'.commands == s.commands +
                 (if h.given.Some? && h.given.value < |h.asks| && h.asks[h.given.value].isWrite then
                    var size := h.asks[h.given.value].size;
                    [BufferUpdateMappedData(id, size, Mapping(h.made - 1, h.given.value, size)), BufferUnmap(id)]
                  else [BufferUnmap(id)])
            && s'.client.slots[id].answered == s.client.slots[id].answered + KeysOf(h)
    ensures var s, h := Run(START, actions).value, ToldAfter(START, actions, id, NOT_TOLD);
            forall start, size, isWrite ::
              Step(s, Map(id, start, size, isWrite)).commands == s.commands + [BufferMapAsync(id, |h.asks|, start, size, isWrite)]
  {
    hide Run, ToldAfter, AllocatorValid;
    StartIsFine();
    RunKeepsInv(START, actions);
    ClientHoldsHistory(actions, id);
    var s, h := Run(START, actions).value, ToldAfter(START, actions, id, NOT_TOLD);
    assert Outstanding(s.client.slots[id]) == set rs | rs in h.waiting :: (h.made - 1, rs);
  }

  lemma ReplyAnswers(s: System, zeroIsNull: bool, id: nat, h: Told)
    requires AllocatorValid(s.client) && Enabled(s, ClientHandle(zeroIsNull)) && Step(s, ClientHandle(zeroIsNull)).ok
    requires Remembers(ClientSlotOf(s.client, id), h)
    ensures var c, c' := ClientSlotOf(s.client, id), ClientSlotOf(Step(s, ClientHandle(zeroIsNull)).client, id);
            var r := s.replies[0];
            c'.answered == c.answered +
              if c.buffer.Some? && Answers(r, id, h) then multiset{(h.made - 1, r.requestSerial)} else multiset{}
  {
    hide AllocatorValid, Step;
    ReplyChanges(s, zeroIsNull);
  }

  /** After every run, a reply fires exactly one callback if it answers a request that waits, and none
      otherwise. */
  lemma RepliesAnswerExactly(actions: seq<Action>, zeroIsNull: bool, id: nat)
    requires Run(START, actions).Some? && Admissible(Run(START, actions).value, ClientHandle(zeroIsNull)) && id > 0
    ensures var s, h := Run(START, actions).value, ToldAfter(START, actions, id, NOT_TOLD);
            var c, c' := ClientSlotOf(s.client, id), ClientSlotOf(Step(s, ClientHandle(zeroIsNull)).client, id);
            var r := s.replies[0];
            c'.answered == c.answered +
              if c.buffer.Some? && Answers(r, id, h) then multiset{(h.made - 1, r.requestSerial)} else multiset{}
  {
    hide Run, ToldAfter, AllocatorValid, Step, TablesAgree, LaneFine, Remembers, ClientSlotOf, Answers;
    StartIsFine();
    RunKeepsInv(START, actions);
    ClientHoldsHistory(actions, id);
    var s := Run(START, actions).value;
    StepInLane(s, ClientHandle(zeroIsNull), id);
    ReplyAnswers(s, zeroIsNull, id, ToldAfter(START, actions, id, NOT_TOLD));
  }

  // ----- What the server saw -----

  /** The last creation under an id and what its creation yielded, and what has reached the native buffer
      since. */
  datatype Seen = Seen(serial: int, created: Option<NewNative>, ops: seq<NB.Op<MapUserdata>>)

  function SeesCommand(c: Command, created: Option<NewNative>, id: nat, h: Seen): Seen {
    if c.id != id then h
    else
      match c
      case CreateBuffer(_, serial) => Seen(serial, created, [])
      case BufferMapAsync(_, rs, start, size, isWrite) =>
        h.(ops := h.ops + [NB.MapOp(isWrite, start, size, MapUserdata(id, h.serial, rs, size, isWrite))])
      case BufferUnmap(_) => h.(ops := h.ops + [NB.UnmapOp])
      case _ => h
  }

  function Sees(s: System, a: Action, id: nat, h: Seen): Seen
    requires Enabled(s, a)
  {
    match a
    case ServerHandle(created, _) => SeesCommand(s.commands[0], created, id, h)
    case Complete(i, isWrite, serial, status) =>
      if i == id then h.(ops := h.ops + [NB.CompleteOp(isWrite, serial, status)]) else h
    case _ => h
  }

  function SeenAfter(s: System, actions: seq<Action>, id: nat, h: Seen): Seen
    requires Run(s, actions).Some?
    decreases |actions|
  {
    if actions == [] then h else SeenAfter(Step(s, actions[0]), actions[1..], id, Sees(s, actions[0], id, h))
  }

  const NOT_SEEN: Seen := Seen(-1, None, [])

  function NativeOf(h: Seen): Native
    requires h.created.Some?
  {
    NB.After(NB.NewBuffer(h.created.value.size, h.created.value.canMapRead, h.created.value.canMapWrite), h.ops)
  }

  predicate Follows(slot: ServerSlot, h: Seen) {
    && slot.serial == h.serial
    && (slot.isAllocated ==>
          && (slot.isValid <==> h.created.Some?)
          && (h.created.Some? ==> slot.native == NativeOf(h)))
  }

  /** One more operation on the native buffer. */
  lemma OneMore(h: Seen, op: NB.Op<MapUserdata>)
    requires h.created.Some?
    ensures NativeOf(h.(ops := h.ops + [op])) == NB.Step(NativeOf(h), op).state
  {
    assert (h.ops + [op])[..|h.ops|] == h.ops;
  }

  lemma CommandIsFollowed(slot: ServerSlot, c: Command, created: Option<NewNative>, heldElsewhere: bool, id: nat, h: Seen)
    requires Follows(slot, h) && c.id == id && HandleCommand(slot, c, created, heldElsewhere).ok
    ensures Follows(HandleCommand(slot, c, created, heldElsewhere).slot, SeesCommand(c, created, id, h))
  {
    hide NB.After;
    if h.created.Some? {
      var h' := SeesCommand(c, created, id, h);
      if c.BufferMapAsync? || c.BufferUnmap? { OneMore(h, h'.ops[|h.ops|]); }
    }
    if c.CreateBuffer? && created.Some? { NothingSeen(c.serial, created); }
  }

  lemma NothingSeen(serial: int, created: Option<NewNative>)
    requires created.Some?
    ensures NativeOf(Seen(serial, created, [])) == NB.NewBuffer(created.value.size, created.value.canMapRead, created.value.canMapWrite)
  {
  }

  lemma HandleIsFollowed(s: System, created: Option<NewNative>, heldElsewhere: bool, id: nat, h: Seen)
    requires Enabled(s, ServerHandle(created, heldElsewhere)) && Step(s, ServerHandle(created, heldElsewhere)).ok
    requires Follows(ServerSlotOf(s.known, id), h)
    ensures Follows(ServerSlotOf(Step(s, ServerHandle(created, heldElsewhere)).known, id), SeesCommand(s.commands[0], created, id, h))
  {
    hide HandleCommand, Follows;
    HandleChanges(s, created, heldElsewhere);
    if s.commands[0].id == id {
      CommandIsFollowed(ServerSlotOf(s.known, id), s.commands[0], created, heldElsewhere, id, h);
    }
  }

  lemma BackendIsFollowed(s: System, a: Action, id: nat, h: Seen)
    requires Enabled(s, a) && Follows(ServerSlotOf(s.known, id), h)
    requires a.Complete? || a.Late? || a.LateFree?
    ensures Follows(ServerSlotOf(Step(s, a).known, id), Sees(s, a, id, h))
  {
    hide NB.After;
    if a.Complete? && a.id == id && h.created.Some? {
      OneMore(h, NB.CompleteOp(a.isWrite, a.serial, a.status));
    }
  }

  lemma StepIsFollowed(s: System, a: Action, id: nat, h: Seen)
    requires Inv(s) && Admissible(s, a) && Follows(ServerSlotOf(s.known, id), h) && id > 0
    ensures Follows(ServerSlotOf(Step(s, a).known, id), Sees(s, a, id, h))
  {
    hide Follows, LaneFine, TablesAgree, AllocatorValid;
    StepInLane(s, a, id);
    if a.ServerHandle? {
      HandleIsFollowed(s, a.created, a.heldElsewhere, id, h);
    } else if a.Complete? || a.Late? || a.LateFree? {
      BackendIsFollowed(s, a, id, h);
    }
  }

  lemma {:induction false} RunIsFollowed(s: System, actions: seq<Action>, id: nat, h: Seen)
    requires Inv(s) && Run(s, actions).Some? && Follows(ServerSlotOf(s.known, id), h) && id > 0
    ensures Follows(ServerSlotOf(Run(s, actions).value.known, id), SeenAfter(s, actions, id, h))
    decreases |actions|
  {
    hide Inv, Step, Enabled, Follows, Sees;
    if actions != [] {
      StepIsFollowed(s, actions[0], id, h);
      StepKeepsInv(s, actions[0]);
      RunIsFollowed(Step(s, actions[0]), actions[1..], id, Sees(s, actions[0], id, h));
    }
  }

  /** After every run, a known object is valid if and only if its creation succeeded, and its native buffer
      is where the map commands, unmaps and completions since then lead the buffer that was created. */
  lemma NativeFollowsHistory(actions: seq<Action>, id: nat)
    requires Run(START, actions).Some? && id > 0
    ensures Follows(ServerSlotOf(Run(START, actions).value.known, id), SeenAfter(START, actions, id, NOT_SEEN))
  {
    StartIsFine();
    RunIsFollowed(START, actions, id, NOT_SEEN);
  }

  // ----- What the server answers -----

  function ReplyTo(u: MapUserdata, isWrite: bool, status: NB.MapStatus): Return {
    if isWrite then MapWriteCallback(u.bufferId, u.bufferSerial, u.requestSerial, status)
    else MapReadCallback(u.bufferId, u.bufferSerial, u.requestSerial, status, if status == NB.Success then u.size else 0)
  }

  /** The request that is pending in a native buffer is answered, if there is one. */
  function ReplyToPending(native: Native, status: NB.MapStatus): seq<Return> {
    if native.readRequest.Some? then [ReplyTo(native.readRequest.value, false, status)]
    else if native.writeRequest.Some? then [ReplyTo(native.writeRequest.value, true, status)]
    else []
  }

  /** No request since the creation is held. */
  predicate Idle(h: Seen)
    requires h.created.Some?
  {
    !NB.Held(h.created.value.size, h.created.value.canMapRead, h.created.value.canMapWrite, h.ops)
  }

  predicate Suits(h: Seen, op: NB.Op<MapUserdata>)
    requires h.created.Some? && op.MapOp?
  {
    NB.Suits(h.created.value.size, h.created.value.canMapRead, h.created.value.canMapWrite, op)
  }

  /** What the server sends when it handles a command. */
  function AnswersTo(c: Command, heldElsewhere: bool, h: Seen): seq<Return> {
    match c
    case CreateBuffer(_, _) => []
    case BufferUpdateMappedData(_, _, _) => []
    case BufferMapAsync(id, rs, start, size, isWrite) =>
      var u := MapUserdata(id, h.serial, rs, size, isWrite);
      if h.created.None? then [ReplyTo(u, isWrite, NB.Error)]
      else if Suits(h, NB.MapOp(isWrite, start, size, u)) && Idle(h) then []
      else [DeviceErrorCallback, ReplyTo(u, isWrite, NB.Error)]
    case BufferUnmap(_) =>
      if h.created.None? then [] else if Idle(h) then [DeviceErrorCallback] else ReplyToPending(NativeOf(h), NB.Unknown)
    case DestroyBuffer(_) =>
      if h.created.None? || heldElsewhere then [] else ReplyToPending(NativeOf(h), NB.Unknown)
  }

  lemma CommandIsAnswered(slot: ServerSlot, c: Command, created: Option<NewNative>, heldElsewhere: bool, h: Seen)
    requires Follows(slot, h) && HandleCommand(slot, c, created, heldElsewhere).ok
    ensures HandleCommand(slot, c, created, heldElsewhere).sent == AnswersTo(c, heldElsewhere, h)
  {
    hide NB.After, NB.Held;
    if h.created.Some? {
      NB.MappedExactly<MapUserdata>(h.created.value.size, h.created.value.canMapRead, h.created.value.canMapWrite, h.ops);
    }
  }

  /** After every run, handling a command sends exactly these answers: a map request is answered at once
      if and only if the object is invalid or the request is out of the range or the kinds of the buffer, or
      another is held since the last unmap; an unmap or a destruction answers what is pending. */
  lemma ServerAnswersExactly(actions: seq<Action>, created: Option<NewNative>, heldElsewhere: bool)
    requires Run(START, actions).Some? && Admissible(Run(START, actions).value, ServerHandle(created, heldElsewhere))
    ensures var s := Run(START, actions).value;
            var c := s.commands[0];
            var s' := Step(s, ServerHandle(created, heldElsewhere));
            s'.replies == s.replies + AnswersTo(c, heldElsewhere, SeenAfter(START, actions, c.id, NOT_SEEN))
  {
    hide Run, SeenAfter, AllocatorValid, Step, TablesAgree, LaneFine, HandleCommand, AnswersTo, Follows;
    StartIsFine();
    RunKeepsInv(START, actions);
    var s, a := Run(START, actions).value, ServerHandle(created, heldElsewhere);
    var c := s.commands[0];
    StepInLane(s, a, 1);
    HeadHasId(s, created, heldElsewhere);
    NativeFollowsHistory(actions, c.id);
    HandlesFine(s, created, heldElsewhere);
    HandleChanges(s, created, heldElsewhere);
    CommandIsAnswered(ServerSlotOf(s.known, c.id), c, created, heldElsewhere, SeenAfter(START, actions, c.id, NOT_SEEN));
  }

  lemma HandlesFine(s: System, created: Option<NewNative>, heldElsewhere: bool)
    requires Enabled(s, ServerHandle(created, heldElsewhere)) && Step(s, ServerHandle(created, heldElsewhere)).ok
    ensures s.commands[0].id <= |s.known|
    ensures HandleCommand(ServerSlotOf(s.known, s.commands[0].id), s.commands[0], created, heldElsewhere).ok
  {
    hide HandleCommand;
  }

  lemma HeadHasId(s: System, created: Option<NewNative>, heldElsewhere: bool)
    requires Inv(s) && s.commands != []
    ensures s.commands[0].id > 0
  {
    hide AllocatorValid;
    if s.commands[0].id > 0 { assert LaneFine(s, s.commands[0].id); }
    HandleInLane(s, created, heldElsewhere, 1);
  }

  /** After every run, a completion of the backend is answered if and only if a request of its kind is
      pending and it carries the serial of that request; the server then keeps the mapping exactly for a
      write request that succeeded. */
  lemma CompletionAnswersExactly(actions: seq<Action>, id: nat, isWrite: bool, serial: nat, status: NB.MapStatus)
    requires Run(START, actions).Some? && id > 0
    requires Admissible(Run(START, actions).value, Complete(id, isWrite, serial, status))
    ensures SeenAfter(START, actions, id, NOT_SEEN).created.Some?
    ensures var s := Run(START, actions).value;
            var s' := Step(s, Complete(id, isWrite, serial, status));
            var native := NativeOf(SeenAfter(START, actions, id, NOT_SEEN));
            var pending := if isWrite then native.writeRequest else native.readRequest;
            if pending.Some? && serial == native.mapSerial then
              var u := pending.value;
              && s'.replies == s.replies + [ReplyTo(u, isWrite, status)]
              && s'.known[id].mapped == if isWrite && status == NB.Success
                                        then Some(Mapping(u.bufferSerial, u.requestSerial, u.size)) else s.known[id].mapped
            else s' == s.(known := s'.known) && s'.known[id].mapped == s.known[id].mapped
  {
    hide Run, SeenAfter, AllocatorValid, TablesAgree, LaneFine, NativeOf;
    NativeFollowsHistory(actions, id);
    var s := Run(START, actions).value;
    assert s.replies + [] == s.replies;
  }
}
