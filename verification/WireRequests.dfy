/** What becomes of the map requests of one id: each is answered exactly once, and while it is
    not answered it can be pointed at. Also the one server step the protocol cannot absorb. */
module WireRequests {
  import opened Wrappers
  import NB = NativeBuffer
  import opened WireModel
  import opened WireLane
  import opened WireLaneServer
  import opened WireLaneSteps

  // ----- Exactly one callback for each request -----

  /** Every request ever made was either answered once or is outstanding. */
  predicate Accounted(c: ClientSlot) {
    && multiset(c.issued) == c.answered + multiset(Outstanding(c))
    && (forall key :: key in c.issued ==> key.0 <= c.serial)
    && (c.buffer.Some? ==> forall key :: key in c.issued && key.0 == c.serial ==> key.1 < c.buffer.value.requestSerial)
  }

  lemma MapKeepsAccount(c: ClientSlot, size: nat, isWrite: bool)
    requires Accounted(c) && c.buffer.Some? && c.buffer.value.requestSerial + 1 < U32_RANGE
    ensures Accounted(MapObject(c, size, isWrite))
  {
    var c' := MapObject(c, size, isWrite);
    var key := (c.serial, c.buffer.value.requestSerial);
    assert key !in c.issued;
    assert multiset(c'.issued) == multiset(c.issued) + multiset{key};
    assert Outstanding(c') == Outstanding(c) + {key};
    assert key !in Outstanding(c) by {
      assert multiset(c.issued)[key] == 0;
    }
  }

  lemma ReceiveKeepsAccount(l: Lane, zeroIsNull: bool)
    requires Inv(l) && Admissible(l, Receive(zeroIsNull)) && Accounted(l.client)
    ensures Accounted(Step(l, Receive(zeroIsNull)).lane.client)
  {
    var c, c' := l.client, Step(l, Receive(zeroIsNull)).lane.client;
    if AskedReply(l, 0) {
      ReceiveKeepsInv(l, zeroIsNull);
      var key := (c.serial, l.replies[0].requestSerial);
      assert Outstanding(c') == Outstanding(c) - {key};
      assert key in Outstanding(c);
      assert c'.answered == c.answered + multiset{key};
      assert multiset(Outstanding(c)) == multiset(Outstanding(c')) + multiset{key};
    }
  }

  /** No admissible step fires a callback twice or forgets one. */
  lemma StepKeepsAccount(l: Lane, a: LaneAction)
    requires Inv(l) && Admissible(l, a) && Accounted(l.client)
    ensures Accounted(Step(l, a).lane.client)
  {
    match a
    case New => assert Outstanding(l.client) == {};
                assert Outstanding(NewObject(l.client)) == {};
    case Reference => assert Outstanding(ReferenceObject(l.client)) == Outstanding(l.client);
    case Release => assert !LastReference(l.client) ==> Outstanding(ReleaseObject(l.client)) == Outstanding(l.client);
    case Unmap => assert Outstanding(UnmapObject(l.client)) == {};
    case Map(_, size, isWrite) => MapKeepsAccount(l.client, size, isWrite);
    case Receive(zeroIsNull) => ReceiveKeepsAccount(l, zeroIsNull);
    case _ =>
  }

  // ----- Where an outstanding request is -----

  predicate InCommands(l: Lane, rs: nat) {
    exists i :: 0 <= i < |l.commands| && l.commands[i].BufferMapAsync? && l.commands[i].requestSerial == rs
                && !HasMarker(Rest(l.commands, i))
  }

  predicate InReplies(l: Lane, rs: nat) {
    exists k :: 0 <= k < |l.replies| && !l.replies[k].DeviceErrorCallback?
                && l.replies[k].bufferSerial == l.client.serial && l.replies[k].requestSerial == rs
  }

  predicate IsRequest(l: Lane, u: Option<MapUserdata>, rs: nat) {
    u.Some? && u.value.bufferSerial == l.client.serial && u.value.requestSerial == rs
  }

  predicate InNative(l: Lane, rs: nat) {
    Bound(l.server) && (IsRequest(l, l.server.native.readRequest, rs) || IsRequest(l, l.server.native.writeRequest, rs))
  }

  predicate Located(l: Lane) {
    l.client.buffer.Some? ==> forall rs :: rs in l.client.buffer.value.requests ==>
      InCommands(l, rs) || InReplies(l, rs) || InNative(l, rs)
  }

  lemma AppendKeepsPlace(l: Lane, l': Lane, rs: nat)
    requires l'.client.serial == l.client.serial && l'.server == l.server && l'.replies == l.replies
    requires l'.commands == l.commands || (exists c :: l'.commands == l.commands + [c] && !IsMarker(c))
    requires InCommands(l, rs) || InReplies(l, rs) || InNative(l, rs)
    ensures InCommands(l', rs) || InReplies(l', rs) || InNative(l', rs)
  {
    if InCommands(l, rs) && l'.commands != l.commands {
      var c :| l'.commands == l.commands + [c] && !IsMarker(c);
      var i :| 0 <= i < |l.commands| && l.commands[i].BufferMapAsync? && l.commands[i].requestSerial == rs
               && !HasMarker(Rest(l.commands, i));
      SuffixAppend(l.commands, c, i);
      assert l'.commands[i] == l.commands[i];
    }
  }

  /** A command that is not the head stays where it is when the head is taken off. */
  lemma PopKeepsPlace(l: Lane, l': Lane, rs: nat)
    requires l.commands != [] && l'.commands == l.commands[1..]
    requires InCommands(l, rs)
    ensures InCommands(l', rs) || (l.commands[0].BufferMapAsync? && l.commands[0].requestSerial == rs && !HasMarker(l.commands[1..]))
  {
    var i :| 0 <= i < |l.commands| && l.commands[i].BufferMapAsync? && l.commands[i].requestSerial == rs
             && !HasMarker(Rest(l.commands, i));
    PopFacts(l.commands);
    if i > 0 {
      assert l'.commands[i - 1] == l.commands[i];
      assert Rest(l'.commands, i - 1) == Rest(l.commands, i);
    }
  }

  lemma RepliesKeepPlace(l: Lane, l': Lane, rs: nat)
    requires l'.client.serial == l.client.serial
    requires |l.replies| <= |l'.replies| && l'.replies[..|l.replies|] == l.replies
    requires InReplies(l, rs)
    ensures InReplies(l', rs)
  {
    var k :| 0 <= k < |l.replies| && !l.replies[k].DeviceErrorCallback?
             && l.replies[k].bufferSerial == l.client.serial && l.replies[k].requestSerial == rs;
    assert l'.replies[k] == l'.replies[..|l.replies|][k];
  }

  /** A native request that leaves the native buffer turns into a reply. */
  lemma FiredBecomesReply(l: Lane, fired: seq<NB.Callback<MapUserdata>>, deviceError: bool, u: MapUserdata, l': Lane)
    requires |fired| == 1 && fired[0].userdata == u && u.bufferId == l.id && u.bufferSerial == l'.client.serial
    requires l'.replies == l.replies + Own(DeviceErrors(deviceError) + ToReturns(fired), l.id)
    ensures InReplies(l', u.requestSerial)
  {
    OwnReplies(deviceError, fired, l.id);
    assert l'.replies[|l.replies|] == ToReturn(fired[0]);
  }

  lemma HandleKeepsPlace(l: Lane, created: Option<NewNative>, heldElsewhere: bool, rs: nat)
    requires Inv(l) && l.commands != [] && l.client.buffer.Some? && rs in l.client.buffer.value.requests
    requires InCommands(l, rs) || InReplies(l, rs) || InNative(l, rs)
    ensures var l' := Step(l, Handle(created, heldElsewhere)).lane;
            InCommands(l', rs) || InReplies(l', rs) || InNative(l', rs)
  {
    var l' := Step(l, Handle(created, heldElsewhere)).lane;
    var r := HandleCommand(l.server, l.commands[0], created, heldElsewhere);
    assert l.commands[0].id == l.id;
    if InReplies(l, rs) {
      RepliesKeepPlace(l, l', rs);
    } else if InCommands(l, rs) {
      PopKeepsPlace(l, l', rs);
      if !InCommands(l', rs) {
        HeadFits(l);
        var c := l.commands[0];
        var u := MapUserdata(l.id, l.server.serial, rs, c.size, c.isWrite);
        if !l.server.isValid {
          OwnAll(r.sent, l.id);
          assert l'.replies[|l.replies|] == r.sent[0];
        } else {
          var out := NB.MapAsync(l.server.native, c.isWrite, c.start, c.size, u);
          if out.deviceError { FiredBecomesReply(l, out.fired, true, u, l'); }
        }
      }
    } else {
      // A native request of an epoch that is still open: no marker is at the head.
      PopFacts(l.commands);
      assert NB.Valid(l.server.native);
    }
  }

  lemma CompleteKeepsPlace(l: Lane, isWrite: bool, serial: nat, status: NB.MapStatus, rs: nat)
    requires Inv(l) && Bound(l.server) && l.client.buffer.Some? && rs in l.client.buffer.value.requests
    requires InCommands(l, rs) || InReplies(l, rs) || InNative(l, rs)
    ensures var l' := Step(l, Complete(isWrite, serial, status)).lane;
            InCommands(l', rs) || InReplies(l', rs) || InNative(l', rs)
  {
    var l' := Step(l, Complete(isWrite, serial, status)).lane;
    var out := NB.Complete(l.server.native, isWrite, serial, status);
    assert l'.commands == l.commands;
    if InReplies(l, rs) {
      RepliesKeepPlace(l, l', rs);
    } else if !InCommands(l, rs) && out.fired != [] {
      assert DeviceErrors(false) + ToReturns(out.fired) == ToReturns(out.fired);
      FiredBecomesReply(l, out.fired, false, out.fired[0].userdata, l');
    }
  }

  lemma ReceiveKeepsPlace(l: Lane, zeroIsNull: bool, rs: nat)
    requires Inv(l) && Admissible(l, Receive(zeroIsNull))
    requires var c' := Step(l, Receive(zeroIsNull)).lane.client; c'.buffer.Some? && rs in c'.buffer.value.requests
    requires InCommands(l, rs) || InReplies(l, rs) || InNative(l, rs)
    ensures var l' := Step(l, Receive(zeroIsNull)).lane;
            InCommands(l', rs) || InReplies(l', rs) || InNative(l', rs)
  {
    var l' := Step(l, Receive(zeroIsNull)).lane;
    ReceiveKeepsInv(l, zeroIsNull);
    if InReplies(l, rs) {
      var k :| 0 <= k < |l.replies| && l.replies[k].bufferSerial == l.client.serial && l.replies[k].requestSerial == rs;
      assert AskedReply(l, k);
      assert k > 0;
      assert l'.replies[k - 1] == l.replies[k];
    }
  }

  /** While the client waits for a request, it is a command no marker follows, a pending native
      request, or a reply on its way. */
  lemma StepKeepsLocated(l: Lane, a: LaneAction)
    requires Inv(l) && Admissible(l, a) && Located(l)
    ensures Located(Step(l, a).lane)
  {
    var l' := Step(l, a).lane;
    if l'.client.buffer.Some? {
      forall rs | rs in l'.client.buffer.value.requests ensures InCommands(l', rs) || InReplies(l', rs) || InNative(l', rs) {
        match a
        case New =>
        case Unmap =>
        case Reference => AppendKeepsPlace(l, l', rs);
        case Release => AppendKeepsPlace(l, l', rs);
        case Map(start, size, isWrite) =>
          var c := BufferMapAsync(l.id, l.client.buffer.value.requestSerial, start, size, isWrite);
          assert l'.commands == l.commands + [c];
          if rs == c.requestSerial {
            assert l'.commands[|l.commands|] == c && Rest(l'.commands, |l.commands|) == [];
          } else {
            AppendKeepsPlace(l, l', rs);
          }
        case Handle(created, heldElsewhere) => HandleKeepsPlace(l, created, heldElsewhere, rs);
        case Complete(isWrite, serial, status) => CompleteKeepsPlace(l, isWrite, serial, status, rs);
        case Late(_, _, _, _) => if InReplies(l, rs) { RepliesKeepPlace(l, l', rs); }
        case LateFree(_) => if InReplies(l, rs) { RepliesKeepPlace(l, l', rs); }
        case Receive(zeroIsNull) => ReceiveKeepsPlace(l, zeroIsNull, rs);
      }
    }
  }

  /** Nothing about the id is on its way and the backend owes the id nothing. */
  predicate Quiet(l: Lane) {
    && l.commands == [] && l.replies == []
    && (Bound(l.server) ==> l.server.native.readRequest.None? && l.server.native.writeRequest.None?)
  }

  /** Once everything in flight has arrived, every request ever made has had its one callback. */
  lemma QuietMeansAnswered(l: Lane)
    requires Located(l) && Accounted(l.client) && Quiet(l)
    ensures l.client.answered == multiset(l.client.issued) && Outstanding(l.client) == {}
  {
    assert Outstanding(l.client) == {} by {
      if l.client.buffer.Some? {
        forall rs: nat ensures rs !in l.client.buffer.value.requests {
          assert !(InCommands(l, rs) || InReplies(l, rs) || InNative(l, rs));
        }
      }
    }
  }

  // ----- The step that cannot be absorbed -----

  /** A step other than a wrapping serial leaves the server with a mapping of the object the id
      names if and only if it is not the late success of a write mapping. */
  lemma LateWriteSuccessIsExact(l: Lane, a: LaneAction)
    requires Inv(l) && Enabled(l, a) && !SerialWraps(l, a)
    ensures Step(l, a).ok && MappingFits(Step(l, a).lane) <==> !LateWriteSuccess(l, a)
  {
    if LateWriteSuccess(l, a) {
      assert RetiredFits(l, l.server.retired[a.n]);
    } else {
      StepKeepsInv(l, a);
    }
  }

  /** The lane after a run, or None when a step is not enabled or one side gives up. */
  function Run(l: Lane, actions: seq<LaneAction>): Option<Lane>
    decreases |actions|
  {
    if actions == [] then Some(l)
    else if Enabled(l, actions[0]) && Step(l, actions[0]).ok then Run(Step(l, actions[0]).lane, actions[1..])
    else None
  }

  /** A buffer of 8 bytes is mapped for writing and released while something else holds it; its
      id is used again for a buffer of 4 bytes, which is mapped for writing; then the first
      mapping completes, and the client unmaps the second buffer. */
  const CLIENT_PART: seq<LaneAction> := [New, Map(0, 8, true), Release, New, Map(0, 4, true)]
  const SERVER_PART: seq<LaneAction> :=
    [Handle(Some(NewNative(8, false, true)), false), Handle(None, false), Handle(None, true),
     Handle(Some(NewNative(4, false, true)), false), Handle(None, false)]
  const MAPPING_PART: seq<LaneAction> := [Complete(true, 1, NB.Success), Receive(false)]
  const LATE_PART: seq<LaneAction> :=
    [Late(0, true, 1, NB.Success), Unmap]

  lemma {:induction false} RunConcat(l: Lane, a: seq<LaneAction>, b: seq<LaneAction>)
    requires Run(l, a).Some?
    ensures Run(l, a + b) == Run(Run(l, a).value, b)
    decreases |a|
  {
    if a == [] {
      assert a + b == b;
    } else {
      assert (a + b)[0] == a[0] && (a + b)[1..] == a[1..] + b;
      RunConcat(Step(l, a[0]).lane, a[1..], b);
    }
  }

  lemma ClientPart() returns (l: Lane)
    ensures Run(FreshLane(1), CLIENT_PART) == Some(l)
    ensures l.client.serial == 1 && l.client.buffer == Some(ClientBuffer(1, map[0 := MapRequest(4, true)], 1, None))
    ensures l.commands == [CreateBuffer(1, 0), BufferMapAsync(1, 0, 0, 8, true), DestroyBuffer(1),
                           CreateBuffer(1, 1), BufferMapAsync(1, 0, 0, 4, true)]
    ensures l.server == UNUSED_SERVER_SLOT && l.replies == [] && l.id == 1
  {
    var a := CLIENT_PART;
    var l1 := Step(FreshLane(1), a[0]).lane;
    var l2 := Step(l1, a[1]).lane;
    var l3 := Step(l2, a[2]).lane;
    var l4 := Step(l3, a[3]).lane;
    l := Step(l4, a[4]).lane;
    assert a[1..][1..][1..][1..][1..] == [];
    assert Run(l4, a[1..][1..][1..][1..]) == Some(l);
    assert Run(l2, a[1..][1..]) == Some(l);
  }

  lemma ServerPart(l: Lane) returns (l': Lane)
    requires l.commands == [CreateBuffer(1, 0), BufferMapAsync(1, 0, 0, 8, true), DestroyBuffer(1),
                            CreateBuffer(1, 1), BufferMapAsync(1, 0, 0, 4, true)]
    requires l.server == UNUSED_SERVER_SLOT && l.replies == [] && l.id == 1
    ensures Run(l, SERVER_PART) == Some(l')
    ensures l' == l.(commands := [], server := l'.server)
    ensures var s := l'.server;
            && Bound(s) && s.serial == 1 && s.mapped.None?
            && s.native == NB.State(4, false, true, None, Some(MapUserdata(1, 1, 0, 4, true)), 1, true)
            && s.retired == [NB.State(8, false, true, None, Some(MapUserdata(1, 0, 0, 8, true)), 1, true)]
  {
    var a := SERVER_PART;
    var l1 := Step(l, a[0]).lane;
    var l2 := Step(l1, a[1]).lane;
    var l3 := Step(l2, a[2]).lane;
    var l4 := Step(l3, a[3]).lane;
    l' := Step(l4, a[4]).lane;
    assert a[1..][1..][1..][1..][1..] == [];
    assert Run(l4, a[1..][1..][1..][1..]) == Some(l');
    assert Run(l2, a[1..][1..]) == Some(l');
  }

  /** The second mapping completes and the client takes it. */
  lemma SecondMapping(l: Lane) returns (l': Lane)
    requires l.client.serial == 1 && l.client.buffer == Some(ClientBuffer(1, map[0 := MapRequest(4, true)], 1, None))
    requires l.commands == [] && l.replies == [] && l.id == 1
    requires Bound(l.server)
    requires l.server.native == NB.State(4, false, true, None, Some(MapUserdata(1, 1, 0, 4, true)), 1, true)
    ensures Run(l, MAPPING_PART) == Some(l')
    ensures l' == l.(client := l'.client, server := l'.server)
    ensures l'.client.serial == 1
    ensures l'.client.buffer.Some? && l'.client.buffer.value.mapped == Some(ClientMapping(0, 4, true, false))
    ensures Bound(l'.server) && l'.server.retired == l.server.retired
  {
    var a := MAPPING_PART;
    var l1 := Step(l, a[0]).lane;
    var fired := NB.Complete(l.server.native, true, 1, NB.Success).fired;
    assert ToReturns(fired) == [MapWriteCallback(1, 1, 0, NB.Success)];
    OwnAll(ToReturns(fired), 1);
    assert l1.replies == [MapWriteCallback(1, 1, 0, NB.Success)];
    l' := Step(l1, a[1]).lane;
    assert a[1..][1..] == [];
    assert Run(l1, a[1..]) == Some(l');
  }

  /** The first mapping completes after all, and the client unmaps the second buffer. */
  lemma LatePart(l: Lane) returns (l': Lane)
    requires l.client.buffer.Some? && l.client.buffer.value.mapped == Some(ClientMapping(0, 4, true, false))
    requires l.client.serial == 1 && l.commands == [] && l.id == 1
    requires Bound(l.server)
    requires l.server.retired == [NB.State(8, false, true, None, Some(MapUserdata(1, 0, 0, 8, true)), 1, true)]
    ensures Run(l, LATE_PART) == Some(l')
    ensures l'.commands == [BufferUpdateMappedData(1, 4, Mapping(1, 0, 4)), BufferUnmap(1)]
    ensures l'.server.mapped == Some(Mapping(0, 0, 8))
    ensures !Step(l', Handle(None, false)).ok
  {
    var a := LATE_PART;
    var l1 := Step(l, a[0]).lane;
    l' := Step(l1, a[1]).lane;
    assert a[1..][1..] == [];
    assert Run(l1, a[1..]) == Some(l');
  }

  lemma RunSplit(l: Lane, a: seq<LaneAction>, l1: Lane, b: seq<LaneAction>)
    requires Run(l, a) == Some(l1)
    ensures Run(l, a + b) == Run(l1, b)
  {
    RunConcat(l, a, b);
  }

  /** After this run the server refuses the data of the second buffer: what it holds under the
      id is the mapping of the first. */
  lemma LateWriteSuccessBreaksUpdate() returns (run: seq<LaneAction>, l: Lane)
    ensures Run(FreshLane(1), run) == Some(l)
    ensures l.commands == [BufferUpdateMappedData(1, 4, Mapping(1, 0, 4)), BufferUnmap(1)]
    ensures l.server.mapped == Some(Mapping(0, 0, 8))
    ensures !Step(l, Handle(None, false)).ok
  {
    var l1 := ClientPart();
    var l2 := ServerPart(l1);
    var l3 := SecondMapping(l2);
    l := LatePart(l3);
    run := CLIENT_PART + SERVER_PART;
    RunSplit(FreshLane(1), CLIENT_PART, l1, SERVER_PART);
    RunSplit(FreshLane(1), run, l2, MAPPING_PART);
    run := run + MAPPING_PART;
    RunSplit(FreshLane(1), run, l3, LATE_PART);
    run := run + LATE_PART;
  }
}
