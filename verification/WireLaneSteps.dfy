/** Completions by the backend and replies that reach the client keep the invariant of a lane; so
    every step does. */
module WireLaneSteps {
  import opened Wrappers
  import NB = NativeBuffer
  import opened WireModel
  import opened WireLane
  import opened WireLaneClient
  import opened WireLaneServer

  // ----- Backend steps -----

  lemma CompleteKeepsEpochs(l: Lane, l': Lane, u: MapUserdata, cb: NB.Callback<MapUserdata>)
    requires Inv(l) && Bound(l.server) && cb.userdata == u
    requires l.server.native.readRequest == (if cb.isWrite then None else Some(u))
    requires l.server.native.writeRequest == (if cb.isWrite then Some(u) else None)
    requires UserdataFits(l, u, cb.isWrite)
    requires l' == l.(server := l'.server, replies := l.replies + [ToReturn(cb)])
    requires l'.server == l.server.(native := l'.server.native, mapped := l'.server.mapped)
    requires l'.server.native == l.server.native.(readRequest := None, writeRequest := None)
    requires l'.server.mapped == if cb.isWrite && cb.status == NB.Success
                                 then Some(Mapping(u.bufferSerial, u.requestSerial, u.size)) else l.server.mapped
    requires RepliesFit(l')
    ensures Epochs(l')
  {
    assert NB.Valid(l.server.native);
    forall k | 0 <= k < |l.replies|
      ensures l'.replies[k] == l.replies[k] && AskedReply(l', k) == AskedReply(l, k) && SuccessReply(l', k) == SuccessReply(l, k) {}
    assert AskedReply(l', |l.replies|) == Asked(l.client, u.bufferSerial, u.requestSerial);
    if l.client.buffer.Some? && !HasMarker(l.commands) {
      assert PendingFits(l, u);
      forall k | 0 <= k < |l.replies| ensures !SuccessReply(l, k) {}
      assert OneMapping(l');
    }
  }

  lemma CompleteKeepsInv(l: Lane, isWrite: bool, serial: nat, status: NB.MapStatus)
    requires Inv(l) && Bound(l.server)
    ensures var r := Step(l, Complete(isWrite, serial, status)); r.ok && Inv(r.lane)
  {
    hide HasCreate, HasMarker, Fold, CommandFits;
    var l' := Step(l, Complete(isWrite, serial, status)).lane;
    var out := NB.Complete(l.server.native, isWrite, serial, status);
    if out.fired == [] {
      assert l'.replies == l.replies + [] && l' == l;
    } else {
      var cb := out.fired[0];
      assert out.fired == [cb];
      assert ToReturns(out.fired) == [ToReturn(cb)];
      OwnAll(ToReturns(out.fired), l.id);
      forall k | 0 <= k < |l'.replies| ensures ReplyFits(l.client, l'.replies[k]) {
        if k < |l.replies| { assert ReplyFits(l.client, l.replies[k]); }
      }
      CompleteKeepsEpochs(l, l', cb.userdata, cb);
      forall i | 0 <= i < |l.commands| ensures UpdateFits(l', i) {
        assert UpdateFits(l, i);
      }
      forall n | 0 <= n < |l'.server.retired| ensures RetiredFits(l', l'.server.retired[n]) {
        assert RetiredFits(l, l.server.retired[n]);
      }
      forall i | 0 <= i < |l.commands| ensures CommandFits(l'.client, l'.commands, i) {
        assert CommandFits(l.client, l.commands, i);
      }
    }
  }

  /** A request of a retired buffer is never one the client waits for. */
  lemma StaleIsNotAsked(l: Lane, u: MapUserdata, isWrite: bool)
    requires Inv(l) && Stale(l, u, isWrite)
    ensures u.bufferSerial <= l.client.serial
    ensures l.client.buffer.Some? ==> u.bufferSerial < l.client.serial
  {
    FoldFacts(ServerEntry(l.server), l.commands);
  }

  /** Whatever a retired buffer reports, short of a successful write mapping, is dropped by the
      client when it arrives. */
  lemma StaleReplyKeepsInv(l: Lane, retired: seq<Native>, sent: seq<Return>)
    requires Inv(l)
    requires forall n :: 0 <= n < |retired| ==> RetiredFits(l, retired[n])
    requires |sent| <= 1
    requires sent != [] ==> exists cb: NB.Callback<MapUserdata> :: sent[0] == ToReturn(cb) && Stale(l, cb.userdata, cb.isWrite)
    ensures Inv(l.(server := l.server.(retired := retired), replies := l.replies + sent))
  {
    var l' := l.(server := l.server.(retired := retired), replies := l.replies + sent);
    forall k | 0 <= k < |l'.replies|
      ensures ReplyFits(l.client, l'.replies[k]) && l'.replies[k].id == l.id
      ensures k >= |l.replies| ==> !Asked(l.client, l'.replies[k].bufferSerial, l'.replies[k].requestSerial)
    {
      if k < |l.replies| { assert ReplyFits(l.client, l.replies[k]); }
      else {
        var cb: NB.Callback<MapUserdata> :| sent[0] == ToReturn(cb) && Stale(l, cb.userdata, cb.isWrite);
        StaleIsNotAsked(l, cb.userdata, cb.isWrite);
      }
    }
    forall k | 0 <= k < |l.replies|
      ensures l'.replies[k] == l.replies[k] && AskedReply(l', k) == AskedReply(l, k) && SuccessReply(l', k) == SuccessReply(l, k) {}
    forall i | 0 <= i < |l.commands| ensures CommandFits(l'.client, l'.commands, i) && UpdateFits(l', i) {
      assert CommandFits(l.client, l.commands, i) && UpdateFits(l, i);
    }
    forall n | 0 <= n < |retired| ensures RetiredFits(l', retired[n]) { assert RetiredFits(l, retired[n]); }
    StaleReplyKeepsEpochs(l, l');
  }

  lemma StaleReplyKeepsEpochs(l: Lane, l': Lane)
    requires Inv(l) && RepliesFit(l') && |l.replies| <= |l'.replies|
    requires l' == l.(server := l'.server, replies := l'.replies)
    requires l'.server == l.server.(retired := l'.server.retired)
    requires forall k :: 0 <= k < |l'.replies| ==> (if k < |l.replies| then l'.replies[k] == l.replies[k] else !AskedReply(l', k))
    ensures Epochs(l')
  {
    forall k | 0 <= k < |l.replies|
      ensures l'.replies[k] == l.replies[k] && AskedReply(l', k) == AskedReply(l, k) && SuccessReply(l', k) == SuccessReply(l, k) {}
    if l.client.buffer.Some? && !HasMarker(l.commands) { assert OneMapping(l'); }
  }

  lemma LateKeepsInv(l: Lane, n: nat, isWrite: bool, serial: nat, status: NB.MapStatus)
    requires Inv(l) && Admissible(l, Late(n, isWrite, serial, status))
    ensures var r := Step(l, Late(n, isWrite, serial, status)); r.ok && Inv(r.lane)
  {
    assert RetiredFits(l, l.server.retired[n]);
    var out := NB.Complete(l.server.retired[n], isWrite, serial, status);
    var retired := l.server.retired[n := out.state];
    OwnAll(ToReturns(out.fired), l.id);
    forall m | 0 <= m < |retired| ensures RetiredFits(l, retired[m]) {
      assert RetiredFits(l, l.server.retired[m]);
    }
    if out.fired != [] { assert Stale(l, out.fired[0].userdata, out.fired[0].isWrite); }
    StaleReplyKeepsInv(l, retired, ToReturns(out.fired));
  }

  lemma LateFreeKeepsInv(l: Lane, n: nat)
    requires Inv(l) && Admissible(l, LateFree(n))
    ensures var r := Step(l, LateFree(n)); r.ok && Inv(r.lane)
  {
    assert RetiredFits(l, l.server.retired[n]);
    var fired := NB.Destroy(l.server.retired[n]);
    var retired := l.server.retired[..n] + l.server.retired[n + 1..];
    OwnAll(ToReturns(fired), l.id);
    forall m | 0 <= m < |retired| ensures RetiredFits(l, retired[m]) {
      assert retired[m] == l.server.retired[if m < n then m else m + 1];
      assert RetiredFits(l, l.server.retired[if m < n then m else m + 1]);
    }
    if fired != [] { assert Stale(l, fired[0].userdata, fired[0].isWrite); }
    StaleReplyKeepsInv(l, retired, ToReturns(fired));
  }

  // ----- Replies reach the client -----

  /** A reply the client does not wait for leaves no trace. */
  lemma DropKeepsInv(l: Lane)
    requires Inv(l) && l.replies != [] && !AskedReply(l, 0)
    ensures Inv(l.(replies := l.replies[1..]))
  {
    var l' := l.(replies := l.replies[1..]);
    forall k | 0 <= k < |l'.replies| ensures ReplyFits(l.client, l'.replies[k]) { assert ReplyFits(l.client, l.replies[k + 1]); }
    forall k | 0 <= k < |l'.replies|
      ensures l'.replies[k] == l.replies[k + 1] && AskedReply(l', k) == AskedReply(l, k + 1) && SuccessReply(l', k) == SuccessReply(l, k + 1) {}
    forall i | 0 <= i < |l.commands| ensures UpdateFits(l', i) { assert UpdateFits(l, i); }
    if l.client.buffer.Some? && !HasMarker(l.commands) { assert OneMapping(l'); }
  }

  /** The client's buffer after the answer to request `rs`, which left the mapping `m`. */
  function Answer(b: ClientBuffer, rs: nat, m: Option<ClientMapping>): ClientBuffer {
    b.(requests := b.requests - {rs}, mapped := m)
  }

  lemma AnswerKeepsCommands(l: Lane, c: ClientSlot)
    requires Inv(l) && l.replies != [] && AskedReply(l, 0) && !HasMarker(l.commands)
    requires c.serial == l.client.serial && c.buffer.Some?
    requires c.buffer.value == Answer(l.client.buffer.value, l.replies[0].requestSerial, c.buffer.value.mapped)
    ensures CommandsFit(l.(client := c))
    ensures UpdatesFit(l.(client := c))
  {
    assert OpenEpoch(l);
    forall i | 0 <= i < |l.commands| ensures CommandFits(c, l.commands, i) && UpdateFits(l.(client := c), i) {
      assert CommandFits(l.client, l.commands, i) && UpdateFits(l, i);
    }
  }

  lemma AnswerKeepsInv(l: Lane, c: ClientSlot)
    requires Inv(l) && l.replies != [] && AskedReply(l, 0)
    requires c.serial == l.client.serial && c.buffer.Some?
    requires c.buffer.value == Answer(l.client.buffer.value, l.replies[0].requestSerial, c.buffer.value.mapped)
    requires var request := l.client.buffer.value.requests[l.replies[0].requestSerial];
             if l.replies[0].status != NB.Success then c.buffer.value.mapped == l.client.buffer.value.mapped
             else exists isNull :: c.buffer.value.mapped ==
                    Some(ClientMapping(l.replies[0].requestSerial, request.size, request.isWrite, isNull))
    ensures Inv(l.(client := c, replies := l.replies[1..]))
  {
    var l' := l.(client := c, replies := l.replies[1..]);
    assert OpenEpoch(l);
    AnswerKeepsCommands(l, c);
    OpenEpochNames(l);
    forall k | 0 <= k < |l'.replies| ensures ReplyFits(c, l'.replies[k]) { assert ReplyFits(l.client, l.replies[k + 1]); }
    forall i | 0 <= i < |l.commands| ensures UpdateFits(l', i) { assert UpdateFits(l.(client := c), i); }
    forall n | 0 <= n < |l.server.retired| ensures RetiredFits(l', l.server.retired[n]) {
      assert RetiredFits(l, l.server.retired[n]);
    }
    AnswerKeepsEpoch(l, c);
  }

  lemma AnswerKeepsEpoch(l: Lane, c: ClientSlot)
    requires Inv(l) && l.replies != [] && AskedReply(l, 0)
    requires c.serial == l.client.serial && c.buffer.Some?
    requires c.buffer.value == Answer(l.client.buffer.value, l.replies[0].requestSerial, c.buffer.value.mapped)
    requires var request := l.client.buffer.value.requests[l.replies[0].requestSerial];
             if l.replies[0].status != NB.Success then c.buffer.value.mapped == l.client.buffer.value.mapped
             else exists isNull :: c.buffer.value.mapped ==
                    Some(ClientMapping(l.replies[0].requestSerial, request.size, request.isWrite, isNull))
    requires RepliesFit(l.(client := c, replies := l.replies[1..]))
    ensures Epochs(l.(client := c, replies := l.replies[1..]))
  {
    var l' := l.(client := c, replies := l.replies[1..]);
    assert OpenEpoch(l) && ReplyFits(l.client, l.replies[0]);
    OpenEpochNames(l);
    forall k | 0 <= k < |l'.replies|
      ensures l'.replies[k] == l.replies[k + 1]
      ensures AskedReply(l', k) ==> AskedReply(l, k + 1)
      ensures SuccessReply(l', k) ==> SuccessReply(l, k + 1) {}
    if l.replies[0].status == NB.Success { assert SuccessReply(l, 0); }
    assert OneMapping(l');
  }

  lemma ReceiveKeepsInv(l: Lane, zeroIsNull: bool)
    requires Inv(l) && Admissible(l, Receive(zeroIsNull))
    ensures var r := Step(l, Receive(zeroIsNull)); r.ok && Inv(r.lane)
  {
    if AskedReply(l, 0) {
      assert ReplyFits(l.client, l.replies[0]);
      assert OpenEpoch(l);
      if l.replies[0].status == NB.Success { assert SuccessReply(l, 0); }
      AnswerKeepsInv(l, HandleReturn(l.client, l.replies[0], zeroIsNull).slot);
    } else {
      DropKeepsInv(l);
    }
  }

  // ----- All steps -----

  /** Every admissible step of either side succeeds and keeps the invariant. */
  lemma StepKeepsInv(l: Lane, a: LaneAction)
    requires Inv(l) && Admissible(l, a)
    ensures Step(l, a).ok && Inv(Step(l, a).lane)
  {
    match a
    case New => NewKeepsInv(l);
    case Reference => ReferenceKeepsInv(l);
    case Release => ReleaseKeepsInv(l);
    case Map(start, size, isWrite) => MapKeepsInv(l, start, size, isWrite);
    case Unmap => UnmapKeepsInv(l);
    case Complete(isWrite, serial, status) => CompleteKeepsInv(l, isWrite, serial, status);
    case Late(n, isWrite, serial, status) => LateKeepsInv(l, n, isWrite, serial, status);
    case LateFree(n) => LateFreeKeepsInv(l, n);
    case Receive(zeroIsNull) => ReceiveKeepsInv(l, zeroIsNull);
    case Handle(created, heldElsewhere) =>
      match l.commands[0]
      case CreateBuffer(_, _) => HandleCreateKeepsInv(l, created, heldElsewhere);
      case DestroyBuffer(_) => HandleDestroyKeepsInv(l, created, heldElsewhere);
      case BufferMapAsync(_, _, _, _, _) => HandleMapKeepsInv(l, created, heldElsewhere);
      case BufferUpdateMappedData(_, _, _) => HandleUpdateKeepsInv(l, created, heldElsewhere);
      case BufferUnmap(_) => HandleUnmapKeepsInv(l, created, heldElsewhere);
  }
}
