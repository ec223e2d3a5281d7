/** Commands that reach the server keep the invariant of a lane. */
module WireLaneServer {
  import opened Wrappers
  import NB = NativeBuffer
  import opened WireModel
  import opened WireLane

  /** Taking the head off the queue keeps what is said about the rest of it. */
  lemma PopKeepsCommands(l: Lane, s: ServerSlot)
    requires Inv(l) && l.commands != []
    requires Some(ServerEntry(s)) == Apply(ServerEntry(l.server), l.commands[0])
    ensures var l' := l.(commands := l.commands[1..], server := s);
            Linked(l') && CommandsFit(l') && CommandsDistinct(l')
  {
    var l' := l.(commands := l.commands[1..], server := s);
    PopFacts(l.commands);
    forall i | 0 <= i < |l'.commands| ensures CommandFits(l'.client, l'.commands, i) {
      assert CommandFits(l.client, l.commands, i + 1);
    }
    forall i, j | 0 <= i < j < |l'.commands| && l'.commands[i].BufferMapAsync? && l'.commands[j].BufferMapAsync?
                  && !HasMarker(Rest(l'.commands, i))
      ensures l'.commands[i].requestSerial != l'.commands[j].requestSerial
    {
      assert l.commands[i + 1].BufferMapAsync? && l.commands[j + 1].BufferMapAsync? && !HasMarker(Rest(l.commands, i + 1));
    }
  }

  /** After the head is handled an update can only be pending if the head was a map command. */
  lemma PendingUpdate(l: Lane, i: nat)
    requires Inv(l) && 0 < i < |l.commands| && l.commands[i].BufferUpdateMappedData?
    ensures l.commands[0].BufferMapAsync?
    ensures !HasMarker(l.commands[1..][..i - 1])
  {
    assert UpdateFits(l, i) && UpdateFits(l, 0);
    var before := l.commands[..i];
    PopFacts(before);
    assert before[1..] == l.commands[1..][..i - 1];
    if l.commands[0].BufferUpdateMappedData? {
      assert IsMarker(l.commands[1]);
    }
  }

  lemma HandleCreateKeepsInv(l: Lane, created: Option<NewNative>, heldElsewhere: bool)
    requires Inv(l) && l.commands != [] && l.commands[0].CreateBuffer?
    ensures var r := Step(l, Handle(created, heldElsewhere)); r.ok && Inv(r.lane)
  {
    var l' := Step(l, Handle(created, heldElsewhere)).lane;
    assert l'.replies == l.replies + [];
    PopKeepsCommands(l, l'.server);
    PopFacts(l.commands);
    forall i | 0 <= i < |l'.commands| ensures UpdateFits(l', i) {
      if l'.commands[i].BufferUpdateMappedData? { PendingUpdate(l, i + 1); }
    }
    forall n | 0 <= n < |l'.server.retired| ensures RetiredFits(l', l'.server.retired[n]) {
      assert RetiredFits(l, l.server.retired[n]);
    }
    forall k | 0 <= k < |l.replies| ensures AskedReply(l', k) == AskedReply(l, k) {}
  }

  /** The callbacks a native buffer fires when it is unmapped or destroyed. */
  lemma AbandonedReplies(l: Lane)
    requires Inv(l) && Bound(l.server)
    ensures var fired := NB.Abandon(l.server.native);
            && Own(ToReturns(fired), l.id) == ToReturns(fired)
            && Own(DeviceErrors(!l.server.native.isMapped) + ToReturns(fired), l.id) == ToReturns(fired)
            && |fired| <= 1
            && (fired != [] ==>
                  && l.server.native.isMapped
                  && fired[0].status == NB.Unknown
                  && UserdataFits(l, fired[0].userdata, fired[0].isWrite)
                  && (Some(fired[0].userdata) == l.server.native.readRequest ||
                      Some(fired[0].userdata) == l.server.native.writeRequest))
  {
    OwnReplies(false, NB.Abandon(l.server.native), l.id);
    OwnReplies(!l.server.native.isMapped, NB.Abandon(l.server.native), l.id);
    assert DeviceErrors(false) + ToReturns(NB.Abandon(l.server.native)) == ToReturns(NB.Abandon(l.server.native));
  }

  /** The replies sent when the server reaches the end of an epoch: the request still pending
      there is given up. */
  predicate Abandoned(l: Lane, sent: seq<Return>) {
    && |sent| <= 1
    && (sent != [] ==>
          && Bound(l.server)
          && ReplyFits(l.client, sent[0]) && sent[0].id == l.id
          && sent[0].status == NB.Unknown
          && (Asked(l.client, sent[0].bufferSerial, sent[0].requestSerial) ==>
                AskedPending(l, l.server.native.readRequest) || AskedPending(l, l.server.native.writeRequest)))
  }

  /** What the server's slot may be after it handled the end of an epoch. */
  predicate AtRest(l: Lane, s: ServerSlot) {
    && (s.isAllocated ==> l.server.isAllocated && s.mapped.None? && s.retired == l.server.retired)
    && s.serial == l.server.serial
    && (Bound(s) ==> NB.Valid(s.native) && s.native.readRequest.None? && s.native.writeRequest.None?)
    && (s.retired == l.server.retired || (Bound(l.server) && s.retired == l.server.retired + [l.server.native]))
  }

  lemma EndOfEpochKeepsReplies(l: Lane, s: ServerSlot, sent: seq<Return>)
    requires Inv(l) && l.commands != [] && (l.commands[0].DestroyBuffer? || l.commands[0].BufferUnmap?)
    requires Abandoned(l, sent)
    ensures RepliesFit(l.(server := s, commands := l.commands[1..], replies := l.replies + sent))
    ensures l.client.buffer.Some? ==> forall k :: 0 <= k < |l.replies + sent| ==>
              !Asked(l.client, (l.replies + sent)[k].bufferSerial, (l.replies + sent)[k].requestSerial)
  {
    PopFacts(l.commands);
    forall k | 0 <= k < |l.replies + sent| ensures ReplyFits(l.client, (l.replies + sent)[k]) {
      if k < |l.replies| { assert ReplyFits(l.client, l.replies[k]); }
    }
    if l.client.buffer.Some? {
      assert ClosedEpoch(l);
      forall k | 0 <= k < |l.replies + sent|
        ensures !Asked(l.client, (l.replies + sent)[k].bufferSerial, (l.replies + sent)[k].requestSerial)
      {
        if k < |l.replies| { assert !AskedReply(l, k); }
      }
    }
  }

  lemma EndOfEpochKeepsInv(l: Lane, s: ServerSlot, sent: seq<Return>)
    requires Inv(l) && l.commands != [] && (l.commands[0].DestroyBuffer? || l.commands[0].BufferUnmap?)
    requires Some(ServerEntry(s)) == Apply(ServerEntry(l.server), l.commands[0])
    requires AtRest(l, s) && Abandoned(l, sent)
    ensures Inv(l.(server := s, commands := l.commands[1..], replies := l.replies + sent))
  {
    var l' := l.(server := s, commands := l.commands[1..], replies := l.replies + sent);
    PopKeepsCommands(l, s);
    PopFacts(l.commands);
    EndOfEpochKeepsReplies(l, s, sent);
    forall i | 0 <= i < |l'.commands| ensures UpdateFits(l', i) {
      if l'.commands[i].BufferUpdateMappedData? { PendingUpdate(l, i + 1); }
    }
    forall n | 0 <= n < |s.retired| ensures RetiredFits(l', s.retired[n]) {
      if n < |l.server.retired| { assert RetiredFits(l, l.server.retired[n]); }
    }
    EndOfEpochKeepsEpochs(l, s, sent);
  }

  lemma EndOfEpochKeepsEpochs(l: Lane, s: ServerSlot, sent: seq<Return>)
    requires Inv(l) && l.commands != [] && (l.commands[0].DestroyBuffer? || l.commands[0].BufferUnmap?)
    requires Some(ServerEntry(s)) == Apply(ServerEntry(l.server), l.commands[0])
    requires AtRest(l, s) && Abandoned(l, sent)
    requires RepliesFit(l.(server := s, commands := l.commands[1..], replies := l.replies + sent))
    ensures Epochs(l.(server := s, commands := l.commands[1..], replies := l.replies + sent))
  {
    var l' := l.(server := s, commands := l.commands[1..], replies := l.replies + sent);
    PopFacts(l.commands);
    EndOfEpochKeepsReplies(l, s, sent);
    if l.client.buffer.Some? {
      assert ClosedEpoch(l);
      forall k | 0 <= k < |l'.replies| ensures !AskedReply(l', k) {}
      if !HasMarker(l'.commands) { assert OneMapping(l'); }
    }
  }

  lemma HandleDestroyKeepsInv(l: Lane, created: Option<NewNative>, heldElsewhere: bool)
    requires Inv(l) && l.commands != [] && l.commands[0].DestroyBuffer?
    ensures var r := Step(l, Handle(created, heldElsewhere)); r.ok && Inv(r.lane)
  {
    var r := HandleCommand(l.server, l.commands[0], created, heldElsewhere);
    assert l.commands[0].id == l.id;
    if Bound(l.server) { AbandonedReplies(l); }
    EndOfEpochKeepsInv(l, r.slot, Own(r.sent, l.id));
  }

  lemma HeadIsAllocated(l: Lane)
    requires Inv(l) && l.commands != [] && !l.commands[0].CreateBuffer?
    ensures l.server.isAllocated
  {
  }

  lemma HandleUnmapKeepsInv(l: Lane, created: Option<NewNative>, heldElsewhere: bool)
    requires Inv(l) && l.commands != [] && l.commands[0].BufferUnmap?
    ensures var r := Step(l, Handle(created, heldElsewhere)); r.ok && Inv(r.lane)
  {
    hide RepliesFit, RetiredFit, CommandsFit, CommandsDistinct, UpdatesFit, MappingFits, Epochs, Linked;
    HeadIsAllocated(l);
    var r := HandleCommand(l.server, l.commands[0], created, heldElsewhere);
    if Bound(l.server) {
      AbandonedReplies(l);
      if !l.server.native.isMapped { assert NB.Abandon(l.server.native) == []; }
    }
    EndOfEpochKeepsInv(l, r.slot, Own(r.sent, l.id));
  }

  lemma HandleUpdateKeepsInv(l: Lane, created: Option<NewNative>, heldElsewhere: bool)
    requires Inv(l) && l.commands != [] && l.commands[0].BufferUpdateMappedData?
    ensures var r := Step(l, Handle(created, heldElsewhere)); r.ok && Inv(r.lane)
    ensures l.server.mapped == Some(l.commands[0].source)
  {
    var l' := Step(l, Handle(created, heldElsewhere)).lane;
    assert UpdateFits(l, 0);
    assert l'.replies == l.replies + [];
    PopKeepsCommands(l, l'.server);
    PopFacts(l.commands);
    forall i | 0 <= i < |l'.commands| ensures UpdateFits(l', i) {
      if l'.commands[i].BufferUpdateMappedData? { PendingUpdate(l, i + 1); }
    }
    assert IsMarker(l.commands[1]) && l.commands[1..][0] == l.commands[1];
    forall k | 0 <= k < |l.replies| ensures AskedReply(l', k) == AskedReply(l, k) {}
  }

  /** A map command at the head of the queue: what it asks for is what the client remembers, and
      it is outstanding unless a marker follows. */
  lemma HeadFits(l: Lane)
    requires Inv(l) && l.commands != [] && l.commands[0].BufferMapAsync?
    ensures l.server.isAllocated
    ensures var c := l.commands[0];
            && Fits(l.client, l.server.serial, c.requestSerial, c.size, c.isWrite)
            && (Asked(l.client, l.server.serial, c.requestSerial) <==>
                  l.client.buffer.Some? && !HasMarker(l.commands[1..]))
  {
    FoldFacts(ServerEntry(l.server), l.commands);
    PopFacts(l.commands);
    NoMarkerNoCreate(l.commands[1..]);
    assert CommandFits(l.client, l.commands, 0);
  }

  /** A request the server turns down: its slot stays, and the answer goes out at once. */
  lemma RejectKeepsInv(l: Lane, sent: seq<Return>)
    requires Inv(l) && l.commands != [] && l.commands[0].BufferMapAsync?
    requires |sent| == 1 && !sent[0].DeviceErrorCallback? && sent[0].id == l.id
    requires sent[0].bufferSerial == l.server.serial && sent[0].requestSerial == l.commands[0].requestSerial
    requires sent[0].MapWriteCallback? == l.commands[0].isWrite && sent[0].status == NB.Error
    ensures Inv(l.(commands := l.commands[1..], replies := l.replies + sent))
  {
    var l' := l.(commands := l.commands[1..], replies := l.replies + sent);
    HeadFits(l);
    PopKeepsCommands(l, l.server);
    PopFacts(l.commands);
    forall i | 0 <= i < |l'.commands| ensures UpdateFits(l', i) {
      assert UpdateFits(l, i + 1);
      if l'.commands[i].BufferUpdateMappedData? { PendingUpdate(l, i + 1); }
    }
    forall k | 0 <= k < |l'.replies| ensures ReplyFits(l.client, l'.replies[k]) {
      if k < |l.replies| { assert ReplyFits(l.client, l.replies[k]); }
    }
    RejectKeepsEpochs(l, sent);
  }

  lemma RejectKeepsEpochs(l: Lane, sent: seq<Return>)
    requires Inv(l) && l.commands != [] && l.commands[0].BufferMapAsync?
    requires |sent| == 1 && !sent[0].DeviceErrorCallback?
    requires sent[0].bufferSerial == l.server.serial && sent[0].requestSerial == l.commands[0].requestSerial
    requires sent[0].status == NB.Error
    requires RepliesFit(l.(commands := l.commands[1..], replies := l.replies + sent))
    ensures Epochs(l.(commands := l.commands[1..], replies := l.replies + sent))
  {
    var l' := l.(commands := l.commands[1..], replies := l.replies + sent);
    HeadFits(l);
    PopFacts(l.commands);
    forall k | 0 <= k < |l.replies|
      ensures l'.replies[k] == l.replies[k] && AskedReply(l', k) == AskedReply(l, k) && SuccessReply(l', k) == SuccessReply(l, k) {}
    if l.client.buffer.Some? && !HasMarker(l.commands) {
      forall k, i | 0 <= k < |l'.replies| && 0 <= i < |l'.commands| && AskedReply(l', k) && l'.commands[i].BufferMapAsync?
        ensures l'.replies[k].requestSerial != l'.commands[i].requestSerial
      {
        assert l.commands[i + 1].BufferMapAsync?;
        if k < |l.replies| { assert AskedReply(l, k); }
        else { assert Rest(l.commands, 0) == l.commands[1..]; }
      }
    }
  }

  /** A request the native buffer accepts. */
  lemma AcceptKeepsInv(l: Lane, native: Native)
    requires Inv(l) && l.commands != [] && l.commands[0].BufferMapAsync?
    requires Bound(l.server) && !l.server.native.isMapped
    requires var c := l.commands[0];
             var u := MapUserdata(l.id, l.server.serial, c.requestSerial, c.size, c.isWrite);
             && native.isMapped
             && native.readRequest == (if c.isWrite then None else Some(u))
             && native.writeRequest == (if c.isWrite then Some(u) else None)
    ensures Inv(l.(commands := l.commands[1..], server := l.server.(native := native)))
  {
    var l' := l.(commands := l.commands[1..], server := l.server.(native := native));
    HeadFits(l);
    PopKeepsCommands(l, l'.server);
    PopFacts(l.commands);
    forall i | 0 <= i < |l'.commands| ensures UpdateFits(l', i) {
      assert UpdateFits(l, i + 1);
    }
    forall n | 0 <= n < |l'.server.retired| ensures RetiredFits(l', l'.server.retired[n]) {
      assert RetiredFits(l, l.server.retired[n]);
    }
    forall k | 0 <= k < |l.replies|
      ensures AskedReply(l', k) == AskedReply(l, k) && SuccessReply(l', k) == SuccessReply(l, k) {}
    if l.client.buffer.Some? && !HasMarker(l.commands) {
      assert Rest(l.commands, 0) == l.commands[1..];
      assert OneMapping(l');
    }
  }

  lemma AcceptedRequest(b: Native, isWrite: bool, start: nat, size: nat, u: MapUserdata)
    requires NB.Valid(b) && !NB.MapAsync(b, isWrite, start, size, u).deviceError
    ensures var out := NB.MapAsync(b, isWrite, start, size, u);
            && !b.isMapped && out.fired == [] && out.state.isMapped
            && out.state.readRequest == (if isWrite then None else Some(u))
            && out.state.writeRequest == (if isWrite then Some(u) else None)
  {
  }

  lemma RejectedRequest(b: Native, isWrite: bool, start: nat, size: nat, u: MapUserdata)
    requires NB.MapAsync(b, isWrite, start, size, u).deviceError
    ensures var out := NB.MapAsync(b, isWrite, start, size, u);
            out.state == b && out.fired == [NB.Callback(isWrite, NB.Error, u)]
  {
  }

  lemma HandleMapKeepsInv(l: Lane, created: Option<NewNative>, heldElsewhere: bool)
    requires Inv(l) && l.commands != [] && l.commands[0].BufferMapAsync?
    ensures var r := Step(l, Handle(created, heldElsewhere)); r.ok && Inv(r.lane)
  {
    hide RepliesFit, RetiredFit, CommandsFit, CommandsDistinct, UpdatesFit, MappingFits, Epochs, Linked;
    hide NB.MapAsync, NB.Valid;
    var c := l.commands[0];
    assert c.id == l.id;
    HeadFits(l);
    var r := HandleCommand(l.server, c, created, heldElsewhere);
    var u := MapUserdata(l.id, l.server.serial, c.requestSerial, c.size, c.isWrite);
    if !l.server.isValid {
      OwnAll(r.sent, l.id);
      RejectKeepsInv(l, r.sent);
    } else {
      var out := NB.MapAsync(l.server.native, c.isWrite, c.start, c.size, u);
      if out.deviceError {
        RejectedRequest(l.server.native, c.isWrite, c.start, c.size, u);
        OwnReplies(true, out.fired, l.id);
        assert l.server.(native := out.state) == l.server;
        RejectKeepsInv(l, ToReturns(out.fired));
      } else {
        AcceptedRequest(l.server.native, c.isWrite, c.start, c.size, u);
        OwnReplies(false, out.fired, l.id);
        assert ToReturns(out.fired) == [] && l.replies + [] == l.replies;
        AcceptKeepsInv(l, out.state);
      }
    }
  }
}
