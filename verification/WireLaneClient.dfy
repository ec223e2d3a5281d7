/** Calls of the client keep the invariant of a lane. */
module WireLaneClient {
  import opened Wrappers
  import NB = NativeBuffer
  import opened WireModel
  import opened WireLane

  lemma NewKeepsInv(l: Lane)
    requires Inv(l) && Admissible(l, New)
    ensures Inv(Step(l, New).lane)
  {
    var l' := Step(l, New).lane;
    var c := CreateBuffer(l.id, l.client.serial + 1);
    assert l'.commands == l.commands + [c];
    FoldAppend(ServerEntry(l.server), l.commands, c);
    FoldFacts(ServerEntry(l.server), l.commands);
    MarkerAppend(l.commands, c);
    forall i | 0 <= i < |l.commands| ensures HasCreate(Rest(l'.commands, i)) && HasMarker(Rest(l'.commands, i)) {
      SuffixAppend(l.commands, c, i);
    }
    forall i | 0 <= i < |l'.commands| ensures UpdateFits(l', i) {
      if i < |l.commands| { assert UpdateFits(l, i); assert l'.commands[..i] == l.commands[..i]; }
    }
  }

  /** The invariant does not look at reference counts. */
  lemma RefcountIsIrrelevant(l: Lane, n: nat)
    requires Inv(l) && l.client.buffer.Some?
    ensures Inv(l.(client := l.client.(buffer := Some(l.client.buffer.value.(refcount := n)))))
  {
    var l' := l.(client := l.client.(buffer := Some(l.client.buffer.value.(refcount := n))));
    forall k | 0 <= k < |l.replies| ensures AskedReply(l', k) == AskedReply(l, k) && SuccessReply(l', k) == SuccessReply(l, k) {}
    forall i | 0 <= i < |l.commands| ensures CommandFits(l'.client, l.commands, i) && UpdateFits(l', i) {
      assert CommandFits(l.client, l.commands, i) && UpdateFits(l, i);
    }
  }

  lemma ReferenceKeepsInv(l: Lane)
    requires Inv(l) && Admissible(l, Reference)
    ensures Inv(Step(l, Reference).lane)
  {
    assert l.commands + [] == l.commands;
    RefcountIsIrrelevant(l, (l.client.buffer.value.refcount + 1) % U32_RANGE);
  }

  lemma ReleaseKeepsInv(l: Lane)
    requires Inv(l) && Admissible(l, Release)
    ensures Inv(Step(l, Release).lane)
  {
    var l' := Step(l, Release).lane;
    if LastReference(l.client) {
      var c := DestroyBuffer(l.id);
      assert l'.commands == l.commands + [c];
      FoldAppend(ServerEntry(l.server), l.commands, c);
      forall i | 0 <= i < |l.commands| ensures HasMarker(Rest(l'.commands, i)) {
        SuffixAppend(l.commands, c, i);
      }
      forall i | 0 <= i < |l'.commands| ensures UpdateFits(l', i) {
        if i < |l.commands| { assert UpdateFits(l, i); assert l'.commands[..i] == l.commands[..i]; }
      }
    } else {
      assert l.commands + [] == l.commands;
      RefcountIsIrrelevant(l, (l.client.buffer.value.refcount + U32_RANGE - 1) % U32_RANGE);
    }
  }

  lemma MapKeepsCommands(l: Lane, start: nat, size: nat, isWrite: bool)
    requires Inv(l) && Admissible(l, Map(start, size, isWrite))
    ensures var l' := Step(l, Map(start, size, isWrite)).lane;
            Linked(l') && CommandsFit(l') && UpdatesFit(l') && CommandsDistinct(l')
  {
    var l' := Step(l, Map(start, size, isWrite)).lane;
    var c := BufferMapAsync(l.id, l.client.buffer.value.requestSerial, start, size, isWrite);
    assert l'.commands == l.commands + [c];
    FoldAppend(ServerEntry(l.server), l.commands, c);
    forall i | 0 <= i < |l'.commands| ensures CommandFits(l'.client, l'.commands, i) && UpdateFits(l', i) {
      if i < |l.commands| {
        SuffixAppend(l.commands, c, i);
        assert CommandFits(l.client, l.commands, i) && UpdateFits(l, i);
        assert l'.commands[..i] == l.commands[..i];
      }
    }
    forall i, j | 0 <= i < j < |l'.commands| && l'.commands[i].BufferMapAsync? && l'.commands[j].BufferMapAsync?
                  && !HasMarker(Rest(l'.commands, i))
      ensures l'.commands[i].requestSerial != l'.commands[j].requestSerial
    {
      SuffixAppend(l.commands, c, i);
      NoMarkerNoCreate(Rest(l.commands, i));
      assert CommandFits(l.client, l.commands, i);
    }
  }

  lemma MapKeepsEpochs(l: Lane, start: nat, size: nat, isWrite: bool)
    requires Inv(l) && Admissible(l, Map(start, size, isWrite))
    ensures var l' := Step(l, Map(start, size, isWrite)).lane; RepliesFit(l') && Epochs(l')
  {
    var l' := Step(l, Map(start, size, isWrite)).lane;
    var c := BufferMapAsync(l.id, l.client.buffer.value.requestSerial, start, size, isWrite);
    assert l'.commands == l.commands + [c];
    MarkerAppend(l.commands, c);
    forall k | 0 <= k < |l.replies| ensures ReplyFits(l'.client, l.replies[k]) { assert ReplyFits(l.client, l.replies[k]); }
    forall k | 0 <= k < |l.replies| ensures AskedReply(l', k) == AskedReply(l, k) && SuccessReply(l', k) == SuccessReply(l, k) {}
    if !HasMarker(l.commands) {
      OpenEpochNames(l);
      assert OneMapping(l');
    }
  }

  lemma MapKeepsInv(l: Lane, start: nat, size: nat, isWrite: bool)
    requires Inv(l) && Admissible(l, Map(start, size, isWrite))
    ensures Inv(Step(l, Map(start, size, isWrite)).lane)
  {
    MapKeepsCommands(l, start, size, isWrite);
    MapKeepsEpochs(l, start, size, isWrite);
  }

  /** The queue after an unmap: an update, if any, goes first and changes no entry. */
  lemma UnmapQueue(l: Lane) returns (q: seq<Command>)
    requires Inv(l) && Admissible(l, Unmap)
    ensures Step(l, Unmap).lane.commands == q + [BufferUnmap(l.id)]
    ensures |l.commands| <= |q| <= |l.commands| + 1 && q[..|l.commands|] == l.commands
    ensures |q| == |l.commands| <==> |UnmapCommands(l.client, l.id)| == 1
    ensures |q| > |l.commands| ==> UnmapCommands(l.client, l.id) == [q[|l.commands|], BufferUnmap(l.id)]
    ensures Fold(ServerEntry(l.server), q) == Some(ClientEntry(l.client))
  {
    var sent := UnmapCommands(l.client, l.id);
    q := l.commands + sent[..|sent| - 1];
    if |sent| == 2 {
      assert q == l.commands + [sent[0]];
      FoldAppend(ServerEntry(l.server), l.commands, sent[0]);
    } else {
      assert q == l.commands;
    }
  }

  lemma UnmapKeepsInv(l: Lane)
    requires Inv(l) && Admissible(l, Unmap)
    ensures Inv(Step(l, Unmap).lane)
  {
    hide HasCreate, HasMarker, HasDestroy, Fold, NB.Valid;
    var l' := Step(l, Unmap).lane;
    var q := UnmapQueue(l);
    var c := BufferUnmap(l.id);
    FoldAppend(ServerEntry(l.server), q, c);
    MarkerAppend(q, c);
    forall i | 0 <= i < |q| ensures HasMarker(Rest(l'.commands, i)) {
      SuffixAppend(q, c, i);
    }
    forall i | 0 <= i < |l'.commands| ensures CommandFits(l'.client, l'.commands, i) {
      if i < |l.commands| {
        assert CommandFits(l.client, l.commands, i);
        UnmapCreates(l, q, i);
      }
    }
    forall i | 0 <= i < |l'.commands| ensures UpdateFits(l', i) {
      if i < |l.commands| {
        assert UpdateFits(l, i);
        assert l'.commands[i] == q[..|l.commands|][i];
        assert i + 1 < |l.commands| ==> l'.commands[i + 1] == q[..|l.commands|][i + 1];
        assert l'.commands[..i] == l.commands[..i];
      } else if i < |q| {
        assert l'.commands[..i] == l.commands;
      }
    }
  }

  lemma UnmapCreates(l: Lane, q: seq<Command>, i: nat)
    requires i < |l.commands| <= |q| <= |l.commands| + 1 && q[..|l.commands|] == l.commands
    requires |q| > |l.commands| ==> !q[|l.commands|].CreateBuffer?
    ensures HasCreate(Rest(q + [BufferUnmap(l.id)], i)) == HasCreate(Rest(l.commands, i))
    ensures (q + [BufferUnmap(l.id)])[i] == l.commands[i]
  {
    assert q[..|l.commands|][i] == q[i];
    SuffixAppend(q, BufferUnmap(l.id), i);
    if |q| > |l.commands| {
      assert q == l.commands + [q[|l.commands|]];
      SuffixAppend(l.commands, q[|l.commands|], i);
    } else {
      assert q == l.commands;
    }
  }
}
