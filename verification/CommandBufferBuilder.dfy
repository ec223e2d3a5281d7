/** The validation methods of `CommandBufferBuilder`, src/dawn_native/CommandBuffer.cpp, as loops over
    the recorded commands that drive the usage tracker and the state tracker. */
module CommandBufferBuilder {
  import opened PassUsage
  import opened CopyValidation
  import opened CommandValidation
  import S = StateTracker

  datatype Status = Accepted | Rejected | Broken

  /** The status is that of the specified result. */
  predicate Says<T>(status: Status, result: Result<T>) {
    match result
    case Success(_) => status == Accepted
    case Failure => status == Rejected
    case Undefined => status == Broken
  }

  predicate AllAcquired(records: seq<PassResourceUsage>, usages: seq<Tracker>) {
    |records| == |usages| && forall i :: 0 <= i < |records| ==> Acquired(records[i], usages[i])
  }

  function Behind(done: seq<Tracker>, result: Result<seq<Tracker>>): (r: Result<seq<Tracker>>)
    ensures done == [] ==> r == result
  {
    match result
    case Success(usages) =>
      assert [] + usages == usages;
      Success(done + usages)
    case other => other
  }

  class CommandBufferBuilder {
    const resources: Resources
    const commands: seq<Command>

    /** The position of the iterator, and the records of the passes so far. */
    var next: nat
    var passResourceUsages: seq<PassResourceUsage>

    constructor (commands: seq<Command>, resources: Resources)
      ensures this.commands == commands && this.resources == resources && next == 0 && passResourceUsages == []
    {
      this.commands := commands;
      this.resources := resources;
      next := 0;
      passResourceUsages := [];
    }

    method TrackBindings(bindings: seq<Binding>, usage: PassResourceUsageTracker)
      modifies usage
      ensures usage.Value() == TrackAll(old(usage.Value()), BindingUses(bindings))
    {
      var i := 0;
      while i < |bindings|
        invariant i <= |bindings|
        invariant TrackAll(usage.Value(), BindingUses(bindings[i..])) == TrackAll(old(usage.Value()), BindingUses(bindings))
      {
        assert bindings[i..][1..] == bindings[i + 1..];
        TrackAllAppend(usage.Value(), BindingUse(bindings[i]), BindingUses(bindings[i + 1..]));
        OneUse(usage.Value(), bindings[i]);
        match bindings[i] {
          case UniformBuffer(buffer) => usage.BufferUsedAs(buffer, Uniform);
          case StorageBuffer(buffer) => usage.BufferUsedAs(buffer, BufferStorage);
          case SampledTexture(texture) => usage.TextureUsedAs(texture, Sampled);
          case Sampler =>
        }
        i := i + 1;
      }
      assert bindings[i..] == [];
    }

    static lemma OneUse(t: Tracker, b: Binding)
      ensures TrackAll(t, BindingUse(b)) == if b.Sampler? then t else Track(t, BindingUse(b)[0])
    {
      if !b.Sampler? {
        assert BindingUse(b)[1..] == [];
      }
    }

    method TrackVertexBuffers(buffers: seq<nat>, usage: PassResourceUsageTracker)
      modifies usage
      ensures usage.Value() == TrackAll(old(usage.Value()), VertexUses(buffers))
    {
      var i := 0;
      while i < |buffers|
        invariant i <= |buffers|
        invariant TrackAll(usage.Value(), VertexUses(buffers[i..])) == TrackAll(old(usage.Value()), VertexUses(buffers))
      {
        assert buffers[i..][1..] == buffers[i + 1..];
        assert VertexUses(buffers[i..])[1..] == VertexUses(buffers[i + 1..]);
        usage.BufferUsedAs(buffers[i], Vertex);
        i := i + 1;
      }
      assert buffers[i..] == [];
    }

    method TrackAttachments(textures: seq<nat>, usage: PassResourceUsageTracker)
      modifies usage
      ensures usage.Value() == TrackAll(old(usage.Value()), AttachmentUses(textures))
    {
      var i := 0;
      while i < |textures|
        invariant i <= |textures|
        invariant TrackAll(usage.Value(), AttachmentUses(textures[i..])) == TrackAll(old(usage.Value()), AttachmentUses(textures))
      {
        assert textures[i..][1..] == textures[i + 1..];
        assert AttachmentUses(textures[i..])[1..] == AttachmentUses(textures[i + 1..]);
        usage.TextureUsedAs(textures[i], OutputAttachment);
        i := i + 1;
      }
      assert textures[i..] == [];
    }

    /** What the switch does for one command of a pass: its resources, */
    method TrackUses(c: Command, usage: PassResourceUsageTracker)
      modifies usage
      ensures usage.Value() == TrackAll(old(usage.Value()), Uses(c))
    {
      hide BindingUses, VertexUses;
      match c {
        case SetBindGroup(_, group) => TrackBindings(group.bindings, usage);
        case SetIndexBuffer(buffer) =>
          OneIndexUse(usage.Value(), buffer);
          usage.BufferUsedAs(buffer, Index);
        case SetVertexBuffers(_, buffers) => TrackVertexBuffers(buffers, usage);
        case _ =>
      }
    }

    /** and its effect on the state tracker. */
    method TrackDrawState(c: Command, state: S.CommandBufferStateTracker) returns (status: Status)
      modifies state
      ensures var after := TrackState(old(state.Value()), c);
              Says(status, after) && (after.Success? ==> after.value == state.Value())
    {
      hide S.Validated, S.Slots;
      status := Accepted;
      match c {
        case Dispatch => status := Check(S.Dispatch, state);
        case DrawArrays => status := Check(S.DrawArrays, state);
        case DrawElements => status := Check(S.DrawElements, state);
        case SetComputePipeline(p) => state.SetComputePipeline(p);
        case SetRenderPipeline(p) => state.SetRenderPipeline(p);
        case SetBindGroup(index, group) => state.SetBindGroup(index, group.layout);
        case SetIndexBuffer(_) => state.SetIndexBuffer();
        case SetVertexBuffers(start, buffers) =>
          if buffers == [] {
            NoSlots(state.Value(), start);
          } else {
            if start + |buffers| > S.MAX_VERTEX_INPUTS {
              return Broken;
            }
            state.SetVertexBuffer(start, |buffers|);
          }
        case _ =>
      }
    }

    static lemma NoSlots(t: S.Tracker, start: nat)
      ensures S.WithVertexBuffers(t, start, 0) == t
    {
      assert t.inputsSet + {} == t.inputsSet;
    }

    static lemma OneIndexUse(t: Tracker, buffer: nat)
      ensures TrackAll(t, [BufferUsedAs(buffer, Index)]) == Track(t, BufferUsedAs(buffer, Index))
    {
      assert [BufferUsedAs(buffer, Index)][1..] == [];
    }

    method Check(op: S.Operation, state: S.CommandBufferStateTracker) returns (status: Status)
      modifies state
      ensures match S.Validated(old(state.Value()), op).0
              case Allowed => status == Accepted && state.Value() == S.Validated(old(state.Value()), op).1
              case Missing(_) => status == Rejected
              case NullPointer => status == Broken
    {
      var verdict := state.ValidateOperation(op);
      status := match verdict case Allowed => Accepted case Missing(_) => Rejected case NullPointer => Broken;
    }

    static lemma NoUses(t: Tracker)
      ensures TrackAll(t, []) == t
    {
    }

    /** `ValidateComputePass` and `ValidateRenderPass`: the loop from the command behind the start of
        the pass to the end of the pass. */
    method ValidatePass(kind: Kind) returns (status: Status)
      requires next <= |commands|
      modifies this
      ensures old(next) <= next <= |commands|
      ensures var result := CommandValidation.ValidatePass(commands[old(next)..], kind, StartOf(kind), resources);
              && Says(status, result)
              && (result.Success? ==>
                    && commands[next..] == result.value.0 && |passResourceUsages| == |old(passResourceUsages)| + 1
                    && passResourceUsages[..|old(passResourceUsages)|] == old(passResourceUsages)
                    && Acquired(passResourceUsages[|old(passResourceUsages)|], result.value.1))
    {
      hide Kind.Holds, ValidUsages, TrackState, Acquired, Uses, TrackAll, AttachmentUses;
      NoUses(EMPTY);
      var usage := new PassResourceUsageTracker();
      var state := new S.CommandBufferStateTracker();
      if kind.RenderKind? {
        TrackAttachments(kind.info.attachments, usage);
      }
      while next < |commands|
        invariant old(next) <= next <= |commands| && passResourceUsages == old(passResourceUsages)
        invariant fresh(usage) && fresh(state)
        invariant CommandValidation.ValidatePass(commands[next..], kind, PassState(usage.Value(), state.Value()), resources)
                  == CommandValidation.ValidatePass(commands[old(next)..], kind, StartOf(kind), resources)
      {
        var c := commands[next];
        assert commands[next..][1..] == commands[next + 1..];
        next := next + 1;
        if c == kind.End() {
          var ok := usage.ValidateUsages(kind.Type(), resources.created);
          if !ok {
            return Rejected;
          }
          var record := usage.AcquireResourceUsage();
          passResourceUsages := passResourceUsages + [record];
          return Accepted;
        }
        if !kind.Holds(c) {
          return Rejected;
        }
        status := TrackDrawState(c, state);
        if status != Accepted {
          return;
        }
        TrackUses(c, usage);
      }
      assert commands[next..] == [];
      status := Rejected;
    }

    /** `ValidateGetResult`: on success the records of the passes, in order. */
    method ValidateGetResult() returns (status: Status)
      modifies this
      requires passResourceUsages == []
      ensures var result := ValidateCommands(commands, resources);
              Says(status, result) && (result.Success? ==> AllAcquired(passResourceUsages, result.value))
    {
      next := 0;
      ghost var done: seq<Tracker> := [];
      assert commands[0..] == commands;
      while next < |commands|
        invariant next <= |commands| && AllAcquired(passResourceUsages, done)
        invariant ValidateCommands(commands, resources) == Behind(done, ValidateCommands(commands[next..], resources))
        decreases |commands| - next
      {
        var c := commands[next];
        assert commands[next..][1..] == commands[next + 1..];
        next := next + 1;
        if c.BeginComputePass? || c.BeginRenderPass? {
          ghost var result := CommandValidation.ValidatePass(commands[next..], KindOf(c), StartOf(KindOf(c)), resources);
          status := ValidatePass(KindOf(c));
          if status != Accepted {
            return;
          }
          ConsBehind(done, result.value.1, ValidateCommands(result.value.0, resources));
          done := done + [result.value.1];
        } else if !ValidCopy(c, resources) {
          return Rejected;
        }
      }
      assert commands[next..] == [];
      status := Accepted;
    }

    static lemma ConsBehind(done: seq<Tracker>, one: Tracker, result: Result<seq<Tracker>>)
      ensures result.Success? ==> Behind(done, Success([one] + result.value)) == Behind(done + [one], result)
      ensures !result.Success? ==> Behind(done + [one], result) == result
    {
      if result.Success? {
        assert done + ([one] + result.value) == done + [one] + result.value;
      }
    }
  }
}
