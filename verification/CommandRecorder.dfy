/** The loops of src/dawn_native/d3d12/CommandBufferD3D12.cpp over the commands, with the tracker of bind
    groups and the last pipeline that they update. */
module CommandRecorder {
  import opened Wrappers
  import opened PassUsage
  import opened CopyValidation
  import opened CommandValidation
  import opened CommandReplay
  import S = StateTracker

  lemma FrontOne(done: seq<Effect>, e: Effect, r: PassReplay)
    ensures Front(done + [e], r) == Front(done, Front([e], r))
  {
    if r.Closed? {
      Assoc(done, [e], r.executed);
    }
  }

  lemma InFrontTwice(a: seq<Effect>, b: seq<Effect>, r: Replayed)
    ensures InFront(a, InFront(b, r)) == InFront(a + b, r)
  {
    if r.Done? {
      Assoc(a, b, r.effects);
    }
  }

  /** A replay that gets past the start of a pass has its record and finds its end. */
  lemma AtPass(cmds: seq<Command>, usages: seq<Tracker>, n: nat, b: Bindings, r: Resources)
    requires b.Valid() && StartsPass(cmds) && Replay(cmds, usages, n, b, r).Done?
    ensures n < |usages| && ReplayPass(cmds[1..], KindOf(cmds[0]), b.(pipeline := None), r).Closed?
  {
  }

  lemma AfterPass(cmds: seq<Command>, usages: seq<Tracker>, n: nat, b: Bindings, r: Resources,
                  before: seq<Effect>, executed: seq<Effect>, rest: seq<Command>, b': Bindings)
    requires b.Valid() && StartsPass(cmds) && n < |usages|
    requires ReplayPass(cmds[1..], KindOf(cmds[0]), b.(pipeline := None), r) == Closed(executed, rest, b')
    ensures b'.Valid()
    ensures InFront(before, Replay(cmds, usages, n, b, r))
            == InFront(before + [Barriers(usages[n]), Executed(cmds[0])] + executed, Replay(rest, usages, n + 1, b', r))
  {
    var start := [Barriers(usages[n]), Executed(cmds[0])];
    Assoc(before, start, executed);
    InFrontTwice(before, start + executed, Replay(rest, usages, n + 1, b', r));
  }

  lemma AfterCopy(cmds: seq<Command>, usages: seq<Tracker>, n: nat, b: Bindings, r: Resources, before: seq<Effect>)
    requires b.Valid() && cmds != [] && !StartsPass(cmds) && Replay(cmds, usages, n, b, r).Done?
    ensures InFront(before, Replay(cmds, usages, n, b, r))
            == InFront(before + [Executed(cmds[0])], Replay(cmds[1..], usages, n, b, r))
  {
    InFrontTwice(before, [Executed(cmds[0])], Replay(cmds[1..], usages, n, b, r));
  }

  lemma NothingLeft(usages: seq<Tracker>, n: nat, b: Bindings, r: Resources)
    requires b.Valid()
    ensures Replay([], usages, n, b, r) == Done([])
  {
  }

  /** The pipeline a pass ends with is forgotten. */
  lemma {:induction false} PipelineIsForgotten(cmds: seq<Command>, usages: seq<Tracker>, n: nat, b: Bindings, b': Bindings, r: Resources)
    requires b.Valid() && b'.Valid() && b.groups == b'.groups
    ensures Replay(cmds, usages, n, b, r) == Replay(cmds, usages, n, b', r)
    decreases |cmds|
  {
    hide ReplayPass;
    if cmds != [] && !StartsPass(cmds) && IsCopy(cmds[0]) {
      PipelineIsForgotten(cmds[1..], usages, n, b, b', r);
    }
  }

  /** The next step of a pass that is replayed to its end. */
  lemma InPass(cmds: seq<Command>, kind: Kind, b: Bindings, r: Resources)
    requires b.Valid() && ReplayPass(cmds, kind, b, r).Closed?
    ensures cmds != []
    ensures cmds[0] != kind.End() ==> Execute(b, cmds[0], r).Ran? && Execute(b, cmds[0], r).bindings.Valid()
    ensures ReplayPass(cmds, kind, b, r)
            == if cmds[0] == kind.End() then Closed([Executed(cmds[0])], cmds[1..], b)
               else Front([Executed(cmds[0])], ReplayPass(cmds[1..], kind, Execute(b, cmds[0], r).bindings, r))
  {
    ExecuteKeepsValid(b, cmds[0], r);
  }

  lemma ExecutedPipeline(b: Bindings, c: Command, r: Resources)
    requires b.Valid() && SetsPipeline(c)
    ensures Execute(b, c, r) == ExecutePipeline(b, c.pipeline)
  {
  }

  /** Commands, their position in the iterator, the bind groups that are set, and what reached the
      command list. */
  class Recorder {
    const commands: seq<Command>
    const usages: seq<Tracker>
    const resources: Resources
    var next: nat
    var bindGroups: seq<Option<nat>>
    var list: seq<Effect>

    constructor (commands: seq<Command>, usages: seq<Tracker>, resources: Resources)
      ensures this.commands == commands && this.usages == usages && this.resources == resources
      ensures next == 0 && bindGroups == UNBOUND.groups && list == []
    {
      this.commands := commands;
      this.usages := usages;
      this.resources := resources;
      next := 0;
      bindGroups := UNBOUND.groups;
      list := [];
    }

    function State(lastPipeline: Option<S.Pipeline>): Bindings
      reads this
    {
      Bindings(bindGroups, lastPipeline)
    }

    static method GroupsInheritUpTo(earlier: S.Layouts, layout: S.Layouts) returns (n: nat)
      ensures n == InheritUpTo(earlier, layout, 0)
    {
      n := 0;
      while n < S.MAX_BIND_GROUPS
        invariant n <= S.MAX_BIND_GROUPS && InheritUpTo(earlier, layout, n) == InheritUpTo(earlier, layout, 0)
      {
        if earlier[n].None? || earlier[n] != layout[n] {
          return;
        }
        n := n + 1;
      }
      n := S.MAX_BIND_GROUPS + 1;
    }

    /** Sets the groups again that the new layout shares with the last one. */
    method SetInheritedBindGroups(lastLayout: Option<S.Layouts>, layout: S.Layouts)
      requires |bindGroups| == S.MAX_BIND_GROUPS
      requires BindInherited(State(None), if lastLayout.None? then 0 else InheritUpTo(lastLayout.value, layout, 0), 0).None?
    {
      if lastLayout.None? {
        return;
      }
      var inheritUntil := GroupsInheritUpTo(lastLayout.value, layout);
      var i := 0;
      while i < inheritUntil
        invariant i <= inheritUntil && BindInherited(State(None), inheritUntil, i).None?
      {
        assert i < S.MAX_BIND_GROUPS && bindGroups[i].Some?;
        i := i + 1;
      }
    }

    /** `BindGroupStateTracker::SetBindGroup` for a command. */
    method SetBindGroup(lastPipeline: Option<S.Pipeline>, group: Group, index: GroupIndex)
      requires |bindGroups| == S.MAX_BIND_GROUPS
      requires Execute(State(lastPipeline), Command.SetBindGroup(index, group), resources).Ran?
      modifies this`bindGroups
      ensures State(lastPipeline) == Execute(old(State(lastPipeline)), Command.SetBindGroup(index, group), resources).bindings
    {
      if bindGroups[index] != Some(group.address) {
        bindGroups := bindGroups[index := Some(group.address)];
        assert group.bindings != [] ==> lastPipeline.Some?;
      }
    }

    /** `AllocateAndSetDescriptorHeaps`: whether it stays inside the bind groups. */
    method LookAtAll() returns (ok: bool)
      ensures ok <==> ScanHeaps(commands, None).None?
    {
      var lastLayout: Option<S.Layouts> := None;
      var i := 0;
      assert commands[0..] == commands;
      while i < |commands|
        invariant i <= |commands| && ScanHeaps(commands[i..], lastLayout) == ScanHeaps(commands, None)
      {
        assert commands[i..][1..] == commands[i + 1..];
        if SetsPipeline(commands[i]) {
          var layout := commands[i].pipeline.layout;
          if lastLayout.Some? {
            var inheritUntil := GroupsInheritUpTo(lastLayout.value, layout);
            if inheritUntil > S.MAX_BIND_GROUPS {
              return false;
            }
          }
          lastLayout := Some(layout);
        }
        i := i + 1;
      }
      return true;
    }

    /** The case of a pass loop for a command that is replayed. */
    method RecordOne(c: Command, lastPipeline: Option<S.Pipeline>) returns (pipeline: Option<S.Pipeline>)
      requires |bindGroups| == S.MAX_BIND_GROUPS && Execute(State(lastPipeline), c, resources).Ran?
      modifies this`bindGroups
      ensures State(pipeline) == Execute(old(State(lastPipeline)), c, resources).bindings
    {
      hide SplitFault;
      pipeline := lastPipeline;
      if c.SetComputePipeline? || c.SetRenderPipeline? {
        ExecutedPipeline(State(lastPipeline), c, resources);
        Irrelevant(State(lastPipeline), c.pipeline);
        SetInheritedBindGroups(if lastPipeline.None? then None else Some(lastPipeline.value.layout), c.pipeline.layout);
        pipeline := Some(c.pipeline);
      } else if c.SetBindGroup? {
        SetBindGroup(lastPipeline, c.group, c.index);
      } else if c.SetIndexBuffer? {
        assert lastPipeline.Some?;
      } else if c.SetVertexBuffers? {
        S.SlotsAre(c.startSlot, |c.buffers|);
        assert lastPipeline.Some?;
        assert forall slot | c.startSlot <= slot < c.startSlot + |c.buffers| :: slot in lastPipeline.value.inputs;
      }
    }

    /** `RecordComputePass` and `RecordRenderPass`. */
    method RecordPass(kind: Kind)
      requires |bindGroups| == S.MAX_BIND_GROUPS
      requires next <= |commands| && ReplayPass(commands[next..], kind, State(None), resources).Closed?
      modifies this`next, this`bindGroups, this`list
      ensures old(next) <= next <= |commands|
      ensures |old(list)| <= |list| && list[..|old(list)|] == old(list)
      ensures |bindGroups| == S.MAX_BIND_GROUPS
      ensures var replay := ReplayPass(commands[old(next)..], kind, old(State(None)), resources);
              && replay.executed == list[|old(list)|..] && replay.rest == commands[next..] && replay.bindings.groups == bindGroups
    {
      hide HasCase, Execute, ReplayPass;
      ghost var start, done: seq<Effect> := commands[next..], [];
      var lastPipeline: Option<S.Pipeline> := None;
      InPass(commands[next..], kind, State(None), resources);
      while next < |commands|
        invariant old(next) <= next <= |commands| && list == old(list) + done && |bindGroups| == S.MAX_BIND_GROUPS
        invariant Front(done, ReplayPass(commands[next..], kind, State(lastPipeline), resources))
                  == ReplayPass(start, kind, old(State(None)), resources)
        invariant next < |commands|
        decreases |commands| - next
      {
        var c := commands[next];
        assert commands[next..][1..] == commands[next + 1..];
        InPass(commands[next..], kind, State(lastPipeline), resources);
        next := next + 1;
        list := list + [Executed(c)];
        if c == kind.End() {
          assert list[|old(list)|..] == done + [Executed(c)];
          return;
        }
        lastPipeline := RecordOne(c, lastPipeline);
        FrontOne(done, Executed(c), ReplayPass(commands[next..], kind, State(lastPipeline), resources));
        done := done + [Executed(c)];
        InPass(commands[next..], kind, State(lastPipeline), resources);
      }
    }

    /** `RecordCommands`: the usages are those validation computed. */
    method RecordCommands()
      requires next == 0 && list == [] && bindGroups == UNBOUND.groups && ReplayAll(commands, usages, resources).Done?
      modifies this`next, this`bindGroups, this`list
      ensures ReplayAll(commands, usages, resources) == Done(list)
    {
      hide Replay, ReplayPass, ScanHeaps, Execute;
      var inside := LookAtAll();
      assert inside;
      var nextPassNumber := 0;
      assert commands[0..] == commands && State(None) == UNBOUND;
      while next < |commands|
        invariant next <= |commands| && |bindGroups| == S.MAX_BIND_GROUPS
        invariant InFront(list, Replay(commands[next..], usages, nextPassNumber, State(None), resources))
                  == Replay(commands, usages, 0, UNBOUND, resources)
        decreases |commands| - next
      {
        var c := commands[next];
        assert commands[next..][1..] == commands[next + 1..];
        ghost var before, rest, b := list, commands[next..], State(None);
        next := next + 1;
        if c.BeginComputePass? || c.BeginRenderPass? {
          AtPass(rest, usages, nextPassNumber, b, resources);
          list := list + [Barriers(usages[nextPassNumber]), Executed(c)];
          ghost var front := |list|;
          ghost var replay := ReplayPass(rest[1..], KindOf(c), b, resources);
          RecordPass(KindOf(c));
          AfterPass(rest, usages, nextPassNumber, b, resources, before, list[front..], commands[next..], replay.bindings);
          PipelineIsForgotten(commands[next..], usages, nextPassNumber + 1, replay.bindings, State(None), resources);
          assert list == before + [Barriers(usages[nextPassNumber]), Executed(c)] + list[front..];
          nextPassNumber := nextPassNumber + 1;
        } else {
          AfterCopy(rest, usages, nextPassNumber, b, resources, before);
          list := list + [Executed(c)];
        }
      }
      assert commands[next..] == [];
      NothingLeft(usages, nextPassNumber, State(None), resources);
      assert list + [] == list;
    }
  }

  /** Which groups are inherited does not depend on the pipeline. */
  lemma Irrelevant(b: Bindings, p: S.Pipeline)
    requires b.Valid()
    ensures ExecutePipeline(b, p).Ran? ==>
              BindInherited(b.(pipeline := None),
                            if b.pipeline.None? then 0 else InheritUpTo(b.pipeline.value.layout, p.layout, 0), 0).None?
  {
    InheritedIs(b, if b.pipeline.None? then 0 else InheritUpTo(b.pipeline.value.layout, p.layout, 0), 0);
    InheritedIs(b.(pipeline := None), if b.pipeline.None? then 0 else InheritUpTo(b.pipeline.value.layout, p.layout, 0), 0);
  }
}
