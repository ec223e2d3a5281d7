/** Replay of accepted commands by the D3D12 backend, src/dawn_native/d3d12/CommandBufferD3D12.cpp: which
    commands it passes on, behind which barriers, and where it fails. */
module CommandReplay {
  import opened Wrappers
  import opened PassUsage
  import opened CopyValidation
  import opened CommandValidation
  import S = StateTracker
  import T = TextureCopySplitter

  // ----- Replay -----

  /** Barriers for the resource usage of a pass, or a command passed on to the command list. */
  datatype Effect = Barriers(usage: Tracker) | Executed(command: Command)

  /** `BadPassNumber`: a pass without a record; `RanOut`: the stream ends inside a pass. */
  datatype Fault =
    Unreachable | BadPassNumber | RanOut | NullPointer | OutOfBounds | FailedAssertion | DivisionByZero

  /** The addresses of the bind groups, and the last pipeline of the pass. */
  datatype Bindings = Bindings(groups: seq<Option<nat>>, pipeline: Option<S.Pipeline>) {
    predicate Valid() { |groups| == S.MAX_BIND_GROUPS }
  }

  datatype Execution = Ran(bindings: Bindings) | Faulted(fault: Fault)

  datatype PassReplay = Closed(executed: seq<Effect>, rest: seq<Command>, bindings: Bindings) | Broken(fault: Fault)

  datatype Replayed = Done(effects: seq<Effect>) | Failed(fault: Fault)

  predicate SetsPipeline(c: Command) {
    c.SetComputePipeline? || c.SetRenderPipeline?
  }

  /** `GroupsInheritUpTo` from group `i` on: one more than there are when all are inherited. */
  function InheritUpTo(earlier: S.Layouts, layout: S.Layouts, i: nat): nat
    requires i <= S.MAX_BIND_GROUPS
    decreases S.MAX_BIND_GROUPS - i
  {
    if i == S.MAX_BIND_GROUPS then S.MAX_BIND_GROUPS + 1
    else if earlier[i].None? || earlier[i] != layout[i] then i
    else InheritUpTo(earlier, layout, i + 1)
  }

  /** `SetInheritedBindGroups`: each inherited group is set again, which looks at its layout. */
  function BindInherited(b: Bindings, until: nat, i: nat): Option<Fault>
    requires b.Valid()
    decreases until - i
  {
    if i >= until then None
    else if i >= S.MAX_BIND_GROUPS then Some(OutOfBounds)
    else if b.groups[i].None? then Some(NullPointer)
    else BindInherited(b, until, i + 1)
  }

  /** `ComputeTextureCopySplit` for a copy. */
  function SplitFault(copy: TextureCopy, r: Resources): Option<Fault> {
    var info := r.texture(copy.texture.texture);
    if copy.rowPitch % info.texelSize != 0 then Some(FailedAssertion)
    else
      match T.SplitOf(copy, info)
      case Split(_) => None
      case DividesByZero => Some(DivisionByZero)
      case Unsupported => Some(FailedAssertion)
  }

  /** The case for a command in the pass loops, or for a copy in the outer loop. Setting a group that
      is not the one already set looks at the pipeline layout if there are descriptors; vertex buffers
      look at the inputs of the pipeline and assert that it has them. */
  function Execute(b: Bindings, c: Command, r: Resources): Execution
    requires b.Valid()
  {
    match c
    case CopyBufferToTexture(copy) => (match SplitFault(copy, r) case Some(f) => Faulted(f) case None => Ran(b))
    case CopyTextureToBuffer(copy) => (match SplitFault(copy, r) case Some(f) => Faulted(f) case None => Ran(b))
    case SetComputePipeline(p) => ExecutePipeline(b, p)
    case SetRenderPipeline(p) => ExecutePipeline(b, p)
    case SetBindGroup(i, group) =>
      if b.groups[i] == Some(group.address) then Ran(b)
      else if group.bindings != [] && b.pipeline.None? then Faulted(NullPointer)
      else Ran(b.(groups := b.groups[i := Some(group.address)]))
    case SetIndexBuffer(_) => if b.pipeline.None? then Faulted(NullPointer) else Ran(b)
    case SetVertexBuffers(start, buffers) =>
      if b.pipeline.None? then Faulted(NullPointer)
      else if S.Slots(start, |buffers|) <= b.pipeline.value.inputs then Ran(b) else Faulted(FailedAssertion)
    case _ => Ran(b)
  }

  function ExecutePipeline(b: Bindings, p: S.Pipeline): Execution
    requires b.Valid()
  {
    var inherited := if b.pipeline.None? then 0 else InheritUpTo(b.pipeline.value.layout, p.layout, 0);
    match BindInherited(b, inherited, 0)
    case Some(f) => Faulted(f)
    case None => Ran(b.(pipeline := Some(p)))
  }

  /** Commands `RecordComputePass` and `RecordRenderPass` have a case for. */
  predicate HasCase(kind: Kind, c: Command) {
    match kind
    case ComputeKind => c.Dispatch? || c.SetComputePipeline? || c.SetBindGroup?
    case RenderKind(_) =>
      || c.DrawArrays? || c.DrawElements? || c.SetRenderPipeline? || c.SetStencilReference? || c.SetScissorRect?
      || c.SetBlendColor? || c.SetBindGroup? || c.SetIndexBuffer? || c.SetVertexBuffers?
  }

  lemma ExecuteKeepsValid(b: Bindings, c: Command, r: Resources)
    requires b.Valid()
    ensures Execute(b, c, r).Ran? ==> Execute(b, c, r).bindings.Valid()
  {
  }

  function ReplayPass(cmds: seq<Command>, kind: Kind, b: Bindings, r: Resources): (result: PassReplay)
    requires b.Valid()
    ensures result.Closed? ==> |result.rest| < |cmds| && result.bindings.Valid()
    decreases |cmds|
  {
    if cmds == [] then Broken(RanOut)
    else if cmds[0] == kind.End() then Closed([Executed(cmds[0])], cmds[1..], b)
    else if !HasCase(kind, cmds[0]) then Broken(Unreachable)
    else
      ExecuteKeepsValid(b, cmds[0], r);
      match Execute(b, cmds[0], r)
      case Faulted(f) => Broken(f)
      case Ran(b') => Front([Executed(cmds[0])], ReplayPass(cmds[1..], kind, b', r))
  }

  /** The main loop of `RecordCommands` from the pass with the given number on. Bind groups stay from
      pass to pass; the pipeline does not. */
  function Replay(cmds: seq<Command>, usages: seq<Tracker>, nextPassNumber: nat, b: Bindings, r: Resources): Replayed
    requires b.Valid()
    decreases |cmds|
  {
    if cmds == [] then Done([])
    else if StartsPass(cmds) then
      if nextPassNumber >= |usages| then Failed(BadPassNumber)
      else
        match ReplayPass(cmds[1..], KindOf(cmds[0]), b.(pipeline := None), r)
        case Broken(f) => Failed(f)
        case Closed(executed, rest, b') =>
          InFront([Barriers(usages[nextPassNumber]), Executed(cmds[0])] + executed,
                  Replay(rest, usages, nextPassNumber + 1, b', r))
    else if !IsCopy(cmds[0]) then Failed(Unreachable)
    else
      match Execute(b, cmds[0], r)
      case Faulted(f) => Failed(f)
      case Ran(_) => InFront([Executed(cmds[0])], Replay(cmds[1..], usages, nextPassNumber, b, r))
  }

  predicate StartsPass(cmds: seq<Command>) {
    cmds != [] && (cmds[0].BeginComputePass? || cmds[0].BeginRenderPass?)
  }

  predicate IsCopy(c: Command) {
    c.CopyBufferToBuffer? || c.CopyBufferToTexture? || c.CopyTextureToBuffer?
  }

  function InFront(effects: seq<Effect>, r: Replayed): Replayed {
    if r.Done? then Done(effects + r.effects) else r
  }

  function Front(done: seq<Effect>, r: PassReplay): (result: PassReplay)
    ensures done == [] ==> result == r
  {
    match r
    case Closed(executed, rest, b) =>
      assert [] + executed == executed;
      Closed(done + executed, rest, b)
    case other => other
  }

  /** `AllocateAndSetDescriptorHeaps` looks at all commands first. Inheriting all groups reads one past
      the last. */
  function ScanHeaps(cmds: seq<Command>, last: Option<S.Layouts>): Option<Fault> {
    if cmds == [] then None
    else if SetsPipeline(cmds[0]) then
      if last.Some? && InheritUpTo(last.value, cmds[0].pipeline.layout, 0) > S.MAX_BIND_GROUPS then Some(OutOfBounds)
      else ScanHeaps(cmds[1..], Some(cmds[0].pipeline.layout))
    else ScanHeaps(cmds[1..], last)
  }

  const UNBOUND: Bindings := Bindings([None, None, None, None], None)

  /** `RecordCommands`. */
  function ReplayAll(cmds: seq<Command>, usages: seq<Tracker>, r: Resources): Replayed {
    match ScanHeaps(cmds, None)
    case Some(f) => Failed(f)
    case None => Replay(cmds, usages, 0, UNBOUND, r)
  }

  // ----- When a command can be replayed -----

  /** The last pipeline set behind the start of the pass. */
  function PipelineInPass(before: seq<Command>): Option<S.Pipeline> {
    if before == [] then None
    else
      var rest, last := before[..|before| - 1], before[|before| - 1];
      if last.BeginComputePass? || last.BeginRenderPass? then None
      else if SetsPipeline(last) then Some(last.pipeline)
      else PipelineInPass(rest)
  }

  /** The last pipeline set, in this pass or an earlier one. */
  function LastPipeline(before: seq<Command>): Option<S.Pipeline> {
    if before == [] then None
    else
      var rest, last := before[..|before| - 1], before[|before| - 1];
      if SetsPipeline(last) then Some(last.pipeline) else LastPipeline(rest)
  }

  /** The address of the last group set at an index, in this pass or an earlier one. */
  function GroupAt(before: seq<Command>, i: nat): Option<nat> {
    if before == [] then None
    else
      var rest, last := before[..|before| - 1], before[|before| - 1];
      if last.SetBindGroup? && last.index == i then Some(last.group.address) else GroupAt(rest, i)
  }

  /** The layouts have their groups up to `i` in common. */
  predicate Shares(earlier: S.Layouts, layout: S.Layouts, i: nat) {
    i < S.MAX_BIND_GROUPS && forall j :: 0 <= j <= i ==> earlier[j].Some? && earlier[j] == layout[j]
  }

  predicate SharesAll(earlier: S.Layouts, layout: S.Layouts) {
    Shares(earlier, layout, S.MAX_BIND_GROUPS - 1)
  }

  /** What a command fails with behind others. Index and vertex buffers and groups with descriptors that
      are not already set need a pipeline set in the pass; a new pipeline in the pass needs every group
      it shares with the one before; a texture copy must not divide by zero. */
  function FaultOf(before: seq<Command>, c: Command, r: Resources): Option<Fault> {
    match c
    case CopyBufferToTexture(copy) =>
      if T.Dividable(T.BoxOf(copy.texture), copy.buffer.offset, copy.rowPitch) then None else Some(DivisionByZero)
    case CopyTextureToBuffer(copy) =>
      if T.Dividable(T.BoxOf(copy.texture), copy.buffer.offset, copy.rowPitch) then None else Some(DivisionByZero)
    case SetPushConstants(_, _) => Some(Unreachable)
    case SetComputePipeline(p) => PipelineFault(before, p)
    case SetRenderPipeline(p) => PipelineFault(before, p)
    case SetBindGroup(i, group) =>
      if group.bindings != [] && PipelineInPass(before).None? && GroupAt(before, i) != Some(group.address)
      then Some(NullPointer) else None
    case SetIndexBuffer(_) => if PipelineInPass(before).None? then Some(NullPointer) else None
    case SetVertexBuffers(start, buffers) =>
      if PipelineInPass(before).None? then Some(NullPointer)
      else if exists slot | start <= slot < start + |buffers| :: slot !in PipelineInPass(before).value.inputs
      then Some(FailedAssertion) else None
    case _ => None
  }

  function PipelineFault(before: seq<Command>, p: S.Pipeline): Option<Fault> {
    if PipelineInPass(before).None? then None
    else
      var earlier := PipelineInPass(before).value.layout;
      if exists i | 0 <= i < S.MAX_BIND_GROUPS :: Shares(earlier, p.layout, i) && GroupAt(before, i).None? then Some(NullPointer)
      else if SharesAll(earlier, p.layout) then Some(OutOfBounds) else None
  }

  /** The first of the commands that fails, behind others. */
  function FirstFault(before: seq<Command>, cmds: seq<Command>, r: Resources): Option<Fault>
    decreases |cmds|
  {
    if cmds == [] then None
    else if FaultOf(before, cmds[0], r).Some? then FaultOf(before, cmds[0], r)
    else FirstFault(before + [cmds[0]], cmds[1..], r)
  }

  /** Two pipelines in a row, in one pass or in two, that have all groups in common. */
  predicate InheritsAll(cmds: seq<Command>) {
    exists i | 0 <= i < |cmds| :: SetsPipeline(cmds[i]) && LastPipeline(cmds[..i]).Some?
      && SharesAll(LastPipeline(cmds[..i]).value.layout, cmds[i].pipeline.layout)
  }

  /** Every command can be replayed behind those before it, and no pipeline inherits all groups. */
  predicate Replayable(cmds: seq<Command>, r: Resources) {
    && (forall i | 0 <= i < |cmds| :: FaultOf(cmds[..i], cmds[i], r).None?)
    && !InheritsAll(cmds)
  }

  // ----- What the replay of an accepted stream does -----

  function ExecutedAll(cmds: seq<Command>): seq<Effect> {
    if cmds == [] then [] else [Executed(cmds[0])] + ExecutedAll(cmds[1..])
  }

  /** A pass starts with the barriers for its own uses. */
  function SegmentEffects(s: Segment): seq<Effect> {
    match s
    case CopySegment(c) => [Executed(c)]
    case PassSegment(kind, body) =>
      [Barriers(TrackAll(EMPTY, PassUses(kind, body))), Executed(kind.Begin())] + ExecutedAll(body + [kind.End()])
  }

  function Effects(segments: seq<Segment>): seq<Effect> {
    if segments == [] then [] else SegmentEffects(segments[0]) + Effects(segments[1..])
  }

  predicate HasPushConstants(cmds: seq<Command>) {
    exists c | c in cmds :: c.SetPushConstants?
  }

  lemma ConsHasPushConstants(c: Command, cmds: seq<Command>)
    ensures HasPushConstants([c] + cmds) <==> c.SetPushConstants? || HasPushConstants(cmds)
  {
    assert forall x :: x in [c] + cmds <==> x == c || x in cmds;
  }

  /** A command that validation lets into a pass is replayed unless it sets push constants. */
  lemma HeldHasCase(kind: Kind, c: Command)
    requires kind.Holds(c)
    ensures HasCase(kind, c) <==> !c.SetPushConstants?
    ensures c != kind.End()
  {
  }

  // ----- The machine follows the history -----

  /** What the loops remember behind the commands. */
  function BindingsAt(before: seq<Command>): (b: Bindings)
    ensures b.Valid()
  {
    Bindings([GroupAt(before, 0), GroupAt(before, 1), GroupAt(before, 2), GroupAt(before, 3)], PipelineInPass(before))
  }

  lemma OneMore(before: seq<Command>, c: Command)
    ensures PipelineInPass(before + [c]) == if c.BeginComputePass? || c.BeginRenderPass? then None
                                            else if SetsPipeline(c) then Some(c.pipeline) else PipelineInPass(before)
    ensures LastPipeline(before + [c]) == if SetsPipeline(c) then Some(c.pipeline) else LastPipeline(before)
    ensures forall i: nat :: GroupAt(before + [c], i)
                             == if c.SetBindGroup? && c.index == i then Some(c.group.address) else GroupAt(before, i)
  {
    assert (before + [c])[..|before|] == before;
  }

  lemma {:induction false} InheritIs(earlier: S.Layouts, layout: S.Layouts, i: nat)
    requires i <= S.MAX_BIND_GROUPS && (forall j :: 0 <= j < i ==> earlier[j].Some? && earlier[j] == layout[j])
    ensures var n := InheritUpTo(earlier, layout, i);
            && (n > S.MAX_BIND_GROUPS <==> SharesAll(earlier, layout))
            && (forall j | 0 <= j < S.MAX_BIND_GROUPS :: Shares(earlier, layout, j) <==> j < n)
    decreases S.MAX_BIND_GROUPS - i
  {
    if i < S.MAX_BIND_GROUPS {
      if earlier[i].Some? && earlier[i] == layout[i] {
        InheritIs(earlier, layout, i + 1);
      } else {
        forall j | 0 <= j < S.MAX_BIND_GROUPS ensures Shares(earlier, layout, j) <==> j < i {}
      }
    } else {
      forall j | 0 <= j < S.MAX_BIND_GROUPS ensures Shares(earlier, layout, j) {}
    }
  }

  lemma {:induction false} InheritedIs(b: Bindings, until: nat, i: nat)
    requires b.Valid() && i <= until && i <= S.MAX_BIND_GROUPS
    ensures BindInherited(b, until, i)
            == if exists j | i <= j < S.MAX_BIND_GROUPS :: j < until && b.groups[j].None? then Some(NullPointer)
               else if until > S.MAX_BIND_GROUPS then Some(OutOfBounds) else None
    decreases until - i
  {
    if i < until && i < S.MAX_BIND_GROUPS && b.groups[i].Some? {
      InheritedIs(b, until, i + 1);
    }
  }

  lemma GroupsAt(before: seq<Command>, i: nat)
    requires i < S.MAX_BIND_GROUPS
    ensures BindingsAt(before).groups[i] == GroupAt(before, i)
  {
  }

  lemma PipelineIs(before: seq<Command>, c: Command, p: S.Pipeline)
    requires SetsPipeline(c) && c.pipeline == p
    ensures ExecutePipeline(BindingsAt(before), p)
            == match PipelineFault(before, p) case Some(f) => Faulted(f) case None => Ran(BindingsAt(before + [c]))
  {
    var b := BindingsAt(before);
    OneMore(before, c);
    if b.pipeline.Some? {
      var earlier := b.pipeline.value.layout;
      InheritIs(earlier, p.layout, 0);
      var until := InheritUpTo(earlier, p.layout, 0);
      InheritedIs(b, until, 0);
      forall i | 0 <= i < S.MAX_BIND_GROUPS
        ensures i < until && b.groups[i].None? <==> Shares(earlier, p.layout, i) && GroupAt(before, i).None?
      {
        GroupsAt(before, i);
      }
    }
  }

  lemma CopyIs(copy: TextureCopy, toTexture: bool, r: Resources)
    requires ValidTextureCopy(copy, toTexture, r)
    ensures SplitFault(copy, r) == if T.Dividable(T.BoxOf(copy.texture), copy.buffer.offset, copy.rowPitch) then None
                                   else Some(DivisionByZero)
  {
    hide T.SplitOf, T.Dividable, T.Works, T.Exact, ValidTextureCopy;
    T.AcceptedCopyIsSplit(copy, toTexture, r);
  }

  /** A command of a pass, or a valid copy, does what its history says. */
  lemma ExecuteIs(before: seq<Command>, c: Command, r: Resources)
    requires (IsCopy(c) && ValidCopy(c, r)) || (exists kind: Kind :: HasCase(kind, c))
    ensures Execute(BindingsAt(before), c, r)
            == match FaultOf(before, c, r) case Some(f) => Faulted(f) case None => Ran(BindingsAt(before + [c]))
  {
    hide T.Dividable, ValidTextureCopy, SplitFault, ExecutePipeline, PipelineFault;
    OneMore(before, c);
    match c {
      case CopyBufferToTexture(copy) => CopyIs(copy, true, r);
      case CopyTextureToBuffer(copy) => CopyIs(copy, false, r);
      case SetComputePipeline(p) => PipelineIs(before, c, p);
      case SetRenderPipeline(p) => PipelineIs(before, c, p);
      case SetBindGroup(i, group) => GroupsAt(before, i); GroupsAt(before + [c], i);
      case SetVertexBuffers(start, buffers) => S.SlotsAre(start, |buffers|);
      case _ =>
    }
  }

  lemma {:induction false} FirstFaultJoin(before: seq<Command>, a: seq<Command>, b: seq<Command>, r: Resources)
    ensures FirstFault(before, a + b, r)
            == if FirstFault(before, a, r).Some? then FirstFault(before, a, r) else FirstFault(before + a, b, r)
    decreases |a|
  {
    hide FaultOf;
    if a == [] {
      assert a + b == b && before + a == before;
    } else {
      assert (a + b)[0] == a[0] && (a + b)[1..] == a[1..] + b;
      assert before + [a[0]] + a[1..] == before + a;
      FirstFaultJoin(before + [a[0]], a[1..], b, r);
    }
  }

  /** No fault is found exactly when every command can be replayed. */
  lemma {:induction false} NoFault(before: seq<Command>, cmds: seq<Command>, r: Resources)
    ensures FirstFault(before, cmds, r).None? <==>
            forall i | 0 <= i < |cmds| :: FaultOf(before + cmds[..i], cmds[i], r).None?
    decreases |cmds|
  {
    hide FaultOf;
    if cmds != [] {
      assert before + cmds[..0] == before;
      NoFault(before + [cmds[0]], cmds[1..], r);
      forall i | 0 < i < |cmds|
        ensures FaultOf(before + cmds[..i], cmds[i], r) == FaultOf(before + [cmds[0]] + cmds[1..][..i - 1], cmds[1..][i - 1], r)
      {
        assert before + cmds[..i] == before + [cmds[0]] + cmds[1..][..i - 1];
      }
      if FaultOf(before, cmds[0], r).None? && FirstFault(before + [cmds[0]], cmds[1..], r).None? {
        forall i | 0 <= i < |cmds| ensures FaultOf(before + cmds[..i], cmds[i], r).None? {
          if i > 0 { assert FaultOf(before + [cmds[0]] + cmds[1..][..i - 1], cmds[1..][i - 1], r).None?; }
        }
      }
      if forall i | 0 <= i < |cmds| :: FaultOf(before + cmds[..i], cmds[i], r).None? {
        assert FaultOf(before + cmds[..0], cmds[0], r).None?;
        forall i | 0 <= i < |cmds| - 1 ensures FaultOf(before + [cmds[0]] + cmds[1..][..i], cmds[1..][i], r).None? {
          assert FaultOf(before + cmds[..i + 1], cmds[i + 1], r).None?;
        }
      }
    }
  }

  lemma {:induction false} ScanFinds(before: seq<Command>, cmds: seq<Command>, last: Option<S.Layouts>)
    requires last == match LastPipeline(before) case None => None case Some(p) => Some(p.layout)
    ensures ScanHeaps(cmds, last) == if InheritsAllBehind(before, cmds) then Some(OutOfBounds) else None
    decreases |cmds|
  {
    if cmds != [] {
      var c, others := cmds[0], cmds[1..];
      OneMore(before, c);
      assert before + cmds[..0] == before;
      forall i | 0 < i < |cmds| ensures InheritsAllAt(before, cmds, i) == InheritsAllAt(before + [c], others, i - 1) {
        assert before + cmds[..i] == before + [c] + others[..i - 1];
      }
      if InheritsAllBehind(before + [c], others) {
        var i :| 0 <= i < |others| && InheritsAllAt(before + [c], others, i);
        assert InheritsAllAt(before, cmds, i + 1);
      }
      if SetsPipeline(c) {
        if last.Some? { InheritIs(last.value, c.pipeline.layout, 0); }
        assert InheritsAllAt(before, cmds, 0) <==> last.Some? && SharesAll(last.value, c.pipeline.layout);
        ScanFinds(before + [c], others, Some(c.pipeline.layout));
      } else {
        ScanFinds(before + [c], others, last);
      }
    }
  }

  predicate InheritsAllAt(before: seq<Command>, cmds: seq<Command>, i: nat)
    requires i < |cmds|
  {
    && SetsPipeline(cmds[i]) && LastPipeline(before + cmds[..i]).Some?
    && SharesAll(LastPipeline(before + cmds[..i]).value.layout, cmds[i].pipeline.layout)
  }

  predicate InheritsAllBehind(before: seq<Command>, cmds: seq<Command>) {
    exists i | 0 <= i < |cmds| :: InheritsAllAt(before, cmds, i)
  }

  lemma ScanIs(cmds: seq<Command>)
    ensures ScanHeaps(cmds, None) == if InheritsAll(cmds) then Some(OutOfBounds) else None
  {
    ScanFinds([], cmds, None);
    forall i | 0 <= i < |cmds| ensures [] + cmds[..i] == cmds[..i] {}
    if InheritsAll(cmds) {
      var i :| 0 <= i < |cmds| && SetsPipeline(cmds[i]) && LastPipeline(cmds[..i]).Some?
        && SharesAll(LastPipeline(cmds[..i]).value.layout, cmds[i].pipeline.layout);
      assert InheritsAllAt([], cmds, i);
    }
    if InheritsAllBehind([], cmds) {
      var i :| 0 <= i < |cmds| && InheritsAllAt([], cmds, i);
    }
  }

  // ----- The replay of an accepted stream -----

  lemma {:induction false} ReplaysBody(before: seq<Command>, kind: Kind, body: seq<Command>, rest: seq<Command>, r: Resources)
    requires forall i :: 0 <= i < |body| ==> kind.Holds(body[i])
    ensures ReplayPass(body + [kind.End()] + rest, kind, BindingsAt(before), r)
            == match FirstFault(before, body, r)
               case Some(f) => Broken(f)
               case None => Closed(ExecutedAll(body + [kind.End()]), rest, BindingsAt(before + body))
    decreases |body|
  {
    hide Execute, FaultOf, BindingsAt, Kind.Holds, HasCase;
    var cmds := body + [kind.End()] + rest;
    if body == [] {
      assert cmds[0] == kind.End() && cmds[1..] == rest && before + body == before;
      assert ExecutedAll([kind.End()]) == [Executed(kind.End())] + ExecutedAll([]);
    } else {
      var c := body[0];
      assert cmds[0] == c && cmds[1..] == body[1..] + [kind.End()] + rest;
      assert (body + [kind.End()])[1..] == body[1..] + [kind.End()];
      HeldHasCase(kind, c);
      PushConstantsFail(before, c, r);
      if HasCase(kind, c) {
        ExecuteIs(before, c, r);
        assert before + [c] + body[1..] == before + body;
        ReplaysBody(before + [c], kind, body[1..], rest, r);
      }
    }
  }

  lemma PushConstantsFail(before: seq<Command>, c: Command, r: Resources)
    ensures FaultOf(before, c, r) == Some(Unreachable) <==> c.SetPushConstants?
  {
  }

  /** The start of a pass drops the pipeline; its end changes nothing. */
  lemma PassBounds(before: seq<Command>, kind: Kind, r: Resources)
    ensures BindingsAt(before).(pipeline := None) == BindingsAt(before + [kind.Begin()])
    ensures BindingsAt(before + [kind.End()]) == BindingsAt(before)
    ensures FaultOf(before, kind.Begin(), r).None? && FaultOf(before, kind.End(), r).None?
  {
    OneMore(before, kind.Begin());
    OneMore(before, kind.End());
  }

  /** The faults of a pass are those of its body. */
  lemma PassFault(before: seq<Command>, kind: Kind, body: seq<Command>, r: Resources)
    ensures FirstFault(before, Commands(PassSegment(kind, body)), r) == FirstFault(before + [kind.Begin()], body, r)
    ensures BindingsAt(before + Commands(PassSegment(kind, body))) == BindingsAt(before + [kind.Begin()] + body)
  {
    hide FaultOf, BindingsAt;
    var begin, end := [kind.Begin()], [kind.End()];
    PassBounds(before, kind, r);
    PassBounds(before + begin + body, kind, r);
    OneFault(before, kind.Begin(), r);
    OneFault(before + begin + body, kind.End(), r);
    FirstFaultJoin(before, begin, body + end, r);
    FirstFaultJoin(before + begin, body, end, r);
    assert before + (begin + (body + end)) == before + begin + body + end;
  }

  lemma OneFault(before: seq<Command>, c: Command, r: Resources)
    ensures FirstFault(before, [c], r) == FaultOf(before, c, r)
  {
    assert FirstFault(before + [c], [], r).None?;
    assert [c][1..] == [];
  }

  lemma {:induction false} ReplaysPass(before: seq<Command>, kind: Kind, body: seq<Command>, rest: seq<Command>,
                                       usages: seq<Tracker>, n: nat, r: Resources)
    requires LegalSegment(PassSegment(kind, body), r) && n < |usages|
    requires usages[n] == TrackAll(EMPTY, PassUses(kind, body))
    ensures var pass := Commands(PassSegment(kind, body));
            Replay(pass + rest, usages, n, BindingsAt(before), r)
            == match FirstFault(before, pass, r)
               case Some(f) => Failed(f)
               case None => InFront(SegmentEffects(PassSegment(kind, body)), Replay(rest, usages, n + 1, BindingsAt(before + pass), r))
  {
    hide TrackAll, PassUses, Ready, Legal, ExecutedAll, ReplayPass, Kind.Holds, BindingsAt, FirstFault;
    var cmds := Commands(PassSegment(kind, body)) + rest;
    assert cmds[0] == kind.Begin() && cmds[1..] == body + [kind.End()] + rest;
    PassBounds(before, kind, r);
    PassFault(before, kind, body, r);
    ReplaysBody(before + [kind.Begin()], kind, body, rest, r);
    assert KindOf(kind.Begin()) == kind;
  }

  lemma {:induction false} ReplaysCopy(before: seq<Command>, c: Command, rest: seq<Command>, usages: seq<Tracker>, n: nat, r: Resources)
    requires ValidCopy(c, r)
    ensures Replay([c] + rest, usages, n, BindingsAt(before), r)
            == match FirstFault(before, [c], r)
               case Some(f) => Failed(f)
               case None => InFront([Executed(c)], Replay(rest, usages, n, BindingsAt(before + [c]), r))
  {
    hide ValidTextureCopy, FaultOf, BindingsAt;
    assert ([c] + rest)[1..] == rest;
    ExecuteIs(before, c, r);
    OneFault(before, c, r);
    CopyKeepsBindings(before, c);
  }

  lemma CopyKeepsBindings(before: seq<Command>, c: Command)
    requires IsCopy(c)
    ensures BindingsAt(before + [c]) == BindingsAt(before)
  {
    OneMore(before, c);
  }

  lemma {:induction false} ReplaysSegments(before: seq<Command>, segments: seq<Segment>, usages: seq<Tracker>, n: nat, r: Resources)
    requires LegalSegments(segments, r) && n <= |usages| && usages[n..] == PassUsages(segments)
    ensures Replay(Flatten(segments), usages, n, BindingsAt(before), r)
            == match FirstFault(before, Flatten(segments), r)
               case Some(f) => Failed(f)
               case None => Done(Effects(segments))
    decreases |segments|
  {
    hide LegalSegment, SegmentEffects, ValidCopy, Replay, FirstFault, BindingsAt;
    if segments == [] {
      NothingReplayed(before, usages, n, r);
    } else {
      var s, others := segments[0], segments[1..];
      assert segments == [s] + others;
      ConsSegment(s, others, r);
      FirstFaultJoin(before, Commands(s), Flatten(others), r);
      match s {
        case CopySegment(c) =>
          assert PassUsages(segments) == PassUsages(others);
          CopyIsValid(c, r);
          ReplaysCopy(before, c, Flatten(others), usages, n, r);
          ReplaysSegments(before + Commands(s), others, usages, n, r);
          CopyEffects(c);
        case PassSegment(kind, body) =>
          assert usages[n] == PassUsages(segments)[0] && usages[n + 1..] == PassUsages(segments)[1..] == PassUsages(others);
          ReplaysPass(before, kind, body, Flatten(others), usages, n, r);
          ReplaysSegments(before + Commands(s), others, usages, n + 1, r);
      }
    }
  }

  lemma NothingReplayed(before: seq<Command>, usages: seq<Tracker>, n: nat, r: Resources)
    ensures Replay([], usages, n, BindingsAt(before), r) == Done([]) && FirstFault(before, [], r).None?
  {
  }

  lemma CopyIsValid(c: Command, r: Resources)
    requires LegalSegment(CopySegment(c), r)
    ensures ValidCopy(c, r)
  {
  }

  lemma CopyEffects(c: Command)
    ensures SegmentEffects(CopySegment(c)) == [Executed(c)]
  {
  }

  /** The replay of an accepted stream runs every command once, in order, each pass behind the barriers
      for its own uses, or fails where the first command cannot be replayed, or at once when a pipeline
      inherits all groups. */
  lemma ReplayOfAccepted(cmds: seq<Command>, usages: seq<Tracker>, r: Resources) returns (segments: seq<Segment>)
    requires ValidateCommands(cmds, r) == Success(usages)
    ensures Flatten(segments) == cmds && LegalSegments(segments, r) && PassUsages(segments) == usages
    ensures ReplayAll(cmds, usages, r)
            == if InheritsAll(cmds) then Failed(OutOfBounds)
               else match FirstFault([], cmds, r) case Some(f) => Failed(f) case None => Done(Effects(segments))
  {
    hide Replay, FirstFault, LegalSegment, InheritsAll;
    segments := AcceptedIsLegal(cmds, r);
    assert usages[0..] == usages;
    ScanIs(cmds);
    ReplaysSegments([], segments, usages, 0, r);
    assert BindingsAt([]) == UNBOUND;
  }

  /** So an accepted stream is replayed exactly when it is replayable. */
  lemma ReplaysExactly(cmds: seq<Command>, usages: seq<Tracker>, r: Resources)
    requires ValidateCommands(cmds, r) == Success(usages)
    ensures ReplayAll(cmds, usages, r).Done? <==> Replayable(cmds, r)
  {
    hide FirstFault, FaultOf, InheritsAll, ReplayAll, ValidateCommands;
    var segments := ReplayOfAccepted(cmds, usages, r);
    NoFault([], cmds, r);
    forall i | 0 <= i < |cmds| ensures [] + cmds[..i] == cmds[..i] {}
  }

  /** It never leaves the records of its passes or the stream, and reaches a command it has no case for
      only if push constants are set. */
  lemma FaultsOfAccepted(cmds: seq<Command>, usages: seq<Tracker>, r: Resources)
    requires ValidateCommands(cmds, r) == Success(usages)
    ensures ReplayAll(cmds, usages, r) != Failed(BadPassNumber) && ReplayAll(cmds, usages, r) != Failed(RanOut)
    ensures ReplayAll(cmds, usages, r) == Failed(Unreachable) ==> HasPushConstants(cmds)
  {
    hide FirstFault, FaultOf, InheritsAll, ReplayAll, ValidateCommands;
    var segments := ReplayOfAccepted(cmds, usages, r);
    FirstFaultIs([], cmds, r);
  }

  lemma {:induction false} FirstFaultIs(before: seq<Command>, cmds: seq<Command>, r: Resources)
    ensures FirstFault(before, cmds, r) != Some(BadPassNumber) && FirstFault(before, cmds, r) != Some(RanOut)
    ensures FirstFault(before, cmds, r) == Some(Unreachable) ==> HasPushConstants(cmds)
    decreases |cmds|
  {
    if cmds != [] {
      FirstFaultIs(before + [cmds[0]], cmds[1..], r);
      PushConstantsFail(before, cmds[0], r);
      assert cmds == [cmds[0]] + cmds[1..];
      ConsHasPushConstants(cmds[0], cmds[1..]);
    }
  }

  /** The commands that reach the command list. */
  function CommandsOf(effects: seq<Effect>): seq<Command> {
    if effects == [] then []
    else (if effects[0].Executed? then [effects[0].command] else []) + CommandsOf(effects[1..])
  }

  /** The barriers that reach it. */
  function BarriersOf(effects: seq<Effect>): seq<Tracker> {
    if effects == [] then []
    else (if effects[0].Barriers? then [effects[0].usage] else []) + BarriersOf(effects[1..])
  }

  lemma Assoc<T>(a: seq<T>, b: seq<T>, c: seq<T>)
    ensures a + b + c == a + (b + c)
  {
  }

  lemma {:induction false} EffectsJoin(a: seq<Effect>, b: seq<Effect>)
    ensures CommandsOf(a + b) == CommandsOf(a) + CommandsOf(b) && BarriersOf(a + b) == BarriersOf(a) + BarriersOf(b)
  {
    if a == [] {
      assert a + b == b;
    } else {
      assert (a + b)[1..] == a[1..] + b;
      EffectsJoin(a[1..], b);
      Assoc(if a[0].Executed? then [a[0].command] else [], CommandsOf(a[1..]), CommandsOf(b));
      Assoc(if a[0].Barriers? then [a[0].usage] else [], BarriersOf(a[1..]), BarriersOf(b));
    }
  }

  lemma {:induction false} ExecutedAllIs(cmds: seq<Command>)
    ensures CommandsOf(ExecutedAll(cmds)) == cmds && BarriersOf(ExecutedAll(cmds)) == []
  {
    if cmds != [] {
      ExecutedAllIs(cmds[1..]);
    }
  }

  lemma SegmentEffectsAre(s: Segment)
    ensures CommandsOf(SegmentEffects(s)) == Commands(s) && BarriersOf(SegmentEffects(s)) == RecordOf(s)
  {
    match s
    case CopySegment(c) =>
      assert CommandsOf([Executed(c)]) == [c] + CommandsOf([]) && BarriersOf([Executed(c)]) == [] + BarriersOf([]);
    case PassSegment(kind, body) =>
      var usage := TrackAll(EMPTY, PassUses(kind, body));
      var begin := [Executed(kind.Begin())];
      ExecutedAllIs(body + [kind.End()]);
      EffectsJoin([Barriers(usage)] + begin, ExecutedAll(body + [kind.End()]));
      assert [Barriers(usage)] + begin == [Barriers(usage), Executed(kind.Begin())];
      EffectsJoin([Barriers(usage)], begin);
      assert CommandsOf([Barriers(usage)]) == [] + CommandsOf([]) && BarriersOf([Barriers(usage)]) == [usage] + BarriersOf([]);
      assert CommandsOf(begin) == [kind.Begin()] + CommandsOf([]) && BarriersOf(begin) == [] + BarriersOf([]);
  }

  lemma {:induction false} EffectsAre(segments: seq<Segment>)
    ensures CommandsOf(Effects(segments)) == Flatten(segments) && BarriersOf(Effects(segments)) == PassUsages(segments)
  {
    if segments != [] {
      SegmentEffectsAre(segments[0]);
      EffectsAre(segments[1..]);
      EffectsJoin(SegmentEffects(segments[0]), Effects(segments[1..]));
    }
  }

  /** So the command list of a replayable stream gets exactly its commands, and exactly the usages that
      validation computed, each in order. */
  lemma ReplayConserves(cmds: seq<Command>, usages: seq<Tracker>, r: Resources)
    requires ValidateCommands(cmds, r) == Success(usages) && Replayable(cmds, r)
    ensures var replay := ReplayAll(cmds, usages, r);
            replay.Done? && CommandsOf(replay.effects) == cmds && BarriersOf(replay.effects) == usages
  {
    hide ReplayAll, Replayable, ValidateCommands, FirstFault, InheritsAll;
    ReplaysExactly(cmds, usages, r);
    var segments := ReplayOfAccepted(cmds, usages, r);
    EffectsAre(segments);
  }

  /** An index buffer set before any pipeline. */
  const INDEX_BUFFER_FIRST: seq<Command> := [BeginRenderPass(RenderPass([], 0)), SetIndexBuffer(0), EndRenderPass]

  lemma IndexBufferFirstIsValid(r: Resources)
    requires Index in r.created.bufferUsage(0)
    ensures ValidateCommands(INDEX_BUFFER_FIRST, r).Success?
  {
    var kind, body := RenderKind(RenderPass([], 0)), [SetIndexBuffer(0)];
    hide ValidatePass, ValidateCommands;
    IndexUseIsLegal(r);
    assert PassUses(kind, body) == [BufferUsedAs(0, Index)] by { assert Uses(body[0]) + AllUses(body[1..]) == Uses(body[0]); }
    assert LegalSegment(PassSegment(kind, body), r);
    assert Flatten([PassSegment(kind, body)]) == INDEX_BUFFER_FIRST + [];
    LegalIsAccepted([PassSegment(kind, body)], r);
  }

  lemma IndexUseIsLegal(r: Resources)
    requires Index in r.created.bufferUsage(0)
    ensures Legal([BufferUsedAs(0, Index)], Render, r.created)
  {
  }

  lemma IndexBufferFirstFails(usages: seq<Tracker>, r: Resources)
    requires usages != []
    ensures ReplayAll(INDEX_BUFFER_FIRST, usages, r) == Failed(NullPointer)
  {
    var rest := INDEX_BUFFER_FIRST[1..];
    assert ReplayPass(rest, RenderKind(RenderPass([], 0)), UNBOUND, r) == Broken(NullPointer);
    assert rest[1..] == [EndRenderPass] && rest[1..][1..] == [];
    assert ScanHeaps(rest[1..], None).None?;
  }

  /** Validation accepts the pass, and replay follows a null pointer. */
  lemma IndexBufferBeforePipeline(r: Resources)
    requires Index in r.created.bufferUsage(0)
    ensures ValidateCommands(INDEX_BUFFER_FIRST, r).Success? && !HasPushConstants(INDEX_BUFFER_FIRST)
    ensures ReplayAll(INDEX_BUFFER_FIRST, ValidateCommands(INDEX_BUFFER_FIRST, r).value, r) == Failed(NullPointer)
  {
    hide ValidateCommands, ReplayAll, FirstFault, InheritsAll;
    IndexBufferFirstIsValid(r);
    var usages := ValidateCommands(INDEX_BUFFER_FIRST, r).value;
    RecordsOf(INDEX_BUFFER_FIRST, usages, r);
    IndexBufferFirstFails(usages, r);
  }

  lemma RecordsOf(cmds: seq<Command>, usages: seq<Tracker>, r: Resources)
    requires StartsPass(cmds) && ValidateCommands(cmds, r) == Success(usages)
    ensures usages != []
  {
  }
}
