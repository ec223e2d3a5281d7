/** Validation of recorded commands, src/dawn_native/CommandBuffer.cpp. */
module CommandValidation {
  import opened PassUsage
  import opened CopyValidation
  import S = StateTracker

  datatype Stage = VertexStage | FragmentStage | ComputeStage

  datatype Binding = UniformBuffer(buffer: nat) | StorageBuffer(buffer: nat) | SampledTexture(texture: nat) | Sampler

  /** A group is known by its address; its bindings are in the order of their indices. */
  datatype Group = Group(address: nat, layout: nat, bindings: seq<Binding>)

  /** The textures of the color attachments and of the depth-stencil attachment; the attachment state
      stands for their presence and formats. */
  datatype RenderPass = RenderPass(attachments: seq<nat>, attachmentState: nat)

  /** Recording rejects larger indices. */
  type GroupIndex = n: nat | n < S.MAX_BIND_GROUPS

  /** The number of buffers is a 32-bit number. */
  type Buffers = s: seq<nat> | |s| < WORD

  datatype Command =
    | BeginComputePass
    | BeginRenderPass(info: RenderPass)
    | CopyBufferToBuffer(bufferCopy: BufferCopy)
    | CopyBufferToTexture(textureCopy: TextureCopy)
    | CopyTextureToBuffer(textureCopy: TextureCopy)
    | Dispatch
    | DrawArrays
    | DrawElements
    | EndComputePass
    | EndRenderPass
    | SetComputePipeline(pipeline: S.Pipeline)
    | SetRenderPipeline(pipeline: S.Pipeline)
    | SetPushConstants(stages: set<Stage>, count: uint32)
    | SetStencilReference
    | SetScissorRect
    | SetBlendColor
    | SetBindGroup(index: GroupIndex, group: Group)
    | SetIndexBuffer(buffer: nat)
    | SetVertexBuffers(startSlot: nat, buffers: Buffers)

  /** Validation stops with an error, or follows a null pointer or an out-of-range slot. */
  datatype Result<+T> = Success(value: T) | Failure | Undefined {
    predicate IsFailure() { !Success? }

    function PropagateFailure<U>(): Result<U>
      requires !Success?
    {
      if Failure? then Failure else Undefined
    }

    function Extract(): T
      requires Success?
    {
      value
    }
  }

  // ----- What commands do to the trackers -----

  /** `TrackBindGroupResourceUsage`. */
  function BindingUse(b: Binding): seq<Use> {
    match b
    case UniformBuffer(buffer) => [BufferUsedAs(buffer, Uniform)]
    case StorageBuffer(buffer) => [BufferUsedAs(buffer, BufferStorage)]
    case SampledTexture(texture) => [TextureUsedAs(texture, Sampled)]
    case Sampler => []
  }

  function BindingUses(bs: seq<Binding>): seq<Use> {
    if bs == [] then [] else BindingUse(bs[0]) + BindingUses(bs[1..])
  }

  function VertexUses(buffers: seq<nat>): seq<Use> {
    if buffers == [] then [] else [BufferUsedAs(buffers[0], Vertex)] + VertexUses(buffers[1..])
  }

  function AttachmentUses(textures: seq<nat>): seq<Use> {
    if textures == [] then [] else [TextureUsedAs(textures[0], OutputAttachment)] + AttachmentUses(textures[1..])
  }

  /** How a command of a pass uses resources. */
  function Uses(c: Command): seq<Use> {
    match c
    case SetBindGroup(_, group) => BindingUses(group.bindings)
    case SetIndexBuffer(buffer) => [BufferUsedAs(buffer, Index)]
    case SetVertexBuffers(_, buffers) => VertexUses(buffers)
    case _ => []
  }

  /** What a command of a pass does to the state tracker, if anything. */
  function Event(c: Command): seq<S.Event> {
    match c
    case Dispatch => [S.Check(S.Dispatch)]
    case DrawArrays => [S.Check(S.DrawArrays)]
    case DrawElements => [S.Check(S.DrawElements)]
    case SetComputePipeline(p) => [S.ComputePipeline(p)]
    case SetRenderPipeline(p) => [S.RenderPipeline(p)]
    case SetBindGroup(i, group) => [S.BindGroup(i, group.layout)]
    case SetIndexBuffer(_) => [S.IndexBuffer]
    case SetVertexBuffers(start, buffers) => [S.VertexBuffer(start, |buffers|)]
    case _ => []
  }

  /** The validation state inside a pass. */
  datatype PassState = PassState(usage: Tracker, state: S.Tracker)

  /** The check of a draw or dispatch command, the update by any other. */
  function TrackState(t: S.Tracker, c: Command): Result<S.Tracker> {
    var event := Event(c);
    if event == [] then Success(t)
    else if event[0].Check? then
      var (verdict, t') := S.Validated(t, event[0].op);
      (match verdict
       case Allowed => Success(t')
       case Missing(_) => Failure
       case NullPointer => Undefined)
    else if c.SetVertexBuffers? && c.buffers != [] && c.startSlot + |c.buffers| > S.MAX_VERTEX_INPUTS then Undefined
    else Success(S.After(t, event[0]))
  }

  /** The kind of a pass: compute, or render with its description. */
  datatype Kind = ComputeKind | RenderKind(info: RenderPass) {
    function Type(): PassType {
      if ComputeKind? then Compute else Render
    }

    function Begin(): Command {
      if ComputeKind? then BeginComputePass else BeginRenderPass(info)
    }

    function End(): Command {
      if ComputeKind? then EndComputePass else EndRenderPass
    }

    /** Uses before the first command. */
    function Attachments(): seq<Use> {
      if ComputeKind? then [] else AttachmentUses(info.attachments)
    }

    /** Commands the pass may hold besides its end. */
    predicate Holds(c: Command) {
      match this
      case ComputeKind =>
        c.Dispatch? || c.SetComputePipeline? || c.SetBindGroup? || (c.SetPushConstants? && c.stages <= {ComputeStage})
      case RenderKind(info) =>
        || c.DrawArrays? || c.DrawElements? || c.SetStencilReference? || c.SetBlendColor? || c.SetScissorRect?
        || c.SetBindGroup? || c.SetIndexBuffer? || c.SetVertexBuffers?
        || (c.SetRenderPipeline? && c.pipeline.attachmentState == info.attachmentState)
        || (c.SetPushConstants? && c.stages <= {VertexStage, FragmentStage})
    }
  }

  // ----- The validator -----

  function PassStep(p: PassState, c: Command): Result<PassState> {
    var state :- TrackState(p.state, c);
    Success(PassState(TrackAll(p.usage, Uses(c)), state))
  }

  /** `ValidateComputePass` and `ValidateRenderPass` from inside the pass: the commands behind the
      pass, and its resource usage. */
  function ValidatePass(cmds: seq<Command>, kind: Kind, p: PassState, r: Resources): (result: Result<(seq<Command>, Tracker)>)
    ensures result.Success? ==> |result.value.0| < |cmds|
    decreases |cmds|
  {
    if cmds == [] then Failure
    else if cmds[0] == kind.End() then
      if ValidUsages(p.usage, kind.Type(), r.created) then Success((cmds[1..], p.usage)) else Failure
    else if !kind.Holds(cmds[0]) then Failure
    else
      var p' :- PassStep(p, cmds[0]);
      ValidatePass(cmds[1..], kind, p', r)
  }

  predicate ValidCopy(c: Command, r: Resources) {
    match c
    case CopyBufferToBuffer(copy) => ValidBufferCopy(copy, r)
    case CopyBufferToTexture(copy) => ValidTextureCopy(copy, true, r)
    case CopyTextureToBuffer(copy) => ValidTextureCopy(copy, false, r)
    case _ => false
  }

  function StartOf(kind: Kind): PassState {
    PassState(TrackAll(EMPTY, kind.Attachments()), S.FRESH)
  }

  function KindOf(begin: Command): Kind
    requires begin.BeginComputePass? || begin.BeginRenderPass?
  {
    if begin.BeginComputePass? then ComputeKind else RenderKind(begin.info)
  }

  /** `ValidateGetResult`: the resource usages of the passes in order. */
  function ValidateCommands(cmds: seq<Command>, r: Resources): Result<seq<Tracker>>
    decreases |cmds|
  {
    if cmds == [] then Success([])
    else if cmds[0].BeginComputePass? || cmds[0].BeginRenderPass? then
      var kind := KindOf(cmds[0]);
      var pass :- ValidatePass(cmds[1..], kind, StartOf(kind), r);
      var usages :- ValidateCommands(pass.0, r);
      Success([pass.1] + usages)
    else if ValidCopy(cmds[0], r) then ValidateCommands(cmds[1..], r)
    else Failure
  }

  // ----- What accepted streams are -----

  datatype Segment = CopySegment(copy: Command) | PassSegment(kind: Kind, body: seq<Command>)

  function Commands(s: Segment): seq<Command> {
    match s
    case CopySegment(c) => [c]
    case PassSegment(kind, body) => [kind.Begin()] + (body + [kind.End()])
  }

  function Flatten(segments: seq<Segment>): seq<Command> {
    if segments == [] then [] else Commands(segments[0]) + Flatten(segments[1..])
  }

  function AllUses(body: seq<Command>): seq<Use> {
    if body == [] then [] else Uses(body[0]) + AllUses(body[1..])
  }

  function AllEvents(body: seq<Command>): (events: seq<S.Event>)
    ensures forall e | e in events :: S.InRange(e)
  {
    if body == [] then [] else Event(body[0]) + AllEvents(body[1..])
  }

  /** The uses of a pass: its attachments, then its commands. */
  function PassUses(kind: Kind, body: seq<Command>): seq<Use> {
    kind.Attachments() + AllUses(body)
  }

  /** A draw or dispatch has in place what it needs, as set by the commands before it; vertex buffers go
      to slots there are. */
  predicate Ready(before: seq<Command>, c: Command) {
    var event := Event(c);
    && (event != [] && event[0].Check? ==>
          S.InPlace(S.History(S.NOTHING_SET, AllEvents(before)), event[0].op))
    && (c.SetVertexBuffers? && c.buffers != [] ==> c.startSlot + |c.buffers| <= S.MAX_VERTEX_INPUTS)
  }

  /** A copy is valid by itself. A pass holds only commands of its kind, each ready in the state
      left by the ones before it, and its uses are legal together. */
  ghost predicate LegalSegment(s: Segment, r: Resources) {
    match s
    case CopySegment(c) => ValidCopy(c, r)
    case PassSegment(kind, body) =>
      && (forall i :: 0 <= i < |body| ==> kind.Holds(body[i]) && Ready(body[..i], body[i]))
      && Legal(PassUses(kind, body), kind.Type(), r.created)
  }

  ghost predicate LegalSegments(segments: seq<Segment>, r: Resources) {
    forall s | s in segments :: LegalSegment(s, r)
  }

  /** One record for each pass, in order. */
  function PassUsages(segments: seq<Segment>): seq<Tracker> {
    if segments == [] then [] else RecordOf(segments[0]) + PassUsages(segments[1..])
  }

  function RecordOf(s: Segment): seq<Tracker> {
    match s
    case CopySegment(_) => []
    case PassSegment(kind, body) => [TrackAll(EMPTY, PassUses(kind, body))]
  }

  // ----- One pass -----

  /** The commands of a pass are accepted one after the other. */
  predicate Accepts(kind: Kind, p: PassState, body: seq<Command>)
    decreases |body|
  {
    body != [] ==>
      kind.Holds(body[0]) && PassStep(p, body[0]).Success? && Accepts(kind, PassStep(p, body[0]).value, body[1..])
  }

  lemma {:induction false} TrackAllAppend(t: Tracker, a: seq<Use>, b: seq<Use>)
    ensures TrackAll(t, a + b) == TrackAll(TrackAll(t, a), b)
    decreases |a|
  {
    if a == [] {
      assert a + b == b;
    } else {
      assert (a + b)[1..] == a[1..] + b;
      TrackAllAppend(Track(t, a[0]), a[1..], b);
    }
  }

  lemma {:induction false} RunAppend(t: S.Tracker, a: seq<S.Event>, b: seq<S.Event>)
    requires (forall e | e in a :: S.InRange(e)) && (forall e | e in b :: S.InRange(e))
    ensures S.Run(t, a + b) == S.Run(S.Run(t, a), b)
    decreases |a|
  {
    if a == [] {
      assert a + b == b;
    } else {
      assert (a + b)[1..] == a[1..] + b;
      RunAppend(S.After(t, a[0]), a[1..], b);
    }
  }

  lemma {:induction false} AllEventsAppend(a: seq<Command>, c: Command)
    ensures AllEvents(a + [c]) == AllEvents(a) + Event(c)
  {
    if a == [] {
      assert a + [c] == [c] && [c][1..] == [];
      assert AllEvents([c]) == Event(c) + [];
    } else {
      assert (a + [c])[1..] == a[1..] + [c];
      AllEventsAppend(a[1..], c);
    }
  }

  /** A step from the state left by `before` succeeds exactly when the command is ready. */
  lemma StepIsReady(p: PassState, before: seq<Command>, c: Command)
    requires p.state == S.Run(S.FRESH, AllEvents(before))
    ensures PassStep(p, c).Success? <==> Ready(before, c)
    ensures Ready(before, c) ==>
              PassStep(p, c) == Success(PassState(TrackAll(p.usage, Uses(c)), S.Run(S.FRESH, AllEvents(before + [c]))))
  {
    hide S.InPlace, S.History, S.Validated;
    AllEventsAppend(before, c);
    RunAppend(S.FRESH, AllEvents(before), Event(c));
    if Event(c) != [] && Event(c)[0].Check? {
      S.AcceptedExactly(AllEvents(before), Event(c)[0].op);
    }
    if Event(c) != [] {
      assert Event(c)[1..] == [];
      assert S.Run(p.state, Event(c)) == S.After(p.state, Event(c)[0]);
    } else {
      assert S.Run(p.state, Event(c)) == p.state;
    }
  }

  predicate AllReady(kind: Kind, before: seq<Command>, body: seq<Command>) {
    forall i :: 0 <= i < |body| ==> kind.Holds(body[i]) && Ready(before + body[..i], body[i])
  }

  lemma ConsAllReady(kind: Kind, before: seq<Command>, body: seq<Command>)
    requires body != []
    ensures AllReady(kind, before, body) <==>
            kind.Holds(body[0]) && Ready(before, body[0]) && AllReady(kind, before + [body[0]], body[1..])
  {
    assert before + body[..0] == before;
    forall i | 0 <= i < |body| - 1 ensures before + [body[0]] + body[1..][..i] == before + body[..i + 1] {
    }
    if AllReady(kind, before, body) {
      forall i | 0 <= i < |body[1..]| ensures kind.Holds(body[1..][i]) && Ready(before + [body[0]] + body[1..][..i], body[1..][i]) {
        assert body[1..][i] == body[i + 1];
      }
    }
    if kind.Holds(body[0]) && Ready(before, body[0]) && AllReady(kind, before + [body[0]], body[1..]) {
      forall i | 0 <= i < |body| ensures kind.Holds(body[i]) && Ready(before + body[..i], body[i]) {
        if i > 0 {
          assert body[i] == body[1..][i - 1];
        }
      }
    }
  }

  lemma {:induction false} AcceptsReady(kind: Kind, p: PassState, before: seq<Command>, body: seq<Command>)
    requires p.state == S.Run(S.FRESH, AllEvents(before))
    ensures Accepts(kind, p, body) <==> AllReady(kind, before, body)
    decreases |body|
  {
    if body != [] {
      ConsAllReady(kind, before, body);
      StepIsReady(p, before, body[0]);
      if Ready(before, body[0]) {
        AcceptsReady(kind, PassStep(p, body[0]).value, before + [body[0]], body[1..]);
      }
    }
  }

  /** An accepted body followed by the end of the pass is accepted with the usage of the body. */
  lemma {:induction false} PassOf(kind: Kind, p: PassState, body: seq<Command>, rest: seq<Command>, r: Resources)
    requires Accepts(kind, p, body) && ValidUsages(TrackAll(p.usage, AllUses(body)), kind.Type(), r.created)
    ensures ValidatePass(body + [kind.End()] + rest, kind, p, r) == Success((rest, TrackAll(p.usage, AllUses(body))))
    decreases |body|
  {
    var cmds := body + [kind.End()] + rest;
    if body == [] {
      assert cmds[0] == kind.End() && cmds[1..] == rest;
    } else {
      assert cmds[0] == body[0] && cmds[1..] == body[1..] + [kind.End()] + rest;
      TrackAllAppend(p.usage, Uses(body[0]), AllUses(body[1..]));
      PassOf(kind, PassStep(p, body[0]).value, body[1..], rest, r);
    }
  }

  /** Whatever is accepted is such a body and the end of the pass. */
  lemma {:induction false} PassBody(cmds: seq<Command>, kind: Kind, p: PassState, r: Resources) returns (body: seq<Command>)
    requires ValidatePass(cmds, kind, p, r).Success?
    ensures var (rest, usage) := ValidatePass(cmds, kind, p, r).value;
            && cmds == body + [kind.End()] + rest && Accepts(kind, p, body)
            && usage == TrackAll(p.usage, AllUses(body)) && ValidUsages(usage, kind.Type(), r.created)
    decreases |cmds|
  {
    hide Kind.Holds, ValidUsages, Uses, TrackState;
    if cmds[0] == kind.End() {
      body := [];
      assert cmds == [] + [kind.End()] + cmds[1..];
    } else {
      var others := PassBody(cmds[1..], kind, PassStep(p, cmds[0]).value, r);
      body := [cmds[0]] + others;
      assert body[1..] == others;
      TrackAllAppend(p.usage, Uses(cmds[0]), AllUses(others));
      assert cmds == [cmds[0]] + cmds[1..];
    }
  }

  /** From the start of a pass, acceptance is legality of the segment. */
  lemma PassIsLegal(kind: Kind, body: seq<Command>, r: Resources)
    ensures LegalSegment(PassSegment(kind, body), r) <==>
            && Accepts(kind, StartOf(kind), body)
            && ValidUsages(TrackAll(StartOf(kind).usage, AllUses(body)), kind.Type(), r.created)
    ensures TrackAll(StartOf(kind).usage, AllUses(body)) == TrackAll(EMPTY, PassUses(kind, body))
  {
    AcceptsReady(kind, StartOf(kind), [], body);
    assert forall i :: 0 <= i < |body| ==> [] + body[..i] == body[..i];
    TrackAllAppend(EMPTY, kind.Attachments(), AllUses(body));
    VerdictIsLegality(PassUses(kind, body), kind.Type(), r.created);
  }

  // ----- Accepted streams are sequences of legal segments -----

  lemma ConsSegment(s: Segment, others: seq<Segment>, r: Resources)
    ensures Flatten([s] + others) == Commands(s) + Flatten(others)
    ensures PassUsages([s] + others) == RecordOf(s) + PassUsages(others)
    ensures LegalSegments([s] + others, r) <==> LegalSegment(s, r) && LegalSegments(others, r)
  {
    var all := [s] + others;
    assert all[0] == s && all[1..] == others;
    assert forall x :: x in all <==> x == s || x in others;
  }

  lemma CopyInFront(c: Command, rest: seq<Command>, r: Resources)
    requires ValidCopy(c, r) && ValidateCommands(rest, r).Success?
    ensures ValidateCommands([c] + rest, r) == ValidateCommands(rest, r)
  {
    hide ValidBufferCopy, ValidTextureCopy, ValidatePass;
    assert ([c] + rest)[1..] == rest;
  }

  lemma PassInFront(kind: Kind, body: seq<Command>, rest: seq<Command>, r: Resources)
    requires LegalSegment(PassSegment(kind, body), r) && ValidateCommands(rest, r).Success?
    ensures ValidateCommands([kind.Begin()] + (body + [kind.End()]) + rest, r)
            == Success([TrackAll(EMPTY, PassUses(kind, body))] + ValidateCommands(rest, r).value)
  {
    PassIsLegal(kind, body, r);
    hide Kind.Holds, Accepts, PassUses, TrackAll, ValidUsages, ValidatePass, Legal, LegalSegment, AllUses;
    var cmds := [kind.Begin()] + (body + [kind.End()]) + rest;
    assert cmds[1..] == body + [kind.End()] + rest;
    PassOf(kind, StartOf(kind), body, rest, r);
    assert KindOf(kind.Begin()) == kind;
  }

  /** A legal segment in front adds its record. */
  lemma LegalInFront(s: Segment, rest: seq<Command>, r: Resources)
    requires LegalSegment(s, r) && ValidateCommands(rest, r).Success?
    ensures ValidateCommands(Commands(s) + rest, r) == Success(RecordOf(s) + ValidateCommands(rest, r).value)
  {
    hide ValidateCommands, ValidCopy, PassUses;
    match s
    case CopySegment(c) =>
      CopyInFront(c, rest, r);
      assert [] + ValidateCommands(rest, r).value == ValidateCommands(rest, r).value;
    case PassSegment(kind, body) =>
      PassInFront(kind, body, rest, r);
  }

  lemma {:induction false} LegalIsAccepted(segments: seq<Segment>, r: Resources)
    requires LegalSegments(segments, r)
    ensures ValidateCommands(Flatten(segments), r) == Success(PassUsages(segments))
  {
    hide LegalSegment, Commands, RecordOf;
    if segments != [] {
      var s, others := segments[0], segments[1..];
      assert segments == [s] + others;
      ConsSegment(s, others, r);
      LegalIsAccepted(others, r);
      LegalInFront(s, Flatten(others), r);
    }
  }

  lemma FirstPass(cmds: seq<Command>, r: Resources) returns (body: seq<Command>, rest: seq<Command>)
    requires cmds != [] && (cmds[0].BeginComputePass? || cmds[0].BeginRenderPass?) && ValidateCommands(cmds, r).Success?
    ensures var s := PassSegment(KindOf(cmds[0]), body);
            && cmds == Commands(s) + rest && |rest| < |cmds| && LegalSegment(s, r)
            && ValidateCommands(rest, r).Success?
            && ValidateCommands(cmds, r).value == RecordOf(s) + ValidateCommands(rest, r).value
  {
    hide Kind.Holds, Accepts, PassUses, TrackAll, ValidUsages, ValidatePass, ValidCopy, Ready, Legal, LegalSegment;
    assert cmds == [cmds[0]] + cmds[1..];
    var kind := KindOf(cmds[0]);
    rest := ValidatePass(cmds[1..], kind, StartOf(kind), r).value.0;
    body := PassBody(cmds[1..], kind, StartOf(kind), r);
    PassIsLegal(kind, body, r);
    assert [cmds[0]] + (body + [kind.End()] + rest) == Commands(PassSegment(kind, body)) + rest;
  }

  /** An accepted stream starts with a legal segment. */
  lemma FirstSegment(cmds: seq<Command>, r: Resources) returns (s: Segment, rest: seq<Command>)
    requires cmds != [] && ValidateCommands(cmds, r).Success?
    ensures cmds == Commands(s) + rest && |rest| < |cmds| && LegalSegment(s, r)
    ensures ValidateCommands(rest, r).Success?
    ensures ValidateCommands(cmds, r).value == RecordOf(s) + ValidateCommands(rest, r).value
  {
    hide Kind.Holds, ValidatePass, ValidCopy, Ready, Legal;
    if cmds[0].BeginComputePass? || cmds[0].BeginRenderPass? {
      var body;
      body, rest := FirstPass(cmds, r);
      s := PassSegment(KindOf(cmds[0]), body);
    } else {
      assert cmds == [cmds[0]] + cmds[1..];
      s, rest := CopySegment(cmds[0]), cmds[1..];
      assert [] + ValidateCommands(rest, r).value == ValidateCommands(rest, r).value;
    }
  }

  lemma {:induction false} AcceptedIsLegal(cmds: seq<Command>, r: Resources) returns (segments: seq<Segment>)
    requires ValidateCommands(cmds, r).Success?
    ensures Flatten(segments) == cmds && LegalSegments(segments, r)
    ensures ValidateCommands(cmds, r).value == PassUsages(segments)
    decreases |cmds|
  {
    hide LegalSegment, Commands, RecordOf, ValidatePass, Kind.Holds;
    if cmds == [] {
      segments := [];
    } else {
      var s, rest := FirstSegment(cmds, r);
      var others := AcceptedIsLegal(rest, r);
      segments := [s] + others;
      ConsSegment(s, others, r);
    }
  }

  /** A stream is accepted with some usages exactly when it is a sequence of valid copies and of
      closed passes that are legal, and the usages are those of its passes in order. */
  lemma AcceptedExactly(cmds: seq<Command>, usages: seq<Tracker>, r: Resources)
    ensures ValidateCommands(cmds, r) == Success(usages) <==>
            exists segments: seq<Segment> :: Flatten(segments) == cmds && LegalSegments(segments, r) && PassUsages(segments) == usages
  {
    if ValidateCommands(cmds, r) == Success(usages) {
      var segments := AcceptedIsLegal(cmds, r);
    }
    forall segments: seq<Segment> | Flatten(segments) == cmds && LegalSegments(segments, r) && PassUsages(segments) == usages
      ensures ValidateCommands(cmds, r) == Success(usages)
    {
      LegalIsAccepted(segments, r);
    }
  }
}
