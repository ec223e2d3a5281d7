/** The check of draw and dispatch state, src/dawn_native/CommandBufferStateTracker.cpp: two of its
    four aspects are cached lazily. A bind group is known by its layout. */
module StateTracker {
  import opened Wrappers

  const MAX_BIND_GROUPS: nat := 4
  const MAX_VERTEX_INPUTS: nat := 16

  datatype Aspect = PipelineAspect | BindGroupsAspect | VertexBuffersAspect | IndexBufferAspect

  const LAZY: set<Aspect> := {BindGroupsAspect, VertexBuffersAspect}

  /** For each index the bind group layout there, or none. */
  type Layouts = s: seq<Option<nat>> | |s| == MAX_BIND_GROUPS witness [None, None, None, None]

  const NO_GROUPS: Layouts := [None, None, None, None]

  datatype Pipeline = Pipeline(layout: Layouts, inputs: set<nat>, attachmentState: nat)

  datatype Operation = Dispatch | DrawArrays | DrawElements

  function Required(op: Operation): set<Aspect> {
    match op
    case Dispatch => {PipelineAspect, BindGroupsAspect}
    case DrawArrays => {PipelineAspect, BindGroupsAspect, VertexBuffersAspect}
    case DrawElements => {PipelineAspect, BindGroupsAspect, VertexBuffersAspect, IndexBufferAspect}
  }

  /** A null pointer is followed when a required bind group was never set, or when vertex inputs are
      asked for without a render pipeline. */
  datatype Verdict = Allowed | Missing(aspect: Aspect) | NullPointer

  datatype Tracker = Tracker(
    aspects: set<Aspect>, groups: Layouts, inputsSet: set<nat>, layout: Option<Layouts>, renderInputs: Option<set<nat>>)

  const FRESH: Tracker := Tracker({}, NO_GROUPS, {}, None, None)

  // ----- Bind groups against a layout -----

  datatype Comparison = Matches | Differs | NullGroup

  /** Groups are compared in order until one differs. */
  function Compare(layout: Layouts, groups: Layouts, i: nat): Comparison
    requires i <= MAX_BIND_GROUPS
    decreases MAX_BIND_GROUPS - i
  {
    if i == MAX_BIND_GROUPS then Matches
    else if layout[i].None? then Compare(layout, groups, i + 1)
    else if groups[i].None? then NullGroup
    else if layout[i] != groups[i] then Differs
    else Compare(layout, groups, i + 1)
  }

  /** Every group the layout asks for is set, with that layout. */
  predicate GroupsMatch(layout: Layouts, groups: Layouts) {
    forall i :: 0 <= i < MAX_BIND_GROUPS && layout[i].Some? ==> groups[i] == layout[i]
  }

  lemma {:induction false} CompareMatches(layout: Layouts, groups: Layouts, i: nat)
    requires i <= MAX_BIND_GROUPS
    ensures Compare(layout, groups, i) == Matches <==>
            forall j :: i <= j < MAX_BIND_GROUPS && layout[j].Some? ==> groups[j] == layout[j]
    decreases MAX_BIND_GROUPS - i
  {
    if i < MAX_BIND_GROUPS {
      CompareMatches(layout, groups, i + 1);
    }
  }

  // ----- The tracker -----

  function WithLayout(t: Tracker, layout: Layouts): Tracker {
    t.(layout := Some(layout), aspects := t.aspects + {PipelineAspect} - LAZY)
  }

  function WithComputePipeline(t: Tracker, pipeline: Pipeline): Tracker {
    WithLayout(t, pipeline.layout)
  }

  function WithRenderPipeline(t: Tracker, pipeline: Pipeline): Tracker {
    WithLayout(t.(renderInputs := Some(pipeline.inputs)), pipeline.layout)
  }

  function WithBindGroup(t: Tracker, index: nat, group: nat): Tracker
    requires index < MAX_BIND_GROUPS
  {
    t.(groups := t.groups[index := Some(group)])
  }

  function WithIndexBuffer(t: Tracker): Tracker {
    t.(aspects := t.aspects + {IndexBufferAspect})
  }

  function Slots(start: nat, count: nat): set<nat> {
    if count == 0 then {} else Slots(start, count - 1) + {start + count - 1}
  }

  function WithVertexBuffers(t: Tracker, start: nat, count: nat): Tracker {
    t.(inputsSet := t.inputsSet + Slots(start, count))
  }

  /** The first missing aspect in the order errors are reported. */
  function AspectError(missing: set<Aspect>): Aspect {
    if IndexBufferAspect in missing then IndexBufferAspect
    else if VertexBuffersAspect in missing then VertexBuffersAspect
    else if BindGroupsAspect in missing then BindGroupsAspect
    else PipelineAspect
  }

  /** The lazy aspects that now hold among the missing ones, unless a null pointer is followed. */
  function NewlyFound(t: Tracker, missing: set<Aspect>): Option<set<Aspect>>
    requires t.layout.Some?
  {
    var comparison := if BindGroupsAspect in missing then Compare(t.layout.value, t.groups, 0) else Differs;
    if comparison == NullGroup || (VertexBuffersAspect in missing && t.renderInputs.None?) then None
    else
      Some((if comparison == Matches then {BindGroupsAspect} else {})
           + (if VertexBuffersAspect in missing && t.renderInputs.value <= t.inputsSet then {VertexBuffersAspect} else {}))
  }

  function Validated(t: Tracker, op: Operation): (Verdict, Tracker) {
    var missing := Required(op) - t.aspects;
    if missing == {} then (Allowed, t)
    else if missing - LAZY != {} || t.layout.None? then (Missing(AspectError(missing)), t)
    else
      match NewlyFound(t, missing)
      case None => (NullPointer, t)
      case Some(found) =>
        var t' := t.(aspects := t.aspects + found);
        var missing' := Required(op) - t'.aspects;
        (if missing' == {} then Allowed else Missing(AspectError(missing')), t')
  }

  // ----- Runs -----

  datatype Event =
    | ComputePipeline(pipeline: Pipeline)
    | RenderPipeline(pipeline: Pipeline)
    | BindGroup(index: nat, group: nat)
    | IndexBuffer
    | VertexBuffer(start: nat, count: nat)
    | Check(op: Operation)

  predicate InRange(event: Event) {
    event.BindGroup? ==> event.index < MAX_BIND_GROUPS
  }

  function After(t: Tracker, event: Event): Tracker
    requires InRange(event)
  {
    match event
    case ComputePipeline(p) => WithComputePipeline(t, p)
    case RenderPipeline(p) => WithRenderPipeline(t, p)
    case BindGroup(i, g) => WithBindGroup(t, i, g)
    case IndexBuffer => WithIndexBuffer(t)
    case VertexBuffer(start, count) => WithVertexBuffers(t, start, count)
    case Check(op) => Validated(t, op).1
  }

  function Run(t: Tracker, events: seq<Event>): Tracker
    requires forall e | e in events :: InRange(e)
    decreases |events|
  {
    if events == [] then t else Run(After(t, events[0]), events[1..])
  }

  // ----- What was set -----

  /** What has been set so far, vertex buffers by their first slot and their number, and the bind groups
      as they were when a check last found that they match the current pipeline. */
  datatype Facts = Facts(
    layout: Option<Layouts>, renderInputs: Option<set<nat>>, groups: Layouts, vertexBuffers: set<(nat, nat)>, indexSet: bool,
    matched: Option<Layouts>)

  const NOTHING_SET: Facts := Facts(None, None, NO_GROUPS, {}, false, None)

  /** Some vertex buffers have been set in a range with the input. */
  predicate InputSet(f: Facts, input: nat) {
    exists x | x in f.vertexBuffers :: x.0 <= input < x.0 + x.1
  }

  /** The check done from scratch, except for bind groups. */
  predicate OtherwiseReady(f: Facts, op: Operation) {
    && f.layout.Some?
    && (op == DrawElements ==> f.indexSet)
    && (op != Dispatch ==> f.renderInputs.Some? && forall input | input in f.renderInputs.value :: InputSet(f, input))
  }

  /** The check done from scratch. */
  predicate Ready(f: Facts, op: Operation) {
    OtherwiseReady(f, op) && GroupsMatch(f.layout.value, f.groups)
  }

  /** Everything is in place, or was when the bind groups were last compared with this pipeline. */
  predicate InPlace(f: Facts, op: Operation) {
    OtherwiseReady(f, op) && (f.matched.Some? || GroupsMatch(f.layout.value, f.groups))
  }

  /** A check gets as far as comparing bind groups. */
  predicate Compares(f: Facts, op: Operation) {
    f.layout.Some? && (op == DrawElements ==> f.indexSet) && (op != Dispatch ==> f.renderInputs.Some?)
  }

  function Record(f: Facts, event: Event): Facts
    requires InRange(event)
  {
    match event
    case ComputePipeline(p) => f.(layout := Some(p.layout), matched := None)
    case RenderPipeline(p) => f.(layout := Some(p.layout), renderInputs := Some(p.inputs), matched := None)
    case BindGroup(i, g) => f.(groups := f.groups[i := Some(g)])
    case IndexBuffer => f.(indexSet := true)
    case VertexBuffer(start, count) => f.(vertexBuffers := f.vertexBuffers + {(start, count)})
    case Check(op) =>
      if f.matched.None? && Compares(f, op) && GroupsMatch(f.layout.value, f.groups) then f.(matched := Some(f.groups))
      else f
  }

  function History(f: Facts, events: seq<Event>): Facts
    requires forall e | e in events :: InRange(e)
    decreases |events|
  {
    if events == [] then f else History(Record(f, events[0]), events[1..])
  }

  /** The cached aspects say what the facts say. */
  ghost predicate Caches(t: Tracker, f: Facts) {
    && t.layout == f.layout && t.renderInputs == f.renderInputs && t.groups == f.groups
    && (f.renderInputs.Some? ==> f.layout.Some?)
    && (forall input: nat :: input in t.inputsSet <==> InputSet(f, input))
    && (PipelineAspect in t.aspects <==> f.layout.Some?)
    && (IndexBufferAspect in t.aspects <==> f.indexSet)
    && (VertexBuffersAspect in t.aspects ==> f.renderInputs.Some? && f.renderInputs.value <= t.inputsSet)
    && (BindGroupsAspect in t.aspects <==> f.matched.Some?)
    && (f.matched.Some? ==> f.layout.Some? && GroupsMatch(f.layout.value, f.matched.value))
  }

  lemma {:induction false} SlotsAre(start: nat, count: nat)
    ensures forall input: nat :: input in Slots(start, count) <==> start <= input < start + count
  {
    if count > 0 {
      SlotsAre(start, count - 1);
    }
  }

  lemma OnlyLazyMissing(missing: set<Aspect>)
    ensures missing - LAZY == {} <==> PipelineAspect !in missing && IndexBufferAspect !in missing
  {
    assert PipelineAspect in missing ==> PipelineAspect in missing - LAZY;
    assert IndexBufferAspect in missing ==> IndexBufferAspect in missing - LAZY;
    assert forall a :: a in LAZY || a == PipelineAspect || a == IndexBufferAspect;
  }

  lemma CheckKeepsCaches(t: Tracker, f: Facts, op: Operation)
    requires Caches(t, f)
    ensures Caches(Validated(t, op).1, Record(f, Check(op)))
  {
    if f.layout.Some? {
      CompareMatches(f.layout.value, f.groups, 0);
    }
    OnlyLazyMissing(Required(op) - t.aspects);
  }

  lemma EventKeepsCaches(t: Tracker, f: Facts, event: Event)
    requires Caches(t, f) && InRange(event)
    ensures Caches(After(t, event), Record(f, event))
  {
    if event.Check? {
      CheckKeepsCaches(t, f, event.op);
    } else if event.VertexBuffer? {
      SlotsAre(event.start, event.count);
    }
  }

  lemma {:induction false} RunKeepsCaches(t: Tracker, f: Facts, events: seq<Event>)
    requires Caches(t, f) && (forall e | e in events :: InRange(e))
    ensures Caches(Run(t, events), History(f, events))
    decreases |events|
  {
    if events != [] {
      EventKeepsCaches(t, f, events[0]);
      RunKeepsCaches(After(t, events[0]), Record(f, events[0]), events[1..]);
    }
  }

  /** An input counts as set exactly when some vertex buffers have been set in a range with it. */
  lemma {:induction false} InputsSetExactly(t: Tracker, events: seq<Event>, input: nat)
    requires forall e | e in events :: InRange(e)
    ensures input in Run(t, events).inputsSet <==>
            || input in t.inputsSet
            || exists e | e in events :: e.VertexBuffer? && e.start <= input < e.start + e.count
    decreases |events|
  {
    if events != [] {
      var e := events[0];
      InputsSetExactly(After(t, e), events[1..], input);
      if e.VertexBuffer? { SlotsAre(e.start, e.count); }
      assert forall x :: x in events <==> x == e || x in events[1..];
      assert input in After(t, e).inputsSet <==> input in t.inputsSet || (e.VertexBuffer? && e.start <= input < e.start + e.count);
    }
  }

  // ----- What an accepted check means -----

  /** The state after a run from a fresh tracker, and what was set in it. */
  lemma ReachedCaches(events: seq<Event>)
    requires forall e | e in events :: InRange(e)
    ensures Caches(Run(FRESH, events), History(NOTHING_SET, events))
  {
    RunKeepsCaches(FRESH, NOTHING_SET, events);
  }

  lemma CachedVerdict(t: Tracker, f: Facts, op: Operation)
    requires Caches(t, f)
    ensures Validated(t, op).0 == Allowed <==> InPlace(f, op)
  {
    if f.layout.Some? {
      CompareMatches(f.layout.value, f.groups, 0);
    }
    OnlyLazyMissing(Required(op) - t.aspects);
    NoneMissing(op, t.aspects);
    NoneMissing(op, Validated(t, op).1.aspects);
  }

  lemma NoneMissing(op: Operation, aspects: set<Aspect>)
    ensures Required(op) - aspects == {} <==>
            && PipelineAspect in aspects && BindGroupsAspect in aspects
            && (op != Dispatch ==> VertexBuffersAspect in aspects) && (op == DrawElements ==> IndexBufferAspect in aspects)
  {
    var missing := Required(op) - aspects;
    assert forall a :: a in missing <==> a in Required(op) && a !in aspects;
    if missing != {} {
      var a :| a in missing;
    }
  }

  /** In every run, a check is accepted exactly when everything but the bind groups is in place now,
      and the bind groups match now or matched when an earlier check compared them with the current
      pipeline. */
  lemma AcceptedExactly(events: seq<Event>, op: Operation)
    requires forall e | e in events :: InRange(e)
    ensures Validated(Run(FRESH, events), op).0 == Allowed <==> InPlace(History(NOTHING_SET, events), op)
  {
    ReachedCaches(events);
    CachedVerdict(Run(FRESH, events), History(NOTHING_SET, events), op);
  }

  /** The cached check never rejects what the check from scratch accepts. */
  lemma NeverTooStrict(events: seq<Event>, op: Operation)
    requires (forall e | e in events :: InRange(e)) && Ready(History(NOTHING_SET, events), op)
    ensures Validated(Run(FRESH, events), op).0 == Allowed
  {
    AcceptedExactly(events, op);
  }

  /** When no bind group changed since the groups were last found to match, the two checks agree. */
  lemma AgreesWithoutChanges(events: seq<Event>, op: Operation)
    requires forall e | e in events :: InRange(e)
    requires var f := History(NOTHING_SET, events); f.matched.None? || f.matched.value == f.groups
    ensures Validated(Run(FRESH, events), op).0 == Allowed <==> Ready(History(NOTHING_SET, events), op)
  {
    AcceptedExactly(events, op);
    ReachedCaches(events);
  }

  /** And it accepts what the check from scratch rejects exactly when the groups matched at an
      earlier check of this pipeline and do not match any more. */
  lemma StaleExactly(events: seq<Event>, op: Operation)
    requires forall e | e in events :: InRange(e)
    ensures var f := History(NOTHING_SET, events);
            Validated(Run(FRESH, events), op).0 == Allowed && !Ready(f, op) <==>
            OtherwiseReady(f, op) && f.matched.Some? && !GroupsMatch(f.layout.value, f.groups)
  {
    AcceptedExactly(events, op);
  }

  // ----- Which error is reported -----

  /** The first group the pipeline asks for that does not have its layout was never set. */
  predicate MeetsNullGroup(layout: Layouts, groups: Layouts) {
    exists i | 0 <= i < MAX_BIND_GROUPS ::
      layout[i].Some? && groups[i].None? && forall j | 0 <= j < i :: layout[j].Some? ==> groups[j] == layout[j]
  }

  lemma {:induction false} CompareNull(layout: Layouts, groups: Layouts, i: nat)
    requires i <= MAX_BIND_GROUPS && forall j | 0 <= j < i :: layout[j].Some? ==> groups[j] == layout[j]
    ensures Compare(layout, groups, i) == NullGroup <==> MeetsNullGroup(layout, groups)
    decreases MAX_BIND_GROUPS - i
  {
    if i < MAX_BIND_GROUPS && (layout[i].Some? ==> groups[i] == layout[i]) {
      CompareNull(layout, groups, i + 1);
    }
  }

  /** The verdict from what was set alone. A missing pipeline is never reported as such. */
  function Verdicts(f: Facts, op: Operation): Verdict {
    if op == DrawElements && !f.indexSet then Missing(IndexBufferAspect)
    else if f.layout.None? then Missing(if op == Dispatch then BindGroupsAspect else VertexBuffersAspect)
    else if f.matched.None? && MeetsNullGroup(f.layout.value, f.groups) then NullPointer
    else if op != Dispatch && f.renderInputs.None? then NullPointer
    else if op != Dispatch && exists input | input in f.renderInputs.value :: !InputSet(f, input) then Missing(VertexBuffersAspect)
    else if f.matched.None? && !GroupsMatch(f.layout.value, f.groups) then Missing(BindGroupsAspect)
    else Allowed
  }

  lemma CachedVerdictIs(t: Tracker, f: Facts, op: Operation)
    requires Caches(t, f)
    ensures Validated(t, op).0 == Verdicts(f, op)
  {
    hide InputSet;
    CachedVerdict(t, f, op);
    OnlyLazyMissing(Required(op) - t.aspects);
    if f.layout.Some? {
      CompareMatches(f.layout.value, f.groups, 0);
      CompareNull(f.layout.value, f.groups, 0);
    }
  }

  /** In every run, a check gives exactly this verdict: the error it reports, and when it follows a null
      pointer. */
  lemma VerdictExactly(events: seq<Event>, op: Operation)
    requires forall e | e in events :: InRange(e)
    ensures Validated(Run(FRESH, events), op).0 == Verdicts(History(NOTHING_SET, events), op)
    ensures Validated(Run(FRESH, events), op).0 != Missing(PipelineAspect)
  {
    ReachedCaches(events);
    CachedVerdictIs(Run(FRESH, events), History(NOTHING_SET, events), op);
  }

  const ONE_GROUP: Pipeline := Pipeline([Some(1), None, None, None], {}, 0)

  /** A run in which a bind group of another layout goes unnoticed. */
  const STALE: seq<Event> := [ComputePipeline(ONE_GROUP), BindGroup(0, 1), Check(Dispatch), BindGroup(0, 2)]

  lemma StaleRun()
    ensures forall e | e in STALE :: InRange(e)
    ensures Validated(Run(FRESH, STALE), Dispatch).0 == Allowed
    ensures !Ready(History(NOTHING_SET, STALE), Dispatch)
  {
    var f1 := Record(NOTHING_SET, STALE[0]);
    var f2 := Record(f1, STALE[1]);
    var f3 := Record(f2, STALE[2]);
    var f4 := Record(f3, STALE[3]);
    assert f3.matched.Some? && f4.groups[0] == Some(2);
    HistoryOfFour(NOTHING_SET, STALE);
    AcceptedExactly(STALE, Dispatch);
  }

  lemma HistoryOfFour(f: Facts, events: seq<Event>)
    requires |events| == 4 && forall e | e in events :: InRange(e)
    ensures History(f, events) == Record(Record(Record(Record(f, events[0]), events[1]), events[2]), events[3])
  {
    var f1 := Record(f, events[0]);
    var f2 := Record(f1, events[1]);
    var f3 := Record(f2, events[2]);
    assert events[1..][1..] == events[2..] && events[2..][1..] == events[3..] && events[3..][1..] == [];
    assert History(f, events) == History(f1, events[1..]);
    assert History(f1, events[1..]) == History(f2, events[2..]);
    assert History(f2, events[2..]) == History(f3, events[3..]);
    var f4 := Record(f3, events[3]);
    assert History(f3, events[3..]) == History(f4, []) == f4;
  }

  // ----- The tracker as an object -----

  class CommandBufferStateTracker {
    var aspects: set<Aspect>
    var bindgroups: Layouts
    var inputsSet: set<nat>
    var lastPipelineLayout: Option<Layouts>
    var lastRenderPipeline: Option<set<nat>>

    function Value(): Tracker
      reads this
    {
      Tracker(aspects, bindgroups, inputsSet, lastPipelineLayout, lastRenderPipeline)
    }

    constructor ()
      ensures Value() == FRESH
    {
      aspects := {};
      bindgroups := NO_GROUPS;
      inputsSet := {};
      lastPipelineLayout := None;
      lastRenderPipeline := None;
    }

    /** Whether no null group was followed. */
    method RecomputeBindGroups() returns (ok: bool)
      requires lastPipelineLayout.Some?
      modifies this`aspects
      ensures match Compare(lastPipelineLayout.value, bindgroups, 0)
              case NullGroup => !ok
              case Matches => ok && aspects == old(aspects) + {BindGroupsAspect}
              case Differs => ok && aspects == old(aspects)
    {
      var layout := lastPipelineLayout.value;
      var matches, i := true, 0;
      while i < MAX_BIND_GROUPS
        invariant i <= MAX_BIND_GROUPS && matches && aspects == old(aspects)
        invariant Compare(layout, bindgroups, i) == Compare(layout, bindgroups, 0)
      {
        if layout[i].Some? {
          if bindgroups[i].None? {
            return false;
          }
          if layout[i] != bindgroups[i] {
            matches := false;
            break;
          }
        }
        i := i + 1;
      }
      if matches {
        aspects := aspects + {BindGroupsAspect};
      }
      ok := true;
    }

    method ValidateOperation(op: Operation) returns (verdict: Verdict)
      modifies this`aspects
      ensures verdict == Validated(old(Value()), op).0
      ensures verdict != NullPointer ==> Value() == Validated(old(Value()), op).1
    {
      var missing := Required(op) - aspects;
      if missing == {} {
        return Allowed;
      }
      if missing - LAZY != {} || lastPipelineLayout.None? {
        return Missing(AspectError(missing));
      }
      if BindGroupsAspect in missing {
        var ok := RecomputeBindGroups();
        if !ok {
          return NullPointer;
        }
      }
      if VertexBuffersAspect in missing {
        if lastRenderPipeline.None? {
          return NullPointer;
        }
        if lastRenderPipeline.value <= inputsSet {
          aspects := aspects + {VertexBuffersAspect};
        }
      }
      missing := Required(op) - aspects;
      verdict := if missing != {} then Missing(AspectError(missing)) else Allowed;
      ghost var found := NewlyFound(old(Value()), Required(op) - old(aspects)).value;
      assert aspects == old(aspects) + found;
    }

    method SetComputePipeline(pipeline: Pipeline)
      modifies this
      ensures Value() == WithComputePipeline(old(Value()), pipeline)
    {
      SetPipelineCommon(pipeline.layout);
    }

    method SetRenderPipeline(pipeline: Pipeline)
      modifies this
      ensures Value() == WithRenderPipeline(old(Value()), pipeline)
    {
      lastRenderPipeline := Some(pipeline.inputs);
      SetPipelineCommon(pipeline.layout);
    }

    method SetPipelineCommon(layout: Layouts)
      modifies this`aspects, this`lastPipelineLayout
      ensures Value() == WithLayout(old(Value()), layout)
    {
      lastPipelineLayout := Some(layout);
      aspects := aspects + {PipelineAspect};
      aspects := aspects - LAZY;
    }

    method SetBindGroup(index: nat, group: nat)
      requires index < MAX_BIND_GROUPS
      modifies this`bindgroups
      ensures Value() == WithBindGroup(old(Value()), index, group)
    {
      bindgroups := bindgroups[index := Some(group)];
    }

    method SetIndexBuffer()
      modifies this`aspects
      ensures Value() == WithIndexBuffer(old(Value()))
    {
      aspects := aspects + {IndexBufferAspect};
    }

    method SetVertexBuffer(start: nat, count: nat)
      requires start + count <= MAX_VERTEX_INPUTS
      modifies this`inputsSet
      ensures Value() == WithVertexBuffers(old(Value()), start, count)
    {
      var i := 0;
      while i < count
        invariant i <= count && inputsSet == old(inputsSet) + Slots(start, i)
      {
        inputsSet := inputsSet + {start + i};
        i := i + 1;
      }
    }
  }
}
