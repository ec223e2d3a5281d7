/** The schemas of all structures and commands of dawn.json, and the round trip of every command. */
module WireCommands {
  import opened Bytes
  import opened WireFormat
  import opened WireRoundTrip
  import opened WireSerialize
  import opened WireSchemas

  // ----- Structures -----

  const BIND_GROUP_BINDING: Schema := Schema([Scalar(4), Scalar(4), Scalar(4)], 0, [])

  const BIND_GROUP_LAYOUT: Schema := Schema([Scalar(4)], 0, [Pointer(Struct(BIND_GROUP_BINDING), Counted(0))])

  const BUFFER: Schema := Schema([Scalar(4), Scalar(4)], 0, [])

  const COMPUTE_PIPELINE: Schema := Schema([Object, Object], 1, [])

  const PIPELINE_LAYOUT: Schema := Schema([Scalar(4)], 0, [Pointer(Object, Counted(0))])

  const SAMPLER: Schema := Schema([Scalar(4), Scalar(4), Scalar(4), Scalar(4), Scalar(4), Scalar(4)], 0, [])

  const SHADER_MODULE: Schema := Schema([Scalar(4)], 0, [Pointer(Scalar(4), Counted(0))])

  const TEXTURE: Schema :=
    Schema([Scalar(4), Scalar(4), Scalar(4), Scalar(4), Scalar(4), Scalar(4), Scalar(4), Scalar(4)], 0, [])

  // ----- Commands by object -----

  /** The arguments of a method by the way they travel. A creation returns an object. */
  datatype Method =
    | Call(values: seq<Type>, strings: nat, pointers: seq<Pointer>)
    | Creation(values: seq<Type>, strings: nat, pointers: seq<Pointer>)

  /** A command starts with its id and its self object; a creation goes on with the id and serial of the
      result. */
  function SchemaOf(m: Method): Schema {
    match m
    case Call(values, strings, pointers) => Schema([Scalar(4), Object] + values, strings, pointers)
    case Creation(values, strings, pointers) => Schema([Scalar(4), Object, Scalar(4), Scalar(4)] + values, strings, pointers)
  }

  const BIND_GROUP_BUILDER_METHODS: seq<Method> := [
    Creation([], 0, []), // get result
    Call([Object], 0, []), // set layout
    Call([Scalar(4), Scalar(4)], 0, [Pointer(Object, Counted(3))]), // set buffer views
    Call([Scalar(4), Scalar(4)], 0, [Pointer(Object, Counted(3))]), // set samplers
    Call([Scalar(4), Scalar(4)], 0, [Pointer(Object, Counted(3))]) // set texture views
  ]

  const BLEND_STATE_BUILDER_METHODS: seq<Method> := [
    Creation([], 0, []), // get result
    Call([Scalar(1)], 0, []), // set blend enabled
    Call([Scalar(4), Scalar(4), Scalar(4)], 0, []), // set alpha blend
    Call([Scalar(4), Scalar(4), Scalar(4)], 0, []), // set color blend
    Call([Scalar(4)], 0, []) // set color write mask
  ]

  const BUFFER_METHODS: seq<Method> := [
    Creation([], 0, []), // create buffer view builder
    Call([Scalar(4), Scalar(4)], 0, [Pointer(Scalar(1), Counted(3))]), // set sub data
    Call([Scalar(4), Scalar(4), Scalar(8), Scalar(8)], 0, []), // map read async
    Call([Scalar(4), Scalar(4), Scalar(8), Scalar(8)], 0, []), // map write async
    Call([], 0, []) // unmap
  ]

  const BUFFER_BUILDER_METHODS: seq<Method> := [
    Creation([], 0, []), // get result
    Call([Scalar(4)], 0, []) // set size
  ]

  const BUFFER_VIEW_BUILDER_METHODS: seq<Method> := [
    Creation([], 0, []), // get result
    Call([Scalar(4), Scalar(4)], 0, []) // set extent
  ]

  const COMMAND_BUFFER_BUILDER_METHODS: seq<Method> := [
    Creation([], 0, []), // get result
    Call([], 0, []), // begin compute pass
    Call([Object], 0, []), // begin render pass
    Call([Scalar(4), Scalar(4), Scalar(4)], 0, []) // dispatch
  ]

  const COMMAND_BUFFER_BUILDER_COPIES: seq<Method> := [
    Call([Object, Scalar(4), Object, Scalar(4), Scalar(4)], 0, []), // copy buffer to buffer
    Call([Object, Scalar(4), Scalar(4), Object, Scalar(4), Scalar(4), Scalar(4),
          Scalar(4), Scalar(4), Scalar(4), Scalar(4), Scalar(4)], 0, []), // copy buffer to texture
    Call([Object, Scalar(4), Scalar(4), Scalar(4), Scalar(4), Scalar(4), Scalar(4),
          Scalar(4), Scalar(4), Object, Scalar(4), Scalar(4)], 0, []) // copy texture to buffer
  ]

  const COMMAND_BUFFER_BUILDER_SETTERS: seq<Method> := [
    Call([Scalar(4), Scalar(4), Scalar(4), Scalar(4)], 0, []), // draw arrays
    Call([Scalar(4), Scalar(4), Scalar(4), Scalar(4)], 0, []), // draw elements
    Call([], 0, []), // end compute pass
    Call([], 0, []), // end render pass
    Call([Scalar(4)], 0, []), // set stencil reference
    Call([Scalar(4), Scalar(4), Scalar(4), Scalar(4)], 0, []), // set blend color
    Call([Scalar(4), Object], 0, []), // set bind group
    Call([Object, Scalar(4)], 0, []), // set index buffer
    Call([Scalar(4), Scalar(4), Scalar(4)], 0, [Pointer(Scalar(4), Counted(4))]), // set push constants
    Call([Object], 0, []), // set compute pipeline
    Call([Object], 0, []), // set render pipeline
    Call([Scalar(4), Scalar(4), Scalar(4), Scalar(4)], 0, []), // set scissor rect
    Call([Scalar(4), Scalar(4)], 0, [Pointer(Object, Counted(3)), Pointer(Scalar(4), Counted(3))]) // set vertex buffers
  ]

  const DEVICE_METHODS: seq<Method> := [
    Creation([], 0, []), // create bind group builder
    Creation([], 0, [Pointer(Struct(BIND_GROUP_LAYOUT), Constant(1))]), // create bind group layout
    Creation([], 0, []), // create blend state builder
    Creation([], 0, [Pointer(Struct(BUFFER), Constant(1))]), // create buffer
    Creation([], 0, []), // create buffer builder for testing
    Creation([], 0, []), // create command buffer builder
    Creation([], 0, []), // create depth stencil state builder
    Creation([], 0, []), // create render pass descriptor builder
    Creation([], 0, []), // create input state builder
    Creation([], 0, [Pointer(Struct(COMPUTE_PIPELINE), Constant(1))]), // create compute pipeline
    Creation([], 0, []), // create render pipeline builder
    Creation([], 0, [Pointer(Struct(PIPELINE_LAYOUT), Constant(1))]), // create pipeline layout
    Creation([], 0, []), // create queue
    Creation([], 0, [Pointer(Struct(SAMPLER), Constant(1))]), // create sampler
    Creation([], 0, [Pointer(Struct(SHADER_MODULE), Constant(1))]), // create shader module
    Creation([], 0, []), // create swap chain builder
    Creation([], 0, [Pointer(Struct(TEXTURE), Constant(1))]), // create texture
    Call([], 0, []), // tick
    Call([Scalar(8), Scalar(8)], 0, []) // set error callback
  ]

  const DEPTH_STENCIL_STATE_BUILDER_METHODS: seq<Method> := [
    Creation([], 0, []), // get result
    Call([Scalar(4)], 0, []), // set depth compare function
    Call([Scalar(1)], 0, []), // set depth write enabled
    Call([Scalar(4), Scalar(4), Scalar(4), Scalar(4), Scalar(4)], 0, []), // set stencil function
    Call([Scalar(4), Scalar(4)], 0, []) // set stencil mask
  ]

  const INPUT_STATE_BUILDER_METHODS: seq<Method> := [
    Creation([], 0, []), // get result
    Call([Scalar(4), Scalar(4), Scalar(4), Scalar(4)], 0, []), // set attribute
    Call([Scalar(4), Scalar(4), Scalar(4)], 0, []) // set input
  ]

  const QUEUE_METHODS: seq<Method> := [
    Call([Scalar(4)], 0, [Pointer(Object, Counted(2))]) // submit
  ]

  const RENDER_PASS_DESCRIPTOR_BUILDER_METHODS: seq<Method> := [
    Creation([], 0, []), // get result
    Call([Scalar(4), Object, Scalar(4)], 0, []), // set color attachment
    Call([Scalar(4), Scalar(4), Scalar(4), Scalar(4), Scalar(4)], 0, []), // set color attachment clear color
    Call([Object, Scalar(4), Scalar(4)], 0, []), // set depth stencil attachment
    Call([Scalar(4), Scalar(4)], 0, []) // set depth stencil attachment clear value
  ]

  const RENDER_PIPELINE_BUILDER_METHODS: seq<Method> := [
    Creation([], 0, []), // get result
    Call([Scalar(4), Scalar(4)], 0, []), // set color attachment format
    Call([Scalar(4)], 0, []), // set depth stencil attachment format
    Call([Scalar(4), Object], 0, []), // set color attachment blend state
    Call([Object], 0, []), // set depth stencil state
    Call([Scalar(4)], 0, []), // set index format
    Call([Object], 0, []), // set input state
    Call([Object], 0, []), // set layout
    Call([Scalar(4)], 0, []), // set primitive topology
    Call([Scalar(4), Object], 1, []) // set stage
  ]

  const SWAP_CHAIN_METHODS: seq<Method> := [
    Call([Scalar(4), Scalar(4), Scalar(4), Scalar(4)], 0, []), // configure
    Creation([], 0, []), // get next texture
    Call([Object], 0, []) // present
  ]

  const SWAP_CHAIN_BUILDER_METHODS: seq<Method> := [
    Creation([], 0, []), // get result
    Call([Scalar(8)], 0, []) // set implementation
  ]

  const TEXTURE_METHODS: seq<Method> := [
    Creation([], 0, []) // create texture view builder
  ]

  const TEXTURE_VIEW_BUILDER_METHODS: seq<Method> := [
    Creation([], 0, []) // get result
  ]

  /** All methods. */
  predicate IsMethod(m: Method) {
    || m in BIND_GROUP_BUILDER_METHODS
    || m in BLEND_STATE_BUILDER_METHODS
    || m in BUFFER_METHODS
    || m in BUFFER_BUILDER_METHODS
    || m in BUFFER_VIEW_BUILDER_METHODS
    || m in COMMAND_BUFFER_BUILDER_METHODS
    || m in COMMAND_BUFFER_BUILDER_COPIES
    || m in COMMAND_BUFFER_BUILDER_SETTERS
    || m in DEVICE_METHODS
    || m in DEPTH_STENCIL_STATE_BUILDER_METHODS
    || m in INPUT_STATE_BUILDER_METHODS
    || m in QUEUE_METHODS
    || m in RENDER_PASS_DESCRIPTOR_BUILDER_METHODS
    || m in RENDER_PIPELINE_BUILDER_METHODS
    || m in SWAP_CHAIN_METHODS
    || m in SWAP_CHAIN_BUILDER_METHODS
    || m in TEXTURE_METHODS
    || m in TEXTURE_VIEW_BUILDER_METHODS
  }

  // ----- All of them make the round trip -----

  predicate Flat(ts: seq<Type>) { forall t | t in ts :: !t.Struct? }

  predicate FlatPointers(ps: seq<Pointer>) { forall p | p in ps :: !p.elem.Struct? }

  predicate IsDescriptor(s: Schema) {
    s in {BIND_GROUP_LAYOUT, BUFFER, COMPUTE_PIPELINE, PIPELINE_LAYOUT, SAMPLER, SHADER_MODULE, TEXTURE}
  }

  /** Flat arguments, or one descriptor. */
  predicate Simple(m: Method) {
    && Flat(m.values)
    && (FlatPointers(m.pointers)
        || (|m.pointers| == 1 && m.pointers[0].length == Constant(1) && m.pointers[0].elem.Struct?
            && IsDescriptor(m.pointers[0].elem.schema)))
  }

  lemma {:induction false} FlatIsPlain(ts: seq<Type>)
    requires Flat(ts)
    ensures PlainTypes(ts)
  {
    if ts != [] {
      FlatIsPlain(ts[1..]);
    }
  }

  lemma {:induction false} FlatIsShaped(ps: seq<Pointer>)
    requires FlatPointers(ps)
    ensures ShapedPointers(ps)
  {
    if ps != [] {
      FlatIsShaped(ps[1..]);
    }
  }

  lemma OneIsShaped(p: Pointer)
    requires Plain(p.elem) || ShapedPointer(p)
    ensures ShapedPointers([p])
  {
  }

  lemma DescriptorsAreShaped(s: Schema)
    requires IsDescriptor(s)
    ensures Shaped(s)
  {
    FlatIsPlain(s.values);
    if s == BIND_GROUP_LAYOUT {
      FlatIsPlain(BIND_GROUP_BINDING.values);
      OneIsShaped(s.pointers[0]);
    } else {
      FlatIsShaped(s.pointers);
    }
  }

  lemma SimpleIsShaped(m: Method)
    requires Simple(m)
    ensures Shaped(SchemaOf(m))
  {
    var s := SchemaOf(m);
    FlatIsPlain(s.values);
    if FlatPointers(m.pointers) {
      FlatIsShaped(s.pointers);
    } else {
      DescriptorsAreShaped(s.pointers[0].elem.schema);
      OneIsShaped(s.pointers[0]);
      assert s.pointers == [s.pointers[0]];
    }
  }

  lemma BindGroupBuilderMethods(m: Method)
    requires m in BIND_GROUP_BUILDER_METHODS
    ensures Simple(m)
  {
  }

  lemma BlendStateBuilderMethods(m: Method)
    requires m in BLEND_STATE_BUILDER_METHODS
    ensures Simple(m)
  {
  }

  lemma BufferMethods(m: Method)
    requires m in BUFFER_METHODS
    ensures Simple(m)
  {
  }

  lemma BufferBuilderMethods(m: Method)
    requires m in BUFFER_BUILDER_METHODS
    ensures Simple(m)
  {
  }

  lemma BufferViewBuilderMethods(m: Method)
    requires m in BUFFER_VIEW_BUILDER_METHODS
    ensures Simple(m)
  {
  }

  lemma CommandBufferBuilderMethods(m: Method)
    requires m in COMMAND_BUFFER_BUILDER_METHODS
    ensures Simple(m)
  {
  }

  lemma CommandBufferBuilderCopies(m: Method)
    requires m in COMMAND_BUFFER_BUILDER_COPIES
    ensures Simple(m)
  {
  }

  lemma CommandBufferBuilderSetters(m: Method)
    requires m in COMMAND_BUFFER_BUILDER_SETTERS
    ensures Simple(m)
  {
  }

  lemma DeviceMethods(m: Method)
    requires m in DEVICE_METHODS
    ensures Simple(m)
  {
  }

  lemma DepthStencilStateBuilderMethods(m: Method)
    requires m in DEPTH_STENCIL_STATE_BUILDER_METHODS
    ensures Simple(m)
  {
  }

  lemma InputStateBuilderMethods(m: Method)
    requires m in INPUT_STATE_BUILDER_METHODS
    ensures Simple(m)
  {
  }

  lemma QueueMethods(m: Method)
    requires m in QUEUE_METHODS
    ensures Simple(m)
  {
  }

  lemma RenderPassDescriptorBuilderMethods(m: Method)
    requires m in RENDER_PASS_DESCRIPTOR_BUILDER_METHODS
    ensures Simple(m)
  {
  }

  lemma RenderPipelineBuilderMethods(m: Method)
    requires m in RENDER_PIPELINE_BUILDER_METHODS
    ensures Simple(m)
  {
  }

  lemma SwapChainMethods(m: Method)
    requires m in SWAP_CHAIN_METHODS
    ensures Simple(m)
  {
  }

  lemma SwapChainBuilderMethods(m: Method)
    requires m in SWAP_CHAIN_BUILDER_METHODS
    ensures Simple(m)
  {
  }

  lemma TextureMethods(m: Method)
    requires m in TEXTURE_METHODS
    ensures Simple(m)
  {
  }

  lemma TextureViewBuilderMethods(m: Method)
    requires m in TEXTURE_VIEW_BUILDER_METHODS
    ensures Simple(m)
  {
  }

  lemma MethodsAreSimple(m: Method)
    requires IsMethod(m)
    ensures Simple(m)
  {
    hide Simple;
    if m in BIND_GROUP_BUILDER_METHODS {
      BindGroupBuilderMethods(m);
    } else if m in BLEND_STATE_BUILDER_METHODS {
      BlendStateBuilderMethods(m);
    } else if m in BUFFER_METHODS {
      BufferMethods(m);
    } else if m in BUFFER_BUILDER_METHODS {
      BufferBuilderMethods(m);
    } else if m in BUFFER_VIEW_BUILDER_METHODS {
      BufferViewBuilderMethods(m);
    } else if m in COMMAND_BUFFER_BUILDER_METHODS {
      CommandBufferBuilderMethods(m);
    } else if m in COMMAND_BUFFER_BUILDER_COPIES {
      CommandBufferBuilderCopies(m);
    } else if m in COMMAND_BUFFER_BUILDER_SETTERS {
      CommandBufferBuilderSetters(m);
    } else if m in DEVICE_METHODS {
      DeviceMethods(m);
    } else if m in DEPTH_STENCIL_STATE_BUILDER_METHODS {
      DepthStencilStateBuilderMethods(m);
    } else if m in INPUT_STATE_BUILDER_METHODS {
      InputStateBuilderMethods(m);
    } else if m in QUEUE_METHODS {
      QueueMethods(m);
    } else if m in RENDER_PASS_DESCRIPTOR_BUILDER_METHODS {
      RenderPassDescriptorBuilderMethods(m);
    } else if m in RENDER_PIPELINE_BUILDER_METHODS {
      RenderPipelineBuilderMethods(m);
    } else if m in SWAP_CHAIN_METHODS {
      SwapChainMethods(m);
    } else if m in SWAP_CHAIN_BUILDER_METHODS {
      SwapChainBuilderMethods(m);
    } else if m in TEXTURE_METHODS {
      TextureMethods(m);
    } else if m in TEXTURE_VIEW_BUILDER_METHODS {
      TextureViewBuilderMethods(m);
    }
  }

  /** Every command of dawn.json makes the round trip, whatever its record holds. */
  lemma CommandsMakeRoundTrip(m: Method, r: Record, resolve: Resolver)
    requires IsMethod(m) && FitsSchema(SchemaOf(m), r) && AllKnown(Nested(r), resolve)
    ensures MakesRoundTrip(SchemaOf(m), r, resolve)
  {
    hide Shaped, Simple, IsMethod;
    MethodsAreSimple(m);
    SimpleIsShaped(m);
    ShapedIsSupported(SchemaOf(m), r);
    RoundTripIsExact(SchemaOf(m), r, resolve);
  }

  // ----- The bytes of two commands -----

  function FourBytes(n: nat): seq<byte> {
    [n % 256, n / 0x100 % 256, n / 0x1_0000 % 256, n / 0x100_0000 % 256]
  }

  lemma NumberIsFourBytes(n: nat)
    ensures ToBytes(4, n) == FourBytes(n)
  {
    assert ToBytes(0, n / 0x1_0000_0000) == [];
    assert ToBytes(1, n / 0x100_0000) == [n / 0x100_0000 % 256];
    assert ToBytes(2, n / 0x1_0000) == [n / 0x1_0000 % 256, n / 0x100_0000 % 256];
    assert ToBytes(3, n / 0x100) == [n / 0x100 % 256, n / 0x1_0000 % 256, n / 0x100_0000 % 256];
  }

  /** The parts of a layout, in order. */
  lemma LayoutParts(s: Schema, r: Record)
    requires FitsTypes(s.values, r.values) && FitsStrings(s.strings, r.strings) && FitsPointers(s.pointers, r.arrays, r.values)
    requires Flat(s.values)
    ensures FitsSchema(s, r)
    ensures Layout(s, r) == ValuesTransfer(s.values, r.values) + StringLengths(s.strings, r.strings)
                            + Concat(r.strings) + PointersExtra(s.pointers, r.arrays, r.values)
  {
    hide FitsTypes, FitsStrings, FitsPointers, ValuesTransfer, StringLengths, Concat, PointersExtra, ValuesExtra;
    NoExtra(s.values, r.values);
  }

  const SET_STAGE: Schema := Schema([Scalar(4), Object, Scalar(4), Object], 1, [])

  lemma SetStageIs()
    ensures |RENDER_PIPELINE_BUILDER_METHODS| == 10 && SchemaOf(RENDER_PIPELINE_BUILDER_METHODS[9]) == SET_STAGE
  {
  }

  /** Setting a stage of a render pipeline: the command and its four arguments in place, the length of the
      entry point, and then its characters. */
  lemma SetStageBytes(cmd: nat, self: nat, stage: nat, shader: nat, entry: seq<byte>)
    requires cmd < 0x1_0000_0000 && self < 0x1_0000_0000 && stage < 0x1_0000_0000 && shader < 0x1_0000_0000
    requires |entry| < 0x1_0000_0000
    ensures var r := Record([Number(cmd), ObjectRef(self), Number(stage), ObjectRef(shader)], [entry], []);
            && FitsSchema(SET_STAGE, r)
            && Layout(SET_STAGE, r) == FourBytes(cmd) + FourBytes(self) + FourBytes(stage) + FourBytes(shader)
                                       + FourBytes(|entry|) + [0, 0, 0, 0] + entry
  {
    hide FourBytes, Pow256, ToBytes, FitsTypes, ValuesTransfer, FitsSchema, Layout;
    var values := [Number(cmd), ObjectRef(self), Number(stage), ObjectRef(shader)];
    ShortNumbers();
    assert forall i :: 0 <= i < 4 ==> FitsType(SET_STAGE.values[i], values[i]);
    FourValues(SET_STAGE.values, values);
    OneString(entry);
    LayoutParts(SET_STAGE, Record(values, [entry], []));
    assert PointersExtra([], [], values) == [];
  }

  lemma OneString(entry: seq<byte>)
    requires |entry| < 0x1_0000_0000
    ensures FitsStrings(1, [entry])
    ensures StringLengths(1, [entry]) == FourBytes(|entry|) + [0, 0, 0, 0] && Concat([entry]) == entry
  {
    hide FourBytes, Pow256, ToBytes;
    ShortNumbers();
    LengthBytes(|entry|);
    assert FitsStrings(0, [entry][1..]);
    assert StringLengths(1, [entry]) == ToBytes(8, |entry|) + StringLengths(0, [entry][1..]);
    assert Concat([entry]) == entry + Concat([entry][1..]);
  }

  /** The bytes of the first member in place. */
  lemma FirstValue(ts: seq<Type>, vs: seq<Value>)
    requires ts != [] && vs != [] && FitsType(ts[0], vs[0]) && FitsTypes(ts[1..], vs[1..])
    ensures FitsTypes(ts, vs) && ValuesTransfer(ts, vs) == Transfer(ts[0], vs[0]) + ValuesTransfer(ts[1..], vs[1..])
  {
  }

  lemma ThreeValues(ts: seq<Type>, vs: seq<Value>)
    requires |ts| == |vs| == 3 && forall i :: 0 <= i < 3 ==> FitsType(ts[i], vs[i])
    ensures FitsTypes(ts, vs)
    ensures ValuesTransfer(ts, vs) == Transfer(ts[0], vs[0]) + Transfer(ts[1], vs[1]) + Transfer(ts[2], vs[2])
  {
    assert FitsTypes([], []) && ValuesTransfer([], []) == [] && ts[3..] == [] && vs[3..] == [];
    hide FitsType, Transfer, FitsTypes, ValuesTransfer;
    assert forall i :: 1 <= i < 3 ==> ts[i..] == ts[i - 1..][1..] && vs[i..] == vs[i - 1..][1..];
    FirstValue(ts[2..], vs[2..]);
    FirstValue(ts[1..], vs[1..]);
    FirstValue(ts, vs);
  }

  lemma FourValues(ts: seq<Type>, vs: seq<Value>)
    requires |ts| == |vs| == 4 && forall i :: 0 <= i < 4 ==> FitsType(ts[i], vs[i])
    ensures FitsTypes(ts, vs)
    ensures ValuesTransfer(ts, vs) == Transfer(ts[0], vs[0]) + Transfer(ts[1], vs[1]) + Transfer(ts[2], vs[2]) + Transfer(ts[3], vs[3])
  {
    hide FitsType, Transfer, FitsTypes, ValuesTransfer;
    ThreeValues(ts[1..], vs[1..]);
    FirstValue(ts, vs);
  }

  lemma NoExtra(ts: seq<Type>, vs: seq<Value>)
    requires Flat(ts) && FitsTypes(ts, vs)
    ensures ValuesExtra(ts, vs) == []
  {
    FlatIsPlain(ts);
    PlainTypesHaveNoExtra(ts, vs);
  }

  lemma ShortNumbers()
    ensures Pow256(4) == 0x1_0000_0000 && Pow256(4) < Pow256(8)
    ensures forall n: nat :: ToBytes(4, n) == FourBytes(n)
  {
    hide FourBytes, ToBytes;
    forall n: nat ensures ToBytes(4, n) == FourBytes(n) { NumberIsFourBytes(n); }
    assert Pow256(1) == 256 && Pow256(2) == 0x1_0000 && Pow256(3) == 0x100_0000 && Pow256(4) == 0x1_0000_0000;
    assert Pow256(5) == 0x100_0000_0000 && Pow256(6) > Pow256(5) && Pow256(7) > Pow256(6);
  }

  lemma LengthBytes(n: nat)
    requires n < 0x1_0000_0000
    ensures ToBytes(8, n) == FourBytes(n) + [0, 0, 0, 0]
  {
    var m := n / 256 / 256 / 256 / 256;
    assert m == 0;
    NumberIsFourBytes(0);
    assert ToBytes(8, n) == [n % 256] + ToBytes(7, n / 256);
    assert ToBytes(7, n / 256) == [n / 256 % 256] + ToBytes(6, n / 256 / 256);
    assert ToBytes(6, n / 256 / 256) == [n / 256 / 256 % 256] + ToBytes(5, n / 256 / 256 / 256);
    assert ToBytes(5, n / 256 / 256 / 256) == [n / 256 / 256 / 256 % 256] + ToBytes(4, m);
  }

  /** The ids of a list of objects, one after the other. */
  function IdBytes(ids: seq<nat>): seq<byte> {
    if ids == [] then [] else FourBytes(ids[0]) + IdBytes(ids[1..])
  }

  const SUBMIT: Schema := Schema([Scalar(4), Object, Scalar(4)], 0, [Pointer(Object, Counted(2))])

  lemma SubmitIs()
    ensures |QUEUE_METHODS| == 1 && SchemaOf(QUEUE_METHODS[0]) == SUBMIT
  {
  }

  /** Submitting command buffers: their number in place, and then their ids in order. */
  lemma SubmitBytes(cmd: nat, self: nat, ids: seq<nat>, elements: seq<Value>)
    requires cmd < 0x1_0000_0000 && self < 0x1_0000_0000 && |ids| < 0x1_0000_0000
    requires |elements| == |ids| && forall i :: 0 <= i < |ids| ==> elements[i] == ObjectRef(ids[i]) && ids[i] < 0x1_0000_0000
    ensures var r := Record([Number(cmd), ObjectRef(self), Number(|ids|)], [], [Array(elements)]);
            && FitsSchema(SUBMIT, r)
            && Layout(SUBMIT, r) == FourBytes(cmd) + FourBytes(self) + FourBytes(|ids|) + IdBytes(ids)
  {
    hide FourBytes, Pow256, ToBytes, FitsTypes, FitsElements, FitsPointers, ValuesTransfer, ElementsTransfer, PointersExtra, FitsSchema, Layout, IdBytes;
    var values := [Number(cmd), ObjectRef(self), Number(|ids|)];
    ShortNumbers();
    assert forall i :: 0 <= i < 3 ==> FitsType(SUBMIT.values[i], values[i]);
    ThreeValues(SUBMIT.values, values);
    ObjectBytes(ids, elements);
    LastPointer(SUBMIT.pointers[0], Array(elements), values);
    LayoutParts(SUBMIT, Record(values, [], [Array(elements)]));
    assert StringLengths(0, []) == [] && Concat([]) == [];
  }

  lemma {:induction false} ObjectBytes(ids: seq<nat>, elements: seq<Value>)
    requires |elements| == |ids| && forall i :: 0 <= i < |ids| ==> elements[i] == ObjectRef(ids[i]) && ids[i] < 0x1_0000_0000
    ensures FitsElements(Object, elements)
    ensures ElementsTransfer(Object, elements) == IdBytes(ids) && ElementsExtra(Object, elements) == []
    decreases |ids|
  {
    hide FourBytes, Pow256, ToBytes;
    ShortNumbers();
    if ids != [] {
      ObjectBytes(ids[1..], elements[1..]);
    }
  }
}
