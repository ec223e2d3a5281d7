/** The map state machine of a native buffer, src/dawn_native/Buffer.cpp.

    `State` and the functions on it are the specification; the class `BufferBase` is the
    state machine in the form the source gives it. `U` is whatever the caller passes as
    callback userdata. */
module NativeBuffer {
  import opened Wrappers

  /** Range of the 32-bit map serial and of the sizes passed to the map functions. */
  const U32_RANGE: nat := 0x1_0000_0000

  datatype MapStatus = Success | Error | Unknown | ContextLost

  /** One call of an application-provided map callback. */
  datatype Callback<U> = Callback(isWrite: bool, status: MapStatus, userdata: U)

  datatype State<U> = State(
    size: nat,
    canMapRead: bool,
    canMapWrite: bool,
    readRequest: Option<U>,
    writeRequest: Option<U>,
    mapSerial: nat,
    isMapped: bool)

  /** What one call leaves behind: the new state, the callbacks fired by it, and whether a
      validation error was handed to the device. */
  datatype Outcome<U> = Outcome(state: State<U>, fired: seq<Callback<U>>, deviceError: bool)

  function NewBuffer<U>(size: nat, canMapRead: bool, canMapWrite: bool): State<U> {
    State(size, canMapRead, canMapWrite, None, None, 0, false)
  }

  /** At most one callback is set, and only while the buffer counts as mapped. */
  predicate Valid<U>(b: State<U>) {
    && !(b.readRequest.Some? && b.writeRequest.Some?)
    && (b.readRequest.Some? || b.writeRequest.Some? ==> b.isMapped)
  }

  function Pending<U>(b: State<U>): seq<U> {
    ToSeq(b.readRequest) + ToSeq(b.writeRequest)
  }

  predicate CanMap<U>(b: State<U>, isWrite: bool, start: nat, size: nat) {
    && (start + size) % U32_RANGE <= b.size
    && !b.isMapped
    && (if isWrite then b.canMapWrite else b.canMapRead)
  }

  /** `CallMapReadCallback` and `CallMapWriteCallback`: a backend reports that the map
      command tagged `serial` ended with `status`. */
  function Complete<U>(b: State<U>, isWrite: bool, serial: nat, status: MapStatus): Outcome<U> {
    if isWrite then
      if b.writeRequest.Some? && serial == b.mapSerial
      then Outcome(b.(writeRequest := None), [Callback(true, status, b.writeRequest.value)], false)
      else Outcome(b, [], false)
    else
      if b.readRequest.Some? && serial == b.mapSerial
      then Outcome(b.(readRequest := None), [Callback(false, status, b.readRequest.value)], false)
      else Outcome(b, [], false)
  }

  function MapAsync<U>(b: State<U>, isWrite: bool, start: nat, size: nat, userdata: U): Outcome<U> {
    if !CanMap(b, isWrite, start, size) then
      Outcome(b, [Callback(isWrite, Error, userdata)], true)
    else
      var b' := b.(mapSerial := (b.mapSerial + 1) % U32_RANGE, isMapped := true);
      Outcome(if isWrite then b'.(writeRequest := Some(userdata)) else b'.(readRequest := Some(userdata)),
              [], false)
  }

  /** Fires what is pending with the status Unknown: shared by `Unmap` and the destructor. */
  function Abandon<U>(b: State<U>): seq<Callback<U>> {
    (if b.readRequest.Some? then [Callback(false, Unknown, b.readRequest.value)] else []) +
    (if b.writeRequest.Some? then [Callback(true, Unknown, b.writeRequest.value)] else [])
  }

  function Unmapped<U>(b: State<U>): Outcome<U> {
    if !b.isMapped then Outcome(b, [], true)
    else Outcome(b.(readRequest := None, writeRequest := None, isMapped := false), Abandon(b), false)
  }

  /** The callbacks fired by the destructor. */
  function Destroy<U>(b: State<U>): seq<Callback<U>> {
    if b.isMapped then Abandon(b) else []
  }

  // ----- Runs of one buffer -----

  datatype Op<U> =
    | MapOp(isWrite: bool, start: nat, size: nat, userdata: U)
    | CompleteOp(isWrite: bool, serial: nat, status: MapStatus)
    | UnmapOp

  function Step<U>(b: State<U>, op: Op<U>): Outcome<U> {
    match op
    case MapOp(isWrite, start, size, userdata) => MapAsync(b, isWrite, start, size, userdata)
    case CompleteOp(isWrite, serial, status) => Complete(b, isWrite, serial, status)
    case UnmapOp => Unmapped(b)
  }

  /** The state after a run. */
  function After<U>(b: State<U>, ops: seq<Op<U>>): State<U> {
    if ops == [] then b else Step(After(b, ops[..|ops| - 1]), ops[|ops| - 1]).state
  }

  /** The userdata of every callback fired during a run, in order. */
  function Fired<U>(b: State<U>, ops: seq<Op<U>>): seq<U> {
    if ops == [] then []
    else
      var before := ops[..|ops| - 1];
      Fired(b, before) + Userdata(Step(After(b, before), ops[|ops| - 1]).fired)
  }

  function Userdata<U>(callbacks: seq<Callback<U>>): seq<U> {
    seq(|callbacks|, i requires 0 <= i < |callbacks| => callbacks[i].userdata)
  }

  /** The userdata of every map request made in a run, in order. */
  function Requested<U>(ops: seq<Op<U>>): seq<U> {
    if ops == [] then []
    else
      Requested(ops[..|ops| - 1]) + AsRequest(ops[|ops| - 1])
  }

  function AsRequest<U>(op: Op<U>): seq<U> {
    if op.MapOp? then [op.userdata] else []
  }

  /** The userdata of the map requests that passed validation in a run, in order. */
  function Accepted<U>(b: State<U>, ops: seq<Op<U>>): seq<U> {
    if ops == [] then []
    else
      var before, last := ops[..|ops| - 1], ops[|ops| - 1];
      Accepted(b, before) +
      (if last.MapOp? && CanMap(After(b, before), last.isWrite, last.start, last.size)
       then [last.userdata] else [])
  }

  /** Every run from a valid state stays valid, so the two assertions that the other callback
      is null can never fire. */
  lemma {:induction false} RunsStayValid<U>(b: State<U>, ops: seq<Op<U>>)
    requires Valid(b)
    ensures Valid(After(b, ops))
  {
    if ops != [] {
      RunsStayValid(b, ops[..|ops| - 1]);
    }
  }

  /** One step neither loses nor repeats a callback: pending before plus requested is fired plus
      pending after. */
  lemma StepConserves<U>(b: State<U>, op: Op<U>)
    requires Valid(b)
    ensures var out := Step(b, op);
            || Userdata(out.fired) + Pending(out.state) == Pending(b) + AsRequest(op)
            || Pending(out.state) + Userdata(out.fired) == Pending(b) + AsRequest(op)
  {
    var out := Step(b, op);
    assert |out.fired| <= 1 && |Pending(b)| <= 1;
    if out.fired != [] {
      assert Userdata(out.fired) == [out.fired[0].userdata];
    }
  }

  lemma Regroup<U>(fired: seq<U>, now: seq<U>, pending: seq<U>, requested: seq<U>,
                   pending0: seq<U>, fired': seq<U>, pending': seq<U>)
    requires multiset(fired) + multiset(pending) == multiset(pending0) + multiset(requested)
    requires fired' + pending' == pending + now || pending' + fired' == pending + now
    ensures multiset(fired + fired') + multiset(pending') == multiset(pending0) + multiset(requested + now)
  {
    assert multiset(fired' + pending') == multiset(fired') + multiset(pending');
    assert multiset(pending' + fired') == multiset(fired') + multiset(pending');
    assert multiset(pending + now) == multiset(pending) + multiset(now);
    calc {
      multiset(fired + fired') + multiset(pending');
      multiset(fired) + (multiset(fired') + multiset(pending'));
      multiset(fired) + (multiset(pending) + multiset(now));
      (multiset(fired) + multiset(pending)) + multiset(now);
      (multiset(pending0) + multiset(requested)) + multiset(now);
      multiset(pending0) + multiset(requested + now);
    }
  }

  /** Exactly one callback per request: whatever the backend reports and in whatever order,
      the callbacks fired so far are the requests made so far except the one still pending. */
  lemma {:induction false} CallbacksConserved<U>(b: State<U>, ops: seq<Op<U>>)
    requires Valid(b)
    ensures multiset(Fired(b, ops)) + multiset(Pending(After(b, ops)))
         == multiset(Pending(b)) + multiset(Requested(ops))
  {
    if ops != [] {
      var before, last := ops[..|ops| - 1], ops[|ops| - 1];
      CallbacksConserved(b, before);
      RunsStayValid(b, before);
      var mid := After(b, before);
      StepConserves(mid, last);
      Regroup(Fired(b, before), AsRequest(last), Pending(mid), Requested(before), Pending(b),
              Userdata(Step(mid, last).fired), Pending(Step(mid, last).state));
    }
  }

  /** Destroying a buffer after any run settles the account: the callbacks of the run and of
      the destructor together are exactly the requests. */
  lemma DestroyedBufferAnsweredAll<U>(size: nat, canMapRead: bool, canMapWrite: bool, ops: seq<Op<U>>)
    ensures var b := NewBuffer(size, canMapRead, canMapWrite);
            multiset(Fired(b, ops) + Userdata(Destroy(After(b, ops)))) == multiset(Requested(ops))
  {
    hide Fired, Requested, After, Pending, Userdata, Destroy;
    var b := NewBuffer(size, canMapRead, canMapWrite);
    CallbacksConserved(b, ops);
    RunsStayValid(b, ops);
    DestroyAnswersPending(After(b, ops));
    NothingPending<U>(size, canMapRead, canMapWrite);
  }

  lemma DestroyAnswersPending<U>(b: State<U>)
    requires Valid(b)
    ensures Userdata(Destroy(b)) == Pending(b)
  {
  }

  lemma NothingPending<U>(size: nat, canMapRead: bool, canMapWrite: bool)
    ensures Pending(NewBuffer<U>(size, canMapRead, canMapWrite)) == []
  {
  }

  // ----- Which requests become pending -----

  /** The request is in the range of a buffer of the size, 32 bits of its end counted, and of a kind the
      buffer was created for. */
  predicate Suits<U>(size: nat, canMapRead: bool, canMapWrite: bool, op: Op<U>)
    requires op.MapOp?
  {
    (op.start + op.size) % 0x1_0000_0000 <= size && (if op.isWrite then canMapWrite else canMapRead)
  }

  /** A request that suits the buffer was made, and no unmap since. */
  predicate Held<U>(size: nat, canMapRead: bool, canMapWrite: bool, ops: seq<Op<U>>) {
    exists i | 0 <= i < |ops| ::
      ops[i].MapOp? && Suits(size, canMapRead, canMapWrite, ops[i]) && forall j | i < j < |ops| :: !ops[j].UnmapOp?
  }

  lemma HeldOneMore<U>(size: nat, canMapRead: bool, canMapWrite: bool, ops: seq<Op<U>>, op: Op<U>)
    ensures Held(size, canMapRead, canMapWrite, ops + [op]) <==>
            || (op.MapOp? && Suits(size, canMapRead, canMapWrite, op))
            || (!op.UnmapOp? && Held(size, canMapRead, canMapWrite, ops))
  {
    var all := ops + [op];
    if op.MapOp? && Suits(size, canMapRead, canMapWrite, op) {
      assert all[|ops|] == op;
    }
    if !op.UnmapOp? && Held(size, canMapRead, canMapWrite, ops) {
      var i :| 0 <= i < |ops| && ops[i].MapOp? && Suits(size, canMapRead, canMapWrite, ops[i])
               && forall j | i < j < |ops| :: !ops[j].UnmapOp?;
      assert all[i] == ops[i];
    }
    if Held(size, canMapRead, canMapWrite, all) {
      var i :| 0 <= i < |all| && all[i].MapOp? && Suits(size, canMapRead, canMapWrite, all[i])
               && forall j | i < j < |all| :: !all[j].UnmapOp?;
      if i < |ops| {
        assert !all[|ops|].UnmapOp?;
        assert forall j | i < j < |ops| :: ops[j] == all[j];
        assert ops[i] == all[i];
      }
    }
  }

  /** The buffer keeps what it was created with, and counts as mapped exactly while a suitable request is
      held. */
  lemma {:induction false} MappedExactly<U>(size: nat, canMapRead: bool, canMapWrite: bool, ops: seq<Op<U>>)
    ensures var b := After(NewBuffer<U>(size, canMapRead, canMapWrite), ops);
            && b.size == size && b.canMapRead == canMapRead && b.canMapWrite == canMapWrite && Valid(b)
            && (b.isMapped <==> Held(size, canMapRead, canMapWrite, ops))
  {
    if ops != [] {
      var before, op := ops[..|ops| - 1], ops[|ops| - 1];
      assert before + [op] == ops;
      MappedExactly<U>(size, canMapRead, canMapWrite, before);
      HeldOneMore(size, canMapRead, canMapWrite, before, op);
    }
  }

  /** After every run, a request becomes pending if and only if it suits the buffer and none is held since
      the last unmap; otherwise the state stays, one callback fires with an error, and the device gets an
      error. */
  lemma MapIsPendingExactly<U>(size: nat, canMapRead: bool, canMapWrite: bool, ops: seq<Op<U>>, op: Op<U>)
    requires op.MapOp?
    ensures var b := After(NewBuffer<U>(size, canMapRead, canMapWrite), ops);
            var out := Step(b, op);
            if Suits(size, canMapRead, canMapWrite, op) && !Held(size, canMapRead, canMapWrite, ops) then
              && out.fired == [] && !out.deviceError && out.state.isMapped
              && out.state.readRequest == (if op.isWrite then None else Some(op.userdata))
              && out.state.writeRequest == (if op.isWrite then Some(op.userdata) else None)
            else
              out.state == b && out.deviceError && out.fired == [Callback(op.isWrite, Error, op.userdata)]
  {
    MappedExactly<U>(size, canMapRead, canMapWrite, ops);
  }

  /** An unmap is an error if and only if no request is held; otherwise what is pending is answered with
      the status Unknown and nothing is pending any more. */
  lemma UnmapExactly<U>(size: nat, canMapRead: bool, canMapWrite: bool, ops: seq<Op<U>>)
    ensures var b := After(NewBuffer<U>(size, canMapRead, canMapWrite), ops);
            var out := Step(b, UnmapOp);
            && (out.deviceError <==> !Held(size, canMapRead, canMapWrite, ops))
            && out.fired == (if b.readRequest.Some? then [Callback(false, Unknown, b.readRequest.value)]
                             else if b.writeRequest.Some? then [Callback(true, Unknown, b.writeRequest.value)] else [])
            && Pending(out.state) == [] && !out.state.isMapped
  {
    MappedExactly<U>(size, canMapRead, canMapWrite, ops);
  }

  /** After every run, a 32-bit range that becomes pending lies in the buffer if and only if its end does not
      wrap around. */
  lemma PendingRangeExactly<U>(size: nat, canMapRead: bool, canMapWrite: bool, ops: seq<Op<U>>, op: Op<U>)
    requires op.MapOp? && op.start < U32_RANGE && op.size < U32_RANGE && size < U32_RANGE
    ensures var b := After(NewBuffer<U>(size, canMapRead, canMapWrite), ops);
            !Step(b, op).deviceError ==> (op.start + op.size <= size <==> op.start + op.size < U32_RANGE)
  {
    MapIsPendingExactly(size, canMapRead, canMapWrite, ops, op);
  }

  /** An empty buffer accepts a range of one byte. */
  lemma WrappedRangeIsAccepted()
    ensures var op := MapOp(false, 0xFFFF_FFFF, 1, 0);
            !Step(After(NewBuffer(0, true, false), []), op).deviceError
  {
    MapIsPendingExactly(0, true, false, [], MapOp(false, 0xFFFF_FFFF, 1, 0));
  }

  // ----- Stale completions -----

  /** The state fits the requests accepted so far. */
  ghost predicate Counts<U>(b: State<U>, accepted: seq<U>) {
    && Valid(b)
    && b.mapSerial == |accepted| % U32_RANGE
    && (b.isMapped ==> accepted != [])
    && (b.readRequest.Some? ==> accepted != [] && b.readRequest.value == accepted[|accepted| - 1])
    && (b.writeRequest.Some? ==> accepted != [] && b.writeRequest.value == accepted[|accepted| - 1])
  }

  lemma StepCounts<U>(b: State<U>, accepted: seq<U>, op: Op<U>)
    requires Counts(b, accepted)
    ensures Counts(Step(b, op).state,
                   accepted + (if op.MapOp? && CanMap(b, op.isWrite, op.start, op.size) then [op.userdata] else []))
  {
    assert accepted + [] == accepted;
  }

  /** The serial counts accepted requests modulo 2^32 and a pending callback belongs to the
      last accepted request. */
  lemma {:induction false} SerialCountsAccepted<U>(size: nat, canMapRead: bool, canMapWrite: bool, ops: seq<Op<U>>)
    ensures var b := NewBuffer(size, canMapRead, canMapWrite); Counts(After(b, ops), Accepted(b, ops))
  {
    hide Step, CanMap;
    if ops != [] {
      var b := NewBuffer(size, canMapRead, canMapWrite);
      var before, last := ops[..|ops| - 1], ops[|ops| - 1];
      SerialCountsAccepted<U>(size, canMapRead, canMapWrite, before);
      StepCounts(After(b, before), Accepted(b, before), last);
    }
  }

  /** The tag the backend was given with the `k`-th accepted request, counting from 0. */
  function TagOf(k: nat): nat { (k + 1) % U32_RANGE }

  /** A completion that carries the tag of request `k` fires exactly when a callback of its
      kind is pending and the number of requests accepted since is a multiple of 2^32; what
      it fires is then the last accepted request. */
  lemma CompletionFires<U>(size: nat, canMapRead: bool, canMapWrite: bool, ops: seq<Op<U>>,
                           k: nat, isWrite: bool, status: MapStatus)
    requires k < |Accepted(NewBuffer(size, canMapRead, canMapWrite), ops)|
    ensures var b := NewBuffer(size, canMapRead, canMapWrite);
            var last, acc := After(b, ops), Accepted(b, ops);
            var fired := Complete(last, isWrite, TagOf(k), status).fired;
            && (fired != [] <==>
                  && (if isWrite then last.writeRequest.Some? else last.readRequest.Some?)
                  && (|acc| - (k + 1)) % U32_RANGE == 0)
            && (fired != [] ==> fired == [Callback(isWrite, status, acc[|acc| - 1])])
  {
    SerialCountsAccepted<U>(size, canMapRead, canMapWrite, ops);
    var n := |Accepted(NewBuffer(size, canMapRead, canMapWrite), ops)|;
    SameResidue(n, k + 1);
  }

  lemma SameResidue(n: nat, m: nat)
    requires m <= n
    ensures (n - m) % U32_RANGE == 0 <==> n % U32_RANGE == m % U32_RANGE
  {
  }

  /** With fewer than 2^32 requests accepted after it, a completion fires its own request or
      nothing. */
  lemma StaleCompletionIsIgnored<U>(size: nat, canMapRead: bool, canMapWrite: bool, ops: seq<Op<U>>,
                                    k: nat, isWrite: bool, status: MapStatus)
    requires k < |Accepted(NewBuffer(size, canMapRead, canMapWrite), ops)| <= k + U32_RANGE
    ensures var b := NewBuffer(size, canMapRead, canMapWrite);
            var fired := Complete(After(b, ops), isWrite, TagOf(k), status).fired;
            fired == [] || fired == [Callback(isWrite, status, Accepted(b, ops)[k])]
  {
    CompletionFires<U>(size, canMapRead, canMapWrite, ops, k, isWrite, status);
  }

  /** `n` times map for reading and unmap, with the round number as userdata. */
  function Cycles(n: nat): seq<Op<nat>> {
    if n == 0 then [] else Cycles(n - 1) + [MapOp(false, 0, 0, n - 1), UnmapOp]
  }

  lemma {:induction false} CyclesAccepted(n: nat)
    ensures var b := NewBuffer<nat>(0, true, false);
            && !After(b, Cycles(n)).isMapped
            && After(b, Cycles(n)).size == 0 && After(b, Cycles(n)).canMapRead
            && |Accepted(b, Cycles(n))| == n
            && forall i :: 0 <= i < n ==> Accepted(b, Cycles(n))[i] == i
  {
    if n > 0 {
      CyclesAccepted(n - 1);
      var b := NewBuffer<nat>(0, true, false);
      var one := Cycles(n - 1) + [MapOp(false, 0, 0, n - 1)];
      assert one[..|one| - 1] == Cycles(n - 1);
      assert Cycles(n)[..|Cycles(n)| - 1] == one;
      assert After(b, one).isMapped;
    }
  }

  /** The bound is exact: after 2^32 further requests the completion of the first request
      fires the callback of the last one. */
  lemma StaleCompletionFiresAfterWrap()
    ensures var b := NewBuffer<nat>(0, true, false);
            var ops := Cycles(U32_RANGE) + [MapOp(false, 0, 0, U32_RANGE)];
            && |Accepted(b, ops)| == U32_RANGE + 1 && Accepted(b, ops)[0] == 0
            && Complete(After(b, ops), false, TagOf(0), Success).fired == [Callback(false, Success, U32_RANGE)]
  {
    var b := NewBuffer<nat>(0, true, false);
    var ops := Cycles(U32_RANGE) + [MapOp(false, 0, 0, U32_RANGE)];
    CyclesAccepted(U32_RANGE);
    assert ops[..|ops| - 1] == Cycles(U32_RANGE);
    assert Accepted(b, ops) == Accepted(b, Cycles(U32_RANGE)) + [U32_RANGE];
    CompletionFires<nat>(0, true, false, ops, 0, false, Success);
  }

  // ----- The state machine as the source writes it -----

  class BufferBase<U> {
    const mSize: nat
    const mCanMapRead: bool
    const mCanMapWrite: bool
    var mReadRequest: Option<U>
    var mWriteRequest: Option<U>
    var mMapSerial: nat
    var mIsMapped: bool
    /** Every callback fired so far, oldest first. */
    var mFired: seq<Callback<U>>

    ghost function Model(): State<U>
      reads this
    {
      State(mSize, mCanMapRead, mCanMapWrite, mReadRequest, mWriteRequest, mMapSerial, mIsMapped)
    }

    constructor (size: nat, canMapRead: bool, canMapWrite: bool)
      ensures Model() == NewBuffer(size, canMapRead, canMapWrite)
      ensures mFired == []
    {
      mSize, mCanMapRead, mCanMapWrite := size, canMapRead, canMapWrite;
      mReadRequest, mWriteRequest := None, None;
      mMapSerial, mIsMapped := 0, false;
      mFired := [];
    }

    method CallMapReadCallback(serial: nat, status: MapStatus)
      requires Valid(Model())
      modifies this
      ensures Model() == Complete(old(Model()), false, serial, status).state
      ensures mFired == old(mFired) + Complete(old(Model()), false, serial, status).fired
      ensures Valid(Model())
    {
      if mReadRequest.Some? && serial == mMapSerial {
        assert mWriteRequest.None?;
        var userdata := mReadRequest.value;
        mReadRequest := None;
        mFired := mFired + [Callback(false, status, userdata)];
      }
    }

    method CallMapWriteCallback(serial: nat, status: MapStatus)
      requires Valid(Model())
      modifies this
      ensures Model() == Complete(old(Model()), true, serial, status).state
      ensures mFired == old(mFired) + Complete(old(Model()), true, serial, status).fired
      ensures Valid(Model())
    {
      if mWriteRequest.Some? && serial == mMapSerial {
        assert mReadRequest.None?;
        var userdata := mWriteRequest.value;
        mWriteRequest := None;
        mFired := mFired + [Callback(true, status, userdata)];
      }
    }

    method MapReadAsync(start: nat, size: nat, userdata: U) returns (error: bool)
      requires Valid(Model())
      modifies this
      ensures Model() == MapAsync(old(Model()), false, start, size, userdata).state
      ensures mFired == old(mFired) + MapAsync(old(Model()), false, start, size, userdata).fired
      ensures error == MapAsync(old(Model()), false, start, size, userdata).deviceError
      ensures Valid(Model())
    {
      if (start + size) % U32_RANGE > mSize || mIsMapped || !mCanMapRead {
        mFired := mFired + [Callback(false, Error, userdata)];
        return true;
      }
      assert mWriteRequest.None?;
      mMapSerial := (mMapSerial + 1) % U32_RANGE;
      mReadRequest := Some(userdata);
      mIsMapped := true;
      return false;
    }

    method MapWriteAsync(start: nat, size: nat, userdata: U) returns (error: bool)
      requires Valid(Model())
      modifies this
      ensures Model() == MapAsync(old(Model()), true, start, size, userdata).state
      ensures mFired == old(mFired) + MapAsync(old(Model()), true, start, size, userdata).fired
      ensures error == MapAsync(old(Model()), true, start, size, userdata).deviceError
      ensures Valid(Model())
    {
      if (start + size) % U32_RANGE > mSize || mIsMapped || !mCanMapWrite {
        mFired := mFired + [Callback(true, Error, userdata)];
        return true;
      }
      assert mReadRequest.None?;
      mMapSerial := (mMapSerial + 1) % U32_RANGE;
      mWriteRequest := Some(userdata);
      mIsMapped := true;
      return false;
    }

    method Unmap() returns (error: bool)
      requires Valid(Model())
      modifies this
      ensures Model() == Unmapped(old(Model())).state
      ensures mFired == old(mFired) + Unmapped(old(Model())).fired
      ensures error == Unmapped(old(Model())).deviceError
      ensures Valid(Model())
    {
      if !mIsMapped {
        return true;
      }
      CallMapReadCallback(mMapSerial, Unknown);
      CallMapWriteCallback(mMapSerial, Unknown);
      mIsMapped := false;
      mReadRequest := None;
      mWriteRequest := None;
      return false;
    }

    /** The body of the destructor. */
    method Destruct()
      requires Valid(Model())
      modifies this
      ensures mFired == old(mFired) + Destroy(old(Model()))
      ensures Pending(Model()) == []
    {
      if mIsMapped {
        CallMapReadCallback(mMapSerial, Unknown);
        CallMapWriteCallback(mMapSerial, Unknown);
      }
    }
  }
}
