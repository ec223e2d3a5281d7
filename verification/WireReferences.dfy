/** How long a client object lives: what references and releases of a run add up to. */
module WireReferences {
  import opened Wrappers
  import NB = NativeBuffer
  import opened WireModel
  import opened WireSystem

  // ----- Counting the actions of a run -----

  /** The step sends one more command, the creation of the id. */
  predicate Creates(s: System, s': System, id: nat) {
    |s'.commands| == |s.commands| + 1 && s'.commands[|s.commands|].CreateBuffer? && s'.commands[|s.commands|].id == id
  }

  /** The sum for an id after one more action: one for its creation, one more for each reference, one less
      for each release. */
  function Count(s: System, a: Action, id: nat, n: int): int
    requires Enabled(s, a)
  {
    if a.Create? then (if Creates(s, Step(s, a), id) then 1 else n)
    else if a == Reference(id) then n + 1
    else if a == Release(id) then n - 1
    else n
  }

  /** The sum after a run. */
  function Balance(s: System, actions: seq<Action>, id: nat, n: int): int
    requires Run(s, actions).Some?
    decreases |actions|
  {
    if actions == [] then n else Balance(Step(s, actions[0]), actions[1..], id, Count(s, actions[0], id, n))
  }

  /** The sum stays in 32 bits all along. */
  predicate Bounded(s: System, actions: seq<Action>, id: nat, n: int)
    requires Run(s, actions).Some?
    decreases |actions|
  {
    n < 0x1_0000_0000 && (actions != [] ==> Bounded(Step(s, actions[0]), actions[1..], id, Count(s, actions[0], id, n)))
  }

  /** The id names an object. */
  predicate Live(s: System, id: nat) { ClientSlotOf(s.client, id).buffer.Some? }

  // ----- The reference count is the sum -----

  predicate Counts(s: System, id: nat, n: int) {
    if Live(s, id) then n >= 1 && ClientSlotOf(s.client, id).buffer.value.refcount == n % 0x1_0000_0000
    else n >= 0 && n % 0x1_0000_0000 == 0
  }

  lemma NextCount(n: int)
    requires n >= 0
    ensures (n + 1) % 0x1_0000_0000 == (n % 0x1_0000_0000 + 1) % 0x1_0000_0000
    ensures n > 0 ==> (n - 1) % 0x1_0000_0000 == (n % 0x1_0000_0000 + 0xFFFF_FFFF) % 0x1_0000_0000
  {
  }

  lemma CallKeepsCounts(s: System, a: Action, id: nat, n: int)
    requires AllocatorValid(s.client) && Admissible(s, a) && IsClientCall(a) && Counts(s, id, n) && id > 0
    ensures Counts(Step(s, a), id, Count(s, a, id, n))
  {
    hide AllocatorValid, Step;
    CallChanges(s, a);
    CallCreates(s, a, id);
    if n >= 0 { NextCount(n); }
  }

  lemma CallCreates(s: System, a: Action, id: nat)
    requires AllocatorValid(s.client) && Admissible(s, a) && IsClientCall(a)
    ensures a.Create? ==> (Creates(s, Step(s, a), id) <==> id == Target(s, a))
    ensures a.Create? ==> ClientSlotOf(s.client, Target(s, a)).buffer.None?
    ensures a == Reference(id) || a == Release(id) ==> Live(s, id)
  {
  }

  lemma OtherKeepsCounts(s: System, a: Action, id: nat, n: int)
    requires AllocatorValid(s.client) && Admissible(s, a) && !IsClientCall(a) && Counts(s, id, n) && id > 0
    ensures Counts(Step(s, a), id, Count(s, a, id, n))
  {
    hide AllocatorValid;
    if a.ClientHandle? {
      ReplyChanges(s, a.zeroIsNull);
    }
  }

  lemma {:induction false} RunKeepsCounts(s: System, actions: seq<Action>, id: nat, n: int)
    requires Inv(s) && Run(s, actions).Some? && Counts(s, id, n) && id > 0
    ensures Counts(Run(s, actions).value, id, Balance(s, actions, id, n))
    decreases |actions|
  {
    hide Inv, Step, Enabled, Counts, Count;
    if actions != [] {
      var a := actions[0];
      InvHas(s);
      if IsClientCall(a) { CallKeepsCounts(s, a, id, n); } else { OtherKeepsCounts(s, a, id, n); }
      StepKeepsInv(s, a);
      RunKeepsCounts(Step(s, a), actions[1..], id, Count(s, a, id, n));
    }
  }

  lemma InvHas(s: System)
    requires Inv(s)
    ensures AllocatorValid(s.client)
  {
  }

  lemma {:induction false} BoundedAtEnd(s: System, actions: seq<Action>, id: nat, n: int)
    requires Run(s, actions).Some? && Bounded(s, actions, id, n)
    ensures Balance(s, actions, id, n) < 0x1_0000_0000
    decreases |actions|
  {
    if actions != [] {
      BoundedAtEnd(Step(s, actions[0]), actions[1..], id, Count(s, actions[0], id, n));
    }
  }

  // ----- When an object dies -----

  /** The commands a step adds. */
  predicate Sends(s: System, a: Action, sent: seq<Command>)
    requires Enabled(s, a)
  {
    Step(s, a).commands == s.commands + sent
  }

  lemma DestroyOnlyByRelease(s: System, a: Action, id: nat)
    requires Admissible(s, a) && AllocatorValid(s.client)
    ensures Sends(s, a, [DestroyBuffer(id)]) <==>
              a == Release(id) && ClientSlotOf(s.client, id).buffer.value.refcount == 1
    ensures a == Release(id) && !Sends(s, a, [DestroyBuffer(id)]) ==> Sends(s, a, []) && Live(Step(s, a), id)
    ensures a == Release(id) && Sends(s, a, [DestroyBuffer(id)]) ==>
              var c := ClientSlotOf(Step(s, a).client, id); c.buffer.None? && c.answered == ClientSlotOf(s.client, id).answered + multiset(Outstanding(ClientSlotOf(s.client, id)))
  {
    hide AllocatorValid;
    var s' := Step(s, a);
    if a.Release? || a.Create? || a.Map? {
      assert s'.commands != s.commands ==> |s'.commands| == |s.commands| + 1;
      assert (s.commands + [DestroyBuffer(id)])[|s.commands|] == DestroyBuffer(id);
    } else {
      assert |s.commands + [DestroyBuffer(id)]| == |s.commands| + 1;
      if a.Unmap? { assert s'.commands[|s'.commands| - 1].BufferUnmap?; }
    }
  }

  /** After every run, with any number of references: a step destroys the object of an id if and only if it
      is the release that brings the sum to a multiple of 2^32. */
  lemma DestroyedExactly(actions: seq<Action>, a: Action, id: nat)
    requires Run(START, actions).Some? && Admissible(Run(START, actions).value, a) && id > 0
    ensures var s := Run(START, actions).value;
            Sends(s, a, [DestroyBuffer(id)]) <==> a == Release(id) && Balance(START, actions, id, 0) % 0x1_0000_0000 == 1
  {
    hide Inv, AllocatorValid, Sends, Balance, Run;
    var s := Run(START, actions).value;
    StartIsFine();
    RunKeepsInv(START, actions);
    RunKeepsCounts(START, actions, id, 0);
    InvHas(s);
    DestroyOnlyByRelease(s, a, id);
    if a == Release(id) { ReleaseNeedsObject(s, a, id); }
  }

  lemma ReleaseNeedsObject(s: System, a: Action, id: nat)
    requires Admissible(s, a) && a == Release(id)
    ensures Live(s, id)
  {
  }

  /** In every run in which the sum of an id stays in 32 bits: its object lives exactly while the sum is
      positive, the sum is never negative, and exactly the release that brings it to zero sends the
      destruction; any other release sends nothing and leaves the object alive. */
  lemma LivesWhilePositive(actions: seq<Action>, id: nat)
    requires Run(START, actions).Some? && id > 0 && Bounded(START, actions, id, 0)
    ensures var s, n := Run(START, actions).value, Balance(START, actions, id, 0);
            && 0 <= n && (Live(s, id) <==> n > 0)
            && forall a | Admissible(s, a) ::
                 && (Sends(s, a, [DestroyBuffer(id)]) <==> a == Release(id) && n == 1)
                 && (a == Release(id) && n > 1 ==> Sends(s, a, []))
  {
    hide Inv, AllocatorValid, Sends, Balance, Bounded, Run, Enabled;
    var s, n := Run(START, actions).value, Balance(START, actions, id, 0);
    StartIsFine();
    RunKeepsInv(START, actions);
    RunKeepsCounts(START, actions, id, 0);
    BoundedAtEnd(START, actions, id, 0);
    InvHas(s);
    forall a | Admissible(s, a)
      ensures (Sends(s, a, [DestroyBuffer(id)]) <==> a == Release(id) && n == 1) && (a == Release(id) && n > 1 ==> Sends(s, a, []))
    {
      DestroyOnlyByRelease(s, a, id);
      if a == Release(id) { ReleaseNeedsObject(s, a, id); }
    }
  }

  // ----- Too many references -----

  lemma {:induction false} RunJoin(s: System, a: seq<Action>, b: seq<Action>)
    requires Run(s, a).Some?
    ensures Run(s, a + b) == Run(Run(s, a).value, b)
    decreases |a|
  {
    hide Enabled, Step;
    if a == [] {
      assert a + b == b;
    } else {
      assert (a + b)[0] == a[0] && (a + b)[1..] == a[1..] + b;
      RunJoin(Step(s, a[0]), a[1..], b);
    }
  }

  lemma {:induction false} BalanceJoin(s: System, a: seq<Action>, b: seq<Action>, id: nat, n: int)
    requires Run(s, a).Some? && Run(s, a + b).Some?
    ensures Run(Run(s, a).value, b).Some?
    ensures Balance(s, a + b, id, n) == Balance(Run(s, a).value, b, id, Balance(s, a, id, n))
    decreases |a|
  {
    hide Enabled, Step, Count;
    RunJoin(s, a, b);
    if a == [] {
      assert a + b == b;
    } else {
      assert (a + b)[0] == a[0] && (a + b)[1..] == a[1..] + b;
      BalanceJoin(Step(s, a[0]), a[1..], b, id, Count(s, a[0], id, n));
    }
  }

  /** One creation and then references. */
  function CreateAndReference(n: nat): seq<Action> {
    if n == 0 then [Create] else CreateAndReference(n - 1) + [Reference(1)]
  }

  lemma {:induction false} ReferencesAddUp(n: nat)
    ensures Run(START, CreateAndReference(n)).Some?
    ensures IsObject(Run(START, CreateAndReference(n)).value.client, 1) && Run(START, CreateAndReference(n)).value.ok
    ensures Balance(START, CreateAndReference(n), 1, 0) == n + 1
  {
    if n == 0 {
      assert [Create][1..] == [];
      assert Step(START, Create).commands == [] + [CreateBuffer(1, 0)];
    } else {
      var before, one := CreateAndReference(n - 1), [Reference(1)];
      ReferencesAddUp(n - 1);
      RunJoin(START, before, one);
      var s := Run(START, before).value;
      assert one[1..] == [] && Run(s, one) == Some(Step(s, Reference(1)));
      BalanceJoin(START, before, one, 1, 0);
    }
  }

  /** The bound is exact: after 2^32 references besides its creation, one release destroys the object. */
  lemma ReleaseAfterWrapDestroys()
    ensures Run(START, CreateAndReference(0x1_0000_0000)).Some?
    ensures var s := Run(START, CreateAndReference(0x1_0000_0000)).value;
            && Balance(START, CreateAndReference(0x1_0000_0000), 1, 0) == 0x1_0000_0001
            && Admissible(s, Release(1)) && Sends(s, Release(1), [DestroyBuffer(1)])
  {
    hide Balance, Run, CreateAndReference, Sends;
    var actions := CreateAndReference(0x1_0000_0000);
    ReferencesAddUp(0x1_0000_0000);
    DestroyedExactly(actions, Release(1), 1);
  }
}
