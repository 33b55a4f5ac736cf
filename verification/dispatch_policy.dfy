/** Dispatch state as a history of generations (dispatch_table.hpp, dyn.hpp) and what every
    run of table operations keeps. The last generation of a history is the live one. */
module DispatchPolicy {
  import opened Wrappers
  import opened Types
  import opened Calls

  datatype OperationDescriptor = OperationDescriptor(member: MemberId, signature: Signature, operation: OperationKind) {
    function Key(): OperationKey {
      OperationKey(member, operation)
    }
  }

  type InterfaceSchema = seq<OperationDescriptor>

  type Targets = map<OperationKey, CallTarget>

  // --------------------------------------------------------------------
  // Schemas.
  // --------------------------------------------------------------------

  function SchemaKeys(schema: InterfaceSchema): set<OperationKey> {
    set i | 0 <= i < |schema| :: schema[i].Key()
  }

  predicate DistinctKeys(schema: InterfaceSchema) {
    forall i, j :: 0 <= i < j < |schema| ==> schema[i].Key() != schema[j].Key()
  }

  /** The schemas a table can be made of. */
  predicate SchemaAccepted(schema: InterfaceSchema) {
    && (forall i :: 0 <= i < |schema| ==> SupportedSignature(schema[i].signature) && !schema[i].signature.isNoexcept)
    && DistinctKeys(schema)
  }

  /** `target` may stand in the slot `operation` describes. */
  predicate Fits(operation: OperationDescriptor, target: CallTarget) {
    && target.Target?
    && CompatibleSignature(operation.signature, target.signature)
    && target.options.operation == operation.operation
  }

  predicate Accepts(schema: InterfaceSchema, key: OperationKey, target: CallTarget) {
    exists i :: 0 <= i < |schema| && schema[i].Key() == key && Fits(schema[i], target)
  }

  /** Why a target is refused under a key. */
  function Refusal(schema: InterfaceSchema, key: OperationKey): DiagnosticCode {
    if key in SchemaKeys(schema) then TypeMismatch else NotFound
  }

  /** `key` is the first in the map's order whose target is refused. */
  predicate FirstRefused(schema: InterfaceSchema, targets: Targets, key: OperationKey) {
    && key in targets && !Accepts(schema, key, targets[key])
    && forall k :: k in targets && KeyBelow(k, key) ==> Accepts(schema, k, targets[k])
  }

  predicate AllAccepted(schema: InterfaceSchema, targets: Targets) {
    forall key :: key in targets ==> Accepts(schema, key, targets[key])
  }

  lemma {:induction false} DistinctKeysCount(schema: InterfaceSchema)
    requires DistinctKeys(schema)
    ensures |SchemaKeys(schema)| == |schema|
  {
    if schema != [] {
      var init, last := schema[..|schema| - 1], schema[|schema| - 1];
      DistinctKeysCount(init);
      assert SchemaKeys(schema) == SchemaKeys(init) + {last.Key()} by {
        forall key | key in SchemaKeys(schema)
          ensures key in SchemaKeys(init) + {last.Key()}
        {
          var i :| 0 <= i < |schema| && schema[i].Key() == key;
          assert i < |init| ==> init[i].Key() == key;
        }
        forall key | key in SchemaKeys(init)
          ensures key in SchemaKeys(schema)
        {
          var i :| 0 <= i < |init| && init[i].Key() == key;
          assert schema[i].Key() == key;
        }
      }
      assert last.Key() !in SchemaKeys(init);
    }
  }

  lemma SameSizeSubset<T>(a: set<T>, b: set<T>)
    requires a <= b && |a| == |b|
    ensures a == b
  {
    assert |b - a| == |b| - |a|;
  }

  // --------------------------------------------------------------------
  // Generations, and the steps that publish or change them.
  // --------------------------------------------------------------------

  datatype Gen = Gen(baseline: Targets, current: Targets, native: ObjectView)

  type History = h: seq<Gen> | h != [] witness [Gen(map[], map[], NULL_VIEW)]

  const EMPTY_GEN := Gen(map[], map[], NULL_VIEW)

  const INITIAL: History := [EMPTY_GEN]

  function LiveGen(h: History): Gen {
    h[|h| - 1]
  }

  function WithSlot(h: History, key: OperationKey, target: CallTarget): History {
    h[|h| - 1 := LiveGen(h).(current := LiveGen(h).current[key := target])]
  }

  datatype Step =
    | Replace(key: OperationKey, target: CallTarget)
    | Restore(key: OperationKey)
    | Reset(targets: Targets, native: ObjectView)
    | Detach

  predicate ResetAccepted(schema: InterfaceSchema, targets: Targets, native: ObjectView) {
    && (native.Valid() ==> native.anchor.Some?)
    && |targets| == |schema|
    && AllAccepted(schema, targets)
  }

  predicate IsIndependent(target: CallTarget) {
    target.Target? && target.options.nativeDependency == Independent
  }

  function IndependentOnly(targets: Targets): Targets {
    map key | key in targets && IsIndependent(targets[key]) :: targets[key]
  }

  /** The step goes through; a step that does not changes nothing. */
  predicate Succeeds(schema: InterfaceSchema, h: History, step: Step) {
    match step
    case Replace(key, target) => Accepts(schema, key, target)
    case Restore(key) => key in LiveGen(h).baseline
    case Reset(targets, native) => ResetAccepted(schema, targets, native)
    case Detach => true
  }

  /** The step makes a new generation: it detaches, or it is a reset that goes through. */
  predicate Publishes(schema: InterfaceSchema, step: Step) {
    step.Detach? || (step.Reset? && ResetAccepted(schema, step.targets, step.native))
  }

  function Apply(schema: InterfaceSchema, h: History, step: Step): History {
    if !Succeeds(schema, h, step) then h
    else
      match step
      case Replace(key, target) => WithSlot(h, key, target)
      case Restore(key) => WithSlot(h, key, LiveGen(h).baseline[key])
      case Reset(targets, native) => h + [Gen(targets, targets, native)]
      case Detach => h + [Gen(map[], IndependentOnly(LiveGen(h).current), NULL_VIEW)]
  }

  function Run(schema: InterfaceSchema, h: History, steps: seq<Step>): History {
    if steps == [] then h
    else Apply(schema, Run(schema, h, steps[..|steps| - 1]), steps[|steps| - 1])
  }

  /** `target` stands under `key` in the live generation. */
  predicate Holds(h: History, key: OperationKey, target: CallTarget) {
    key in LiveGen(h).current && LiveGen(h).current[key] == target
  }

  /** A step makes no new generation and leaves everything but the slot of `key` as it was. */
  predicate OnlySlot(h: History, h': History, key: OperationKey) {
    && |h'| == |h| && (forall i :: 0 <= i < |h| - 1 ==> h'[i] == h[i])
    && LiveGen(h').baseline == LiveGen(h).baseline && LiveGen(h').native == LiveGen(h).native
    && LiveGen(h').current.Keys == LiveGen(h).current.Keys + {key}
    && forall k :: k in LiveGen(h).current && k != key ==> Holds(h', k, LiveGen(h).current[k])
  }

  /** What each step does to the slots, the baseline and the native storage. */
  lemma StepLaws(schema: InterfaceSchema, h: History, step: Step)
    ensures
      var h' := Apply(schema, h, step);
      match step
      case Replace(key, target) =>
        if Accepts(schema, key, target) then Holds(h', key, target) && OnlySlot(h, h', key) else h' == h
      case Restore(key) =>
        if key in LiveGen(h).baseline then Holds(h', key, LiveGen(h).baseline[key]) && OnlySlot(h, h', key) else h' == h
      case Reset(targets, native) =>
        if ResetAccepted(schema, targets, native) then
          && |h'| == |h| + 1 && h'[..|h|] == h
          && LiveGen(h').current.Keys == targets.Keys && LiveGen(h').baseline.Keys == targets.Keys
          && (forall key :: key in targets ==> Holds(h', key, targets[key]) && LiveGen(h').baseline[key] == targets[key])
          && LiveGen(h').native == native
        else h' == h
      case Detach =>
        && |h'| == |h| + 1 && h'[..|h|] == h
        && (forall key :: key in LiveGen(h').current <==>
              key in LiveGen(h).current && LiveGen(h).current[key].Target?
              && LiveGen(h).current[key].options.nativeDependency == Independent)
        && (forall key :: key in LiveGen(h').current ==> Holds(h', key, LiveGen(h).current[key]))
        && LiveGen(h').baseline.Keys == {} && !LiveGen(h').native.Valid()
  {
    var h' := Apply(schema, h, step);
    if step.Reset? && ResetAccepted(schema, step.targets, step.native) {
      assert LiveGen(h') == Gen(step.targets, step.targets, step.native);
    } else if step.Detach? {
      assert LiveGen(h') == Gen(map[], IndependentOnly(LiveGen(h).current), NULL_VIEW);
    }
  }

  /** The step writes the slot of `key`. */
  predicate Writes(step: Step, key: OperationKey) {
    (step.Replace? && step.key == key) || (step.Restore? && step.key == key)
  }

  /** A slot keeps its target through every run that neither writes it nor publishes. */
  lemma {:induction false} UntouchedSlotsStay(
    schema: InterfaceSchema, h: History, steps: seq<Step>, key: OperationKey, target: CallTarget)
    requires Holds(h, key, target)
    requires forall i :: 0 <= i < |steps| ==> !Writes(steps[i], key) && !Publishes(schema, steps[i])
    ensures Holds(Run(schema, h, steps), key, target)
  {
    if steps != [] {
      UntouchedSlotsStay(schema, h, steps[..|steps| - 1], key, target);
      StepLaws(schema, Run(schema, h, steps[..|steps| - 1]), steps[|steps| - 1]);
    }
  }

  /** A reset installs its targets, and a replacement its target: each resolves until its slot is written
      again or another generation is published. */
  lemma InstalledTargetsResolve(
    schema: InterfaceSchema, h: History, step: Step, steps: seq<Step>, key: OperationKey, target: CallTarget)
    requires Succeeds(schema, h, step)
    requires step == Replace(key, target) || (step.Reset? && key in step.targets && step.targets[key] == target)
    requires forall i :: 0 <= i < |steps| ==> !Writes(steps[i], key) && !Publishes(schema, steps[i])
    ensures ResolveSlot(LiveGen(Run(schema, Apply(schema, h, step), steps)), key) == Some(target)
  {
    StepLaws(schema, h, step);
    UntouchedSlotsStay(schema, Apply(schema, h, step), steps, key, target);
  }

  /** What a slot of a schema takes: a target for the operation declared, with its signature or that
      signature made const or noexcept. */
  lemma AcceptsIff(schema: InterfaceSchema, key: OperationKey, target: CallTarget)
    ensures Accepts(schema, key, target)
            <==> && target.Target? && target.options.operation == key.operation
                 && exists i :: && 0 <= i < |schema| && schema[i].member == key.member && schema[i].operation == key.operation
                                && exists c, n :: target.signature == Strengthened(schema[i].signature, c, n)
  {
    if Accepts(schema, key, target) {
      var i :| 0 <= i < |schema| && schema[i].Key() == key && Fits(schema[i], target);
      CompatibleIffStrengthened(schema[i].signature, target.signature);
    }
    if i :| && 0 <= i < |schema| && target.Target? && target.options.operation == key.operation
            && schema[i].member == key.member && schema[i].operation == key.operation
            && exists c, n :: target.signature == Strengthened(schema[i].signature, c, n)
    {
      CompatibleIffStrengthened(schema[i].signature, target.signature);
      assert schema[i].Key() == key && Fits(schema[i], target);
    }
  }

  // --------------------------------------------------------------------
  // Isolation.
  // --------------------------------------------------------------------

  /** No run changes a generation that is no longer live. */
  lemma {:induction false} RetiredGenerationsAreFrozen(schema: InterfaceSchema, h: History, steps: seq<Step>, i: nat)
    requires i < |h| - 1
    ensures |Run(schema, h, steps)| >= |h| && Run(schema, h, steps)[i] == h[i]
  {
    if steps != [] {
      RetiredGenerationsAreFrozen(schema, h, steps[..|steps| - 1], i);
    }
  }

  lemma StepKeepsBaselines(schema: InterfaceSchema, h: History, step: Step, i: nat)
    requires i < |h|
    ensures var h' := Apply(schema, h, step);
            |h'| >= |h| && h'[i].baseline == h[i].baseline && h'[i].native == h[i].native
  {
  }

  /** A generation keeps its baseline and its native storage even while it is live. */
  lemma {:induction false} BaselinesAreFrozen(schema: InterfaceSchema, h: History, steps: seq<Step>, i: nat)
    requires i < |h|
    ensures |Run(schema, h, steps)| >= |h|
    ensures Run(schema, h, steps)[i].baseline == h[i].baseline && Run(schema, h, steps)[i].native == h[i].native
  {
    if steps != [] {
      BaselinesAreFrozen(schema, h, steps[..|steps| - 1], i);
      StepKeepsBaselines(schema, Run(schema, h, steps[..|steps| - 1]), steps[|steps| - 1], i);
    }
  }

  /** What a handle was made to follow. */
  datatype Source = FollowsLive | Pinned(index: nat)

  function SourceGen(h: History, source: Source): Gen
    requires source.Pinned? ==> source.index < |h|
  {
    match source
    case FollowsLive => LiveGen(h)
    case Pinned(i) => h[i]
  }

  function ResolveSlot(gen: Gen, key: OperationKey): Option<CallTarget> {
    if key in gen.current then Some(gen.current[key]) else None
  }

  lemma PublishingRetires(schema: InterfaceSchema, now: History, publish: Step, after: seq<Step>)
    requires Publishes(schema, publish)
    ensures var end := Run(schema, Apply(schema, now, publish), after);
            |end| > |now| && end[|now| - 1] == LiveGen(now)
  {
    RetiredGenerationsAreFrozen(schema, Apply(schema, now, publish), after, |now| - 1);
  }

  /** A captured handle sees the steps made while its generation is live, and none made from the
      next publication on; a live handle resolves in whatever generation is current. */
  lemma CapturedSeesOnlyItsGeneration(
    schema: InterfaceSchema, h: History, before: seq<Step>, publish: Step, after: seq<Step>, key: OperationKey)
    requires forall i :: 0 <= i < |before| ==> !Publishes(schema, before[i])
    requires Publishes(schema, publish)
    ensures
      var now := Run(schema, h, before);
      var end := Run(schema, Apply(schema, now, publish), after);
      && |h| == |now| < |end|
      && ResolveSlot(SourceGen(end, Pinned(|h| - 1)), key) == ResolveSlot(SourceGen(now, FollowsLive), key)
      && ResolveSlot(SourceGen(now, Pinned(|h| - 1)), key) == ResolveSlot(SourceGen(now, FollowsLive), key)
  {
    QuietRunKeepsLength(schema, h, before);
    PublishingRetires(schema, Run(schema, h, before), publish, after);
  }

  lemma {:induction false} QuietRunKeepsLength(schema: InterfaceSchema, h: History, steps: seq<Step>)
    requires forall i :: 0 <= i < |steps| ==> !Publishes(schema, steps[i])
    ensures |Run(schema, h, steps)| == |h|
  {
    if steps != [] {
      QuietRunKeepsLength(schema, h, steps[..|steps| - 1]);
    }
  }

  // --------------------------------------------------------------------
  // The slot invariant.
  // --------------------------------------------------------------------

  predicate SlotsFit(schema: InterfaceSchema, h: History) {
    forall i :: 0 <= i < |h| ==> AllAccepted(schema, h[i].current) && AllAccepted(schema, h[i].baseline)
  }

  lemma StepKeepsSlots(schema: InterfaceSchema, h: History, step: Step)
    requires SlotsFit(schema, h)
    ensures SlotsFit(schema, Apply(schema, h, step))
  {
    var live := LiveGen(h);
    assert AllAccepted(schema, live.current) && AllAccepted(schema, live.baseline);
  }

  /** In every reachable state, each slot and each baseline of each generation fits its operation. */
  lemma {:induction false} ReachableSlotsFit(schema: InterfaceSchema, steps: seq<Step>)
    ensures SlotsFit(schema, Run(schema, INITIAL, steps))
  {
    if steps != [] {
      ReachableSlotsFit(schema, steps[..|steps| - 1]);
      StepKeepsSlots(schema, Run(schema, INITIAL, steps[..|steps| - 1]), steps[|steps| - 1]);
    }
  }

  predicate NativesOwned(h: History) {
    forall i :: 0 <= i < |h| && h[i].native.Valid() ==> h[i].native.anchor.Some?
  }

  lemma StepKeepsNatives(schema: InterfaceSchema, h: History, step: Step)
    requires NativesOwned(h)
    ensures NativesOwned(Apply(schema, h, step))
  {
    var live := LiveGen(h);
    assert live.native.Valid() ==> live.native.anchor.Some?;
    assert !NULL_VIEW.Valid();
  }

  /** In every reachable state native storage is either absent or kept alive by an owner. */
  lemma {:induction false} NativeStorageIsOwned(schema: InterfaceSchema, steps: seq<Step>)
    ensures NativesOwned(Run(schema, INITIAL, steps))
  {
    if steps != [] {
      NativeStorageIsOwned(schema, steps[..|steps| - 1]);
      StepKeepsNatives(schema, Run(schema, INITIAL, steps[..|steps| - 1]), steps[|steps| - 1]);
    } else {
      assert !NULL_VIEW.Valid();
    }
  }

  function SchemaFor(schema: InterfaceSchema, kind: OperationKind): InterfaceSchema {
    if schema == [] then []
    else
      var init, last := schema[..|schema| - 1], schema[|schema| - 1];
      SchemaFor(init, kind) + (if last.operation == kind then [last] else [])
  }

  lemma {:induction false} SchemaForElement(schema: InterfaceSchema, kind: OperationKind, operation: OperationDescriptor)
    ensures operation in SchemaFor(schema, kind) <==> operation in schema && operation.operation == kind
  {
    if schema != [] {
      var init, last := schema[..|schema| - 1], schema[|schema| - 1];
      SchemaForElement(init, kind, operation);
      assert schema == init + [last];
    }
  }

  /** The operations of one kind come in the order of the schema. */
  lemma {:induction false} SchemaForConcat(a: InterfaceSchema, b: InterfaceSchema, kind: OperationKind)
    ensures SchemaFor(a + b, kind) == SchemaFor(a, kind) + SchemaFor(b, kind)
  {
    if b == [] {
      assert a + b == a;
    } else {
      var init, last := b[..|b| - 1], b[|b| - 1];
      assert (a + b)[..|a + b| - 1] == a + init;
      SchemaForConcat(a, init, kind);
    }
  }

  /** The first operation of the member. */
  function FindMember(schema: InterfaceSchema, member: MemberId): (r: Option<OperationDescriptor>)
    ensures r.Some? ==> r.value in schema && r.value.member == member
    ensures r.None? ==> forall operation :: operation in schema ==> operation.member != member
  {
    if schema == [] then None
    else if schema[0].member == member then Some(schema[0])
    else FindMember(schema[1..], member)
  }

  /** DispatchHandle::resolve on a handle of `kind` over a generation. */
  function HandleResolve(schema: InterfaceSchema, kind: OperationKind, gen: Gen, member: MemberId)
    : Result<CallTarget, DiagnosticCode>
  {
    match FindMember(SchemaFor(schema, kind), member)
    case None => Failure(NotFound)
    case Some(operation) =>
      match ResolveSlot(gen, OperationKey(member, kind))
      case None => Failure(NotFound)
      case Some(target) =>
        if target.NullTarget? then Failure(NullHandle)
        else if !Fits(operation, target) then Failure(TypeMismatch)
        else Success(target)
  }

  lemma HandleResolvesSlots(
    schema: InterfaceSchema, h: History, source: Source, kind: OperationKind, member: MemberId)
    requires DistinctKeys(schema) && SlotsFit(schema, h)
    requires source.Pinned? ==> source.index < |h|
    ensures
      var gen := SourceGen(h, source);
      var key := OperationKey(member, kind);
      HandleResolve(schema, kind, gen, member)
      == if key in gen.current then Success(gen.current[key]) else Failure(NotFound)
  {
    var gen := SourceGen(h, source);
    var key := OperationKey(member, kind);
    assert AllAccepted(schema, gen.current);
    if key in gen.current {
      var i :| 0 <= i < |schema| && schema[i].Key() == key && Fits(schema[i], gen.current[key]);
      SchemaForElement(schema, kind, schema[i]);
      var found := FindMember(SchemaFor(schema, kind), member);
      assert found.Some?;
      SchemaForElement(schema, kind, found.value);
      var j :| 0 <= j < |schema| && schema[j] == found.value;
      assert schema[j].Key() == schema[i].Key();
      assert i == j;
    }
  }

  /** In every reachable state a handle made by the table, live or captured, fails only with
      not_found, and only where its generation has no such slot. */
  lemma HandleFailsOnlyWithNotFound(
    schema: InterfaceSchema, steps: seq<Step>, source: Source, kind: OperationKind, member: MemberId)
    requires DistinctKeys(schema)
    requires source.Pinned? ==> source.index < |Run(schema, INITIAL, steps)|
    ensures
      var gen := SourceGen(Run(schema, INITIAL, steps), source);
      var key := OperationKey(member, kind);
      HandleResolve(schema, kind, gen, member)
      == if key in gen.current then Success(gen.current[key]) else Failure(NotFound)
  {
    ReachableSlotsFit(schema, steps);
    HandleResolvesSlots(schema, Run(schema, INITIAL, steps), source, kind, member);
  }

  // --------------------------------------------------------------------
  // Completeness of reset.
  // --------------------------------------------------------------------

  /** Counting the targets and checking each one suffices: the keys installed by a reset are
      exactly the keys of the schema. */
  lemma ResetCoversTheSchema(schema: InterfaceSchema, targets: Targets, native: ObjectView)
    requires DistinctKeys(schema) && ResetAccepted(schema, targets, native)
    ensures targets.Keys == SchemaKeys(schema)
  {
    forall key | key in targets
      ensures key in SchemaKeys(schema)
    {
      var i :| 0 <= i < |schema| && schema[i].Key() == key && Fits(schema[i], targets[key]);
    }
    DistinctKeysCount(schema);
    assert |targets| == |targets.Keys|;
    SameSizeSubset(targets.Keys, SchemaKeys(schema));
  }

  /** Every operation has a slot and a baseline. */
  predicate Complete(schema: InterfaceSchema, gen: Gen) {
    gen.current.Keys == SchemaKeys(schema) && gen.baseline.Keys == SchemaKeys(schema)
  }

  /** After a reset every operation stays resolvable until something detaches, whatever is
      replaced, restored or reset in between, and whatever fails. */
  lemma {:induction false} CompleteUntilDetached(schema: InterfaceSchema, h: History, steps: seq<Step>)
    requires DistinctKeys(schema) && Complete(schema, LiveGen(h))
    requires forall i :: 0 <= i < |steps| ==> !steps[i].Detach?
    ensures Complete(schema, LiveGen(Run(schema, h, steps)))
  {
    if steps != [] {
      CompleteUntilDetached(schema, h, steps[..|steps| - 1]);
      StepKeepsComplete(schema, Run(schema, h, steps[..|steps| - 1]), steps[|steps| - 1]);
    }
  }

  lemma StepKeepsComplete(schema: InterfaceSchema, h: History, step: Step)
    requires DistinctKeys(schema) && Complete(schema, LiveGen(h)) && !step.Detach?
    ensures Complete(schema, LiveGen(Apply(schema, h, step)))
  {
    if Succeeds(schema, h, step) {
      if step.Reset? {
        ResetCoversTheSchema(schema, step.targets, step.native);
      } else if step.Replace? {
        var i :| 0 <= i < |schema| && schema[i].Key() == step.key && Fits(schema[i], step.target);
        assert step.key in SchemaKeys(schema);
      }
    }
  }

  lemma ResetCompletes(schema: InterfaceSchema, h: History, targets: Targets, native: ObjectView, steps: seq<Step>)
    requires DistinctKeys(schema) && ResetAccepted(schema, targets, native)
    requires forall i :: 0 <= i < |steps| ==> !steps[i].Detach?
    ensures Complete(schema, LiveGen(Run(schema, Apply(schema, h, Reset(targets, native)), steps)))
  {
    ResetCoversTheSchema(schema, targets, native);
    CompleteUntilDetached(schema, Apply(schema, h, Reset(targets, native)), steps);
  }

  // --------------------------------------------------------------------
  // Restore and detachment.
  // --------------------------------------------------------------------

  /** One restore brings back the target of the last reset, whatever came between. */
  lemma RestoreUndoes(
    schema: InterfaceSchema, h: History, targets: Targets, native: ObjectView, steps: seq<Step>, key: OperationKey)
    requires ResetAccepted(schema, targets, native) && key in targets
    requires forall i :: 0 <= i < |steps| ==> !Publishes(schema, steps[i])
    ensures
      var after := Run(schema, Apply(schema, h, Reset(targets, native)), steps);
      && LiveGen(after).native == native
      && Succeeds(schema, after, Restore(key))
      && LiveGen(Apply(schema, after, Restore(key))).current == LiveGen(after).current[key := targets[key]]
  {
    BaselineStays(schema, Apply(schema, h, Reset(targets, native)), steps);
    assert LiveGen(Apply(schema, h, Reset(targets, native))) == Gen(targets, targets, native);
    RestoreSetsBaseline(schema, Run(schema, Apply(schema, h, Reset(targets, native)), steps), key);
  }

  lemma RestoreSetsBaseline(schema: InterfaceSchema, h: History, key: OperationKey)
    requires key in LiveGen(h).baseline
    ensures Succeeds(schema, h, Restore(key))
    ensures LiveGen(Apply(schema, h, Restore(key))).current == LiveGen(h).current[key := LiveGen(h).baseline[key]]
  {
  }

  /** Until the next publication the live baseline is the same. */
  lemma BaselineStays(schema: InterfaceSchema, h: History, steps: seq<Step>)
    requires forall i :: 0 <= i < |steps| ==> !Publishes(schema, steps[i])
    ensures var after := Run(schema, h, steps);
            LiveGen(after).baseline == LiveGen(h).baseline && LiveGen(after).native == LiveGen(h).native
  {
    QuietRunKeepsLength(schema, h, steps);
    BaselinesAreFrozen(schema, h, steps, |h| - 1);
  }

  /** After a detachment every restore fails until a reset succeeds. */
  lemma {:induction false} NothingToRestoreAfterDetach(schema: InterfaceSchema, h: History, steps: seq<Step>, key: OperationKey)
    requires forall i :: 0 <= i < |steps| ==>
                           steps[i].Reset? ==> !ResetAccepted(schema, steps[i].targets, steps[i].native)
    ensures LiveGen(Run(schema, Apply(schema, h, Detach), steps)).baseline == map[]
    ensures LiveGen(Run(schema, Apply(schema, h, Detach), steps)).native == NULL_VIEW
    ensures !Succeeds(schema, Run(schema, Apply(schema, h, Detach), steps), Restore(key))
  {
    if steps != [] {
      NothingToRestoreAfterDetach(schema, h, steps[..|steps| - 1], key);
    }
  }

  // --------------------------------------------------------------------
  // Wrapping.
  // --------------------------------------------------------------------

  function Combine(own: NativeDependency, additional: NativeDependency): NativeDependency {
    if own == Native || additional == Native then Native
    else if own != Independent || additional != Independent then UnknownDependency
    else Independent
  }

  /** How much a target depends on native storage. */
  function Rank(dependency: NativeDependency): nat {
    match dependency
    case Independent => 0
    case UnknownDependency => 1
    case Native => 2
  }

  function Max(a: nat, b: nat): nat {
    if a > b then a else b
  }

  /** A wrapper to install: the function, the closure that holds it, and what it adds. */
  datatype Layer = Layer(layer: nat, context: OwnerId, additional: NativeDependency)

  function WrapTarget(signature: Signature, previous: CallTarget, layer: Layer): (r: CallTarget)
    requires previous.Target?
    ensures r.Target? && r.signature == signature && r.options.operation == previous.options.operation
  {
    Target(signature,
           previous.options.(nativeDependency := Combine(previous.options.nativeDependency, layer.additional)),
           Wrapper(layer.context, layer.layer, previous))
  }

  /** The signature the interface declares for a key. */
  function DeclaredSignature(schema: InterfaceSchema, key: OperationKey): (r: Signature)
    requires key in SchemaKeys(schema)
    ensures exists i :: 0 <= i < |schema| && schema[i].Key() == key && schema[i].signature == r
  {
    if schema[0].Key() == key then schema[0].signature
    else
      var r := DeclaredSignature(schema[1..], key);
      assert exists i :: 0 <= i < |schema| && schema[i].Key() == key && schema[i].signature == r by {
        var i :| 0 <= i < |schema[1..]| && schema[1..][i].Key() == key && schema[1..][i].signature == r;
        assert schema[i + 1].Key() == key;
      }
      r
  }

  /** Dyn::wrap: the slot's target is captured and replaced by a wrapper around it. */
  function ApplyWrap(schema: InterfaceSchema, h: History, key: OperationKey, layer: Layer): History {
    if key in LiveGen(h).current && key in SchemaKeys(schema) && LiveGen(h).current[key].Target? then
      Apply(schema, h, Replace(key, WrapTarget(DeclaredSignature(schema, key), LiveGen(h).current[key], layer)))
    else h
  }

  function WrapAll(schema: InterfaceSchema, h: History, key: OperationKey, layers: seq<Layer>): History {
    if layers == [] then h
    else ApplyWrap(schema, WrapAll(schema, h, key, layers[..|layers| - 1]), key, layers[|layers| - 1])
  }

  function MaxRank(own: NativeDependency, layers: seq<Layer>): nat {
    if layers == [] then Rank(own)
    else Max(MaxRank(own, layers[..|layers| - 1]), Rank(layers[|layers| - 1].additional))
  }

  lemma WrapGoesThrough(schema: InterfaceSchema, h: History, key: OperationKey, layer: Layer)
    requires AllAccepted(schema, LiveGen(h).current) && key in LiveGen(h).current
    ensures key in SchemaKeys(schema) && LiveGen(h).current[key].Target?
    ensures ApplyWrap(schema, h, key, layer)
            == WithSlot(h, key, WrapTarget(DeclaredSignature(schema, key), LiveGen(h).current[key], layer))
    ensures AllAccepted(schema, LiveGen(ApplyWrap(schema, h, key, layer)).current)
  {
    var target := LiveGen(h).current[key];
    var i :| 0 <= i < |schema| && schema[i].Key() == key && Fits(schema[i], target);
    var j :| 0 <= j < |schema| && schema[j].Key() == key && schema[j].signature == DeclaredSignature(schema, key);
    var wrapped := WrapTarget(DeclaredSignature(schema, key), target, layer);
    assert schema[j].operation == key.operation == schema[i].operation;
    assert Fits(schema[j], wrapped);
  }

  /** The target that `layers` leave in a slot holding `target`. */
  function Wrapped(signature: Signature, target: CallTarget, layers: seq<Layer>): (r: CallTarget)
    requires target.Target?
    ensures r.Target?
  {
    if layers == [] then target
    else WrapTarget(signature, Wrapped(signature, target, layers[..|layers| - 1]), layers[|layers| - 1])
  }

  /** Any number of wraps nests them in the one slot and touches nothing else. */
  lemma {:induction false} WrapsNest(schema: InterfaceSchema, h: History, key: OperationKey, layers: seq<Layer>)
    requires AllAccepted(schema, LiveGen(h).current) && key in LiveGen(h).current
    ensures key in SchemaKeys(schema) && LiveGen(h).current[key].Target?
    ensures WrapAll(schema, h, key, layers)
            == WithSlot(h, key, Wrapped(DeclaredSignature(schema, key), LiveGen(h).current[key], layers))
    ensures AllAccepted(schema, LiveGen(WrapAll(schema, h, key, layers)).current)
  {
    var slot := LiveGen(h).current[key];
    if layers == [] {
      WrapGoesThrough(schema, h, key, Layer(0, 0, Independent));
      assert LiveGen(h).current[key := slot] == LiveGen(h).current;
    } else {
      var init := layers[..|layers| - 1];
      WrapsNest(schema, h, key, init);
      var before := WrapAll(schema, h, key, init);
      WrapGoesThrough(schema, before, key, layers[|layers| - 1]);
      SlotTwice(h, key, Wrapped(DeclaredSignature(schema, key), slot, init),
                Wrapped(DeclaredSignature(schema, key), slot, layers));
    }
  }

  lemma SlotTwice(h: History, key: OperationKey, first: CallTarget, second: CallTarget)
    ensures WithSlot(WithSlot(h, key, first), key, second) == WithSlot(h, key, second)
  {
    assert LiveGen(h).current[key := first][key := second] == LiveGen(h).current[key := second];
  }

  /** A wrapped target depends on native storage as much as the most dependent of its parts: it is native
      exactly if one of them is, and independent exactly if all of them are. */
  lemma {:induction false} WrappedDependency(signature: Signature, target: CallTarget, layers: seq<Layer>)
    requires target.Target?
    ensures var own, r := target.options.nativeDependency, Wrapped(signature, target, layers).options.nativeDependency;
            && Rank(r) == MaxRank(own, layers)
            && (r == Native <==> own == Native || exists i :: 0 <= i < |layers| && layers[i].additional == Native)
            && (r == Independent <==>
                  own == Independent && forall i :: 0 <= i < |layers| ==> layers[i].additional == Independent)
  {
    if layers != [] {
      WrappedDependency(signature, target, layers[..|layers| - 1]);
      assert layers == layers[..|layers| - 1] + [layers[|layers| - 1]];
    }
  }

  /** A wrapped target is a wrapper around what the slot held when the wrapper was installed. But for the
      dependency it has the options of the innermost target, so that results and receivers are treated alike. */
  lemma {:induction false} WrappersInherit(signature: Signature, target: CallTarget, layers: seq<Layer>, i: nat)
    requires target.Target? && i <= |layers|
    ensures
      var r := Wrapped(signature, target, layers[..i]);
      && r.options == target.options.(nativeDependency := r.options.nativeDependency)
      && (i == 0 ==> r == target)
      && (i > 0 ==>
            && r.signature == signature
            && r.callable
               == Wrapper(layers[i - 1].context, layers[i - 1].layer, Wrapped(signature, target, layers[..i - 1])))
  {
    if i > 0 {
      WrappersInherit(signature, target, layers, i - 1);
      assert layers[..i][..i - 1] == layers[..i - 1];
    }
  }

  lemma {:induction false} MaxRankZero(own: NativeDependency, layers: seq<Layer>)
    ensures MaxRank(own, layers) == 0
            <==> own == Independent && forall i :: 0 <= i < |layers| ==> layers[i].additional == Independent
  {
    if layers != [] {
      MaxRankZero(own, layers[..|layers| - 1]);
    }
  }

  /** A wrapped slot survives detachment exactly when the target and every wrapper are independent, and
      then with the target it had. */
  lemma WrappedSurvivesDetach(schema: InterfaceSchema, h: History, key: OperationKey, layers: seq<Layer>)
    requires AllAccepted(schema, LiveGen(h).current) && key in LiveGen(h).current
    ensures
      var after := WrapAll(schema, h, key, layers);
      && LiveGen(h).current[key].Target?
      && ResolveSlot(LiveGen(Apply(schema, after, Detach)), key)
         == if && LiveGen(h).current[key].options.nativeDependency == Independent
               && forall i :: 0 <= i < |layers| ==> layers[i].additional == Independent
            then ResolveSlot(LiveGen(after), key) else None
  {
    WrapsNest(schema, h, key, layers);
    WrappedDependency(DeclaredSignature(schema, key), LiveGen(h).current[key], layers);
    StepLaws(schema, WrapAll(schema, h, key, layers), Detach);
  }
}
