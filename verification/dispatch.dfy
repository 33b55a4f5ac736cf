/** Tables of targets over shared live cells and generations (dispatch_table.hpp), and the
    wrapping facade (dyn.hpp). */
module Dispatch {
  import opened Wrappers
  import opened Types
  import opened Calls
  import opened DispatchPolicy

  class Generation {
    var baseline: Targets
    var current: Targets
    var native: ObjectView

    constructor (baseline: Targets, current: Targets, native: ObjectView)
      ensures Value() == Gen(baseline, current, native)
    {
      this.baseline, this.current, this.native := baseline, current, native;
    }

    function Value(): Gen
      reads this
    {
      Gen(baseline, current, native)
    }
  }

  function Values(generations: seq<Generation>): (r: seq<Gen>)
    reads generations
    ensures |r| == |generations|
    ensures forall i :: 0 <= i < |r| ==> r[i] == generations[i].Value()
  {
    if generations == [] then []
    else Values(generations[..|generations| - 1]) + [generations[|generations| - 1].Value()]
  }

  /** The cell that tables and live handles share. `published` records every generation it has held. */
  class Live {
    var current: Generation
    ghost var published: seq<Generation>

    ghost predicate Valid()
      reads this
    {
      && published != []
      && published[|published| - 1] == current
      && forall i, j :: 0 <= i < j < |published| ==> published[i] != published[j]
    }

    ghost function States(): (h: History)
      requires Valid()
      reads this, published
      ensures |h| == |published| && LiveGen(h) == current.Value()
      ensures forall i :: 0 <= i < |h| ==> h[i] == published[i].Value()
    {
      Values(published)
    }

    constructor ()
      ensures Valid() && States() == INITIAL && fresh(published)
    {
      var initial := new Generation(map[], map[], NULL_VIEW);
      current := initial;
      published := [initial];
    }

    /** Makes a new generation current; older ones stay with whoever captured them. */
    method Publish(next: Generation)
      requires Valid() && next !in published
      modifies this
      ensures Valid() && published == old(published) + [next]
      ensures States() == old(States()) + [next.Value()]
    {
      current := next;
      published := published + [next];
    }

    /** insert_or_assign on the current generation: only the last state changes. */
    method Assign(key: OperationKey, target: CallTarget)
      requires Valid()
      modifies current
      ensures Valid()
      ensures States() == WithSlot(old(States()), key, target)
    {
      var state := current;
      ghost var before := States();
      state.current := state.current[key := target];
      assert |States()| == |before|;
      assert forall i :: 0 <= i < |published| - 1 ==> published[i] != state;
    }
  }

  /** What a handle resolves through. */
  datatype Resolver = Following(live: Live) | Capturing(generation: Generation)

  datatype DispatchHandle = DispatchHandle(schema: InterfaceSchema, kind: OperationKind, resolver: Resolver)

  /** The reason a schema is refused at its first bad entry, looking at the first `n`. */
  function SchemaError(schema: InterfaceSchema, n: nat): Option<DiagnosticCode>
    requires n <= |schema|
  {
    if n == 0 then None
    else if SchemaError(schema, n - 1).Some? then SchemaError(schema, n - 1)
    else if !SupportedSignature(schema[n - 1].signature) || schema[n - 1].signature.isNoexcept then Some(Unsupported)
    else if schema[n - 1].Key() in SchemaKeys(schema[..n - 1]) then Some(Ambiguous)
    else None
  }

  lemma KeysOfPrefix(schema: InterfaceSchema, last: OperationDescriptor)
    ensures DistinctKeys(schema + [last]) <==> DistinctKeys(schema) && last.Key() !in SchemaKeys(schema)
  {
    var whole := schema + [last];
    assert whole[|schema|] == last && forall i :: 0 <= i < |schema| ==> whole[i] == schema[i];
    if last.Key() in SchemaKeys(schema) {
      var i :| 0 <= i < |schema| && schema[i].Key() == last.Key();
      assert whole[i].Key() == whole[|schema|].Key();
    } else {
      assert forall i :: 0 <= i < |schema| ==> schema[i].Key() in SchemaKeys(schema);
    }
  }

  lemma OneMoreAccepted(schema: InterfaceSchema, last: OperationDescriptor)
    ensures SchemaAccepted(schema + [last])
            <==> && SchemaAccepted(schema) && SupportedSignature(last.signature) && !last.signature.isNoexcept
                 && last.Key() !in SchemaKeys(schema)
  {
    var whole := schema + [last];
    assert whole[|schema|] == last && forall i :: 0 <= i < |schema| ==> whole[i] == schema[i];
    KeysOfPrefix(schema, last);
  }

  lemma {:induction false} SchemaErrorIsExact(schema: InterfaceSchema, n: nat)
    requires n <= |schema|
    ensures SchemaError(schema, n).None? <==> SchemaAccepted(schema[..n])
  {
    if n > 0 {
      SchemaErrorIsExact(schema, n - 1);
      assert schema[..n] == schema[..n - 1] + [schema[n - 1]];
      OneMoreAccepted(schema[..n - 1], schema[n - 1]);
    }
  }

  /** The loop over the slots of a generation that is about to be left behind. */
  method KeepIndependent(targets: Targets) returns (kept: Targets)
    ensures kept == IndependentOnly(targets)
  {
    kept := map[];
    var left := targets.Keys;
    while left != {}
      invariant left <= targets.Keys
      invariant forall key :: key in kept <==> key in targets && key !in left && IsIndependent(targets[key])
      invariant forall key :: key in kept ==> kept[key] == targets[key]
      decreases left
    {
      var key :| key in left;
      if IsIndependent(targets[key]) {
        kept := kept[key := targets[key]];
      }
      left := left - {key};
    }
    assert kept == IndependentOnly(targets);
  }

  /** Why the `i`-th entry of a schema cannot be taken: its signature cannot be called or is noexcept, or an
      earlier entry has its key. */
  predicate BadEntry(schema: InterfaceSchema, i: nat, code: DiagnosticCode)
    requires i < |schema|
  {
    var unusable := !SupportedSignature(schema[i].signature) || schema[i].signature.isNoexcept;
    var repeated := exists j :: 0 <= j < i && schema[j].Key() == schema[i].Key();
    (code == Unsupported && unusable) || (code == Ambiguous && !unusable && repeated)
  }

  lemma EntryError(schema: InterfaceSchema, i: nat)
    requires i < |schema| && SchemaError(schema, i).None? && SchemaError(schema, i + 1).Some?
    ensures BadEntry(schema, i, SchemaError(schema, i + 1).value)
  {
    if schema[i].Key() in SchemaKeys(schema[..i]) {
      var j :| 0 <= j < |schema[..i]| && schema[..i][j].Key() == schema[i].Key();
      assert schema[j].Key() == schema[i].Key();
    }
  }

  /** The code comes from the first entry that cannot be taken. */
  lemma {:induction false} SchemaErrorCodes(schema: InterfaceSchema, n: nat)
    requires n <= |schema| && SchemaError(schema, n).Some?
    ensures exists i :: 0 <= i < n && SchemaAccepted(schema[..i]) && BadEntry(schema, i, SchemaError(schema, n).value)
  {
    if SchemaError(schema, n - 1).Some? {
      SchemaErrorCodes(schema, n - 1);
    } else {
      SchemaErrorIsExact(schema, n - 1);
      EntryError(schema, n - 1);
    }
  }

  class DispatchTable {
    const schema: InterfaceSchema
    const live: Live

    ghost predicate Valid()
      reads this, live, live.published
    {
      live.Valid() && SchemaAccepted(schema) && SlotsFit(schema, live.States())
    }

    ghost function States(): History
      requires Valid()
      reads this, live, live.published
    {
      live.States()
    }

    /** Another table over the same cell: a copy, or one locked from a weak reference. */
    constructor Share(schema: InterfaceSchema, live: Live)
      requires live.Valid() && SchemaAccepted(schema) && SlotsFit(schema, live.States())
      ensures Valid() && this.schema == schema && this.live == live
    {
      this.schema, this.live := schema, live;
    }

    /** A table for a schema, or the reason the schema is refused; None is the null schema. */
    static method Create(schema: Option<InterfaceSchema>) returns (r: Result<DispatchTable, DiagnosticCode>)
      ensures r.Success? <==> schema.Some? && SchemaAccepted(schema.value)
      ensures r.Failure? ==> r.error == if schema.None? then NullHandle
                                        else SchemaError(schema.value, |schema.value|).GetOr(NullHandle)
      ensures r.Success? ==> && r.value.Valid() && r.value.schema == schema.value && fresh(r.value.live)
                             && fresh(r.value.live.published) && r.value.States() == INITIAL
    {
      if schema.None? {
        return Failure(NullHandle);
      }
      var operations := schema.value;
      SchemaErrorIsExact(operations, |operations|);
      assert operations[..|operations|] == operations;
      var keys: set<OperationKey> := {};
      for i := 0 to |operations|
        invariant keys == SchemaKeys(operations[..i])
        invariant SchemaError(operations, i).None?
      {
        var operation := operations[i];
        if !SupportedSignature(operation.signature) || operation.signature.isNoexcept {
          SchemaErrorStays(operations, i + 1);
          return Failure(Unsupported);
        }
        if operation.Key() in keys {
          SchemaErrorStays(operations, i + 1);
          return Failure(Ambiguous);
        }
        SchemaKeysStep(operations, i);
        keys := keys + {operation.Key()};
      }
      var live := new Live();
      var table := new DispatchTable.Share(operations, live);
      return Success(table);
    }

    /** Whether a target may be stored under a key. */
    method Validate(key: OperationKey, target: CallTarget) returns (r: Outcome<DiagnosticCode>)
      requires Valid()
      ensures r.Pass? <==> Accepts(schema, key, target)
      ensures r.Fail? ==> r.error == Refusal(schema, key)
      ensures r == Fail(NotFound) <==> forall i :: 0 <= i < |schema| ==> schema[i].Key() != key
      ensures r == Fail(TypeMismatch) <==>
                (exists i :: 0 <= i < |schema| && schema[i].Key() == key) && !Accepts(schema, key, target)
    {
      for i := 0 to |schema|
        invariant forall j :: 0 <= j < i ==> schema[j].Key() != key
      {
        if schema[i].Key() == key {
          if Fits(schema[i], target) {
            return Pass;
          }
          assert forall j :: 0 <= j < |schema| && schema[j].Key() == key ==> j == i;
          return Fail(TypeMismatch);
        }
      }
      return Fail(NotFound);
    }

    method Replace(member: MemberId, target: CallTarget, kind: OperationKind) returns (r: Outcome<DiagnosticCode>)
      requires Valid()
      modifies live.current
      ensures Valid() && live.published == old(live.published)
      ensures States() == Apply(schema, old(States()), Step.Replace(OperationKey(member, kind), target))
      ensures r.Pass? <==> Succeeds(schema, old(States()), Step.Replace(OperationKey(member, kind), target))
    {
      var key := OperationKey(member, kind);
      r := Validate(key, target);
      if r.Fail? {
        return;
      }
      StepKeepsSlots(schema, live.States(), Step.Replace(key, target));
      live.Assign(key, target);
    }

    /** The first complaint about a set of targets, in the order of their keys. */
    method ValidateAll(targets: Targets) returns (r: Outcome<DiagnosticCode>, ghost refused: OperationKey)
      requires Valid()
      ensures r.Pass? <==> AllAccepted(schema, targets)
      ensures r.Fail? ==> FirstRefused(schema, targets, refused) && r.error == Refusal(schema, refused)
    {
      var left := targets.Keys;
      while left != {}
        invariant left <= targets.Keys
        invariant forall key :: key in targets && key !in left ==> Accepts(schema, key, targets[key])
        decreases left
      {
        LeastExists(left);
        var key :| key in left && IsLeast(left, key);
        r := Validate(key, targets[key]);
        if r.Fail? {
          return r, key;
        }
        left := left - {key};
      }
      return Pass, OperationKey(MemberId(0, 0), Method);
    }

    method Reset(targets: Targets, native: ObjectView) returns (r: Outcome<DiagnosticCode>)
      requires Valid()
      modifies live
      ensures Valid()
      ensures States() == Apply(schema, old(States()), Step.Reset(targets, native))
      ensures r.Pass? <==> Succeeds(schema, old(States()), Step.Reset(targets, native))
      ensures r.Fail? ==> live.published == old(live.published)
      ensures r.Fail? ==> if native.Valid() && native.anchor.None? then r.error == MissingAnchor
                          else if |targets| != |schema| then r.error == TypeMismatch
                          else exists key :: FirstRefused(schema, targets, key) && r.error == Refusal(schema, key)
      ensures r.Pass? ==> fresh(live.current) && live.published == old(live.published) + [live.current]
    {
      if native.Valid() && native.anchor.None? {
        return Fail(MissingAnchor);
      }
      if |targets| != |schema| {
        return Fail(TypeMismatch);
      }
      ghost var refused;
      r, refused := ValidateAll(targets);
      if r.Fail? {
        return;
      }
      StepKeepsSlots(schema, live.States(), Step.Reset(targets, native));
      var next := new Generation(targets, targets, native);
      live.Publish(next);
      return Pass;
    }

    method Restore(member: MemberId, kind: OperationKind) returns (r: Outcome<DiagnosticCode>)
      requires Valid()
      modifies live.current
      ensures Valid() && live.published == old(live.published)
      ensures States() == Apply(schema, old(States()), Step.Restore(OperationKey(member, kind)))
      ensures r == if Succeeds(schema, old(States()), Step.Restore(OperationKey(member, kind))) then Pass
                   else Fail(NotFound)
    {
      var key := OperationKey(member, kind);
      var state := live.current;
      if key !in state.baseline {
        return Fail(NotFound);
      }
      StepKeepsSlots(schema, live.States(), Step.Restore(key));
      live.Assign(key, state.baseline[key]);
      return Pass;
    }

    method DetachNative()
      requires Valid()
      modifies live
      ensures Valid() && fresh(live.current) && live.published == old(live.published) + [live.current]
      ensures States() == Apply(schema, old(States()), Detach)
    {
      var kept := KeepIndependent(live.current.current);
      StepKeepsSlots(schema, live.States(), Detach);
      var next := new Generation(map[], kept, NULL_VIEW);
      live.Publish(next);
    }

    method Target(member: MemberId, kind: OperationKind) returns (r: Result<CallTarget, DiagnosticCode>)
      requires Valid()
      ensures r == match ResolveSlot(LiveGen(States()), OperationKey(member, kind))
                   case Some(target) => Success(target)
                   case None => Failure(NotFound)
    {
      var state := live.current;
      var key := OperationKey(member, kind);
      if key in state.current {
        return Success(state.current[key]);
      }
      return Failure(NotFound);
    }

    /** The operations of one kind, in schema order. */
    method OperationsOf(kind: OperationKind) returns (r: InterfaceSchema)
      ensures r == SchemaFor(schema, kind)
    {
      r := [];
      for i := 0 to |schema|
        invariant r == SchemaFor(schema[..i], kind)
      {
        assert schema[..i + 1][..i] == schema[..i];
        if schema[i].operation == kind {
          r := r + [schema[i]];
        }
      }
      assert schema[..|schema|] == schema;
    }

    method Dispatch(kind: OperationKind) returns (handle: DispatchHandle)
      ensures handle == DispatchHandle(SchemaFor(schema, kind), kind, Following(live))
    {
      var operations := OperationsOf(kind);
      handle := DispatchHandle(operations, kind, Following(live));
    }

    method Capture(kind: OperationKind) returns (handle: DispatchHandle)
      ensures handle == DispatchHandle(SchemaFor(schema, kind), kind, Capturing(live.current))
    {
      var operations := OperationsOf(kind);
      handle := DispatchHandle(operations, kind, Capturing(live.current));
    }

    /** DispatchHandle::resolve on a handle this table made: a live one resolves in the last state
        of the cell, a captured one in the state it captured, and the only failure is not_found. */
    method Resolve(handle: DispatchHandle, member: MemberId)
      returns (r: Result<CallTarget, DiagnosticCode>, ghost source: Source)
      requires Valid() && handle.schema == SchemaFor(schema, handle.kind)
      requires handle.resolver == Following(live)
               || (handle.resolver.Capturing? && handle.resolver.generation in live.published)
      ensures match handle.resolver
              case Following(_) => source.FollowsLive?
              case Capturing(generation) =>
                source.Pinned? && source.index < |live.published| && live.published[source.index] == generation
      ensures r == HandleResolve(schema, handle.kind, SourceGen(States(), source), member)
      ensures r.Failure? ==> r.error == NotFound
    {
      var generation;
      match handle.resolver {
        case Following(cell) =>
          source, generation := FollowsLive, cell.current;
        case Capturing(pinned) =>
          ghost var i :| 0 <= i < |live.published| && live.published[i] == pinned;
          source, generation := Pinned(i), pinned;
      }
      HandleResolvesSlots(schema, States(), source, handle.kind, member);
      var operations := handle.schema;
      var i := 0;
      while i < |operations| && operations[i].member != member
        invariant 0 <= i <= |operations|
        invariant FindMember(operations, member) == FindMember(operations[i..], member)
      {
        assert operations[i..][1..] == operations[i + 1..];
        i := i + 1;
      }
      if i == |operations| {
        return Failure(NotFound), source;
      }
      var key := OperationKey(member, handle.kind);
      if key !in generation.current {
        return Failure(NotFound), source;
      }
      var target := generation.current[key];
      if target.NullTarget? {
        return Failure(NullHandle), source;
      }
      if !Fits(operations[i], target) {
        return Failure(TypeMismatch), source;
      }
      return Success(target), source;
    }
  }

  // --------------------------------------------------------------------
  // Isolation on the heap.
  // --------------------------------------------------------------------

  /** Any operation that a table offers on its shared cell. */
  method Perform(table: DispatchTable, step: Step)
    requires table.Valid()
    modifies table.live, table.live.current
    ensures table.Valid() && table.States() == Apply(table.schema, old(table.States()), step)
    ensures old(table.live.published) <= table.live.published
    ensures fresh(set i | |old(table.live.published)| <= i < |table.live.published| :: table.live.published[i])
  {
    match step {
      case Replace(key, target) => var _ := table.Replace(key.member, target, key.operation);
      case Restore(key) => var _ := table.Restore(key.member, key.operation);
      case Reset(targets, native) => var _ := table.Reset(targets, native);
      case Detach => table.DetachNative();
    }
  }

  /** Tables over one cell: copies, and tables locked from weak references. */
  ghost predicate Sharing(tables: seq<DispatchTable>, schema: InterfaceSchema, live: Live)
    reads live, live.published
  {
    && live.Valid() && SchemaAccepted(schema) && SlotsFit(schema, live.States())
    && forall i :: 0 <= i < |tables| ==> tables[i].schema == schema && tables[i].live == live
  }

  function StepsOf(program: seq<(nat, Step)>): (r: seq<Step>)
    ensures |r| == |program|
  {
    seq(|program|, i requires 0 <= i < |program| => program[i].1)
  }

  lemma StepsExtend(program: seq<(nat, Step)>, n: nat, schema: InterfaceSchema, h: History)
    requires n < |program|
    ensures Run(schema, h, StepsOf(program[..n + 1])) == Apply(schema, Run(schema, h, StepsOf(program[..n])), program[n].1)
  {
    var steps := StepsOf(program[..n + 1]);
    assert steps[..n] == StepsOf(program[..n]) && steps[n] == program[n].1;
  }

  /** Whatever is done, in whatever order and through whichever of the tables, the cell goes through
      the run of those steps. */
  method PerformAll(tables: seq<DispatchTable>, schema: InterfaceSchema, live: Live, program: seq<(nat, Step)>)
    requires Sharing(tables, schema, live) && forall i :: 0 <= i < |program| ==> program[i].0 < |tables|
    modifies live, live.published
    ensures Sharing(tables, schema, live)
    ensures live.States() == Run(schema, old(live.States()), StepsOf(program))
    ensures old(live.published) <= live.published
    ensures fresh(set i | |old(live.published)| <= i < |live.published| :: live.published[i])
  {
    ghost var published, states := live.published, live.States();
    for n := 0 to |program|
      invariant Sharing(tables, schema, live)
      invariant live.States() == Run(schema, states, StepsOf(program[..n]))
      invariant published <= live.published
      invariant fresh(set i | |published| <= i < |live.published| :: live.published[i])
    {
      StepsExtend(program, n, schema, states);
      PerformThrough(tables[program[n].0], program[n].1, tables, schema, live);
    }
    assert program[..|program|] == program;
  }

  /** One step through one of the tables. */
  method PerformThrough(
    table: DispatchTable, step: Step, tables: seq<DispatchTable>, schema: InterfaceSchema, live: Live)
    requires Sharing(tables, schema, live) && table in tables
    modifies live, live.current
    ensures Sharing(tables, schema, live) && live.States() == Apply(schema, old(live.States()), step)
    ensures old(live.published) <= live.published
    ensures fresh(set i | |old(live.published)| <= i < |live.published| :: live.published[i])
  {
    Perform(table, step);
  }

  /** Of the generations there are, only the live one can be changed by what is done next. */
  method RetiredStayAsTheyAre(tables: seq<DispatchTable>, schema: InterfaceSchema, live: Live, program: seq<(nat, Step)>)
    requires Sharing(tables, schema, live) && forall i :: 0 <= i < |program| ==> program[i].0 < |tables|
    modifies live, live.published
    ensures Sharing(tables, schema, live) && old(live.published) <= live.published
    ensures forall g :: g in old(live.published) && g != old(live.current) ==> g.Value() == old(g.Value())
  {
    ghost var before, published, states := live.current, live.published, live.States();
    PerformAll(tables, schema, live, program);
    forall g | g in published && g != before
      ensures g.Value() == old(g.Value())
    {
      var i :| 0 <= i < |published| && published[i] == g;
      RetiredGenerationsAreFrozen(schema, states, StepsOf(program), i);
      assert live.published[i] == g;
    }
  }

  /** A captured handle resolves in the generation it pins. */
  method ResolvePinned(table: DispatchTable, handle: DispatchHandle, member: MemberId)
    returns (r: Result<CallTarget, DiagnosticCode>)
    requires table.Valid() && handle.schema == SchemaFor(table.schema, handle.kind)
    requires handle.resolver.Capturing? && handle.resolver.generation in table.live.published
    ensures r == HandleResolve(table.schema, handle.kind, handle.resolver.generation.Value(), member)
  {
    ghost var source;
    r, source := table.Resolve(handle, member);
  }

  /** What is done after a generation has been retired, through any table, leaves a handle on it
      resolving as before. */
  method ResolveAround(
    tables: seq<DispatchTable>, schema: InterfaceSchema, live: Live, table: DispatchTable,
    handle: DispatchHandle, member: MemberId, program: seq<(nat, Step)>)
    returns (before: Result<CallTarget, DiagnosticCode>, after: Result<CallTarget, DiagnosticCode>)
    requires Sharing(tables, schema, live) && forall i :: 0 <= i < |program| ==> program[i].0 < |tables|
    requires table in tables && handle.schema == SchemaFor(schema, handle.kind)
    requires handle.resolver.Capturing? && handle.resolver.generation in live.published
    modifies live, live.published
    ensures Sharing(tables, schema, live)
    ensures handle.resolver.generation != old(live.current) ==> before == after
  {
    before := ResolvePinned(table, handle, member);
    RetiredStayAsTheyAre(tables, schema, live, program);
    after := ResolvePinned(table, handle, member);
  }

  /** A handle captured through one table resolves the same for good once its generation has been
      replaced as the live one, whatever is then done through all the others. */
  method CaptureIsPinned(
    tables: seq<DispatchTable>, schema: InterfaceSchema, live: Live, at: nat, kind: OperationKind, member: MemberId,
    first: seq<(nat, Step)>, rest: seq<(nat, Step)>)
    returns (before: Result<CallTarget, DiagnosticCode>, after: Result<CallTarget, DiagnosticCode>)
    requires Sharing(tables, schema, live) && at < |tables|
    requires forall i :: 0 <= i < |first| ==> first[i].0 < |tables|
    requires forall i :: 0 <= i < |rest| ==> rest[i].0 < |tables|
    modifies live, live.published
    ensures |Run(schema, old(live.States()), StepsOf(first))| > |old(live.published)| ==> before == after
  {
    ghost var published := live.published;
    var handle := tables[at].Capture(kind);
    assert handle.resolver.generation == published[|published| - 1];
    PerformAll(tables, schema, live, first);
    assert live.published[|published| - 1] == handle.resolver.generation;
    before, after := ResolveAround(tables, schema, live, tables[at], handle, member, rest);
  }

  lemma SchemaKeysStep(schema: InterfaceSchema, i: nat)
    requires i < |schema|
    ensures SchemaKeys(schema[..i + 1]) == SchemaKeys(schema[..i]) + {schema[i].Key()}
  {
    var init, whole := schema[..i], schema[..i + 1];
    assert whole[i] == schema[i];
    forall key | key in SchemaKeys(init)
      ensures key in SchemaKeys(whole)
    {
      var j :| 0 <= j < |init| && init[j].Key() == key;
      assert whole[j].Key() == key;
    }
    forall key | key in SchemaKeys(whole)
      ensures key in SchemaKeys(init) + {schema[i].Key()}
    {
      var j :| 0 <= j < |whole| && whole[j].Key() == key;
      assert j < i ==> init[j].Key() == key;
    }
  }

  lemma {:induction false} SchemaErrorStays(schema: InterfaceSchema, n: nat)
    requires n <= |schema| && SchemaError(schema, n).Some?
    ensures SchemaError(schema, |schema|) == SchemaError(schema, n)
    decreases |schema| - n
  {
    if n < |schema| {
      SchemaErrorStays(schema, n + 1);
    }
  }

  /** The options of a wrapper: those of what it wraps, with the dependencies of both. */
  method AddDependency(inherited: TargetOptions, additional: NativeDependency) returns (options: TargetOptions)
    ensures options == inherited.(nativeDependency := Combine(inherited.nativeDependency, additional))
  {
    options := inherited;
    if options.nativeDependency == Native || additional == Native {
      options := options.(nativeDependency := Native);
    } else if options.nativeDependency != Independent || additional != Independent {
      options := options.(nativeDependency := UnknownDependency);
    }
  }

  class Dyn {
    const table: DispatchTable

    constructor (table: DispatchTable)
      ensures this.table == table
    {
      this.table := table;
    }

    /** Captures the slot's target and replaces it by a wrapper that inherits its options, with the
        dependencies of both. */
    method Wrap(member: MemberId, layer: Layer) returns (r: Outcome<DiagnosticCode>)
      requires table.Valid()
      modifies table.live.current
      ensures table.Valid() && table.live.published == old(table.live.published)
      ensures table.States() == ApplyWrap(table.schema, old(table.States()), OperationKey(member, Method), layer)
      ensures r == if OperationKey(member, Method) in LiveGen(old(table.States())).current then Pass else Fail(NotFound)
    {
      var key := OperationKey(member, Method);
      var found := table.Target(member, Method);
      if found.Failure? {
        return Fail(found.error);
      }
      var previous := found.value;
      WrapGoesThrough(table.schema, table.States(), key, layer);
      var options := AddDependency(previous.options, layer.additional);
      var wrapped := Target(DeclaredSignature(table.schema, key), options, Wrapper(layer.context, layer.layer, previous));
      r := table.Replace(member, wrapped, Method);
    }
  }
}
