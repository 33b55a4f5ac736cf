/** What a chain of wrappers does when it is called (dyn.hpp): each wrapper function is handed an
    `original` that builds a frame out of its arguments and sends it through the validator. */
module Wrapping {
  import opened Wrappers
  import opened Types
  import opened Calls
  import opened DispatchPolicy

  // --------------------------------------------------------------------
  // The frame that a wrapper forwards.
  // --------------------------------------------------------------------

  /** Where a parameter of a running callable is stored. */
  type Address = n: nat | n != 0 witness 1

  /** native_argument of a forwarded parameter: a view of the parameter, which owns nothing. A
      value is passed on as an rvalue; a reference as what it was declared to be. */
  function ForwardedView(parameter: TypeUse, address: Address): ArgumentView {
    match parameter.reference
    case ByValue =>
      ArgumentView(ObjectView(address, parameter.(qualifiers := Unqualified), None), Consumable)
    case LValueReference =>
      ArgumentView(ObjectView(address, parameter.(reference := ByValue), None), LValue)
    case RValueReference =>
      ArgumentView(ObjectView(address, parameter.(reference := ByValue), None), Consumable)
  }

  function Forwarded(parameters: seq<TypeUse>, values: seq<Address>): (r: seq<ArgumentView>)
    requires |parameters| == |values|
    ensures |r| == |values|
    ensures forall i :: 0 <= i < |r| ==> r[i] == ForwardedView(parameters[i], values[i])
  {
    seq(|values|, i requires 0 <= i < |values| => ForwardedView(parameters[i], values[i]))
  }

  predicate IsConstRvalue(parameter: TypeUse) {
    parameter.reference == RValueReference && IsConst(parameter.qualifiers)
  }

  predicate HasConstRvalue(parameters: seq<TypeUse>) {
    exists i :: 0 <= i < |parameters| && IsConstRvalue(parameters[i])
  }

  predicate HasValue(parameters: seq<TypeUse>) {
    exists i :: 0 <= i < |parameters| && parameters[i].reference == ByValue
  }

  /** What to look at before wrapping: arguments of these types can be passed on to a target with
      these options. */
  predicate Forwardable(declared: Signature, options: TargetOptions) {
    && !HasConstRvalue(declared.parameters)
    && (|| declared.result.reference == ByValue
        || options.resultLifetime != UnknownLifetime
        || !HasValue(declared.parameters))
  }

  /** A frame in which some wrapper was entered. */
  ghost predicate Entered(wrapper: CallTarget, receiver: ObjectView, arguments: seq<ArgumentView>, mode: ExportKind) {
    FrameError(wrapper, EffectiveReceiver(wrapper, receiver), arguments, mode).None?
  }

  lemma ForwardedArgumentError(parameter: TypeUse, address: Address)
    requires !IsVolatile(parameter.qualifiers)
    ensures ArgumentError(parameter, ForwardedView(parameter, address))
            == if IsConstRvalue(parameter) then Some(RequiresConsumption) else None
  {
  }

  lemma {:induction false} ForwardedError(parameters: seq<TypeUse>, values: seq<Address>, i: nat)
    requires i <= |parameters| == |values|
    requires forall k :: 0 <= k < |parameters| ==> !IsVolatile(parameters[k].qualifiers)
    ensures var error := FirstArgumentError(parameters, Forwarded(parameters, values), i);
            && (error.Some? <==> exists k :: i <= k < |parameters| && IsConstRvalue(parameters[k]))
            && (error.Some? ==> error.value.1 == RequiresConsumption)
    decreases |parameters| - i
  {
    if i < |parameters| {
      ForwardedArgumentError(parameters[i], values[i]);
      ForwardedError(parameters, values, i + 1);
    }
  }

  /** The options and signature a slot's target shares with every wrapper put around it. */
  predicate Around(declared: Signature, wrapper: CallTarget, previous: CallTarget) {
    && wrapper.Target? && previous.Target?
    && wrapper.signature == declared
    && SupportedSignature(declared) && CompatibleSignature(declared, previous.signature)
    && wrapper.options.resultLifetime == previous.options.resultLifetime
    && wrapper.options.receiver == previous.options.receiver
  }

  lemma ForwardedReceiver(
    declared: Signature, wrapper: CallTarget, previous: CallTarget,
    receiver: ObjectView, arguments: seq<ArgumentView>, mode: ExportKind)
    requires Around(declared, wrapper, previous) && Entered(wrapper, receiver, arguments, mode)
    ensures ReceiverAccepted(previous.signature, OwnReceiver(previous))
  {
  }

  /** A frame that entered with an unknown lifetime and a reference to come back consumed nothing. */
  lemma NothingConsumed(
    wrapper: CallTarget, receiver: ObjectView, arguments: seq<ArgumentView>, mode: ExportKind, i: nat)
    requires wrapper.Target? && Entered(wrapper, receiver, arguments, mode)
    requires wrapper.signature.result.reference != ByValue && wrapper.options.resultLifetime == UnknownLifetime
    requires i < |wrapper.signature.parameters|
    ensures wrapper.signature.parameters[i].reference != RValueReference
  {
    var effective := EffectiveReceiver(wrapper, receiver);
    assert ExportError(wrapper, effective, arguments, mode).None?;
    assert arguments[i].category != Consumable;
    ValidatedArgumentsAreSafe(wrapper, effective, arguments, mode, i);
  }

  lemma ForwardedExport(
    previous: CallTarget, receiver: ObjectView, parameters: seq<TypeUse>, values: seq<Address>)
    requires previous.Target? && |parameters| == |values|
    ensures ExportError(previous, receiver, Forwarded(parameters, values), Erased)
            == if && previous.signature.result.reference != ByValue
                  && previous.options.resultLifetime == UnknownLifetime
                  && exists i :: 0 <= i < |parameters| && parameters[i].reference != LValueReference
               then Some(ReferenceExportRefused) else None
  {
    var inner := Forwarded(parameters, values);
    assert forall i :: 0 <= i < |inner| ==> (inner[i].category == Consumable <==> parameters[i].reference != LValueReference);
  }

  /** In a call that has entered a wrapper, the frame passed on to the wrapped target is accepted
      exactly if the parameters can be forwarded; otherwise the reason is one of two. */
  lemma ForwardingIsExact(
    declared: Signature, wrapper: CallTarget, previous: CallTarget,
    receiver: ObjectView, arguments: seq<ArgumentView>, mode: ExportKind, values: seq<Address>)
    requires Around(declared, wrapper, previous) && Entered(wrapper, receiver, arguments, mode)
    requires |values| == |declared.parameters|
    ensures var error := FrameError(previous, OwnReceiver(previous),
                                    Forwarded(declared.parameters, values), Erased);
            && (error.None? <==> Forwardable(declared, previous.options))
            && (error.Some? ==> error.value.0 == if HasConstRvalue(declared.parameters) then RequiresConsumption
                                                 else ReferenceExportRefused)
  {
    var effective := OwnReceiver(previous);
    ForwardedReceiver(declared, wrapper, previous, receiver, arguments, mode);
    ForwardedError(declared.parameters, values, 0);
    ForwardedExport(previous, effective, declared.parameters, values);
    if declared.result.reference != ByValue && previous.options.resultLifetime == UnknownLifetime {
      forall i | 0 <= i < |declared.parameters|
        ensures declared.parameters[i].reference != RValueReference
      {
        NothingConsumed(wrapper, receiver, arguments, mode, i);
      }
    }
  }

  // --------------------------------------------------------------------
  // Running targets.
  // --------------------------------------------------------------------

  datatype Exception = ReflectionFault(code: DiagnosticCode) | UserException(id: nat)

  datatype Ending = Done(address: Address) | Raised(exception: Exception)

  type Behaviour<!W> = (W, seq<Address>) -> (W, Ending)

  /** The user's code over worlds `W`: how parameters are prepared from what they bind, what plain
      callables do, and what wrapper functions do with the `original` they are handed. */
  datatype Program<!W> = Program(
    bind: (W, seq<Binding>) -> (W, Result<seq<Address>, Exception>),
    plain: (Callable, W, seq<Address>) -> (W, Ending),
    layer: (nat, Behaviour<W>, W, seq<Address>) -> (W, Ending))

  ghost predicate SameBehaviour<W(!new)>(f: Behaviour<W>, g: Behaviour<W>) {
    forall w, values :: f(w, values) == g(w, values)
  }

  /** All that a wrapper function can do with its original is call it. */
  ghost predicate OnlyCalls<W(!new)>(program: Program<W>) {
    forall n, f, g, w, values ::
      SameBehaviour(f, g) ==> program.layer(n, f, w, values) == program.layer(n, g, w, values)
  }

  /** The C++ types admit no call with the wrong number of values. */
  const ILL_TYPED := Raised(ReflectionFault(ArityMismatch))

  /** What a target's callable does once its parameters are prepared. */
  function Body<W>(program: Program<W>, target: CallTarget, w: W, values: seq<Address>): (W, Ending)
    requires target.Target?
    decreases target, 0
  {
    match target.callable
    case Wrapper(_, layer, previous) =>
      program.layer(layer, Original(program, target.signature, previous), w, values)
    case _ => program.plain(target.callable, w, values)
  }

  /** The receiver of the frame that `original` builds, after the validator has seen it. */
  function OwnReceiver(target: CallTarget): ObjectView {
    if target.Target? then EffectiveReceiver(target, target.options.receiver) else NULL_VIEW
  }

  /** The `original` a wrapper function is handed: the validator, then the wrapped target. */
  function Original<W>(program: Program<W>, declared: Signature, previous: CallTarget): Behaviour<W>
    decreases previous, 1
  {
    (w, values) =>
      if |values| != |declared.parameters| then (w, ILL_TYPED)
      else
        var inner := Forwarded(declared.parameters, values);
        var receiver := OwnReceiver(previous);
        match FrameError(previous, receiver, inner, Erased)
        case Some(error) => (w, Raised(ReflectionFault(error.0)))
        case None =>
          match program.bind(w, Bindings(previous.signature.parameters, inner))
          case (w', Failure(exception)) => (w', Raised(exception))
          case (w', Success(prepared)) =>
            var (w'', ending) := Body(program, previous, w', prepared);
            (w'', Extracted(declared.result, previous, receiver, inner, ending))
  }

  function Bindings(parameters: seq<TypeUse>, arguments: seq<ArgumentView>): (r: seq<Binding>)
    requires |parameters| == |arguments|
  {
    seq(|parameters|, i requires 0 <= i < |parameters| => CallArgument(parameters[i], arguments[i]))
  }

  /** The result is captured, and fetched again as the declared type. */
  function Extracted(
    result: TypeUse, previous: CallTarget, receiver: ObjectView, inner: seq<ArgumentView>, ending: Ending): Ending
    requires previous.Target?
  {
    if ending.Raised? || (result.reference == ByValue && result.id == VOID_TYPE) then ending
    else
      match ResultView(Capture(previous, receiver, inner, ending.address, 0)).Get(result.id, IsConst(result.qualifiers))
      case Success(address) => Done(address)
      case Failure(code) => Raised(ReflectionFault(code))
  }

  // --------------------------------------------------------------------
  // Composition.
  // --------------------------------------------------------------------

  /** Perfect forwarding: references stay what they are, values are moved along. */
  function ForwardBinding(parameter: TypeUse, address: Address): Binding {
    if parameter.reference == ByValue then MovedOut(address)
    else Referenced(address, !IsConst(parameter.qualifiers))
  }

  function ForwardBindings(parameters: seq<TypeUse>, values: seq<Address>): (r: seq<Binding>)
    requires |parameters| == |values|
  {
    seq(|values|, i requires 0 <= i < |values| => ForwardBinding(parameters[i], values[i]))
  }

  /** fn(... f1(target)): the wrapper functions composed by plain C++ calls, without views, frames
      or validator. */
  function Composed<W>(
    program: Program<W>, parameters: seq<TypeUse>, layers: seq<Layer>, target: CallTarget, w: W, values: seq<Address>)
    : (W, Ending)
    requires target.Target?
    decreases |layers|, 0
  {
    if layers == [] then Body(program, target, w, values)
    else
      var init, last := layers[..|layers| - 1], layers[|layers| - 1];
      program.layer(last.layer, Forwarding(program, parameters, init, target), w, values)
  }

  function Forwarding<W>(program: Program<W>, parameters: seq<TypeUse>, layers: seq<Layer>, target: CallTarget)
    : Behaviour<W>
    requires target.Target?
    decreases |layers|, 1
  {
    (w, values) =>
      if |values| != |parameters| then (w, ILL_TYPED)
      else
        match program.bind(w, ForwardBindings(parameters, values))
        case (w', Failure(exception)) => (w', Raised(exception))
        case (w', Success(prepared)) => Composed(program, parameters, layers, target, w', prepared)
  }

  lemma ForwardedBindings(parameters: seq<TypeUse>, values: seq<Address>)
    requires |parameters| == |values|
    ensures Bindings(parameters, Forwarded(parameters, values)) == ForwardBindings(parameters, values)
  {
    var left, right := Bindings(parameters, Forwarded(parameters, values)), ForwardBindings(parameters, values);
    forall i | 0 <= i < |values|
      ensures left[i] == right[i]
    {
      assert left[i] == CallArgument(parameters[i], ForwardedView(parameters[i], values[i]));
    }
  }

  /** A result that a target captures is always fetched again. */
  lemma ResultsComeBack(
    declared: Signature, previous: CallTarget, receiver: ObjectView, inner: seq<ArgumentView>, ending: Ending)
    requires previous.Target? && CompatibleSignature(declared, previous.signature)
    ensures Extracted(declared.result, previous, receiver, inner, ending) == ending
  {
  }

  /** Whatever `original` is asked to pass on is let through. */
  ghost predicate Relays(declared: Signature, previous: CallTarget) {
    && previous.Target? && CompatibleSignature(declared, previous.signature)
    && forall values: seq<Address> :: |values| == |declared.parameters| ==>
         FrameError(previous, OwnReceiver(previous), Forwarded(declared.parameters, values), Erased).None?
  }

  lemma {:induction false} WrappedIsAround(declared: Signature, target: CallTarget, layers: seq<Layer>)
    requires target.Target? && SupportedSignature(declared) && CompatibleSignature(declared, target.signature)
    ensures var r := Wrapped(declared, target, layers);
            && CompatibleSignature(declared, r.signature)
            && r.options == target.options.(nativeDependency := r.options.nativeDependency)
            && (layers != [] ==> r.signature == declared)
  {
    if layers != [] {
      WrappedIsAround(declared, target, layers[..|layers| - 1]);
    }
  }

  lemma {:induction false} BodyIsComposed<W(!new)>(
    program: Program<W>, declared: Signature, target: CallTarget, layers: seq<Layer>, w: W, values: seq<Address>)
    requires OnlyCalls(program)
    requires target.Target?
    requires forall n :: 0 <= n < |layers| ==> Relays(declared, Wrapped(declared, target, layers[..n]))
    ensures Body(program, Wrapped(declared, target, layers), w, values)
            == Composed(program, declared.parameters, layers, target, w, values)
    decreases |layers|, 0
  {
    if layers != [] {
      var init, last := layers[..|layers| - 1], layers[|layers| - 1];
      forall w', values'
        ensures Original(program, declared, Wrapped(declared, target, init))(w', values')
                == Forwarding(program, declared.parameters, init, target)(w', values')
      {
        assert forall n :: 0 <= n < |init| ==> init[..n] == layers[..n];
        OriginalIsForwarding(program, declared, target, init, w', values');
      }
      assert SameBehaviour(Original(program, declared, Wrapped(declared, target, init)),
                           Forwarding(program, declared.parameters, init, target));
    }
  }

  lemma {:induction false} OriginalIsForwarding<W(!new)>(
    program: Program<W>, declared: Signature, target: CallTarget, layers: seq<Layer>, w: W, values: seq<Address>)
    requires OnlyCalls(program)
    requires target.Target? && Relays(declared, Wrapped(declared, target, layers))
    requires forall n :: 0 <= n < |layers| ==> Relays(declared, Wrapped(declared, target, layers[..n]))
    ensures Original(program, declared, Wrapped(declared, target, layers))(w, values)
            == Forwarding(program, declared.parameters, layers, target)(w, values)
    decreases |layers|, 1
  {
    if |values| == |declared.parameters| {
      var previous := Wrapped(declared, target, layers);
      var inner := Forwarded(declared.parameters, values);
      ForwardedBindings(declared.parameters, values);
      var bound := program.bind(w, Bindings(declared.parameters, inner));
      if bound.1.Success? {
        BodyIsComposed(program, declared, target, layers, bound.0, bound.1.value);
        ResultsComeBack(declared, previous, OwnReceiver(previous), inner,
                        Body(program, previous, bound.0, bound.1.value).1);
      }
    }
  }

  /** The wrapper around any number of layers shares what matters with each target inside it. */
  lemma WrappersAreAround(declared: Signature, target: CallTarget, layers: seq<Layer>, n: nat)
    requires target.Target? && SupportedSignature(declared) && CompatibleSignature(declared, target.signature)
    requires n < |layers|
    ensures Around(declared, Wrapped(declared, target, layers), Wrapped(declared, target, layers[..n]))
  {
    WrappedIsAround(declared, target, layers);
    WrappedIsAround(declared, target, layers[..n]);
  }

  lemma EnteredRelays(
    declared: Signature, target: CallTarget, layers: seq<Layer>, n: nat,
    receiver: ObjectView, arguments: seq<ArgumentView>, mode: ExportKind)
    requires target.Target? && SupportedSignature(declared) && CompatibleSignature(declared, target.signature)
    requires n < |layers| && Forwardable(declared, target.options)
    requires Entered(Wrapped(declared, target, layers), receiver, arguments, mode)
    ensures Relays(declared, Wrapped(declared, target, layers[..n]))
  {
    var wrapper, previous := Wrapped(declared, target, layers), Wrapped(declared, target, layers[..n]);
    WrappersAreAround(declared, target, layers, n);
    WrappedIsAround(declared, target, layers[..n]);
    forall values: seq<Address> | |values| == |declared.parameters|
      ensures FrameError(previous, OwnReceiver(previous), Forwarded(declared.parameters, values), Erased).None?
    {
      ForwardingIsExact(declared, wrapper, previous, receiver, arguments, mode, values);
    }
  }

  /** The slot of a table and the signature its interface declares for it. */
  lemma SlotFitsDeclared(schema: InterfaceSchema, h: History, key: OperationKey)
    requires SchemaAccepted(schema) && AllAccepted(schema, LiveGen(h).current) && key in LiveGen(h).current
    ensures key in SchemaKeys(schema) && LiveGen(h).current[key].Target?
    ensures var declared := DeclaredSignature(schema, key);
            SupportedSignature(declared) && CompatibleSignature(declared, LiveGen(h).current[key].signature)
  {
    var slot := LiveGen(h).current[key];
    var i :| 0 <= i < |schema| && schema[i].Key() == key && Fits(schema[i], slot);
    var j :| 0 <= j < |schema| && schema[j].Key() == key && schema[j].signature == DeclaredSignature(schema, key);
    assert i == j;
  }

  lemma EnteredComposes<W(!new)>(
    program: Program<W>, declared: Signature, target: CallTarget, layers: seq<Layer>,
    receiver: ObjectView, arguments: seq<ArgumentView>, mode: ExportKind, w: W, values: seq<Address>)
    requires OnlyCalls(program)
    requires target.Target? && SupportedSignature(declared) && CompatibleSignature(declared, target.signature)
    requires Forwardable(declared, target.options)
    requires Entered(Wrapped(declared, target, layers), receiver, arguments, mode)
    ensures Body(program, Wrapped(declared, target, layers), w, values)
            == Composed(program, declared.parameters, layers, target, w, values)
  {
    forall n | 0 <= n < |layers|
      ensures Relays(declared, Wrapped(declared, target, layers[..n]))
    {
      EnteredRelays(declared, target, layers, n, receiver, arguments, mode);
    }
    BodyIsComposed(program, declared, target, layers, w, values);
  }

  /** The slot after any number of wraps. */
  lemma WrappedSlot(schema: InterfaceSchema, h: History, key: OperationKey, layers: seq<Layer>)
    requires SchemaAccepted(schema) && AllAccepted(schema, LiveGen(h).current) && key in LiveGen(h).current
    ensures key in SchemaKeys(schema) && LiveGen(h).current[key].Target?
    ensures ResolveSlot(LiveGen(WrapAll(schema, h, key, layers)), key)
            == Some(Wrapped(DeclaredSignature(schema, key), LiveGen(h).current[key], layers))
  {
    WrapsNest(schema, h, key, layers);
  }

  /** A wrapper accepts the frames that what it wraps accepts, but for those whose read-only receiver
      the declared signature does not admit. */
  lemma EnteredIff(
    declared: Signature, target: CallTarget, layers: seq<Layer>,
    receiver: ObjectView, arguments: seq<ArgumentView>, mode: ExportKind)
    requires target.Target? && SupportedSignature(declared) && CompatibleSignature(declared, target.signature)
    requires layers != []
    ensures Entered(Wrapped(declared, target, layers), receiver, arguments, mode)
            <==> Entered(target, receiver, arguments, mode) && ReceiverAccepted(declared, EffectiveReceiver(target, receiver))
  {
    var wrapper, effective := Wrapped(declared, target, layers), EffectiveReceiver(target, receiver);
    WrappedIsAround(declared, target, layers);
    assert EffectiveReceiver(wrapper, receiver) == effective;
    if |declared.parameters| == |arguments| {
      assert ExportError(wrapper, effective, arguments, mode) == ExportError(target, effective, arguments, mode);
    }
  }

  /** The wrapped slot accepts the frame, and whatever its wrapper functions pass on is accepted too. */
  ghost predicate LetsThrough(
    declared: Signature, target: CallTarget, layers: seq<Layer>,
    receiver: ObjectView, arguments: seq<ArgumentView>, mode: ExportKind)
    requires target.Target?
  {
    && Entered(Wrapped(declared, target, layers), receiver, arguments, mode)
    && forall n :: 0 <= n < |layers| ==> Relays(declared, Wrapped(declared, target, layers[..n]))
  }

  /** What to look at before wrapping a slot that is called with this frame. */
  predicate MayWrap(declared: Signature, slot: CallTarget, receiver: ObjectView)
    requires slot.Target?
  {
    ReceiverAccepted(declared, EffectiveReceiver(slot, receiver)) && Forwardable(declared, slot.options)
  }

  /** Of the frames a slot accepts, exactly these go through its wrappers to it. */
  lemma LetsThroughIff(
    declared: Signature, target: CallTarget, layers: seq<Layer>,
    receiver: ObjectView, arguments: seq<ArgumentView>, mode: ExportKind)
    requires target.Target? && SupportedSignature(declared) && CompatibleSignature(declared, target.signature)
    requires layers != [] && Entered(target, receiver, arguments, mode)
    ensures LetsThrough(declared, target, layers, receiver, arguments, mode) <==> MayWrap(declared, target, receiver)
  {
    EnteredIff(declared, target, layers, receiver, arguments, mode);
    if MayWrap(declared, target, receiver) {
      forall n | 0 <= n < |layers|
        ensures Relays(declared, Wrapped(declared, target, layers[..n]))
      {
        EnteredRelays(declared, target, layers, n, receiver, arguments, mode);
      }
    }
    if LetsThrough(declared, target, layers, receiver, arguments, mode) {
      RelayedIsForwardable(declared, target, layers, receiver, arguments, mode);
    }
  }

  lemma RelayedIsForwardable(
    declared: Signature, target: CallTarget, layers: seq<Layer>,
    receiver: ObjectView, arguments: seq<ArgumentView>, mode: ExportKind)
    requires target.Target? && SupportedSignature(declared) && CompatibleSignature(declared, target.signature)
    requires layers != [] && LetsThrough(declared, target, layers, receiver, arguments, mode)
    ensures Forwardable(declared, target.options)
  {
    var values: seq<Address> := seq(|declared.parameters|, _ => 1);
    assert Relays(declared, Wrapped(declared, target, layers[..0]));
    WrappersAreAround(declared, target, layers, 0);
    ForwardingIsExact(declared, Wrapped(declared, target, layers), target, receiver, arguments, mode, values);
  }

  /** A frame that a slot accepts is accepted and let through after any number of wraps exactly if it
      may be wrapped. Then the wrapped slot behaves as the plain composition of its wrapper functions
      around what the slot held, the last one outermost. */
  lemma WrapsCompose<W(!new)>(
    program: Program<W>, schema: InterfaceSchema, h: History, key: OperationKey, layers: seq<Layer>,
    receiver: ObjectView, arguments: seq<ArgumentView>, mode: ExportKind, w: W, values: seq<Address>)
    requires OnlyCalls(program)
    requires SchemaAccepted(schema) && AllAccepted(schema, LiveGen(h).current) && key in LiveGen(h).current
    requires Entered(LiveGen(h).current[key], receiver, arguments, mode) && layers != []
    ensures key in SchemaKeys(schema) && LiveGen(h).current[key].Target?
    ensures
      var slot, declared := LiveGen(h).current[key], DeclaredSignature(schema, key);
      var wrapped := ResolveSlot(LiveGen(WrapAll(schema, h, key, layers)), key).GetOr(NullTarget);
      && wrapped == Wrapped(declared, slot, layers)
      && (LetsThrough(declared, slot, layers, receiver, arguments, mode) <==> MayWrap(declared, slot, receiver))
      && (MayWrap(declared, slot, receiver) ==>
            Body(program, wrapped, w, values) == Composed(program, declared.parameters, layers, slot, w, values))
  {
    SlotFitsDeclared(schema, h, key);
    WrappedSlot(schema, h, key, layers);
    var slot, declared := LiveGen(h).current[key], DeclaredSignature(schema, key);
    LetsThroughIff(declared, slot, layers, receiver, arguments, mode);
    if MayWrap(declared, slot, receiver) {
      EnteredComposes(program, declared, slot, layers, receiver, arguments, mode, w, values);
    }
  }

  /** Why nothing gets through a wrapper whose parameters cannot be forwarded. */
  function ForwardFault(declared: Signature): Exception {
    ReflectionFault(if HasConstRvalue(declared.parameters) then RequiresConsumption else ReferenceExportRefused)
  }

  lemma EnteredBreaks<W(!new)>(
    program: Program<W>, declared: Signature, target: CallTarget, layers: seq<Layer>, n: nat,
    receiver: ObjectView, arguments: seq<ArgumentView>, mode: ExportKind, w: W, values: seq<Address>)
    requires target.Target? && SupportedSignature(declared) && CompatibleSignature(declared, target.signature)
    requires n < |layers| && |values| == |declared.parameters| && !Forwardable(declared, target.options)
    requires Entered(Wrapped(declared, target, layers), receiver, arguments, mode)
    ensures Original(program, declared, Wrapped(declared, target, layers[..n]))(w, values)
            == (w, Raised(ForwardFault(declared)))
  {
    WrappersAreAround(declared, target, layers, n);
    WrappedIsAround(declared, target, layers[..n]);
    ForwardingIsExact(declared, Wrapped(declared, target, layers), Wrapped(declared, target, layers[..n]),
                      receiver, arguments, mode, values);
  }

  /** Where they cannot, no wrapper function ever reaches what it wraps: each of its calls of
      `original` raises, and nothing has run. */
  lemma UnforwardableWrapsBreak<W(!new)>(
    program: Program<W>, schema: InterfaceSchema, h: History, key: OperationKey, layers: seq<Layer>, n: nat,
    receiver: ObjectView, arguments: seq<ArgumentView>, mode: ExportKind, w: W, values: seq<Address>)
    requires SchemaAccepted(schema) && AllAccepted(schema, LiveGen(h).current) && key in LiveGen(h).current
    requires n < |layers|
    ensures key in SchemaKeys(schema) && LiveGen(h).current[key].Target?
    ensures
      var slot, declared := LiveGen(h).current[key], DeclaredSignature(schema, key);
      var wrapped := ResolveSlot(LiveGen(WrapAll(schema, h, key, layers)), key).GetOr(NullTarget);
      && wrapped.Target?
      && (!Forwardable(declared, slot.options) && Entered(wrapped, receiver, arguments, mode)
          && |values| == |declared.parameters| ==>
            Original(program, declared, Wrapped(declared, slot, layers[..n]))(w, values) == (w, Raised(ForwardFault(declared))))
  {
    SlotFitsDeclared(schema, h, key);
    WrappedSlot(schema, h, key, layers);
    var slot, declared := LiveGen(h).current[key], DeclaredSignature(schema, key);
    if && !Forwardable(declared, slot.options) && |values| == |declared.parameters|
       && Entered(Wrapped(declared, slot, layers), receiver, arguments, mode)
    {
      EnteredBreaks(program, declared, slot, layers, n, receiver, arguments, mode, w, values);
    }
  }

  // --------------------------------------------------------------------
  // Three wraps that break the slot they wrap.
  // --------------------------------------------------------------------

  /** int get() in the interface, int get() const in the slot, bound to an object: the slot takes a const
      call, and after a wrap it refuses the same call. */
  lemma WrappingAConstMethodBreaks(layer: Layer, member: MemberId)
    ensures
      var declared := Signature([], TypeUse(2, Unqualified, ByValue, true), ReceiverQualifiers(Unqualified, ByValue), false);
      var bound := ObjectView(8, TypeUse(3, Unqualified, ByValue, true), None);
      var slot := Target(declared.(receiver := ReceiverQualifiers(Constant, ByValue)),
                         DEFAULT_OPTIONS.(receiver := bound), Function(0));
      var schema := [OperationDescriptor(member, declared, Method)];
      var wrapper := WrapTarget(declared, slot, layer);
      && SchemaAccepted(schema) && Made(slot) && Accepts(schema, OperationKey(member, Method), slot)
      && Forwardable(declared, slot.options)
      && Entered(slot, bound.AsConst(), [], Erased)
      && FrameError(wrapper, EffectiveReceiver(wrapper, bound.AsConst()), [], Erased) == Some((ReadOnly, None))
  {
    var declared := Signature([], TypeUse(2, Unqualified, ByValue, true), ReceiverQualifiers(Unqualified, ByValue), false);
    var bound := ObjectView(8, TypeUse(3, Unqualified, ByValue, true), None);
    var slot := Target(declared.(receiver := ReceiverQualifiers(Constant, ByValue)),
                       DEFAULT_OPTIONS.(receiver := bound), Function(0));
    var schema := [OperationDescriptor(member, declared, Method)];
    assert schema[0].Key() == OperationKey(member, Method) && Fits(schema[0], slot);
  }

  /** int& f(int), made with default options, called with an lvalue. */
  lemma WrappingAReferenceToUnknownBreaks<W(!new)>(program: Program<W>, layer: Layer, w: W)
    ensures
      var int_ := TypeUse(2, Unqualified, ByValue, true);
      var declared := Signature([int_], int_.(reference := LValueReference), ReceiverQualifiers(Unqualified, ByValue), false);
      Breaks(program, declared, [ArgumentView(ObjectView(8, int_, None), LValue)], layer, w, ReferenceExportRefused)
  {
    var int_ := TypeUse(2, Unqualified, ByValue, true);
    var declared := Signature([int_], int_.(reference := LValueReference), ReceiverQualifiers(Unqualified, ByValue), false);
    var arguments := [ArgumentView(ObjectView(8, int_, None), LValue)];
    assert ArgumentError(int_, arguments[0]).None?;
    assert int_.reference == ByValue && declared.parameters[0] == int_;
    BreaksIfUnforwardable(program, declared, arguments, layer, w);
  }

  /** void f(const int&&), called with a consumable argument. */
  lemma WrappingAConstRvalueBreaks<W(!new)>(program: Program<W>, layer: Layer, w: W)
    ensures
      var int_ := TypeUse(2, Unqualified, ByValue, true);
      var declared := Signature([TypeUse(2, Constant, RValueReference, true)], TypeUse(VOID_TYPE, Unqualified, ByValue, false),
                                ReceiverQualifiers(Unqualified, ByValue), false);
      Breaks(program, declared, [ArgumentView(ObjectView(8, int_, None), Consumable)], layer, w, RequiresConsumption)
  {
    var int_ := TypeUse(2, Unqualified, ByValue, true);
    var parameter := TypeUse(2, Constant, RValueReference, true);
    var declared := Signature([parameter], TypeUse(VOID_TYPE, Unqualified, ByValue, false),
                              ReceiverQualifiers(Unqualified, ByValue), false);
    var arguments := [ArgumentView(ObjectView(8, int_, None), Consumable)];
    assert ArgumentError(parameter, arguments[0]).None?;
    assert IsConstRvalue(declared.parameters[0]);
    BreaksIfUnforwardable(program, declared, arguments, layer, w);
  }

  const DEFAULT_OPTIONS := TargetOptions(UnknownLifetime, Restricted, UnknownDependency, 0, NULL_VIEW, None, Method)

  /** A plain target accepts the frame, its wrapper accepts it too, and yet a wrapper function that
      just calls `original` ends in an exception with nothing run. */
  ghost predicate Breaks<W(!new)>(
    program: Program<W>, declared: Signature, arguments: seq<ArgumentView>, layer: Layer, w: W, code: DiagnosticCode)
  {
    var target := Target(declared, DEFAULT_OPTIONS, Function(0));
    var wrapper := WrapTarget(declared, target, layer);
    && Made(target)
    && Entered(target, NULL_VIEW, arguments, Erased)
    && Entered(wrapper, NULL_VIEW, arguments, Erased)
    && forall values: seq<Address> :: |values| == |declared.parameters| ==>
         Original(program, declared, target)(w, values) == (w, Raised(ReflectionFault(code)))
  }

  lemma BreaksIfUnforwardable<W(!new)>(
    program: Program<W>, declared: Signature, arguments: seq<ArgumentView>, layer: Layer, w: W)
    requires SupportedSignature(declared) && !Forwardable(declared, DEFAULT_OPTIONS)
    requires |arguments| == |declared.parameters|
    requires forall i :: 0 <= i < |arguments| ==> ArgumentError(declared.parameters[i], arguments[i]).None?
    requires declared.result.reference == ByValue || forall i :: 0 <= i < |arguments| ==> arguments[i].category == LValue
    ensures Breaks(program, declared, arguments, layer, w, ForwardFault(declared).code)
  {
    var target := Target(declared, DEFAULT_OPTIONS, Function(0));
    var wrapper := WrapTarget(declared, target, layer);
    NoArgumentError(declared.parameters, arguments, 0);
    assert Entered(target, NULL_VIEW, arguments, Erased);
    assert Entered(wrapper, NULL_VIEW, arguments, Erased);
    forall values: seq<Address> | |values| == |declared.parameters|
      ensures Original(program, declared, target)(w, values) == (w, Raised(ForwardFault(declared)))
    {
      ForwardingIsExact(declared, wrapper, target, NULL_VIEW, arguments, Erased, values);
    }
  }
}
