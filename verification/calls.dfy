/** Views, targets and the checked call path (core/value.hpp, core/call.hpp, runtime/invoke.hpp). */
module Calls {
  import opened Wrappers
  import opened Types

  // --------------------------------------------------------------------
  // Values and views.
  // --------------------------------------------------------------------

  /** The identity of a shared owner. */
  type OwnerId = nat

  type Anchor = Option<OwnerId>

  datatype ValueCategory = LValue | Consumable

  /** A view of the storage at `address`; address 0 is the null view. */
  datatype ObjectView = ObjectView(address: nat, use: TypeUse, anchor: Anchor) {
    predicate Valid() {
      address != 0
    }

    predicate IsReadOnly() {
      IsConst(use.qualifiers)
    }

    function AsConst(): (r: ObjectView)
      ensures r.address == address && r.use.id == use.id && r.anchor == anchor && r.IsReadOnly()
    {
      this.(use := use.(qualifiers := Constant))
    }

    /** A pointer to the storage as `id`, const or not; the address on success. */
    function Get(id: TypeId, asConst: bool): (r: Result<nat, DiagnosticCode>)
      ensures r.Success? <==> Valid() && use.id == id && (IsReadOnly() ==> asConst)
      ensures r.Success? ==> r.value == address
    {
      if !Valid() then Failure(NullHandle)
      else if use.id != id then Failure(TypeMismatch)
      else if IsReadOnly() && !asConst then Failure(ReadOnly)
      else Success(address)
    }
  }

  const NULL_VIEW := ObjectView(0, NO_TYPE, None)

  datatype ArgumentView = ArgumentView(object_: ObjectView, category: ValueCategory)

  datatype CallResult = VoidResult | OwnedResult(view: ObjectView) | ViewResult(view: ObjectView)

  function ResultView(result: CallResult): ObjectView {
    if result.VoidResult? then NULL_VIEW else result.view
  }

  // --------------------------------------------------------------------
  // Targets.
  // --------------------------------------------------------------------

  datatype ResultLifetime = UnknownLifetime | ReceiverLifetime | ArgumentLifetime | CallableContext | External

  datatype ReferenceExport = Restricted | CallerBorrow

  datatype NativeDependency = UnknownDependency | Independent | Native

  datatype ExportKind = Erased | RawReference | RetainedReference

  datatype TargetOptions = TargetOptions(
    resultLifetime: ResultLifetime,
    referenceExport: ReferenceExport,
    nativeDependency: NativeDependency,
    argumentIndex: nat,
    receiver: ObjectView,
    externalAnchor: Anchor,
    operation: OperationKind)

  /** The type of a void result. */
  const VOID_TYPE: TypeId := 1

  /** What a target runs: a callable kept alive by its context, a constructor, or a wrapper that
      captured the target it wraps. */
  datatype Callable =
    | Function(context: OwnerId)
    | Constructor
    | Wrapper(context: OwnerId, layer: nat, previous: CallTarget)

  datatype CallTarget = NullTarget | Target(signature: Signature, options: TargetOptions, callable: Callable)

  /** The targets that CallTarget::make and CallTarget::constructor build. */
  predicate Made(target: CallTarget) {
    target.Target? ==>
      && SupportedSignature(target.signature)
      && (target.callable.Constructor? ==> target.signature.result.reference == ByValue)
  }

  /** make: refuses a signature that cannot be called, and a callable that cannot be called with it. */
  function MakeTarget(signature: Signature, callable: Callable, invocable: bool, options: TargetOptions)
    : (r: Result<CallTarget, DiagnosticCode>)
    requires !callable.Constructor?
    ensures r.Success? <==> SupportedSignature(signature) && invocable
    ensures r.Success? ==> r.value.Target? && Made(r.value) && r.value.callable == callable
    ensures r.Success? ==> r.value.signature == signature && r.value.options == options
    ensures r.Failure? ==> r.error == Unsupported
  {
    if SupportedSignature(signature) && invocable then Success(Target(signature, options, callable))
    else Failure(Unsupported)
  }

  function ResultAnchor(options: TargetOptions, receiver: ObjectView, arguments: seq<ArgumentView>, context: Anchor)
    : Anchor
  {
    match options.resultLifetime
    case ReceiverLifetime => receiver.anchor
    case ArgumentLifetime =>
      if options.argumentIndex < |arguments| then arguments[options.argumentIndex].object_.anchor else None
    case CallableContext => context
    case External => options.externalAnchor
    case UnknownLifetime => None
  }

  function ContextOf(callable: Callable): Anchor {
    if callable.Constructor? then None else Some(callable.context)
  }

  /** How a successful run of the callable is captured, with the result at `address`. */
  function Capture(target: CallTarget, receiver: ObjectView, arguments: seq<ArgumentView>, address: nat, owner: OwnerId)
    : CallResult
    requires target.Target?
  {
    var result := target.signature.result;
    if result.reference == ByValue && result.id == VOID_TYPE then VoidResult
    else if result.reference == ByValue then
      OwnedResult(ObjectView(address, result.(qualifiers := Unqualified), Some(owner)))
    else
      ViewResult(ObjectView(address, result.(reference := ByValue),
                            ResultAnchor(target.options, receiver, arguments, ContextOf(target.callable))))
  }

  /** The owner that the declared lifetime of a reference result names. */
  ghost predicate OwnerNamed(target: CallTarget, receiver: ObjectView, arguments: seq<ArgumentView>, anchor: Anchor)
    requires target.Target?
  {
    match target.options.resultLifetime
    case ReceiverLifetime => anchor == receiver.anchor
    case ArgumentLifetime =>
      if target.options.argumentIndex < |arguments| then
        anchor == arguments[target.options.argumentIndex].object_.anchor
      else anchor == None
    case CallableContext => if target.callable.Constructor? then anchor == None else anchor == Some(target.callable.context)
    case External => anchor == target.options.externalAnchor
    case UnknownLifetime => anchor == None
  }

  /** What a call comes back with: nothing for a void result; for a value, an object of its own that may
      be written and lives as long as its owner; for a reference, the storage referred to, with the
      rights of the reference and the owner its lifetime names. */
  lemma CapturedResult(
    target: CallTarget, receiver: ObjectView, arguments: seq<ArgumentView>, address: nat, owner: OwnerId)
    requires target.Target? && address != 0
    ensures
      var declared, result := target.signature.result, Capture(target, receiver, arguments, address, owner);
      var view := ResultView(result);
      && (result.VoidResult? <==> declared.reference == ByValue && declared.id == VOID_TYPE)
      && (result.OwnedResult? <==> declared.reference == ByValue && declared.id != VOID_TYPE)
      && (result.VoidResult? ==> !view.Valid())
      && (!result.VoidResult? ==>
            && view.Get(declared.id, true) == Success(address)
            && view.use.reference == ByValue && view.use.copyable == declared.copyable)
      && (result.OwnedResult? ==> view.Get(declared.id, false) == Success(address) && view.anchor == Some(owner))
      && (result.ViewResult? ==>
            && (view.Get(declared.id, false).Success? <==> !IsConst(declared.qualifiers))
            && view.use.qualifiers == declared.qualifiers
            && OwnerNamed(target, receiver, arguments, view.anchor))
  {
  }

  // --------------------------------------------------------------------
  // Arguments: what is checked, and what is then done unchecked.
  // --------------------------------------------------------------------

  /** How a parameter ends up bound to an argument's storage. */
  datatype Binding =
    | Referenced(address: nat, writable: bool)
    | Copied(address: nat)
    | MovedOut(address: nat)
    | Undefined  // the dereference of an error

  function Dereferenced(pointer: Result<nat, DiagnosticCode>, bind: nat -> Binding): Binding {
    match pointer
    case Success(address) => bind(address)
    case Failure(_) => Undefined
  }

  /** call_argument: dereferences the view without asking whether that succeeds. */
  function CallArgument(parameter: TypeUse, argument: ArgumentView): Binding {
    var object_ := argument.object_;
    if parameter.reference != ByValue then
      Dereferenced(object_.Get(parameter.id, IsConst(parameter.qualifiers)),
                   (a: nat) => Referenced(a, !IsConst(parameter.qualifiers)))
    else if parameter.copyable && (argument.category == LValue || object_.IsReadOnly()) then
      Dereferenced(object_.Get(parameter.id, true), (a: nat) => Copied(a))
    else
      Dereferenced(object_.Get(parameter.id, false), (a: nat) => MovedOut(a))
  }

  function ArgumentError(parameter: TypeUse, argument: ArgumentView): Option<DiagnosticCode> {
    var object_ := argument.object_;
    if !object_.Valid() then Some(NullHandle)
    else if parameter.id != object_.use.id then Some(TypeMismatch)
    else if parameter.reference != ByValue && !IsConst(parameter.qualifiers) && object_.IsReadOnly() then
      Some(ReadOnly)
    else if parameter.reference == LValueReference && !IsConst(parameter.qualifiers)
            && argument.category != LValue then
      Some(TypeMismatch)
    else if (parameter.reference == RValueReference || (parameter.reference == ByValue && !parameter.copyable))
            && (argument.category != Consumable || object_.IsReadOnly()) then
      Some(RequiresConsumption)
    else None
  }

  /** The category an argument must have for the parameter to be bound as declared. */
  predicate CategoryFits(parameter: TypeUse, argument: ArgumentView) {
    match parameter.reference
    case LValueReference => IsConst(parameter.qualifiers) || argument.category == LValue
    case RValueReference => argument.category == Consumable && !argument.object_.IsReadOnly()
    case ByValue => parameter.copyable || argument.category == Consumable
  }

  /** The argument check accepts exactly the arguments whose unchecked use is defined and whose
      category is the one the parameter asks for. */
  lemma ArgumentCheckIsExact(parameter: TypeUse, argument: ArgumentView)
    ensures ArgumentError(parameter, argument).None?
            <==> CallArgument(parameter, argument) != Undefined && CategoryFits(parameter, argument)
  {
    var object_ := argument.object_;
    assert object_.Get(parameter.id, true).Success? <==> object_.Valid() && object_.use.id == parameter.id;
  }

  /** An accepted argument is used within its rights: it is bound to the storage of its view,
      moved from exactly when a value is taken from consumable writable storage, and written
      through only where the view may be written. */
  predicate UsedWithinRights(parameter: TypeUse, argument: ArgumentView) {
    var binding := CallArgument(parameter, argument);
    && binding != Undefined
    && binding.address == argument.object_.address
    && (binding.MovedOut? <==> parameter.reference == ByValue && argument.category == Consumable
                               && !argument.object_.IsReadOnly())
    && (binding.Referenced? <==> parameter.reference != ByValue)
    && (binding.Referenced? ==> (binding.writable <==> !IsConst(parameter.qualifiers)))
    && (binding.Referenced? && binding.writable ==> !argument.object_.IsReadOnly())
    && (parameter.reference == RValueReference ==> argument.category == Consumable)
  }

  lemma AcceptedArgumentIsSafe(parameter: TypeUse, argument: ArgumentView)
    requires ArgumentError(parameter, argument).None?
    ensures UsedWithinRights(parameter, argument)
  {
    ArgumentCheckIsExact(parameter, argument);
  }

  // --------------------------------------------------------------------
  // The validator.
  // --------------------------------------------------------------------

  datatype Diagnostic = Diagnostic(code: DiagnosticCode, member: MemberId, argumentIndex: Option<nat>)

  /** A bound receiver replaces the frame's; a const call stays const. */
  function EffectiveReceiver(target: CallTarget, receiver: ObjectView): (r: ObjectView)
    ensures var bound := target.Target? && target.options.receiver.Valid();
            var source := if bound then target.options.receiver else receiver;
            && r.address == source.address && r.use.id == source.use.id && r.anchor == source.anchor
            && (r.IsReadOnly() <==> receiver.IsReadOnly() || source.IsReadOnly())
  {
    if target.Target? && target.options.receiver.Valid() then
      if receiver.IsReadOnly() then target.options.receiver.AsConst() else target.options.receiver
    else receiver
  }

  predicate ReceiverAccepted(signature: Signature, receiver: ObjectView) {
    receiver.Valid() && receiver.IsReadOnly() ==> IsConst(signature.receiver.qualifiers)
  }

  /** The first argument from the `i`-th on that the check refuses. */
  function FirstArgumentError(parameters: seq<TypeUse>, arguments: seq<ArgumentView>, i: nat): Option<(nat, DiagnosticCode)>
    requires i <= |parameters| == |arguments|
    decreases |parameters| - i
  {
    if i == |parameters| then None
    else
      match ArgumentError(parameters[i], arguments[i])
      case Some(code) => Some((i, code))
      case None => FirstArgumentError(parameters, arguments, i + 1)
  }

  function ExportError(target: CallTarget, receiver: ObjectView, arguments: seq<ArgumentView>, mode: ExportKind)
    : Option<DiagnosticCode>
    requires target.Target?
  {
    var options := target.options;
    if target.signature.result.reference == ByValue then
      if mode == Erased then None else Some(TypeMismatch)
    else if mode == RawReference && options.referenceExport != CallerBorrow then Some(ReferenceExportRefused)
    else if mode == RawReference && options.resultLifetime == ArgumentLifetime
            && (options.argumentIndex >= |arguments| || arguments[options.argumentIndex].category == Consumable) then
      Some(ReferenceExportRefused)
    else if options.resultLifetime == UnknownLifetime
            && exists i :: 0 <= i < |arguments| && arguments[i].category == Consumable then
      Some(ReferenceExportRefused)
    else if mode == RetainedReference
            && (|| options.resultLifetime == UnknownLifetime
                || (options.resultLifetime != CallableContext
                    && ResultAnchor(options, receiver, arguments, None).None?)) then
      Some(MissingAnchor)
    else None
  }

  /** Why a frame is refused before the target is entered, if it is. `receiver` is effective. */
  function FrameError(target: CallTarget, receiver: ObjectView, arguments: seq<ArgumentView>, mode: ExportKind)
    : Option<(DiagnosticCode, Option<nat>)>
  {
    if target.NullTarget? then Some((NullHandle, None))
    else if !SupportedSignature(target.signature) then Some((Unsupported, None))
    else if |target.signature.parameters| != |arguments| then Some((ArityMismatch, None))
    else if !ReceiverAccepted(target.signature, receiver) then Some((ReadOnly, None))
    else
      match FirstArgumentError(target.signature.parameters, arguments, 0)
      case Some((i, code)) => Some((code, Some(i)))
      case None =>
        match ExportError(target, receiver, arguments, mode)
        case Some(code) => Some((code, None))
        case None => None
  }

  lemma {:induction false} NoArgumentError(parameters: seq<TypeUse>, arguments: seq<ArgumentView>, i: nat)
    requires i <= |parameters| == |arguments|
    ensures FirstArgumentError(parameters, arguments, i).None?
            <==> forall k :: i <= k < |parameters| ==> ArgumentError(parameters[k], arguments[k]).None?
    decreases |parameters| - i
  {
    if i < |parameters| {
      NoArgumentError(parameters, arguments, i + 1);
    }
  }

  // --------------------------------------------------------------------
  // Diagnostics: when each code comes back.
  // --------------------------------------------------------------------

  /** A parameter that must consume its argument. */
  predicate Consumes(parameter: TypeUse) {
    parameter.reference == RValueReference || (parameter.reference == ByValue && !parameter.copyable)
  }

  lemma ArgumentCodes(parameter: TypeUse, argument: ArgumentView)
    ensures
      var view, error := argument.object_, ArgumentError(parameter, argument);
      var sameType := view.address != 0 && view.use.id == parameter.id;
      var writes := parameter.reference != ByValue && !IsConst(parameter.qualifiers);
      && (error == Some(NullHandle) <==> view.address == 0)
      && (error == Some(ReadOnly) <==> sameType && writes && view.IsReadOnly())
      && (error == Some(TypeMismatch) <==>
            || (view.address != 0 && !sameType)
            || (sameType && writes && !view.IsReadOnly() && parameter.reference == LValueReference
                && argument.category == Consumable))
      && (error == Some(RequiresConsumption) <==>
            && sameType && Consumes(parameter) && !(writes && view.IsReadOnly())
            && (argument.category == LValue || view.IsReadOnly()))
      && (error.Some? ==> error.value in {NullHandle, TypeMismatch, ReadOnly, RequiresConsumption})
  {
  }

  /** The scan names the first argument that is refused, with its code. */
  lemma {:induction false} FirstArgumentErrorIsFirst(parameters: seq<TypeUse>, arguments: seq<ArgumentView>, i: nat)
    requires i <= |parameters| == |arguments|
    ensures match FirstArgumentError(parameters, arguments, i)
            case None => forall k :: i <= k < |parameters| ==> ArgumentError(parameters[k], arguments[k]).None?
            case Some((j, code)) =>
              && i <= j < |parameters| && ArgumentError(parameters[j], arguments[j]) == Some(code)
              && forall k :: i <= k < j ==> ArgumentError(parameters[k], arguments[k]).None?
    decreases |parameters| - i
  {
    if i < |parameters| {
      FirstArgumentErrorIsFirst(parameters, arguments, i + 1);
    }
  }

  /** A reference that no mode of export may let out of the call: it might refer to what is consumed. */
  predicate MayReferToConsumed(target: CallTarget, arguments: seq<ArgumentView>)
    requires target.Target?
  {
    && target.options.resultLifetime == UnknownLifetime
    && exists i :: 0 <= i < |arguments| && arguments[i].category == Consumable
  }

  /** A raw reference that the target has not released to its callers. */
  predicate RawRefused(target: CallTarget, arguments: seq<ArgumentView>)
    requires target.Target?
  {
    || target.options.referenceExport == Restricted
    || (target.options.resultLifetime == ArgumentLifetime
        && (target.options.argumentIndex < |arguments| ==> arguments[target.options.argumentIndex].category == Consumable))
  }

  lemma ExportCodes(target: CallTarget, receiver: ObjectView, arguments: seq<ArgumentView>, mode: ExportKind)
    requires Made(target) && target.Target?
    ensures
      var error, value := ExportError(target, receiver, arguments, mode), target.signature.result.reference == ByValue;
      var consumed := MayReferToConsumed(target, arguments);
      && (error == Some(TypeMismatch) <==> value && mode != Erased)
      && (error == Some(ReferenceExportRefused) <==>
            !value && (consumed || (mode == RawReference && RawRefused(target, arguments))))
      && (error == Some(MissingAnchor) <==>
            !value && !consumed && mode == RetainedReference && OwnerNamed(target, receiver, arguments, None))
      && (error.Some? ==> error.value in {TypeMismatch, ReferenceExportRefused, MissingAnchor})
  {
  }

  /** What the validator reports, and that it looks at the target, the receiver, the arguments and the
      result in this order. */
  lemma FrameCodes(target: CallTarget, receiver: ObjectView, arguments: seq<ArgumentView>, mode: ExportKind)
    ensures
      var error := FrameError(target, receiver, arguments, mode);
      && (target.NullTarget? ==> error == Some((NullHandle, None)))
      && (target.Target? ==>
            var signature := target.signature;
            var called := SupportedSignature(signature);
            var arity := called && |signature.parameters| == |arguments|;
            var admitted := receiver.address != 0 && receiver.IsReadOnly() ==> IsConst(signature.receiver.qualifiers);
            && (error == Some((Unsupported, None)) <==> !called)
            && (error == Some((ArityMismatch, None)) <==> called && !arity)
            && (error == Some((ReadOnly, None)) <==> arity && !admitted)
            && (arity && admitted ==>
                  match FirstArgumentError(signature.parameters, arguments, 0)
                  case Some((i, code)) => error == Some((code, Some(i)))
                  case None =>
                    match ExportError(target, receiver, arguments, mode)
                    case Some(code) => error == Some((code, None))
                    case None => error == None))
  {
    if target.Target? && |target.signature.parameters| == |arguments| {
      FirstArgumentErrorIsFirst(target.signature.parameters, arguments, 0);
      if FirstArgumentError(target.signature.parameters, arguments, 0).Some? {
        var (i, code) := FirstArgumentError(target.signature.parameters, arguments, 0).value;
        ArgumentCodes(target.signature.parameters[i], arguments[i]);
      }
    }
  }

  /** Validation makes argument use safe: once a frame passes, every unchecked dereference is
      defined, only consumable writable storage is moved from, and no writable reference is
      formed over a read-only view. */
  lemma ValidatedArgumentsAreSafe(
    target: CallTarget, receiver: ObjectView, arguments: seq<ArgumentView>, mode: ExportKind, i: nat)
    requires FrameError(target, receiver, arguments, mode).None? && i < |arguments|
    ensures i < |target.signature.parameters|
    ensures UsedWithinRights(target.signature.parameters[i], arguments[i])
  {
    NoArgumentError(target.signature.parameters, arguments, 0);
    AcceptedArgumentIsSafe(target.signature.parameters[i], arguments[i]);
  }

  /** A reference may leave the call: no lifetime is guessed from consumed arguments, a raw
      reference is the caller's to keep valid, and a retained one would come with an owner. */
  ghost predicate MayExport(target: CallTarget, receiver: ObjectView, arguments: seq<ArgumentView>, mode: ExportKind)
    requires target.Target? && target.signature.result.reference != ByValue
  {
    var options := target.options;
    && (options.resultLifetime == UnknownLifetime ==>
          forall i :: 0 <= i < |arguments| ==> arguments[i].category == LValue)
    && (mode == RawReference ==>
          && options.referenceExport == CallerBorrow
          && (options.resultLifetime == ArgumentLifetime ==>
                options.argumentIndex < |arguments| && arguments[options.argumentIndex].category == LValue))
    && (mode == RetainedReference ==>
          forall address, owner :: ResultView(Capture(target, receiver, arguments, address, owner)).anchor.Some?)
  }

  /** What the validator lets through, said without its order of checks: in particular the
      retained-export check made before the call asks exactly for the anchor that the captured
      result will have, whichever of the five result lifetimes is declared. */
  lemma AcceptedFrames(target: CallTarget, receiver: ObjectView, arguments: seq<ArgumentView>, mode: ExportKind)
    requires Made(target)
    ensures FrameError(target, receiver, arguments, mode).None?
            <==> && target.Target?
                 && |target.signature.parameters| == |arguments|
                 && ReceiverAccepted(target.signature, receiver)
                 && (forall i :: 0 <= i < |arguments| ==>
                                   && CallArgument(target.signature.parameters[i], arguments[i]) != Undefined
                                   && CategoryFits(target.signature.parameters[i], arguments[i]))
                 && (if target.signature.result.reference == ByValue then mode == Erased
                     else MayExport(target, receiver, arguments, mode))
  {
    if target.Target? && |target.signature.parameters| == |arguments| {
      var parameters := target.signature.parameters;
      NoArgumentError(parameters, arguments, 0);
      forall i | 0 <= i < |arguments|
        ensures ArgumentError(parameters[i], arguments[i]).None?
                <==> CallArgument(parameters[i], arguments[i]) != Undefined && CategoryFits(parameters[i], arguments[i])
      {
        ArgumentCheckIsExact(parameters[i], arguments[i]);
      }
      if target.signature.result.reference != ByValue {
        ExportCheckIsExact(target, receiver, arguments, mode);
      }
    }
  }

  lemma ExportCheckIsExact(target: CallTarget, receiver: ObjectView, arguments: seq<ArgumentView>, mode: ExportKind)
    requires Made(target) && target.Target? && target.signature.result.reference != ByValue
    ensures ExportError(target, receiver, arguments, mode).None? <==> MayExport(target, receiver, arguments, mode)
  {
    assert ResultView(Capture(target, receiver, arguments, 0, 0)).anchor
           == ResultAnchor(target.options, receiver, arguments, ContextOf(target.callable));
  }

  /** A retained result keeps alive the owner its declared lifetime names, and never none. */
  lemma RetainedResultKeepsItsOwner(
    target: CallTarget, receiver: ObjectView, arguments: seq<ArgumentView>, address: nat, owner: OwnerId)
    requires Made(target) && FrameError(target, receiver, arguments, RetainedReference).None?
    ensures target.Target? && target.signature.result.reference != ByValue
    ensures var options, kept := target.options, ResultView(Capture(target, receiver, arguments, address, owner)).anchor;
            && kept.Some?
            && match options.resultLifetime
               case ReceiverLifetime => kept == receiver.anchor
               case ArgumentLifetime =>
                 options.argumentIndex < |arguments| && kept == arguments[options.argumentIndex].object_.anchor
               case CallableContext => !target.callable.Constructor? && kept == Some(target.callable.context)
               case External => kept == options.externalAnchor
               case UnknownLifetime => false
  {
    ExportCheckIsExact(target, receiver, arguments, RetainedReference);
  }

  /** Frames accepted for a required signature are accepted for every compatible one. */
  lemma CompatibleAcceptsMore(
    required: Signature, actual: Signature, receiver: ObjectView, arguments: seq<ArgumentView>)
    requires CompatibleSignature(required, actual)
    requires SupportedSignature(required) && |required.parameters| == |arguments|
    requires ReceiverAccepted(required, receiver)
    requires FirstArgumentError(required.parameters, arguments, 0).None?
    ensures SupportedSignature(actual) && |actual.parameters| == |arguments|
    ensures ReceiverAccepted(actual, receiver)
    ensures FirstArgumentError(actual.parameters, arguments, 0).None?
  {
  }

  /** A const call reaches a bound receiver only through a const method. */
  lemma ConstCallNeedsConstMethod(
    target: CallTarget, receiver: ObjectView, arguments: seq<ArgumentView>, mode: ExportKind)
    requires target.Target? && target.options.receiver.Valid() && receiver.IsReadOnly()
    requires FrameError(target, EffectiveReceiver(target, receiver), arguments, mode).None?
    ensures IsConst(target.signature.receiver.qualifiers)
  {
  }

  // --------------------------------------------------------------------
  // Invocation.
  // --------------------------------------------------------------------

  /** What user code does once it may run: the copy or move of a parameter throws, with some
      parameters already prepared; the callable or the capture of its result throws; or it
      returns a result at an address, and leaves the caller's argument views as `left`. */
  datatype Reply =
    | PreparationThrows(prepared: set<nat>)
    | BodyThrows
    | Replies(address: nat, owner: OwnerId, left: seq<ArgumentView>)

  /** The callable has changed the caller's views, which it must have got hold of by itself, such that
      the argument that was to keep the result alive has no owner any more. */
  predicate LosesAnchor(target: CallTarget, mode: ExportKind, reply: Reply)
    requires target.Target?
  {
    var options := target.options;
    && reply.Replies? && mode == RetainedReference
    && target.signature.result.reference != ByValue && options.resultLifetime == ArgumentLifetime
    && options.argumentIndex < |reply.left| && reply.left[options.argumentIndex].object_.anchor.None?
  }

  /** Once a frame has been validated, the captured result lacks an anchor exactly in that case. */
  lemma AnchorLostIff(
    target: CallTarget, receiver: ObjectView, arguments: seq<ArgumentView>, mode: ExportKind, reply: Reply)
    requires Made(target) && FrameError(target, receiver, arguments, mode).None?
    requires reply.Replies? && |reply.left| == |arguments|
    ensures target.Target?
    ensures mode == RetainedReference
            && ResultView(Capture(target, receiver, reply.left, reply.address, reply.owner)).anchor.None?
            <==> LosesAnchor(target, mode, reply)
  {
    if mode == RetainedReference {
      RetainedResultKeepsItsOwner(target, receiver, arguments, reply.address, reply.owner);
    }
  }

  /** A frame that is accepted, and a callable that drops the owner of its one argument's view. */
  lemma AnchorCanBeLost()
    ensures
      var int_ := TypeUse(2, Unqualified, ByValue, true);
      var reference := int_.(reference := LValueReference);
      var options := TargetOptions(ArgumentLifetime, Restricted, Independent, 0, NULL_VIEW, None, Method);
      var target := Target(Signature([reference], reference, ReceiverQualifiers(Unqualified, ByValue), false), options, Function(0));
      var owned := ArgumentView(ObjectView(8, int_, Some(1)), LValue);
      var dropped := ArgumentView(ObjectView(8, int_, None), LValue);
      && Made(target) && FrameError(target, NULL_VIEW, [owned], RetainedReference).None?
      && LosesAnchor(target, RetainedReference, Replies(8, 0, [dropped]))
  {
    var int_ := TypeUse(2, Unqualified, ByValue, true);
    var reference := int_.(reference := LValueReference);
    var options := TargetOptions(ArgumentLifetime, Restricted, Independent, 0, NULL_VIEW, None, Method);
    var target := Target(Signature([reference], reference, ReceiverQualifiers(Unqualified, ByValue), false), options, Function(0));
    var owned := ArgumentView(ObjectView(8, int_, Some(1)), LValue);
    assert FirstArgumentError([reference], [owned], 0).None? by {
      assert ArgumentError(reference, owned).None? && FirstArgumentError([reference], [owned], 1).None?;
    }
    assert ExportError(target, NULL_VIEW, [owned], RetainedReference).None?;
    assert !NULL_VIEW.Valid();
  }

  datatype InvokeResult = Refused(diagnostic: Diagnostic) | Threw | Returned(result: CallResult)

  class CallFrame {
    var receiver: ObjectView
    const arguments: seq<ArgumentView>

    constructor (receiver: ObjectView, arguments: seq<ArgumentView>)
      ensures this.receiver == receiver && this.arguments == arguments
    {
      this.receiver := receiver;
      this.arguments := arguments;
    }
  }

  /** The effects of calls on the program: the targets entered, in order, and the storage that
      parameters moved from. */
  class Effects {
    var entered: seq<CallTarget>
    var moved: set<nat>

    constructor ()
      ensures entered == [] && moved == {}
    {
      entered, moved := [], {};
    }

    /** Binds the parameters and runs the callable: the unchecked part of a call. */
    method Run(target: CallTarget, receiver: ObjectView, arguments: seq<ArgumentView>, reply: Reply)
      returns (r: InvokeResult)
      requires target.Target? && |target.signature.parameters| == |arguments|
      requires forall i :: 0 <= i < |arguments| ==> CallArgument(target.signature.parameters[i], arguments[i]) != Undefined
      requires reply.Replies? ==> |reply.left| == |arguments|
      modifies this
      ensures entered == if reply.PreparationThrows? then old(entered) else old(entered) + [target]
      ensures moved == old(moved) + MovedBy(target.signature.parameters, arguments, reply)
      ensures r == if reply.Replies? then Returned(Capture(target, receiver, reply.left, reply.address, reply.owner))
                   else Threw
    {
      moved := moved + MovedBy(target.signature.parameters, arguments, reply);
      if reply.PreparationThrows? {
        return Threw;
      }
      entered := entered + [target];
      if reply.BodyThrows? {
        return Threw;
      }
      r := Returned(Capture(target, receiver, reply.left, reply.address, reply.owner));
    }
  }

  /** The storage that preparing the parameters moves from. */
  function MovedBy(parameters: seq<TypeUse>, arguments: seq<ArgumentView>, reply: Reply): set<nat>
    requires |parameters| == |arguments|
  {
    set i | 0 <= i < |arguments| && CallArgument(parameters[i], arguments[i]).MovedOut?
            && (reply.PreparationThrows? ==> i in reply.prepared)
      :: arguments[i].object_.address
  }

  /** An accepted call moves exactly from the storage of the consumable, writable arguments that values
      are taken from; one whose preparation throws, from those among them that were prepared. */
  lemma MovedExactly(
    target: CallTarget, receiver: ObjectView, arguments: seq<ArgumentView>, mode: ExportKind, reply: Reply, address: nat)
    requires FrameError(target, receiver, arguments, mode).None?
    ensures target.Target? && |target.signature.parameters| == |arguments|
    ensures address in MovedBy(target.signature.parameters, arguments, reply)
            <==> exists i :: && 0 <= i < |arguments| && arguments[i].object_.address == address
                             && target.signature.parameters[i].reference == ByValue
                             && arguments[i].category == Consumable && !arguments[i].object_.IsReadOnly()
                             && (reply.PreparationThrows? ==> i in reply.prepared)
  {
    forall i | 0 <= i < |arguments|
      ensures UsedWithinRights(target.signature.parameters[i], arguments[i])
    {
      ValidatedArgumentsAreSafe(target, receiver, arguments, mode, i);
    }
  }

  function Refuse(member: MemberId, error: (DiagnosticCode, Option<nat>)): InvokeResult {
    Refused(Diagnostic(error.0, member, error.1))
  }

  /** The argument scan of the validator. */
  method CheckArguments(parameters: seq<TypeUse>, arguments: seq<ArgumentView>)
    returns (r: Option<(nat, DiagnosticCode)>)
    requires |parameters| == |arguments|
    ensures r == FirstArgumentError(parameters, arguments, 0)
  {
    for i := 0 to |parameters|
      invariant FirstArgumentError(parameters, arguments, 0) == FirstArgumentError(parameters, arguments, i)
    {
      var error := ArgumentError(parameters[i], arguments[i]);
      if error.Some? {
        return Some((i, error.value));
      }
    }
    return None;
  }

  /** An error comes back when the frame is refused, and then nothing has run and nothing has been
      moved from. The check after the call turns a result into an error only where the callable has
      taken the owner away from an argument of the caller's. */
  method InvokeTarget(
    target: CallTarget, frame: CallFrame, member: MemberId, mode: ExportKind, effects: Effects, reply: Reply)
    returns (r: InvokeResult)
    requires Made(target)
    requires reply.Replies? ==> |reply.left| == |frame.arguments|
    modifies frame`receiver, effects
    ensures frame.receiver == EffectiveReceiver(target, old(frame.receiver))
    ensures var error := FrameError(target, frame.receiver, frame.arguments, mode);
            if error.Some? then
              && r == Refused(Diagnostic(error.value.0, member, error.value.1))
              && effects.entered == old(effects.entered) && effects.moved == old(effects.moved)
            else
              && effects.entered == old(effects.entered) + (if reply.PreparationThrows? then [] else [target])
              && effects.moved == old(effects.moved) + MovedBy(target.signature.parameters, frame.arguments, reply)
              && (if !reply.Replies? then r == Threw
                  else if LosesAnchor(target, mode, reply) then r == Refused(Diagnostic(MissingAnchor, member, None))
                  else r == Returned(Capture(target, frame.receiver, reply.left, reply.address, reply.owner)))
  {
    if target.NullTarget? {
      return Refuse(member, (NullHandle, None));
    }
    if target.options.receiver.Valid() {
      var readOnly := frame.receiver.IsReadOnly();
      frame.receiver := target.options.receiver;
      if readOnly {
        frame.receiver := frame.receiver.AsConst();
      }
    }
    var signature, arguments := target.signature, frame.arguments;
    if !SupportedSignature(signature) {
      return Refuse(member, (Unsupported, None));
    }
    if |signature.parameters| != |arguments| {
      return Refuse(member, (ArityMismatch, None));
    }
    if frame.receiver.Valid() && frame.receiver.IsReadOnly() && !IsConst(signature.receiver.qualifiers) {
      return Refuse(member, (ReadOnly, None));
    }
    var mismatch := CheckArguments(signature.parameters, arguments);
    if mismatch.Some? {
      return Refuse(member, (mismatch.value.1, Some(mismatch.value.0)));
    }
    var exported := ExportError(target, frame.receiver, arguments, mode);
    if exported.Some? {
      return Refuse(member, (exported.value, None));
    }
    r := RunValidated(target, frame.receiver, arguments, member, mode, effects, reply);
  }

  /** How a call ends once the target has been entered, or its parameters have been prepared. */
  function Ended(target: CallTarget, receiver: ObjectView, member: MemberId, mode: ExportKind, reply: Reply): InvokeResult
    requires target.Target?
  {
    if !reply.Replies? then Threw
    else if LosesAnchor(target, mode, reply) then Refuse(member, (MissingAnchor, None))
    else Returned(Capture(target, receiver, reply.left, reply.address, reply.owner))
  }

  /** What follows validation: the run, and the check of a retained result after it. */
  method RunValidated(
    target: CallTarget, receiver: ObjectView, arguments: seq<ArgumentView>, member: MemberId, mode: ExportKind,
    effects: Effects, reply: Reply)
    returns (r: InvokeResult)
    requires Made(target) && target.Target? && FrameError(target, receiver, arguments, mode).None?
    requires |target.signature.parameters| == |arguments|
    requires reply.Replies? ==> |reply.left| == |arguments|
    modifies effects
    ensures effects.entered == old(effects.entered) + (if reply.PreparationThrows? then [] else [target])
    ensures effects.moved == old(effects.moved) + MovedBy(target.signature.parameters, arguments, reply)
    ensures r == Ended(target, receiver, member, mode, reply)
  {
    forall i | 0 <= i < |arguments|
      ensures CallArgument(target.signature.parameters[i], arguments[i]) != Undefined
    {
      ValidatedArgumentsAreSafe(target, receiver, arguments, mode, i);
    }
    r := effects.Run(target, receiver, arguments, reply);
    if reply.Replies? {
      AnchorLostIff(target, receiver, arguments, mode, reply);
    }
    var unanchored := r.Returned? && mode == RetainedReference && ResultView(r.result).anchor.None?;
    r := if unanchored then Refuse(member, (MissingAnchor, None)) else r;
  }

  /** A call through a handle that has resolved to `call`. A completion follows a successful
      capture, and nothing else. */
  method Invoke(
    call: Result<CallTarget, DiagnosticCode>, member: MemberId, arguments: seq<ArgumentView>, mode: ExportKind,
    readOnlyReceiver: bool, effects: Effects, reply: Reply)
    returns (r: InvokeResult, completed: bool)
    requires call.Success? ==> call.value.Target? && Made(call.value)
    requires reply.Replies? ==> |reply.left| == |arguments|
    modifies effects
    ensures completed <==> r.Returned?
    ensures call.Failure? ==> && r == Refused(Diagnostic(call.error, member, None))
                              && effects.entered == old(effects.entered) && effects.moved == old(effects.moved)
    ensures call.Success? ==>
              var bound := call.value.options.receiver;
              var receiver := if readOnlyReceiver then bound.AsConst() else bound;
              match FrameError(call.value, receiver, arguments, mode)
              case Some((code, index)) =>
                && r == Refused(Diagnostic(code, member, index))
                && effects.entered == old(effects.entered) && effects.moved == old(effects.moved)
              case None =>
                && effects.entered == old(effects.entered) + (if reply.PreparationThrows? then [] else [call.value])
                && effects.moved == old(effects.moved) + MovedBy(call.value.signature.parameters, arguments, reply)
                && (if !reply.Replies? then r == Threw
                    else if LosesAnchor(call.value, mode, reply) then r == Refused(Diagnostic(MissingAnchor, member, None))
                    else r == Returned(Capture(call.value, receiver, reply.left, reply.address, reply.owner)))
    ensures r.Returned? && readOnlyReceiver && call.value.options.receiver.Valid() ==>
              IsConst(call.value.signature.receiver.qualifiers)
  {
    completed := false;
    if call.Failure? {
      return Refuse(member, (call.error, None)), false;
    }
    var frame := new CallFrame(call.value.options.receiver, arguments);
    if readOnlyReceiver {
      frame.receiver := frame.receiver.AsConst();
    }
    r := InvokeTarget(call.value, frame, member, mode, effects, reply);
    completed := r.Returned?;
  }
}
