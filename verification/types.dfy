/** Exact type identity, signatures and their substitution order (core/type.hpp). */
module Types {

  datatype Cv = Unqualified | Constant | Volatile | ConstantVolatile

  datatype ReferenceKind = ByValue | LValueReference | RValueReference

  /** The address of a type's identity token; 0 is the default-constructed id. */
  type TypeId = nat

  datatype TypeUse = TypeUse(id: TypeId, qualifiers: Cv, reference: ReferenceKind, copyable: bool)

  const NO_TYPE := TypeUse(0, Unqualified, ByValue, false)

  datatype MemberId = MemberId(declaringType: TypeId, declarationIndex: nat)

  datatype OperationKind = Method | Construct | Read | Write | View

  datatype OperationKey = OperationKey(member: MemberId, operation: OperationKind)

  function KindIndex(operation: OperationKind): nat {
    match operation
    case Method => 0
    case Construct => 1
    case Read => 2
    case Write => 3
    case View => 4
  }

  /** The order in which a map visits its keys. */
  predicate KeyBelow(a: OperationKey, b: OperationKey) {
    || a.member.declaringType < b.member.declaringType
    || (a.member.declaringType == b.member.declaringType
        && (|| a.member.declarationIndex < b.member.declarationIndex
            || (a.member.declarationIndex == b.member.declarationIndex
                && KindIndex(a.operation) < KindIndex(b.operation))))
  }

  predicate IsLeast(keys: set<OperationKey>, key: OperationKey) {
    key in keys && forall other :: other in keys ==> other == key || KeyBelow(key, other)
  }

  lemma {:induction false} LeastExists(keys: set<OperationKey>)
    requires keys != {}
    ensures exists key :: IsLeast(keys, key)
  {
    var some :| some in keys;
    if keys != {some} {
      assert some in keys && keys - {some} != {};
      LeastExists(keys - {some});
      var least :| IsLeast(keys - {some}, least);
      LeastWith(keys, some, least);
    } else {
      assert IsLeast(keys, some);
    }
  }

  lemma LeastWith(keys: set<OperationKey>, some: OperationKey, least: OperationKey)
    requires some in keys && IsLeast(keys - {some}, least)
    ensures IsLeast(keys, if KeyBelow(some, least) then some else least)
  {
    forall other | other in keys
      ensures KeyBelow(some, least) ==> other == some || KeyBelow(some, other)
      ensures !KeyBelow(some, least) ==> other == least || KeyBelow(least, other)
    {
      assert other == some || other in keys - {some};
    }
  }

  datatype ReceiverQualifiers = ReceiverQualifiers(qualifiers: Cv, reference: ReferenceKind)

  datatype Signature = Signature(
    parameters: seq<TypeUse>,
    result: TypeUse,
    receiver: ReceiverQualifiers,
    isNoexcept: bool)

  datatype DiagnosticCode =
    | NotFound
    | NullHandle
    | TypeMismatch
    | ArityMismatch
    | ReadOnly
    | RequiresConsumption
    | Unsupported
    | ReferenceExportRefused
    | MissingAnchor
    | Conflict
    | Ambiguous

  predicate IsConst(cv: Cv) {
    cv == Constant || cv == ConstantVolatile
  }

  predicate IsVolatile(cv: Cv) {
    cv == Volatile || cv == ConstantVolatile
  }

  /** A target of signature `actual` may stand where `required` is declared. */
  predicate CompatibleSignature(required: Signature, actual: Signature) {
    && required.parameters == actual.parameters
    && required.result == actual.result
    && required.receiver.reference == actual.receiver.reference
    && IsVolatile(required.receiver.qualifiers) == IsVolatile(actual.receiver.qualifiers)
    && (!IsConst(required.receiver.qualifiers) || IsConst(actual.receiver.qualifiers))
    && (!required.isNoexcept || actual.isNoexcept)
  }

  predicate SupportedSignature(signature: Signature) {
    && !IsVolatile(signature.receiver.qualifiers)
    && signature.receiver.reference == ByValue
    && !IsVolatile(signature.result.qualifiers)
    && signature.result.reference != RValueReference
    && forall i :: 0 <= i < |signature.parameters| ==> !IsVolatile(signature.parameters[i].qualifiers)
  }

  function WithConst(cv: Cv): Cv {
    match cv
    case Unqualified => Constant
    case Volatile => ConstantVolatile
    case _ => cv
  }

  /** The same signature with const or noexcept added. */
  function Strengthened(required: Signature, const_: bool, noexcept_: bool): Signature {
    var receiver := required.receiver;
    required.(receiver := receiver.(qualifiers := if const_ then WithConst(receiver.qualifiers) else receiver.qualifiers),
              isNoexcept := required.isNoexcept || noexcept_)
  }

  /** What may stand where a signature is declared: that signature, or it made const, noexcept or both. */
  lemma CompatibleIffStrengthened(required: Signature, actual: Signature)
    ensures CompatibleSignature(required, actual) <==> exists c, n :: actual == Strengthened(required, c, n)
  {
    if CompatibleSignature(required, actual) {
      assert actual == Strengthened(required, IsConst(actual.receiver.qualifiers), actual.isNoexcept);
    }
  }

  /** A part of a signature that no call can go through. */
  predicate Uncallable(use: TypeUse, result: bool) {
    use.qualifiers == Volatile || use.qualifiers == ConstantVolatile || (result && use.reference == RValueReference)
  }

  lemma UnsupportedIff(signature: Signature)
    ensures !SupportedSignature(signature)
            <==> || Uncallable(signature.result, true)
                 || (exists i :: 0 <= i < |signature.parameters| && Uncallable(signature.parameters[i], false))
                 || signature.receiver.qualifiers !in {Unqualified, Constant} || signature.receiver.reference != ByValue
  {
  }

  /** The keys of a map are in strict order: by declaring type, then by index, then by operation. */
  lemma KeysAreOrdered(a: OperationKey, b: OperationKey, c: OperationKey)
    ensures !KeyBelow(a, a) && (a != b ==> KeyBelow(a, b) || KeyBelow(b, a)) && !(KeyBelow(a, b) && KeyBelow(b, a))
    ensures KeyBelow(a, b) && KeyBelow(b, c) ==> KeyBelow(a, c)
    ensures a.member.declaringType < b.member.declaringType ==> KeyBelow(a, b)
    ensures a.member.declaringType == b.member.declaringType && a.member.declarationIndex < b.member.declarationIndex ==>
              KeyBelow(a, b)
    ensures var m := a.member;
            && KeyBelow(OperationKey(m, Method), OperationKey(m, Construct))
            && KeyBelow(OperationKey(m, Construct), OperationKey(m, Read))
            && KeyBelow(OperationKey(m, Read), OperationKey(m, Write))
            && KeyBelow(OperationKey(m, Write), OperationKey(m, View))
  {
    if a != b && KindIndex(a.operation) == KindIndex(b.operation) {
      assert a.operation == b.operation;
    }
  }

  /** Compatibility is reflexive, antisymmetric and transitive. */
  lemma CompatibleIsPartialOrder(a: Signature, b: Signature, c: Signature)
    ensures CompatibleSignature(a, a)
    ensures CompatibleSignature(a, b) && CompatibleSignature(b, a) ==> a == b
    ensures CompatibleSignature(a, b) && CompatibleSignature(b, c) ==> CompatibleSignature(a, c)
  {
    if CompatibleSignature(a, b) && CompatibleSignature(b, a) {
      assert a.receiver.qualifiers == b.receiver.qualifiers;
    }
  }
}
