/** Structural binding plans and their weak cache, keyed by descriptor address (dyn/proxy.hpp). */
module Plans {
  import opened Wrappers
  import opened Types
  import opened ClassGraph
  import opened LookupPolicy
  import opened LookupTheorems
  import opened Lookup
  import opened Folding

  /** One field of the interface to bind: the overloads of a method, or a property. */
  datatype Requirement =
    | MethodRequired(name: string, signatures: seq<Signature>)
    | PropertyRequired(name: string, valueType: TypeId, readOnly: bool)

  datatype BindingPlan = BindingPlan(
    descriptor: ClassInfo,
    methods: map<string, seq<MemberLocation>>,
    properties: map<string, MemberLocation>)

  // --------------------------------------------------------------------
  // Building a plan.
  // --------------------------------------------------------------------

  function Candidates(c: ClassInfo, kind: MemberKind, name: string): seq<MemberLocation> {
    FirstOccurrences(if OwnNamed(c, kind, name) != [] then OwnNamed(c, kind, name)
                     else DeclsBelow(c, kind, name, |c.bases|))
  }

  predicate BindsTo(l: MemberLocation, required: Signature) {
    && l.index < |l.owner.functions|
    && CompatibleSignature(required, l.owner.functions[l.index].signature)
  }

  /** The first candidate that can be bound where the signature is required. */
  function FirstBinding(v: seq<MemberLocation>, required: Signature): Option<MemberLocation> {
    if v == [] then None
    else if BindsTo(v[0], required) then Some(v[0])
    else FirstBinding(v[1..], required)
  }

  /** The declaration has the required signature, or that signature made const or noexcept. */
  ghost predicate MayStandIn(l: MemberLocation, required: Signature) {
    && l.index < |l.owner.functions|
    && exists c, n :: l.owner.functions[l.index].signature == Strengthened(required, c, n)
  }

  lemma BindsToIff(l: MemberLocation, required: Signature)
    ensures BindsTo(l, required) <==> MayStandIn(l, required)
  {
    if l.index < |l.owner.functions| {
      CompatibleIffStrengthened(required, l.owner.functions[l.index].signature);
    }
  }

  /** The first of the list that may stand where the signature is required; none only if none may. */
  lemma FirstBindingIsFirst(v: seq<MemberLocation>, required: Signature)
    ensures match FirstBinding(v, required)
            case None => forall i :: 0 <= i < |v| ==> !MayStandIn(v[i], required)
            case Some(l) => exists i :: 0 <= i < |v| && v[i] == l && MayStandIn(v[i], required)
                                        && forall j :: 0 <= j < i ==> !MayStandIn(v[j], required)
  {
    FirstBindingScans(v, required);
    forall i | 0 <= i < |v|
      ensures BindsTo(v[i], required) <==> MayStandIn(v[i], required)
    {
      BindsToIff(v[i], required);
    }
  }

  lemma {:induction false} FirstBindingScans(v: seq<MemberLocation>, required: Signature)
    ensures match FirstBinding(v, required)
            case None => forall i :: 0 <= i < |v| ==> !BindsTo(v[i], required)
            case Some(l) => exists i :: 0 <= i < |v| && v[i] == l && BindsTo(v[i], required)
                                        && forall j :: 0 <= j < i ==> !BindsTo(v[j], required)
  {
    if v != [] && !BindsTo(v[0], required) {
      var rest := v[1..];
      FirstBindingScans(rest, required);
      if FirstBinding(v, required).Some? {
        var i :| 0 <= i < |rest| && rest[i] == FirstBinding(v, required).value && BindsTo(rest[i], required)
                 && forall j :: 0 <= j < i ==> !BindsTo(rest[j], required);
        assert v[i + 1] == rest[i];
        assert forall j :: 0 < j < i + 1 ==> v[j] == rest[j - 1];
      } else {
        assert forall j :: 0 < j < |v| ==> v[j] == rest[j - 1];
      }
    }
  }

  /** One location for each of the first `n` overloads, or the reason there is none. */
  function SelectOverloads(v: seq<MemberLocation>, signatures: seq<Signature>, n: nat)
    : Result<seq<MemberLocation>, DiagnosticCode>
    requires n <= |signatures|
  {
    if n == 0 then Success([])
    else
      match SelectOverloads(v, signatures, n - 1)
      case Failure(code) => Failure(code)
      case Success(selected) =>
        if !SupportedSignature(signatures[n - 1]) then Failure(Unsupported)
        else
          match FirstBinding(v, signatures[n - 1])
          case None => Failure(TypeMismatch)
          case Some(l) => Success(selected + [l])
  }

  function SelectProperty(v: seq<MemberLocation>, valueType: TypeId, readOnly: bool)
    : Result<MemberLocation, DiagnosticCode>
  {
    if v == [] then Failure(NotFound)
    else if v[0].index >= |v[0].owner.fields| then Failure(NotFound)
    else
      var property := v[0].owner.fields[v[0].index];
      if property.signature.result.id != valueType || (!readOnly && property.isConst) then Failure(TypeMismatch)
      else Success(v[0])
  }

  function KindOf(required: Requirement): MemberKind {
    if required.MethodRequired? then Functions else Fields
  }

  function AddRequired(plan: BindingPlan, required: Requirement): Result<BindingPlan, DiagnosticCode> {
    var v := Candidates(plan.descriptor, KindOf(required), required.name);
    if SubobjectCount(plan.descriptor, v) > 1 then Failure(Ambiguous)
    else
      match required
      case MethodRequired(name, signatures) =>
        (match SelectOverloads(v, signatures, |signatures|)
         case Failure(code) => Failure(code)
         case Success(selected) => Success(plan.(methods := plan.methods[name := selected])))
      case PropertyRequired(name, valueType, readOnly) =>
        (match SelectProperty(v, valueType, readOnly)
         case Failure(code) => Failure(code)
         case Success(l) => Success(plan.(properties := plan.properties[name := l])))
  }

  function EmptyPlan(c: ClassInfo): BindingPlan {
    BindingPlan(c, map[], map[])
  }

  /** The plan for all requirements of an interface. */
  function FreshPlan(c: ClassInfo, interface_: seq<Requirement>): Result<BindingPlan, DiagnosticCode> {
    Fold(interface_, AddRequired, EmptyPlan(c), |interface_|)
  }

  lemma DescriptorStays(plan: BindingPlan, required: Requirement)
    requires AddRequired(plan, required).Success?
    ensures AddRequired(plan, required).value.descriptor == plan.descriptor
  {
  }

  /** A plan belongs to the descriptor it was built for. */
  lemma PlanIsOfItsDescriptor(c: ClassInfo, interface_: seq<Requirement>)
    requires FreshPlan(c, interface_).Success?
    ensures FreshPlan(c, interface_).value.descriptor == c
  {
    forall plan: BindingPlan, required | AddRequired(plan, required).Success?
      ensures AddRequired(plan, required).value.descriptor == plan.descriptor
    {
      DescriptorStays(plan, required);
    }
    var inv := (plan: BindingPlan, n: nat) => plan.descriptor == c;
    assert Keeps(interface_, AddRequired, inv);
    FoldKeeps(interface_, AddRequired, EmptyPlan(c), inv, |interface_|);
  }

  /** Binding chooses among exactly what the runtime lookups see: it is ambiguous when they are,
      and otherwise selects from the plural lookup of the name. */
  lemma CandidatesAreTheLookup(c: ClassInfo, kind: MemberKind, name: string)
    requires WellFormed(c)
    ensures SubobjectCount(c, Candidates(c, kind, name)) > 1 <==> LookupNamed(c, kind, name) == Failure(AmbiguousName)
    ensures SubobjectCount(c, Candidates(c, kind, name)) <= 1 ==> Candidates(c, kind, name) == LookupAll(c, kind, name)
  {
    var own := OwnNamed(c, kind, name);
    if own != [] {
      OwnNamedIsDistinct(c, kind, name);
      FirstOccurrencesOfDistinct(own);
      OwnSubobject(c, own);
    } else if SubobjectCount(c, BaseDecls(c, kind, name)) < 2 {
      UnambiguousListIsKept(c, kind, name);
    }
  }

  lemma OwnSubobject(c: ClassInfo, v: seq<MemberLocation>)
    requires v != [] && forall i :: 0 <= i < |v| ==> v[i].owner == c
    ensures SubobjectCount(c, v) == 1
  {
    assert v[0].owner.name in ClassNames(v);
    assert ClassNames(v) == {c.name};
    assert BasePathOffsets(c, c.name) == {0};
    assert SubobjectsNamed(c, ClassNames(v)) == {(c.name, 0)};
  }

  predicate PropertyFits(l: MemberLocation, valueType: TypeId, readOnly: bool) {
    && l.index < |l.owner.fields|
    && l.owner.fields[l.index].signature.result.id == valueType
    && (readOnly || !l.owner.fields[l.index].isConst)
  }

  /** A requirement is met by the first location of the name's plural lookup whose signature
      fits, for each overload, or by the plain lookup of the property, if that fits. */
  ghost predicate Meets(plan: BindingPlan, c: ClassInfo, required: Requirement) {
    match required
    case MethodRequired(name, signatures) =>
      && name in plan.methods && |plan.methods[name]| == |signatures|
      && forall k :: 0 <= k < |signatures| ==>
                       && SupportedSignature(signatures[k])
                       && FirstBinding(LookupAll(c, Functions, name), signatures[k]) == Some(plan.methods[name][k])
    case PropertyRequired(name, valueType, readOnly) =>
      && name in plan.properties
      && LookupNamed(c, Fields, name) == Success(plan.properties[name])
      && PropertyFits(plan.properties[name], valueType, readOnly)
  }

  lemma AddedIsMet(plan: BindingPlan, required: Requirement)
    requires WellFormed(plan.descriptor) && AddRequired(plan, required).Success?
    ensures Meets(AddRequired(plan, required).value, plan.descriptor, required)
  {
    var c := plan.descriptor;
    CandidatesAreTheLookup(c, KindOf(required), required.name);
    match required
    case MethodRequired(name, signatures) =>
      SelectedOverloads(LookupAll(c, Functions, name), signatures, |signatures|);
    case PropertyRequired(name, _, _) =>
      LookupsAgree(c, Fields, name, []);
  }

  lemma OthersStayMet(plan: BindingPlan, required: Requirement, other: Requirement)
    requires AddRequired(plan, required).Success? && required.name != other.name
    requires Meets(plan, plan.descriptor, other)
    ensures Meets(AddRequired(plan, required).value, plan.descriptor, other)
  {
  }

  predicate DistinctNames(interface_: seq<Requirement>) {
    forall j, k :: 0 <= j < k < |interface_| ==> interface_[j].name != interface_[k].name
  }

  /** The plan belongs to `c` and meets the first `n` requirements. */
  ghost predicate MeetsFirst(c: ClassInfo, interface_: seq<Requirement>, plan: BindingPlan, n: nat) {
    plan.descriptor == c && n <= |interface_| && forall i :: 0 <= i < n ==> Meets(plan, c, interface_[i])
  }

  lemma OneMoreMet(c: ClassInfo, interface_: seq<Requirement>, plan: BindingPlan, n: nat)
    requires WellFormed(c) && DistinctNames(interface_) && MeetsFirst(c, interface_, plan, n)
    requires n < |interface_| && AddRequired(plan, interface_[n]).Success?
    ensures MeetsFirst(c, interface_, AddRequired(plan, interface_[n]).value, n + 1)
  {
    var bound := AddRequired(plan, interface_[n]).value;
    DescriptorStays(plan, interface_[n]);
    AddedIsMet(plan, interface_[n]);
    forall i | 0 <= i < n
      ensures Meets(bound, c, interface_[i])
    {
      OthersStayMet(plan, interface_[n], interface_[i]);
    }
  }

  lemma MeetingIsKept(c: ClassInfo, interface_: seq<Requirement>)
    requires WellFormed(c) && DistinctNames(interface_)
    ensures Keeps(interface_, AddRequired, (plan, n) => MeetsFirst(c, interface_, plan, n))
  {
    var inv := (plan: BindingPlan, n: nat) => MeetsFirst(c, interface_, plan, n);
    forall k: nat, plan | k < |interface_| && inv(plan, k) && AddRequired(plan, interface_[k]).Success?
      ensures inv(AddRequired(plan, interface_[k]).value, k + 1)
    {
      OneMoreMet(c, interface_, plan, k);
    }
    assert Keeps(interface_, AddRequired, inv);
  }

  /** A plan meets every requirement it was built for. */
  lemma PlanMeetsTheInterface(c: ClassInfo, interface_: seq<Requirement>)
    requires WellFormed(c) && FreshPlan(c, interface_).Success? && DistinctNames(interface_)
    ensures MeetsFirst(c, interface_, FreshPlan(c, interface_).value, |interface_|)
  {
    var inv := (plan: BindingPlan, n: nat) => MeetsFirst(c, interface_, plan, n);
    MeetingIsKept(c, interface_);
    FoldKeeps(interface_, AddRequired, EmptyPlan(c), inv, |interface_|);
  }

  /** Everything in the plan is there for one of the first `n` requirements. */
  ghost predicate OnlyFirst(interface_: seq<Requirement>, plan: BindingPlan, n: nat) {
    && n <= |interface_|
    && (forall name :: name in plan.methods ==>
                         exists i :: 0 <= i < n && interface_[i].MethodRequired? && interface_[i].name == name)
    && (forall name :: name in plan.properties ==>
                         exists i :: 0 <= i < n && interface_[i].PropertyRequired? && interface_[i].name == name)
  }

  lemma AddsOnlyIts(interface_: seq<Requirement>, plan: BindingPlan, n: nat)
    requires OnlyFirst(interface_, plan, n) && n < |interface_| && AddRequired(plan, interface_[n]).Success?
    ensures OnlyFirst(interface_, AddRequired(plan, interface_[n]).value, n + 1)
  {
  }

  /** A plan binds nothing that was not required. */
  lemma PlanBindsNothingElse(c: ClassInfo, interface_: seq<Requirement>)
    requires FreshPlan(c, interface_).Success?
    ensures OnlyFirst(interface_, FreshPlan(c, interface_).value, |interface_|)
  {
    var inv := (plan: BindingPlan, n: nat) => OnlyFirst(interface_, plan, n);
    forall k: nat, plan | k < |interface_| && inv(plan, k) && AddRequired(plan, interface_[k]).Success?
      ensures inv(AddRequired(plan, interface_[k]).value, k + 1)
    {
      AddsOnlyIts(interface_, plan, k);
    }
    assert Keeps(interface_, AddRequired, inv);
    FoldKeeps(interface_, AddRequired, EmptyPlan(c), inv, |interface_|);
  }

  lemma {:induction false} SelectedOverloads(v: seq<MemberLocation>, signatures: seq<Signature>, n: nat)
    requires n <= |signatures| && SelectOverloads(v, signatures, n).Success?
    ensures var selected := SelectOverloads(v, signatures, n).value;
            && |selected| == n
            && forall k :: 0 <= k < n ==>
                             SupportedSignature(signatures[k]) && FirstBinding(v, signatures[k]) == Some(selected[k])
  {
    if n > 0 {
      SelectedOverloads(v, signatures, n - 1);
    }
  }

  // --------------------------------------------------------------------
  // When there is a plan.
  // --------------------------------------------------------------------

  ghost predicate Binds(v: seq<MemberLocation>, required: Signature) {
    SupportedSignature(required) && exists l :: l in v && MayStandIn(l, required)
  }

  /** Lookup of the name is not ambiguous and offers something that fits. */
  ghost predicate Bindable(c: ClassInfo, required: Requirement) {
    match required
    case MethodRequired(name, signatures) =>
      && LookupNamed(c, Functions, name) != Failure(AmbiguousName)
      && forall k :: 0 <= k < |signatures| ==> Binds(LookupAll(c, Functions, name), signatures[k])
    case PropertyRequired(name, valueType, readOnly) =>
      && LookupNamed(c, Fields, name).Success?
      && PropertyFits(LookupNamed(c, Fields, name).value, valueType, readOnly)
  }

  lemma BindingExists(v: seq<MemberLocation>, required: Signature)
    ensures SupportedSignature(required) && FirstBinding(v, required).Some? <==> Binds(v, required)
  {
    FirstBindingIsFirst(v, required);
  }

  lemma {:induction false} SelectionExists(v: seq<MemberLocation>, signatures: seq<Signature>, n: nat)
    requires n <= |signatures|
    ensures SelectOverloads(v, signatures, n).Success? <==> forall k :: 0 <= k < n ==> Binds(v, signatures[k])
  {
    if n > 0 {
      SelectionExists(v, signatures, n - 1);
      BindingExists(v, signatures[n - 1]);
    }
  }

  lemma AddedMethodIffBindable(plan: BindingPlan, name: string, signatures: seq<Signature>)
    requires WellFormed(plan.descriptor)
    ensures AddRequired(plan, MethodRequired(name, signatures)).Success?
            <==> Bindable(plan.descriptor, MethodRequired(name, signatures))
  {
    var c := plan.descriptor;
    CandidatesAreTheLookup(c, Functions, name);
    var v := Candidates(c, Functions, name);
    SelectionExists(v, signatures, |signatures|);
    if SubobjectCount(c, v) <= 1 {
      assert v == LookupAll(c, Functions, name);
    }
  }

  lemma AddedIffBindable(plan: BindingPlan, required: Requirement)
    requires WellFormed(plan.descriptor)
    ensures AddRequired(plan, required).Success? <==> Bindable(plan.descriptor, required)
  {
    match required
    case MethodRequired(name, signatures) =>
      AddedMethodIffBindable(plan, name, signatures);
    case PropertyRequired(name, _, _) =>
      CandidatesAreTheLookup(plan.descriptor, Fields, name);
      LookupsAgree(plan.descriptor, Fields, name, []);
  }

  /** There is a plan exactly when every requirement can be bound. */
  lemma PlanExistsIffBindable(c: ClassInfo, interface_: seq<Requirement>)
    requires WellFormed(c)
    ensures FreshPlan(c, interface_).Success? <==> forall i :: 0 <= i < |interface_| ==> Bindable(c, interface_[i])
  {
    var inv := (plan: BindingPlan, n: nat) => plan.descriptor == c;
    var p := required => Bindable(c, required);
    forall k: nat, plan | k < |interface_| && inv(plan, k)
      ensures AddRequired(plan, interface_[k]).Success? <==> p(interface_[k])
      ensures AddRequired(plan, interface_[k]).Success? ==> inv(AddRequired(plan, interface_[k]).value, k + 1)
    {
      AddedIffBindable(plan, interface_[k]);
    }
    assert Keeps(interface_, AddRequired, inv) && Tests(interface_, AddRequired, inv, p);
    FoldSucceedsIff(interface_, AddRequired, EmptyPlan(c), inv, p, |interface_|);
    assert forall i :: 0 <= i < |interface_| ==> (p(interface_[i]) <==> Bindable(c, interface_[i]));
  }

  /** The overload `k` is the first that cannot be bound: it is unsupported, or nothing in the list may
      stand for it. */
  ghost predicate FailsAt(v: seq<MemberLocation>, signatures: seq<Signature>, k: nat, code: DiagnosticCode) {
    && k < |signatures| && !Binds(v, signatures[k]) && (forall j :: 0 <= j < k ==> Binds(v, signatures[j]))
    && code == if SupportedSignature(signatures[k]) then TypeMismatch else Unsupported
  }

  /** Why the first `n` overloads cannot be selected. */
  lemma {:induction false} SelectionCodes(v: seq<MemberLocation>, signatures: seq<Signature>, n: nat)
    requires n <= |signatures| && SelectOverloads(v, signatures, n).Failure?
    ensures exists k: nat :: k < n && FailsAt(v, signatures, k, SelectOverloads(v, signatures, n).error)
  {
    var earlier, all := SelectOverloads(v, signatures, n - 1), SelectOverloads(v, signatures, n);
    if earlier.Failure? {
      SelectionCodes(v, signatures, n - 1);
      assert all.error == earlier.error;
    } else {
      SelectionExists(v, signatures, n - 1);
      BindingExists(v, signatures[n - 1]);
      assert FailsAt(v, signatures, n - 1, all.error);
    }
  }

  /** Why a requirement cannot be bound: its name is ambiguous; the property is not there, or not of the type
      or writability asked for; or the first overload that fails is unsupported or has no counterpart. */
  lemma BindingCodes(plan: BindingPlan, required: Requirement)
    requires WellFormed(plan.descriptor) && AddRequired(plan, required).Failure?
    ensures
      var c, code := plan.descriptor, AddRequired(plan, required).error;
      var looked := LookupNamed(c, KindOf(required), required.name);
      && (code == Ambiguous <==> looked == Failure(AmbiguousName))
      && (code != Ambiguous ==>
            match required
            case PropertyRequired(name, valueType, readOnly) =>
              code == (if looked.Failure? then NotFound else TypeMismatch)
              && (looked.Success? ==> !PropertyFits(looked.value, valueType, readOnly))
            case MethodRequired(name, signatures) =>
              exists k :: FailsAt(LookupAll(c, Functions, name), signatures, k, code))
  {
    var c := plan.descriptor;
    CandidatesAreTheLookup(c, KindOf(required), required.name);
    match required
    case MethodRequired(name, signatures) =>
      if SubobjectCount(c, Candidates(c, Functions, name)) <= 1 {
        SelectionCodes(LookupAll(c, Functions, name), signatures, |signatures|);
      }
    case PropertyRequired(name, valueType, readOnly) =>
      if SubobjectCount(c, Candidates(c, Fields, name)) <= 1 {
        PropertyCodes(c, name, valueType, readOnly);
      }
  }

  lemma PropertyCodes(c: ClassInfo, name: string, valueType: TypeId, readOnly: bool)
    requires WellFormed(c) && SubobjectCount(c, Candidates(c, Fields, name)) <= 1
    ensures var looked, selected := LookupNamed(c, Fields, name), SelectProperty(Candidates(c, Fields, name), valueType, readOnly);
            && (looked.Failure? ==> selected == Failure(NotFound))
            && (looked.Success? && !PropertyFits(looked.value, valueType, readOnly) ==> selected == Failure(TypeMismatch))
            && (looked.Success? && PropertyFits(looked.value, valueType, readOnly) ==> selected.Success?)
  {
    CandidatesAreTheLookup(c, Fields, name);
    LookupsAgree(c, Fields, name, []);
    var all := LookupAll(c, Fields, name);
    if all != [] {
      assert all[0] in all;
      PluralLookupIsThePolicy(c, Fields, name, all[0]);
    }
  }

  /** A plan fails with the reason of the first requirement that cannot be bound. */
  lemma PlanFailsFirst(c: ClassInfo, interface_: seq<Requirement>)
    requires FreshPlan(c, interface_).Failure?
    ensures exists n :: && 0 <= n < |interface_| && Fold(interface_, AddRequired, EmptyPlan(c), n).Success?
                        && AddRequired(Fold(interface_, AddRequired, EmptyPlan(c), n).value, interface_[n])
                           == Failure(FreshPlan(c, interface_).error)
  {
    FoldFailsAt(interface_, AddRequired, EmptyPlan(c), |interface_|);
  }

  method CollectCandidates(c: ClassInfo, kind: MemberKind, name: string)
    returns (candidates: seq<MemberLocation>, ambiguous: bool)
    ensures candidates == Candidates(c, kind, name)
    ensures ambiguous <==> SubobjectCount(c, candidates) > 1
  {
    var own := CollectOwnIndices(c.Members(kind), name);
    candidates := AppendLocations(c, own, []);
    assert candidates == OwnNamed(c, kind, name);
    if own == [] {
      candidates := CollectBaseNamed(c, kind, name, []);
      assert candidates == DeclsBelow(c, kind, name, |c.bases|);
    }
    candidates := DedupDecl(candidates);
    var count := CountSubobjects(c, candidates);
    ambiguous := count > 1;
  }

  method FindBinding(candidates: seq<MemberLocation>, required: Signature) returns (r: Option<MemberLocation>)
    ensures r == FirstBinding(candidates, required)
  {
    var i := 0;
    while i < |candidates| && !BindsTo(candidates[i], required)
      invariant 0 <= i <= |candidates|
      invariant FirstBinding(candidates, required) == FirstBinding(candidates[i..], required)
    {
      assert candidates[i..][1..] == candidates[i + 1..];
      i := i + 1;
    }
    r := if i == |candidates| then None else Some(candidates[i]);
  }

  method BindOverloads(candidates: seq<MemberLocation>, signatures: seq<Signature>)
    returns (r: Result<seq<MemberLocation>, DiagnosticCode>)
    ensures r == SelectOverloads(candidates, signatures, |signatures|)
  {
    var selected := [];
    for n := 0 to |signatures|
      invariant SelectOverloads(candidates, signatures, n) == Success(selected)
    {
      if !SupportedSignature(signatures[n]) {
        SelectionStaysFailed(candidates, signatures, n + 1);
        return Failure(Unsupported);
      }
      var bound := FindBinding(candidates, signatures[n]);
      if bound.None? {
        SelectionStaysFailed(candidates, signatures, n + 1);
        return Failure(TypeMismatch);
      }
      selected := selected + [bound.value];
    }
    return Success(selected);
  }

  lemma {:induction false} SelectionStaysFailed(v: seq<MemberLocation>, signatures: seq<Signature>, n: nat)
    requires n <= |signatures| && SelectOverloads(v, signatures, n).Failure?
    ensures SelectOverloads(v, signatures, |signatures|) == SelectOverloads(v, signatures, n)
    decreases |signatures| - n
  {
    if n < |signatures| {
      SelectionStaysFailed(v, signatures, n + 1);
    }
  }

  method Bind(plan: BindingPlan, required: Requirement) returns (r: Result<BindingPlan, DiagnosticCode>)
    ensures r == AddRequired(plan, required)
  {
    var candidates, ambiguous := CollectCandidates(plan.descriptor, KindOf(required), required.name);
    if ambiguous {
      return Failure(Ambiguous);
    }
    match required {
      case MethodRequired(name, signatures) =>
        var selected := BindOverloads(candidates, signatures);
        if selected.Failure? {
          return Failure(selected.error);
        }
        return Success(plan.(methods := plan.methods[name := selected.value]));
      case PropertyRequired(name, valueType, readOnly) =>
        var selected := SelectProperty(candidates, valueType, readOnly);
        if selected.Failure? {
          return Failure(selected.error);
        }
        return Success(plan.(properties := plan.properties[name := selected.value]));
    }
  }

  method BindNext(c: ClassInfo, interface_: seq<Requirement>, n: nat, plan: BindingPlan)
    returns (r: Result<BindingPlan, DiagnosticCode>)
    requires n < |interface_| && Fold(interface_, AddRequired, EmptyPlan(c), n) == Success(plan)
    ensures r == Fold(interface_, AddRequired, EmptyPlan(c), n + 1)
  {
    FoldNext(interface_, AddRequired, EmptyPlan(c), n, plan);
    r := Bind(plan, interface_[n]);
  }

  method BuildPlan(c: ClassInfo, interface_: seq<Requirement>) returns (r: Result<BindingPlan, DiagnosticCode>)
    ensures r == FreshPlan(c, interface_)
  {
    r := Success(EmptyPlan(c));
    var n := 0;
    while n < |interface_| && r.Success?
      invariant 0 <= n <= |interface_|
      invariant r == Fold(interface_, AddRequired, EmptyPlan(c), n)
    {
      r := BindNext(c, interface_, n, r.value);
      n := n + 1;
    }
    if r.Failure? {
      FoldStaysFailed(interface_, AddRequired, EmptyPlan(c), n);
    }
  }
}
