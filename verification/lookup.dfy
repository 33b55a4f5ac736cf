/** The lookup loops of refl.hpp, each proved to compute its policy function. */
module Lookup {
  import opened Wrappers
  import opened ClassGraph
  import opened LookupPolicy
  import opened LookupTheorems
  import opened BaseOrder
  import opened MemberOrder

  /** The offsets found through the first `n` bases. */
  ghost function OffsetsBelow(c: ClassInfo, base: string, n: nat): set<int>
    requires n <= |c.bases|
  {
    set i: nat, o: int | i < n && o in EdgeOffsets(c.bases[i], base) :: o
  }

  method CollectBasePathOffsets(derived: ClassInfo, base: string) returns (offsets: set<int>)
    ensures offsets == BasePathOffsets(derived, base)
    decreases derived
  {
    offsets := {};
    if derived.name == base {
      return {0};
    }
    for i := 0 to |derived.bases|
      invariant offsets == OffsetsBelow(derived, base, i)
    {
      var b := derived.bases[i];
      ghost var before := offsets;
      if b.name == base {
        offsets := offsets + {b.offset};
      }
      if b.descriptor.Some? {
        var below := CollectBasePathOffsets(derived.BaseAt(i), base);
        offsets := offsets + set o | o in below :: b.offset + o;
      }
      assert offsets == before + EdgeOffsets(b, base);
    }
  }

  method CollectOwnIndices(members: seq<Member>, name: string) returns (out: seq<nat>)
    ensures out == IndicesNamed(members, name)
  {
    out := [];
    for i := 0 to |members|
      invariant out == IndicesNamed(members[..i], name)
    {
      assert members[..i + 1][..i] == members[..i];
      if members[i].name == name {
        out := out + [i];
      }
    }
    assert members[..|members|] == members;
  }

  /** The members called `name` among the first `n` that `c` declares. */
  ghost function OwnPrefix(c: ClassInfo, kind: MemberKind, name: string, n: nat): seq<MemberLocation>
    requires n <= |c.Members(kind)|
  {
    if n == 0 then []
    else if c.Members(kind)[n - 1].name == name then
      OwnPrefix(c, kind, name, n - 1) + [MemberLocation(c, n - 1)]
    else
      OwnPrefix(c, kind, name, n - 1)
  }

  lemma {:induction false} OwnPrefixSelects(c: ClassInfo, kind: MemberKind, name: string, n: nat)
    requires n <= |c.Members(kind)|
    ensures OwnPrefix(c, kind, name, n) == Locations(c, IndicesNamed(c.Members(kind)[..n], name))
  {
    if n > 0 {
      OwnPrefixSelects(c, kind, name, n - 1);
      assert c.Members(kind)[..n][..n - 1] == c.Members(kind)[..n - 1];
    }
  }

  lemma OwnPrefixWhole(c: ClassInfo, kind: MemberKind, name: string)
    ensures OwnPrefix(c, kind, name, |c.Members(kind)|) == OwnNamed(c, kind, name)
  {
    OwnPrefixSelects(c, kind, name, |c.Members(kind)|);
    assert c.Members(kind)[..|c.Members(kind)|] == c.Members(kind);
  }

  lemma {:induction false} OwnPrefixExtends(c: ClassInfo, kind: MemberKind, name: string, n: nat)
    requires n <= |c.Members(kind)|
    ensures OwnPrefix(c, kind, name, n) <= OwnNamed(c, kind, name)
    decreases |c.Members(kind)| - n
  {
    if n == |c.Members(kind)| {
      OwnPrefixWhole(c, kind, name);
    } else {
      OwnPrefixExtends(c, kind, name, n + 1);
    }
  }

  method AppendLocations(c: ClassInfo, indices: seq<nat>, out: seq<MemberLocation>) returns (out': seq<MemberLocation>)
    ensures out' == out + Locations(c, indices)
  {
    out' := out;
    for k := 0 to |indices|
      invariant out' == out + Locations(c, indices)[..k]
    {
      out' := out' + [MemberLocation(c, indices[k])];
    }
  }

  /** Appends to `out` what the bases of `c` see; a base that declares the name hides its own bases. */
  method CollectBaseNamed(c: ClassInfo, kind: MemberKind, name: string, out: seq<MemberLocation>)
    returns (out': seq<MemberLocation>)
    ensures out' == out + DeclsBelow(c, kind, name, |c.bases|)
    decreases c, 0
  {
    out' := out;
    ghost var seen := [];
    for i := 0 to |c.bases|
      invariant seen == DeclsBelow(c, kind, name, i)
      invariant out' == out + seen
    {
      if c.bases[i].descriptor.Some? {
        ghost var more := NamedView(c.BaseAt(i), kind, name);
        out' := AppendView(c.BaseAt(i), kind, name, out');
        assert (out + seen) + more == out + (seen + more);
        seen := seen + more;
      }
    }
  }

  method AppendView(bc: ClassInfo, kind: MemberKind, name: string, out: seq<MemberLocation>)
    returns (out': seq<MemberLocation>)
    ensures out' == out + NamedView(bc, kind, name)
    decreases bc, 1
  {
    var indices := CollectOwnIndices(bc.Members(kind), name);
    if indices != [] {
      out' := AppendLocations(bc, indices, out);
    } else {
      out' := CollectBaseNamed(bc, kind, name, out);
    }
  }

  /** Keeps the first handle of every (class, index) pair; used for declarations and for handles. */
  method DedupDecl(v: seq<MemberLocation>) returns (out: seq<MemberLocation>)
    ensures out == FirstOccurrences(v)
  {
    var seen: set<(nat, nat)> := {};
    out := [];
    for i := 0 to |v|
      invariant seen == Keys(v[..i])
      invariant out == FirstOccurrences(v[..i])
    {
      assert v[..i + 1][..i] == v[..i];
      assert v[..i + 1] == v[..i] + [v[i]];
      assert Keys(v[..i + 1]) == Keys(v[..i]) + {KeyOf(v[i])};
      if KeyOf(v[i]) !in seen {
        out := out + [v[i]];
      }
      seen := seen + {KeyOf(v[i])};
    }
    assert v[..|v|] == v;
  }

  ghost function Tagged<T>(n: string, s: set<T>): set<(string, T)> {
    set x | x in s :: (n, x)
  }

  lemma {:induction false} TaggedSize<T>(n: string, s: set<T>)
    ensures |Tagged(n, s)| == |s|
  {
    if s == {} {
      assert Tagged(n, s) == {};
    } else {
      var y :| y in s;
      TaggedSize(n, s - {y});
      assert Tagged(n, s) == Tagged(n, s - {y}) + {(n, y)};
    }
  }

  lemma NamesSplit(c: ClassInfo, names: set<string>, n: string)
    requires n !in names
    ensures SubobjectsNamed(c, names + {n}) == SubobjectsNamed(c, names) + Tagged(n, BasePathOffsets(c, n))
    ensures SubobjectsNamed(c, names) !! Tagged(n, BasePathOffsets(c, n))
  {
  }

  lemma OneMoreName(c: ClassInfo, names: set<string>, n: string)
    requires n !in names
    ensures |SubobjectsNamed(c, names + {n})| == |SubobjectsNamed(c, names)| + |BasePathOffsets(c, n)|
  {
    NamesSplit(c, names, n);
    TaggedSize(n, BasePathOffsets(c, n));
  }

  method CountSubobjects(c: ClassInfo, decls: seq<MemberLocation>) returns (total: nat)
    ensures total == SubobjectCount(c, decls)
  {
    var classes: set<string> := {};
    for i := 0 to |decls|
      invariant classes == ClassNames(decls[..i])
    {
      assert decls[..i + 1] == decls[..i] + [decls[i]];
      classes := classes + {decls[i].owner.name};
    }
    assert decls[..|decls|] == decls;
    total := 0;
    var left := classes;
    while left != {}
      invariant left <= classes
      invariant total == |SubobjectsNamed(c, classes - left)|
      decreases left
    {
      var n :| n in left;
      var offsets := CollectBasePathOffsets(c, n);
      OneMoreName(c, classes - left, n);
      assert classes - (left - {n}) == (classes - left) + {n};
      total := total + |offsets|;
      left := left - {n};
    }
    assert classes - left == classes;
  }

  /** The collected, deduplicated declarations under `c`, and whether two subobjects offer them. */
  method CollectDecls(c: ClassInfo, kind: MemberKind, name: string)
    returns (decls: seq<MemberLocation>, ambiguous: bool)
    ensures decls == BaseDecls(c, kind, name)
    ensures ambiguous <==> SubobjectCount(c, decls) >= 2
  {
    decls := CollectBaseNamed(c, kind, name, []);
    assert decls == DeclsBelow(c, kind, name, |c.bases|);
    decls := DedupDecl(decls);
    var count := CountSubobjects(c, decls);
    ambiguous := count >= 2;
  }

  /** The loop over a class's own members that every singular lookup starts with. */
  method FindOwn(c: ClassInfo, kind: MemberKind, name: string) returns (r: Option<MemberLocation>)
    ensures r.Some? <==> OwnNamed(c, kind, name) != []
    ensures r.Some? ==> r.value == OwnNamed(c, kind, name)[0] && r.value.owner == c
  {
    var members := c.Members(kind);
    for i := 0 to |members|
      invariant OwnPrefix(c, kind, name, i) == []
    {
      if members[i].name == name {
        OwnPrefixExtends(c, kind, name, i + 1);
        return Some(MemberLocation(c, i));
      }
    }
    OwnPrefixWhole(c, kind, name);
    return None;
  }

  method FindNamed(c: ClassInfo, kind: MemberKind, name: string) returns (r: Result<MemberLocation, LookupError>)
    ensures r == LookupNamed(c, kind, name)
    ensures WellFormed(c) ==> MeetsPolicy(c, kind, name, r)
  {
    if WellFormed(c) {
      NamedLookupIsThePolicy(c, kind, name, LookupNamed(c, kind, name));
    }
    var own := FindOwn(c, kind, name);
    if own.Some? {
      return Success(own.value);
    }
    var decls, ambiguous := CollectDecls(c, kind, name);
    if ambiguous {
      return Failure(AmbiguousName);
    }
    if decls != [] {
      return Success(decls[0]);
    }
    return Failure(NameNotFound);
  }

  /** The first own member of the name and parameter types; `exists_` tells whether the name occurs at all. */
  method MatchOwn(c: ClassInfo, kind: MemberKind, name: string, types: seq<string>)
    returns (match_: Option<MemberLocation>, exists_: bool)
    ensures exists_ || match_.Some? <==> OwnNamed(c, kind, name) != []
    ensures match_ == FirstMatch(kind, OwnNamed(c, kind, name), types)
    ensures match_.Some? ==> match_.value.owner == c
  {
    exists_ := false;
    match_ := None;
    var members := c.Members(kind);
    for i := 0 to |members|
      invariant exists_ <==> OwnPrefix(c, kind, name, i) != []
      invariant FirstMatch(kind, OwnPrefix(c, kind, name, i), types) == None
    {
      if members[i].name == name {
        exists_ := true;
        FirstMatchStep(kind, OwnPrefix(c, kind, name, i), MemberLocation(c, i), types);
        if members[i].paramTypes == types {
          OwnMatch(c, kind, name, i, types);
          return Some(MemberLocation(c, i)), true;
        }
      }
    }
    OwnPrefixWhole(c, kind, name);
  }

  /** The first own member that matches is the match among all own members of the name. */
  lemma OwnMatch(c: ClassInfo, kind: MemberKind, name: string, i: nat, types: seq<string>)
    requires i < |c.Members(kind)| && Names(kind, MemberLocation(c, i), name)
    requires FirstMatch(kind, OwnPrefix(c, kind, name, i), types) == None
    requires MatchesSignature(kind, MemberLocation(c, i), types)
    ensures OwnNamed(c, kind, name) != []
    ensures FirstMatch(kind, OwnNamed(c, kind, name), types) == Some(MemberLocation(c, i))
  {
    FirstMatchStep(kind, OwnPrefix(c, kind, name, i), MemberLocation(c, i), types);
    OwnPrefixExtends(c, kind, name, i + 1);
    FirstMatchOfPrefix(kind, OwnPrefix(c, kind, name, i + 1), OwnNamed(c, kind, name), types);
  }

  lemma FirstMatchStep(kind: MemberKind, v: seq<MemberLocation>, l: MemberLocation, types: seq<string>)
    requires FirstMatch(kind, v, types) == None
    ensures FirstMatch(kind, v + [l], types) == if MatchesSignature(kind, l, types) then Some(l) else None
  {
    assert (v + [l])[..|v|] == v;
  }

  /** A match found in a prefix is the match in the whole. */
  lemma {:induction false} FirstMatchOfPrefix(
    kind: MemberKind, prefix: seq<MemberLocation>, v: seq<MemberLocation>, types: seq<string>)
    requires prefix <= v && FirstMatch(kind, prefix, types).Some?
    ensures FirstMatch(kind, v, types) == FirstMatch(kind, prefix, types)
  {
    if prefix != v {
      FirstMatchOfPrefix(kind, prefix, v[..|v| - 1], types);
    }
  }

  method MatchFirst(kind: MemberKind, v: seq<MemberLocation>, types: seq<string>) returns (r: Option<MemberLocation>)
    ensures r == FirstMatch(kind, v, types)
  {
    for i := 0 to |v|
      invariant FirstMatch(kind, v[..i], types) == None
    {
      assert v[..i + 1] == v[..i] + [v[i]];
      FirstMatchStep(kind, v[..i], v[i], types);
      if MatchesSignature(kind, v[i], types) {
        FirstMatchOfPrefix(kind, v[..i + 1], v, types);
        return Some(v[i]);
      }
    }
    assert v[..|v|] == v;
    return None;
  }

  method FindNamedSig(c: ClassInfo, kind: MemberKind, name: string, types: seq<string>)
    returns (r: Result<MemberLocation, LookupError>)
    ensures r == LookupSignature(c, kind, name, types)
  {
    var match_, exists_ := MatchOwn(c, kind, name, types);
    if match_.Some? {
      return Success(match_.value);
    }
    if exists_ {
      return Failure(NameNotFound);
    }
    var decls, ambiguous := CollectDecls(c, kind, name);
    if ambiguous {
      return Failure(AmbiguousName);
    }
    match_ := MatchFirst(kind, decls, types);
    return Found(match_);
  }

  /** Erases the handles whose class is reached at more than one offset. */
  method ExcludeAmbiguous(c: ClassInfo, v: seq<MemberLocation>) returns (out: seq<MemberLocation>)
    ensures out == Filter(v, Unambiguous(c))
  {
    out := [];
    for i := 0 to |v|
      invariant out == Filter(v[..i], Unambiguous(c))
    {
      assert v[..i + 1][..i] == v[..i];
      var offsets := CollectBasePathOffsets(c, v[i].owner.name);
      if |offsets| <= 1 {
        out := out + [v[i]];
      }
    }
    assert v[..|v|] == v;
  }

  method FindAllNamed(c: ClassInfo, kind: MemberKind, name: string) returns (results: seq<MemberLocation>)
    ensures results == LookupAll(c, kind, name)
  {
    results := [];
    var members := c.Members(kind);
    for i := 0 to |members|
      invariant results == OwnPrefix(c, kind, name, i)
    {
      if members[i].name == name {
        results := results + [MemberLocation(c, i)];
      }
    }
    OwnPrefixWhole(c, kind, name);
    if results != [] {
      return;
    }
    var decls := CollectBaseNamed(c, kind, name, []);
    assert decls == DeclsBelow(c, kind, name, |c.bases|);
    decls := DedupDecl(decls);
    results := ExcludeAmbiguous(c, decls);
  }

  /** Appends the handles whose names `c` does not declare itself. */
  method AppendVisible(c: ClassInfo, kind: MemberKind, more: seq<MemberLocation>, results: seq<MemberLocation>)
    returns (results': seq<MemberLocation>)
    ensures results' == results + Filter(more, VisibleIn(c, kind))
  {
    results' := results;
    for k := 0 to |more|
      invariant results' == results + Filter(more[..k], VisibleIn(c, kind))
    {
      assert more[..k + 1][..k] == more[..k];
      if !HiddenBy(c, kind, more[k]) {
        results' := results' + [more[k]];
      }
    }
    assert more[..|more|] == more;
  }

  method AppendOwn(c: ClassInfo, kind: MemberKind, results: seq<MemberLocation>)
    returns (results': seq<MemberLocation>)
    ensures results' == results + OwnMembers(c, kind)
  {
    results' := results;
    for i := 0 to |c.Members(kind)|
      invariant results' == results + OwnMembers(c, kind)[..i]
    {
      results' := results' + [MemberLocation(c, i)];
    }
  }

  method CollectAllUnlocked(c: ClassInfo, kind: MemberKind, results: seq<MemberLocation>)
    returns (results': seq<MemberLocation>)
    ensures results' == results + MergedView(c, kind)
    decreases c, 1
  {
    results' := AppendOwn(c, kind, results);
    ghost var own := results';
    for i := 0 to |c.bases|
      invariant results' == own + MergedBelow(c, kind, i)
    {
      if c.bases[i].descriptor.Some? {
        results' := AppendContribution(c, kind, i, results');
      }
      Regroup(own, MergedBelow(c, kind, i), Contribution(c, kind, i));
    }
    Regroup(results, OwnMembers(c, kind), MergedBelow(c, kind, |c.bases|));
  }

  method AppendContribution(c: ClassInfo, kind: MemberKind, i: nat, results: seq<MemberLocation>)
    returns (results': seq<MemberLocation>)
    requires c.HasBase(i)
    ensures results' == results + Contribution(c, kind, i)
    decreases c, 0
  {
    var more := CollectAllUnlocked(c.BaseAt(i), kind, []);
    assert more == MergedView(c.BaseAt(i), kind);
    results' := AppendVisible(c, kind, more, results);
  }

  lemma CollectedAsLookedUp(c: ClassInfo, kind: MemberKind)
    requires WellFormed(c)
    ensures forall name :: Filter(AllMembers(c, kind), Named(kind, name)) == LookupAll(c, kind, name)
    ensures OwnMembers(c, kind) <= AllMembers(c, kind)
    ensures forall j, k :: 0 <= j < k < |AllMembers(c, kind)| ==>
                             MetBefore(c, kind, AllMembers(c, kind)[j], AllMembers(c, kind)[k])
  {
    forall name {
      MergedViewIsNamedLookup(c, kind, name);
    }
    OwnMembersLead(c, kind);
    forall j, k | 0 <= j < k < |AllMembers(c, kind)|
      ensures MetBefore(c, kind, AllMembers(c, kind)[j], AllMembers(c, kind)[k])
    {
      MergedOrder(c, kind, j, k);
    }
  }

  /** all_functions, all_fields, all_static_functions and all_static_fields. */
  method CollectAll(c: ClassInfo, kind: MemberKind) returns (results: seq<MemberLocation>)
    ensures results == AllMembers(c, kind)
    ensures WellFormed(c) ==> forall name :: Filter(results, Named(kind, name)) == LookupAll(c, kind, name)
    ensures WellFormed(c) ==> OwnMembers(c, kind) <= results
    ensures WellFormed(c) ==> forall j, k :: 0 <= j < k < |results| ==> MetBefore(c, kind, results[j], results[k])
  {
    results := CollectAllUnlocked(c, kind, []);
    assert results == MergedView(c, kind);
    results := DedupDecl(results);
    results := ExcludeAmbiguous(c, results);
    if WellFormed(c) {
      CollectedAsLookedUp(c, kind);
    }
  }

  /** The value_or(0) of the hierarchy searches. */
  function OffsetOrZero(c: ClassInfo, base: string): int {
    match UpcastOffset(c, base)
    case Success(o) => o
    case Failure(_) => 0
  }

  /** A miss and an ambiguity both come back as None, the null result of the dispatch layer. */
  method FindFunctionInHierarchy(c: ClassInfo, name: string, types: seq<string>)
    returns (r: Option<(MemberLocation, int)>)
    ensures r.Some? <==> LookupSignature(c, Functions, name, types).Success?
    ensures r.Some? ==> r.value.0 == LookupSignature(c, Functions, name, types).value
    ensures r.Some? && WellFormed(c) ==> UpcastOffset(c, r.value.0.owner.name) == Success(r.value.1)
  {
    if WellFormed(c) && LookupSignature(c, Functions, name, types).Success? {
      SignatureHitHasOneOffset(c, Functions, name, types);
    }
    var match_, exists_ := MatchOwn(c, Functions, name, types);
    if match_.Some? {
      assert BasePathOffsets(c, c.name) == {0};
      return Some((match_.value, 0));
    }
    if exists_ {
      return None;
    }
    var decls, ambiguous := CollectDecls(c, Functions, name);
    if ambiguous {
      return None;
    }
    match_ := MatchFirst(Functions, decls, types);
    if match_.None? {
      return None;
    }
    return Some((match_.value, OffsetOrZero(c, match_.value.owner.name)));
  }

  method FindFieldInHierarchy(c: ClassInfo, name: string) returns (r: Option<(MemberLocation, int)>)
    ensures r.Some? <==> LookupNamed(c, Fields, name).Success?
    ensures r.Some? ==> r.value.0 == LookupNamed(c, Fields, name).value
    ensures r.Some? && WellFormed(c) ==> UpcastOffset(c, r.value.0.owner.name) == Success(r.value.1)
  {
    var own := FindOwn(c, Fields, name);
    if own.Some? {
      assert BasePathOffsets(c, c.name) == {0};
      return Some((own.value, 0));
    }
    var decls, ambiguous := CollectDecls(c, Fields, name);
    if ambiguous || decls == [] {
      return None;
    }
    assert LookupNamed(c, Fields, name) == Success(decls[0]);
    if WellFormed(c) {
      NamedHitHasOneOffset(c, Fields, name);
    }
    return Some((decls[0], OffsetOrZero(c, decls[0].owner.name)));
  }

  method WalkBases(c: ClassInfo, results: seq<BaseHandle>, seen: set<string>)
    returns (results': seq<BaseHandle>, seen': set<string>)
    ensures Walk(results', seen') == WalkFrom(c, 0, Walk(results, seen))
    decreases c
  {
    results', seen' := results, seen;
    for i := 0 to |c.bases|
      invariant WalkFrom(c, i, Walk(results', seen')) == WalkFrom(c, 0, Walk(results, seen))
    {
      var b := c.bases[i];
      if b.name !in seen' {
        seen' := seen' + {b.name};
        results' := results' + [BaseHandle(c, i)];
        if b.descriptor.Some? {
          results', seen' := WalkBases(c.BaseAt(i), results', seen');
        }
      }
    }
  }

  method AllBases(c: ClassInfo) returns (results: seq<BaseHandle>)
    ensures results == WalkFrom(c, 0, Walk([], {})).results
    ensures WellFormed(c) ==> forall n :: n in HandleNames(results) <==> ReachedFrom(c, 0, n)
    ensures WellFormed(c) ==> forall j, k :: 0 <= j < k < |results| ==>
                                               HandleNames(results)[j] != HandleNames(results)[k]
    ensures WellFormed(c) ==> forall h :: h in results ==> EdgeUnder(c, h)
    ensures WellFormed(c) ==> results == Unseen(Preorder(c, 0), {})
  {
    var seen;
    results, seen := WalkBases(c, [], {});
    if WellFormed(c) {
      AllBasesAreTheReachable(c);
      AllBasesOrder(c);
    }
  }
}
