/** What the lookups of refl.hpp guarantee about each other and about base paths. */
module LookupTheorems {
  import opened Wrappers
  import opened ClassGraph
  import opened LookupPolicy

  // --------------------------------------------------------------------
  // Singular lookup.
  // --------------------------------------------------------------------

  lemma OwnHeadIsFirst(c: ClassInfo, kind: MemberKind, name: string)
    requires OwnNamed(c, kind, name) != []
    ensures FirstNamed(kind, OwnNamed(c, kind, name)[0], name) && OwnNamed(c, kind, name)[0].owner == c
  {
    OwnNamedIsDeclared(c, kind, name);
    var indices := IndicesNamed(c.Members(kind), name);
    IndicesNamedAreExact(c.Members(kind), name);
    assert forall k :: 0 < k < |indices| ==> indices[0] < indices[k];
  }

  lemma FirstNamedIsUnique(kind: MemberKind, l: MemberLocation, m: MemberLocation, name: string)
    requires FirstNamed(kind, l, name) && FirstNamed(kind, m, name) && l.owner == m.owner
    ensures l == m
  {
    assert !(l.index < m.index) && !(m.index < l.index);
  }

  lemma CollectedWhenUnhidden(c: ClassInfo, kind: MemberKind, name: string)
    requires WellFormed(c)
    ensures BaseDecls(c, kind, name) != [] <==> exists p :: Unhidden(c, kind, name, p)
  {
    var decls := BaseDecls(c, kind, name);
    if decls != [] {
      assert decls[0] in decls;
      DeclIffUnhidden(c, kind, name, decls[0]);
    }
    if p :| Unhidden(c, kind, name, p) {
      DeclaringNames(c, kind, name, End(c, p).name);
    }
  }

  lemma BaseHitMeetsPolicy(c: ClassInfo, kind: MemberKind, name: string)
    requires WellFormed(c) && !c.Declares(kind, name)
    requires SubobjectCount(c, BaseDecls(c, kind, name)) < 2 && BaseDecls(c, kind, name) != []
    ensures MeetsPolicy(c, kind, name, Success(BaseDecls(c, kind, name)[0]))
  {
    var decls := BaseDecls(c, kind, name);
    var l := decls[0];
    assert l in decls;
    AmbiguityIsExact(c, kind, name);
    SoleSubobject(c, kind, name, l);
    OwnHeadIsFirst(l.owner, kind, name);
    DeclIffUnhidden(c, kind, name, l);
    forall p | Unhidden(c, kind, name, p)
      ensures UpcastOffset(c, l.owner.name) == Success(Offset(c, p))
    {
      OffsetOfPath(c, p);
    }
  }

  /** Singular lookup returns the result the path-based policy asks for, and the policy
      leaves it no choice. */
  lemma NamedLookupIsThePolicy(
    c: ClassInfo, kind: MemberKind, name: string, r: Result<MemberLocation, LookupError>)
    requires WellFormed(c)
    ensures MeetsPolicy(c, kind, name, r) <==> r == LookupNamed(c, kind, name)
  {
    AmbiguityIsExact(c, kind, name);
    CollectedWhenUnhidden(c, kind, name);
    OwnNamedIsDeclared(c, kind, name);
    var looked := LookupNamed(c, kind, name);
    if c.Declares(kind, name) {
      OwnHeadIsFirst(c, kind, name);
    } else if looked.Success? {
      BaseHitMeetsPolicy(c, kind, name);
    }
    assert MeetsPolicy(c, kind, name, looked);
    if MeetsPolicy(c, kind, name, r) && r.Success? {
      FirstNamedIsUnique(kind, r.value, looked.value, name);
    }
  }

  lemma HitHasOneOffset(c: ClassInfo, kind: MemberKind, name: string, l: MemberLocation)
    requires WellFormed(c)
    requires l in OwnNamed(c, kind, name)
             || (SubobjectCount(c, BaseDecls(c, kind, name)) < 2 && l in BaseDecls(c, kind, name))
    ensures UpcastOffset(c, l.owner.name).Success?
  {
    if l in OwnNamed(c, kind, name) {
      OwnNamedElement(c, kind, name, l);
      assert BasePathOffsets(c, c.name) == {0};
    } else {
      SoleSubobject(c, kind, name, l);
    }
  }

  /** A hit has exactly one offset in the start class, so no fallback offset is ever needed. */
  lemma NamedHitHasOneOffset(c: ClassInfo, kind: MemberKind, name: string)
    requires WellFormed(c) && LookupNamed(c, kind, name).Success?
    ensures UpcastOffset(c, LookupNamed(c, kind, name).value.owner.name).Success?
  {
    var own, decls := OwnNamed(c, kind, name), BaseDecls(c, kind, name);
    assert own != [] ==> own[0] in own;
    assert decls != [] ==> decls[0] in decls;
    HitHasOneOffset(c, kind, name, LookupNamed(c, kind, name).value);
  }

  lemma SignatureHitHasOneOffset(c: ClassInfo, kind: MemberKind, name: string, types: seq<string>)
    requires WellFormed(c) && LookupSignature(c, kind, name, types).Success?
    ensures UpcastOffset(c, LookupSignature(c, kind, name, types).value.owner.name).Success?
  {
    var own, decls := OwnNamed(c, kind, name), BaseDecls(c, kind, name);
    var searched := if own != [] then own else decls;
    var hit := FirstMatch(kind, searched, types);
    FirstMatchIsFirst(kind, searched, types);
    assert hit.value in searched;
    HitHasOneOffset(c, kind, name, hit.value);
  }

  // --------------------------------------------------------------------
  // The lookups agree.
  // --------------------------------------------------------------------

  lemma UnambiguousListIsKept(c: ClassInfo, kind: MemberKind, name: string)
    requires WellFormed(c) && SubobjectCount(c, BaseDecls(c, kind, name)) < 2
    ensures Filter(BaseDecls(c, kind, name), Unambiguous(c)) == BaseDecls(c, kind, name)
  {
    var decls := BaseDecls(c, kind, name);
    forall l | l in decls
      ensures ReachedOnce(c, l)
    {
      SoleSubobject(c, kind, name, l);
    }
    FilterKeepsAll(decls, Unambiguous(c));
  }

  /** The signature lookup is ambiguous exactly when the plain one is; otherwise it is the
      first signature match in the plural lookup, of which a plain hit is the head. */
  lemma LookupsAgree(c: ClassInfo, kind: MemberKind, name: string, types: seq<string>)
    requires WellFormed(c)
    ensures LookupSignature(c, kind, name, types) == Failure(AmbiguousName)
            <==> LookupNamed(c, kind, name) == Failure(AmbiguousName)
    ensures LookupNamed(c, kind, name) != Failure(AmbiguousName) ==>
              LookupSignature(c, kind, name, types) == Found(FirstMatch(kind, LookupAll(c, kind, name), types))
    ensures LookupNamed(c, kind, name).Success? ==>
              LookupAll(c, kind, name) != [] && LookupAll(c, kind, name)[0] == LookupNamed(c, kind, name).value
    ensures LookupNamed(c, kind, name) == Failure(NameNotFound) ==> LookupAll(c, kind, name) == []
  {
    if OwnNamed(c, kind, name) == [] && SubobjectCount(c, BaseDecls(c, kind, name)) < 2 {
      UnambiguousListIsKept(c, kind, name);
    }
  }

  /** All paths from `c` to `d` lead to the same place. */
  ghost predicate OnePlace(c: ClassInfo, d: ClassInfo) {
    forall p, q :: IsPath(c, p) && IsPath(c, q) && End(c, p) == d && End(c, q) == d ==> Offset(c, p) == Offset(c, q)
  }

  lemma ReachedOnceIsOnePlace(c: ClassInfo, u: Path)
    requires WellFormed(c) && IsPath(c, u)
    ensures |BasePathOffsets(c, End(c, u).name)| <= 1 <==> OnePlace(c, End(c, u))
  {
    var d := End(c, u);
    var offsets := BasePathOffsets(c, d.name);
    OffsetOfPath(c, u);
    if |offsets| <= 1 {
      forall p, q | IsPath(c, p) && IsPath(c, q) && End(c, p) == d && End(c, q) == d
        ensures Offset(c, p) == Offset(c, q)
      {
        OffsetOfPath(c, p);
        OffsetOfPath(c, q);
        SingletonIsUnique(offsets, Offset(c, p), Offset(c, q));
      }
    } else {
      var x, y := TwoOf(offsets);
      var p := PathOfOffset(c, d.name, x);
      var q := PathOfOffset(c, d.name, y);
      assert End(c, p) == d && End(c, q) == d;
    }
  }

  /** Plural lookup lists the unhidden declarations whose class is found in one place. */
  lemma PluralLookupIsThePolicy(c: ClassInfo, kind: MemberKind, name: string, l: MemberLocation)
    requires WellFormed(c)
    ensures l in LookupAll(c, kind, name)
            <==> && Names(kind, l, name)
                 && if c.Declares(kind, name) then l.owner == c
                    else OnePlace(c, l.owner) && exists p :: Unhidden(c, kind, name, p) && End(c, p) == l.owner
  {
    OwnNamedIsDeclared(c, kind, name);
    if c.Declares(kind, name) {
      OwnNamedElement(c, kind, name, l);
    } else {
      FilterElement(BaseDecls(c, kind, name), Unambiguous(c), l);
      DeclIffUnhidden(c, kind, name, l);
      if p :| Unhidden(c, kind, name, p) && End(c, p) == l.owner {
        ReachedOnceIsOnePlace(c, p);
      }
    }
  }

  /** When an ambiguous name is left out: exactly if each class that offers it is found in several
      places. */
  lemma AmbiguousNameOmitted(c: ClassInfo, kind: MemberKind, name: string)
    requires WellFormed(c) && LookupNamed(c, kind, name) == Failure(AmbiguousName)
    ensures LookupAll(c, kind, name) == [] <==> forall p :: Unhidden(c, kind, name, p) ==> !OnePlace(c, End(c, p))
  {
    var all := LookupAll(c, kind, name);
    OwnNamedIsDeclared(c, kind, name);
    if all != [] {
      assert all[0] in all;
      PluralLookupIsThePolicy(c, kind, name, all[0]);
    }
    if p :| Unhidden(c, kind, name, p) && OnePlace(c, End(c, p)) {
      UnhiddenEndsDeclaring(c, kind, name, p);
      var i :| 0 <= i < |End(c, p).Members(kind)| && End(c, p).Members(kind)[i].name == name;
      PluralLookupIsThePolicy(c, kind, name, MemberLocation(End(c, p), i));
    }
  }

  /** class A { f }, class B { f } and class C : A, B. */
  predicate Siblings(a: ClassInfo, b: ClassInfo, c: ClassInfo, f: Member) {
    && a == ClassInfo(0, "A", [], [f], [], [], [])
    && b == ClassInfo(1, "B", [], [f], [], [], [])
    && c == ClassInfo(2, "C", [BaseInfo("A", 0, Some(a)), BaseInfo("B", 8, Some(b))], [], [], [], [])
  }

  lemma SoleMember(d: ClassInfo, f: Member)
    requires d.functions == [f]
    ensures NamedView(d, Functions, f.name) == [MemberLocation(d, 0)]
  {
    assert [f][..0] == [];
    assert IndicesNamed([f], f.name) == [0];
    assert OwnNamed(d, Functions, f.name) == [MemberLocation(d, 0)];
  }

  lemma TwoFirstOccurrences(l: MemberLocation, m: MemberLocation)
    requires KeyOf(l) != KeyOf(m)
    ensures FirstOccurrences([l, m]) == [l, m]
  {
    FirstOccurrencesOfDistinct([l, m]);
  }

  lemma SiblingDecls(a: ClassInfo, b: ClassInfo, c: ClassInfo, f: Member)
    requires Siblings(a, b, c, f)
    ensures OwnNamed(c, Functions, f.name) == []
    ensures BaseDecls(c, Functions, f.name) == [MemberLocation(a, 0), MemberLocation(b, 0)]
  {
    SoleMember(a, f);
    SoleMember(b, f);
    assert DeclsBelow(c, Functions, f.name, 1) == [MemberLocation(a, 0)];
    assert DeclsBelow(c, Functions, f.name, 2) == [MemberLocation(a, 0), MemberLocation(b, 0)];
    TwoFirstOccurrences(MemberLocation(a, 0), MemberLocation(b, 0));
  }

  lemma SiblingOffsets(a: ClassInfo, b: ClassInfo, c: ClassInfo, f: Member)
    requires Siblings(a, b, c, f)
    ensures BasePathOffsets(c, "A") == {0} && BasePathOffsets(c, "B") == {8}
  {
    assert BasePathOffsets(a, "B") == {} && BasePathOffsets(b, "A") == {};
    assert BasePathOffsets(a, "A") == {0} && BasePathOffsets(b, "B") == {0};
    assert EdgeOffsets(c.bases[0], "A") == {0} && EdgeOffsets(c.bases[1], "A") == {};
    assert EdgeOffsets(c.bases[0], "B") == {} && EdgeOffsets(c.bases[1], "B") == {8};
  }

  lemma TwoNames(c: ClassInfo, l: MemberLocation, m: MemberLocation)
    requires l.owner.name == "A" && m.owner.name == "B"
    requires BasePathOffsets(c, "A") == {0} && BasePathOffsets(c, "B") == {8}
    ensures SubobjectCount(c, [l, m]) >= 2
  {
    assert l in [l, m] && m in [l, m];
    assert "A" in ClassNames([l, m]) && "B" in ClassNames([l, m]);
    TwoElements(SubobjectsNamed(c, ClassNames([l, m])), ("A", 0), ("B", 8));
  }

  /** Where two sibling bases declare a name, singular lookup is ambiguous and plural lookup lists both. */
  lemma SiblingsAreListed(a: ClassInfo, b: ClassInfo, c: ClassInfo, f: Member)
    requires Siblings(a, b, c, f)
    ensures WellFormed(c)
    ensures LookupNamed(c, Functions, f.name) == Failure(AmbiguousName)
    ensures LookupAll(c, Functions, f.name) == [MemberLocation(a, 0), MemberLocation(b, 0)]
  {
    ClosedGraphIsWellFormed({a, b, c}, c);
    var l, m := MemberLocation(a, 0), MemberLocation(b, 0);
    SiblingDecls(a, b, c, f);
    SiblingOffsets(a, b, c, f);
    TwoNames(c, l, m);
    FilterKeepsAll([l, m], Unambiguous(c));
  }

  /** No declaration is listed twice. */
  lemma PluralLookupHasNoRepeats(c: ClassInfo, kind: MemberKind, name: string)
    ensures forall j, k :: 0 <= j < k < |LookupAll(c, kind, name)| ==>
                             LookupAll(c, kind, name)[j] != LookupAll(c, kind, name)[k]
  {
    OwnNamedIsDistinct(c, kind, name);
    if OwnNamed(c, kind, name) == [] {
      var decls := BaseDecls(c, kind, name);
      FirstOccurrencesAreExact(DeclsBelow(c, kind, name, |c.bases|));
      assert forall j, k :: 0 <= j < k < |decls| ==> KeyOf(decls[j]) != KeyOf(decls[k]);
      FilterKeepsDistinct(decls, Unambiguous(c));
    }
  }

  lemma {:induction false} FilterKeepsDistinct(v: seq<MemberLocation>, keep: MemberLocation -> bool)
    requires forall j, k :: 0 <= j < k < |v| ==> v[j] != v[k]
    ensures forall j, k :: 0 <= j < k < |Filter(v, keep)| ==> Filter(v, keep)[j] != Filter(v, keep)[k]
  {
    if v != [] {
      var init, last := v[..|v| - 1], v[|v| - 1];
      FilterKeepsDistinct(init, keep);
      FilterElement(init, keep, last);
      assert last !in init;
    }
  }

  // --------------------------------------------------------------------
  // The merged view.
  // --------------------------------------------------------------------

  lemma {:induction false} OwnSelected(c: ClassInfo, kind: MemberKind, name: string, n: nat)
    requires n <= |c.Members(kind)|
    ensures Filter(OwnMembers(c, kind)[..n], Named(kind, name))
            == Locations(c, IndicesNamed(c.Members(kind)[..n], name))
  {
    if n > 0 {
      OwnSelected(c, kind, name, n - 1);
      assert OwnMembers(c, kind)[..n][..n - 1] == OwnMembers(c, kind)[..n - 1];
      assert c.Members(kind)[..n][..n - 1] == c.Members(kind)[..n - 1];
    }
  }

  lemma SelectBoth<T>(a: seq<T>, b: seq<T>, keep: T -> bool, x: seq<T>, y: seq<T>)
    requires Filter(a, keep) == x && Filter(b, keep) == y
    ensures Filter(a + b, keep) == x + y
  {
    FilterConcat(a, b, keep);
  }

  lemma OwnPartSelected(c: ClassInfo, kind: MemberKind, name: string)
    ensures Filter(OwnMembers(c, kind), Named(kind, name)) == OwnNamed(c, kind, name)
  {
    var own := OwnMembers(c, kind);
    OwnSelected(c, kind, name, |own|);
    assert own[..|own|] == own && c.Members(kind)[..|own|] == c.Members(kind);
  }

  /** Selecting a name from the merged view gives what the class sees under that name. */
  lemma {:induction false} MergedSelected(c: ClassInfo, kind: MemberKind, name: string)
    ensures Filter(MergedView(c, kind), Named(kind, name)) == NamedView(c, kind, name)
    decreases c, 1, 0
  {
    OwnPartSelected(c, kind, name);
    FilterConcat(OwnMembers(c, kind), MergedBelow(c, kind, |c.bases|), Named(kind, name));
    OwnNamedIsDeclared(c, kind, name);
    if c.Declares(kind, name) {
      HiddenBelow(c, kind, name, |c.bases|);
    } else {
      BelowSelected(c, kind, name, |c.bases|);
    }
  }

  lemma HiddenBelow(c: ClassInfo, kind: MemberKind, name: string, n: nat)
    requires n <= |c.bases| && c.Declares(kind, name)
    ensures Filter(MergedBelow(c, kind, n), Named(kind, name)) == []
  {
    var r := Filter(MergedBelow(c, kind, n), Named(kind, name));
    if r != [] {
      FilterElement(MergedBelow(c, kind, n), Named(kind, name), r[0]);
      NotMergedBelow(c, kind, name, n, r[0]);
      assert false;
    }
  }

  lemma {:induction false} NotMergedBelow(c: ClassInfo, kind: MemberKind, name: string, n: nat, l: MemberLocation)
    requires n <= |c.bases| && c.Declares(kind, name) && Names(kind, l, name)
    ensures l !in MergedBelow(c, kind, n)
    decreases n
  {
    if n > 0 {
      NotMergedBelow(c, kind, name, n - 1, l);
      NotContributed(c, kind, name, n - 1, l);
    }
  }

  lemma NotContributed(c: ClassInfo, kind: MemberKind, name: string, i: nat, l: MemberLocation)
    requires c.Declares(kind, name) && Names(kind, l, name)
    ensures l !in Contribution(c, kind, i)
  {
    if c.HasBase(i) {
      FilterElement(MergedView(c.BaseAt(i), kind), VisibleIn(c, kind), l);
    }
  }

  lemma {:induction false} BelowSelected(c: ClassInfo, kind: MemberKind, name: string, n: nat)
    requires n <= |c.bases| && !c.Declares(kind, name)
    ensures Filter(MergedBelow(c, kind, n), Named(kind, name)) == DeclsBelow(c, kind, name, n)
    decreases c, 0, n
  {
    if n > 0 {
      var seen := if c.HasBase(n - 1) then NamedView(c.BaseAt(n - 1), kind, name) else [];
      BelowSelected(c, kind, name, n - 1);
      ContributionSelected(c, kind, name, n - 1);
      calc {
        Filter(MergedBelow(c, kind, n), Named(kind, name));
        Filter(MergedBelow(c, kind, n - 1) + Contribution(c, kind, n - 1), Named(kind, name));
        { SelectBoth(MergedBelow(c, kind, n - 1), Contribution(c, kind, n - 1), Named(kind, name),
                     DeclsBelow(c, kind, name, n - 1), seen); }
        DeclsBelow(c, kind, name, n - 1) + seen;
        DeclsBelow(c, kind, name, n);
      }
    }
  }

  lemma {:induction false} ContributionSelected(c: ClassInfo, kind: MemberKind, name: string, i: nat)
    requires !c.Declares(kind, name)
    ensures Filter(Contribution(c, kind, i), Named(kind, name))
            == if c.HasBase(i) then NamedView(c.BaseAt(i), kind, name) else []
    decreases c, 0, 0
  {
    if c.HasBase(i) {
      FilterAbsorbs(MergedView(c.BaseAt(i), kind), VisibleIn(c, kind), Named(kind, name));
      MergedSelected(c.BaseAt(i), kind, name);
    }
  }

  lemma {:induction false} MergedOwnerPath(c: ClassInfo, kind: MemberKind, l: MemberLocation) returns (p: Path)
    requires l in MergedView(c, kind)
    ensures IsPath(c, p) && End(c, p) == l.owner
    decreases c, 1, 0
  {
    if l in OwnMembers(c, kind) {
      p := [];
    } else {
      p := MergedOwnerBelow(c, kind, |c.bases|, l);
    }
  }

  lemma {:induction false} MergedOwnerBelow(c: ClassInfo, kind: MemberKind, n: nat, l: MemberLocation)
    returns (p: Path)
    requires n <= |c.bases| && l in MergedBelow(c, kind, n)
    ensures IsPath(c, p) && End(c, p) == l.owner
    decreases c, 0, n
  {
    if l in MergedBelow(c, kind, n - 1) {
      p := MergedOwnerBelow(c, kind, n - 1, l);
    } else {
      p := ContributedOwner(c, kind, n - 1, l);
    }
  }

  lemma {:induction false} ContributedOwner(c: ClassInfo, kind: MemberKind, i: nat, l: MemberLocation)
    returns (p: Path)
    requires l in Contribution(c, kind, i)
    ensures IsPath(c, p) && End(c, p) == l.owner
    decreases c, 0, 0
  {
    FilterElement(MergedView(c.BaseAt(i), kind), VisibleIn(c, kind), l);
    var q := MergedOwnerPath(c.BaseAt(i), kind, l);
    p := [i] + q;
    assert p[1..] == q;
  }

  lemma MergedKeysIdentify(c: ClassInfo, kind: MemberKind)
    requires WellFormed(c)
    ensures KeysIdentify(MergedView(c, kind))
  {
    var view := MergedView(c, kind);
    forall l, m | l in view && m in view && KeyOf(l) == KeyOf(m)
      ensures l == m
    {
      var p := MergedOwnerPath(c, kind, l);
      var q := MergedOwnerPath(c, kind, m);
      assert End(c, p) == End(c, q);
    }
  }

  lemma OwnSurvives(c: ClassInfo, kind: MemberKind, name: string)
    ensures Filter(FirstOccurrences(OwnNamed(c, kind, name)), Unambiguous(c)) == OwnNamed(c, kind, name)
  {
    var own := OwnNamed(c, kind, name);
    OwnNamedIsDistinct(c, kind, name);
    FirstOccurrencesOfDistinct(own);
    assert BasePathOffsets(c, c.name) == {0};
    forall l | l in own
      ensures ReachedOnce(c, l)
    {
      OwnNamedElement(c, kind, name, l);
    }
    FilterKeepsAll(own, Unambiguous(c));
  }

  /** Recursive hiding, deduplication and exclusion commute with selection by name: the merged
      view, restricted to one name, is the plural lookup of that name, handle by handle. */
  lemma MergedViewIsNamedLookup(c: ClassInfo, kind: MemberKind, name: string)
    requires WellFormed(c)
    ensures Filter(AllMembers(c, kind), Named(kind, name)) == LookupAll(c, kind, name)
  {
    var view := MergedView(c, kind);
    calc {
      Filter(AllMembers(c, kind), Named(kind, name));
      { FilterCommutes(FirstOccurrences(view), Unambiguous(c), Named(kind, name)); }
      Filter(Filter(FirstOccurrences(view), Named(kind, name)), Unambiguous(c));
      { MergedKeysIdentify(c, kind); FirstOccurrencesOfFilter(view, Named(kind, name)); }
      Filter(FirstOccurrences(Filter(view, Named(kind, name))), Unambiguous(c));
      { MergedSelected(c, kind, name); }
      Filter(FirstOccurrences(NamedView(c, kind, name)), Unambiguous(c));
      { OwnSurvives(c, kind, name); }
      LookupAll(c, kind, name);
    }
  }

  // --------------------------------------------------------------------
  // Transitive bases.
  // --------------------------------------------------------------------

  /** A base as listed by the class that derives from it. */
  datatype BaseHandle = BaseHandle(owner: ClassInfo, index: nat)

  datatype Walk = Walk(results: seq<BaseHandle>, seen: set<string>)

  /** The walk over the bases of `c` from the `i`-th on, skipping every name already seen. */
  function WalkFrom(c: ClassInfo, i: nat, w: Walk): Walk
    requires i <= |c.bases|
    decreases c, |c.bases| - i
  {
    if i == |c.bases| then w
    else if c.bases[i].name in w.seen then WalkFrom(c, i + 1, w)
    else
      var entered := Walk(w.results + [BaseHandle(c, i)], w.seen + {c.bases[i].name});
      WalkFrom(c, i + 1, if c.HasBase(i) then WalkFrom(c.BaseAt(i), 0, entered) else entered)
  }

  /** `n` names a class reached from `c` by one or more base edges, the first from `i` on. */
  ghost predicate ReachedFrom(c: ClassInfo, i: nat, n: string) {
    exists p :: p != [] && IsPath(c, p) && i <= p[0] && End(c, p).name == n
  }

  function HandleName(h: BaseHandle): string {
    if h.index < |h.owner.bases| then h.owner.bases[h.index].name else ""
  }

  function HandleNames(results: seq<BaseHandle>): (r: seq<string>)
    ensures |r| == |results| && forall k :: 0 <= k < |r| ==> r[k] == HandleName(results[k])
  {
    seq(|results|, k requires 0 <= k < |results| => HandleName(results[k]))
  }

  /** No name is listed twice, and `seen` holds exactly the names listed. */
  ghost predicate Sound(w: Walk) {
    var names := HandleNames(w.results);
    && (forall n :: n in w.seen <==> n in names)
    && (forall j, k :: 0 <= j < k < |names| ==> names[j] != names[k])
  }

  /** Nothing under a seen class is left unseen. */
  ghost predicate SeenIsClosed(c: ClassInfo, seen: set<string>) {
    forall p, q :: && p != [] && IsPath(c, p) && End(c, p).name in seen && IsPath(End(c, p), q)
                   ==> End(End(c, p), q).name in seen
  }

  lemma ReachedFromBase(c: ClassInfo, i: nat, n: string)
    requires WellFormed(c) && c.HasBase(i)
    ensures ReachedFrom(c, i, n)
            <==> n == c.bases[i].name || ReachedFrom(c.BaseAt(i), 0, n) || ReachedFrom(c, i + 1, n)
  {
    WellFormedBase(c, i);
    if p :| p != [] && IsPath(c, p) && i <= p[0] && End(c, p).name == n {
      var q := p[1..];
      if p[0] == i && q != [] {
        assert IsPath(c.BaseAt(i), q) && 0 <= q[0] && End(c.BaseAt(i), q).name == n;
      }
    }
    if n == c.bases[i].name {
      assert IsPath(c, [i]) && [i][0] == i;
    }
    if q :| q != [] && IsPath(c.BaseAt(i), q) && End(c.BaseAt(i), q).name == n {
      assert ([i] + q)[1..] == q;
      assert IsPath(c, [i] + q);
    }
  }

  lemma ClosedBelow(c: ClassInfo, i: nat, seen: set<string>)
    requires WellFormed(c) && c.HasBase(i) && c.bases[i].name !in seen && SeenIsClosed(c, seen)
    ensures SeenIsClosed(c.BaseAt(i), seen + {c.bases[i].name})
  {
    WellFormedBase(c, i);
    var b := c.BaseAt(i);
    forall p, q | p != [] && IsPath(b, p) && End(b, p).name in seen + {b.name} && IsPath(End(b, p), q)
      ensures End(End(b, p), q).name in seen
    {
      NameDiffersBelow(b, p);
      assert ([i] + p)[1..] == p;
      assert IsPath(c, [i] + p) && End(c, [i] + p) == End(b, p);
    }
  }

  /** After the `i`-th base is walked, the names seen are again closed. */
  lemma ClosedAfter(c: ClassInfo, i: nat, seen: set<string>, after: set<string>)
    requires WellFormed(c) && c.HasBase(i) && SeenIsClosed(c, seen)
    requires forall n :: n in after <==> n in seen || n == c.bases[i].name || ReachedFrom(c.BaseAt(i), 0, n)
    ensures SeenIsClosed(c, after)
  {
    forall p, q | p != [] && IsPath(c, p) && End(c, p).name in after && IsPath(End(c, p), q)
      ensures End(End(c, p), q).name in after
    {
      if End(c, p).name !in seen {
        BelowWalkedBase(c, i, p, q);
      }
    }
  }

  /** Whatever lies under a class that the `i`-th base reaches is reached from that base as well. */
  lemma BelowWalkedBase(c: ClassInfo, i: nat, p: Path, q: Path)
    requires WellFormed(c) && c.HasBase(i) && IsPath(c, p) && IsPath(End(c, p), q)
    requires End(c, p).name == c.bases[i].name || ReachedFrom(c.BaseAt(i), 0, End(c, p).name)
    ensures var n := End(End(c, p), q).name; n == c.bases[i].name || ReachedFrom(c.BaseAt(i), 0, n)
  {
    WellFormedBase(c, i);
    var b, x := c.BaseAt(i), End(c, p);
    if x.name == b.name {
      assert x == b;
      assert q != [] ==> 0 <= q[0];
    } else {
      var r :| r != [] && IsPath(b, r) && End(b, r).name == x.name;
      assert ([i] + r)[1..] == r && IsPath(c, [i] + r) && End(c, [i] + r) == End(b, r);
      PathJoin(b, r, q);
      assert r + q != [] && 0 <= (r + q)[0];
    }
  }

  lemma SoundWith(w: Walk, h: BaseHandle)
    requires Sound(w) && HandleName(h) !in w.seen
    ensures Sound(Walk(w.results + [h], w.seen + {HandleName(h)}))
  {
    assert HandleNames(w.results + [h]) == HandleNames(w.results) + [HandleName(h)];
  }

  /** The pruned walk sees exactly the names reached, although it never looks below a name
      it has already seen. */
  lemma {:induction false} WalkSeesAll(c: ClassInfo, i: nat, w: Walk)
    requires WellFormed(c) && i <= |c.bases| && Sound(w) && SeenIsClosed(c, w.seen)
    ensures Sound(WalkFrom(c, i, w))
    ensures forall n :: n in WalkFrom(c, i, w).seen <==> n in w.seen || ReachedFrom(c, i, n)
    decreases c, |c.bases| - i
  {
    if i < |c.bases| {
      WellFormedBase(c, i);
      forall n {
        ReachedFromBase(c, i, n);
      }
      if c.bases[i].name in w.seen {
        SeenBaseAddsNothing(c, i, w.seen);
        WalkSeesAll(c, i + 1, w);
      } else {
        var entered := Walk(w.results + [BaseHandle(c, i)], w.seen + {c.bases[i].name});
        SoundWith(w, BaseHandle(c, i));
        ClosedBelow(c, i, w.seen);
        WalkSeesAll(c.BaseAt(i), 0, entered);
        var after := WalkFrom(c.BaseAt(i), 0, entered);
        ClosedAfter(c, i, w.seen, after.seen);
        WalkSeesAll(c, i + 1, after);
      }
    } else {
      forall n
        ensures !ReachedFrom(c, i, n)
      {
        PathsStartAtABase(c, i, n);
      }
    }
  }

  lemma PathsStartAtABase(c: ClassInfo, i: nat, n: string)
    ensures ReachedFrom(c, i, n) ==> i < |c.bases|
  {
  }

  lemma SeenBaseAddsNothing(c: ClassInfo, i: nat, seen: set<string>)
    requires WellFormed(c) && c.HasBase(i) && c.bases[i].name in seen && SeenIsClosed(c, seen)
    ensures forall n :: ReachedFrom(c.BaseAt(i), 0, n) ==> n in seen
  {
    WellFormedBase(c, i);
    forall n | ReachedFrom(c.BaseAt(i), 0, n)
      ensures n in seen
    {
      var q :| q != [] && IsPath(c.BaseAt(i), q) && End(c.BaseAt(i), q).name == n;
      assert End(End(c, [i]), q).name == n;
    }
  }

  /** Every handle stands for a base edge of a class under `c`. */
  ghost predicate EdgeUnder(c: ClassInfo, h: BaseHandle) {
    h.index < |h.owner.bases| && exists p :: IsPath(c, p) && End(c, p) == h.owner
  }

  lemma {:induction false} WalkListsEdges(c: ClassInfo, i: nat, w: Walk, h: BaseHandle)
    requires i <= |c.bases| && h in WalkFrom(c, i, w).results
    ensures h in w.results || EdgeUnder(c, h)
    decreases c, |c.bases| - i
  {
    if i < |c.bases| {
      if c.bases[i].name in w.seen {
        WalkListsEdges(c, i + 1, w, h);
      } else {
        var entered := Walk(w.results + [BaseHandle(c, i)], w.seen + {c.bases[i].name});
        var after := if c.HasBase(i) then WalkFrom(c.BaseAt(i), 0, entered) else entered;
        WalkListsEdges(c, i + 1, after, h);
        if h in after.results && c.HasBase(i) {
          WalkListsEdges(c.BaseAt(i), 0, entered, h);
          if p :| IsPath(c.BaseAt(i), p) && End(c.BaseAt(i), p) == h.owner {
            assert ([i] + p)[1..] == p && IsPath(c, [i] + p) && End(c, [i] + p) == h.owner;
          }
        }
        assert IsPath(c, []) && End(c, []) == c;
      }
    }
  }

  /** all_bases lists every class reached by one or more base edges, once each, under a handle
      that is one of those edges. */
  lemma AllBasesAreTheReachable(c: ClassInfo)
    requires WellFormed(c)
    ensures
      var results := WalkFrom(c, 0, Walk([], {})).results;
      && (forall n :: n in HandleNames(results) <==> ReachedFrom(c, 0, n))
      && (forall j, k :: 0 <= j < k < |results| ==> HandleNames(results)[j] != HandleNames(results)[k])
      && (forall h :: h in results ==> EdgeUnder(c, h))
  {
    WalkSeesAll(c, 0, Walk([], {}));
    var w := WalkFrom(c, 0, Walk([], {}));
    forall h | h in w.results
      ensures EdgeUnder(c, h)
    {
      WalkListsEdges(c, 0, Walk([], {}), h);
    }
  }
}
