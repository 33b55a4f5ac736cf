/** The member lookup policy of refl.hpp as functions of the descriptor graph, and what it
    means in terms of base paths: hiding, diamond and sibling ambiguity, merged views. */
module LookupPolicy {
  import opened Wrappers
  import opened ClassGraph

  /** A declaration: its declaring class and its index there. */
  datatype MemberLocation = MemberLocation(owner: ClassInfo, index: nat)

  datatype LookupError = NameNotFound | AmbiguousName

  predicate Names(kind: MemberKind, l: MemberLocation, name: string) {
    l.index < |l.owner.Members(kind)| && l.owner.Members(kind)[l.index].name == name
  }

  function Named(kind: MemberKind, name: string): MemberLocation -> bool {
    l => Names(kind, l, name)
  }

  // --------------------------------------------------------------------
  // Order-preserving selection.
  // --------------------------------------------------------------------

  function Filter<T>(s: seq<T>, keep: T -> bool): seq<T>
  {
    if s == [] then []
    else
      var init, last := s[..|s| - 1], s[|s| - 1];
      Filter(init, keep) + (if keep(last) then [last] else [])
  }

  lemma Regroup<T>(a: seq<T>, b: seq<T>, c: seq<T>)
    ensures (a + b) + c == a + (b + c)
  {
  }

  lemma {:induction false} FilterElement<T>(s: seq<T>, keep: T -> bool, x: T)
    ensures x in Filter(s, keep) <==> x in s && keep(x)
  {
    if s != [] {
      var init, last := s[..|s| - 1], s[|s| - 1];
      FilterElement(init, keep, x);
      assert s == init + [last];
    }
  }

  lemma {:induction false} FilterConcat<T>(a: seq<T>, b: seq<T>, keep: T -> bool)
    ensures Filter(a + b, keep) == Filter(a, keep) + Filter(b, keep)
  {
    if b == [] {
      assert a + b == a;
    } else {
      var init, last := b[..|b| - 1], b[|b| - 1];
      assert (a + b)[..|a + b| - 1] == a + init;
      FilterConcat(a, init, keep);
      var tail := if keep(last) then [last] else [];
      assert Filter(a, keep) + (Filter(init, keep) + tail) == (Filter(a, keep) + Filter(init, keep)) + tail;
    }
  }

  /** Dropping what a second filter drops anyway changes nothing. */
  lemma {:induction false} FilterAbsorbs<T>(s: seq<T>, loose: T -> bool, tight: T -> bool)
    requires forall x :: x in s && tight(x) ==> loose(x)
    ensures Filter(Filter(s, loose), tight) == Filter(s, tight)
  {
    if s != [] {
      var init, last := s[..|s| - 1], s[|s| - 1];
      FilterAbsorbs(init, loose, tight);
      FilterConcat(Filter(init, loose), if loose(last) then [last] else [], tight);
      assert [last][..0] == [];
    }
  }

  lemma {:induction false} FilterCommutes<T>(s: seq<T>, f: T -> bool, g: T -> bool)
    ensures Filter(Filter(s, f), g) == Filter(Filter(s, g), f)
  {
    if s != [] {
      var init, last := s[..|s| - 1], s[|s| - 1];
      FilterCommutes(init, f, g);
      FilterConcat(Filter(init, f), if f(last) then [last] else [], g);
      FilterConcat(Filter(init, g), if g(last) then [last] else [], f);
      assert [last][..0] == [];
    }
  }

  lemma {:induction false} FilterKeepsAll<T>(s: seq<T>, keep: T -> bool)
    requires forall x :: x in s ==> keep(x)
    ensures Filter(s, keep) == s
  {
    if s != [] {
      var init, last := s[..|s| - 1], s[|s| - 1];
      assert s == init + [last];
      assert last in s;
      FilterKeepsAll(init, keep);
    }
  }

  // --------------------------------------------------------------------
  // A class's own members, and removal of repeated declarations.
  // --------------------------------------------------------------------

  /** The indices of the members called `name`, in order. */
  function IndicesNamed(members: seq<Member>, name: string): seq<nat> {
    if members == [] then []
    else
      var n := |members| - 1;
      IndicesNamed(members[..n], name) + (if members[n].name == name then [n] else [])
  }

  /** `r` lists the indices of the members called `name`: those, in order, and no others. */
  predicate ListsNamed(r: seq<nat>, members: seq<Member>, name: string) {
    && (forall k :: 0 <= k < |r| ==> r[k] < |members| && members[r[k]].name == name)
    && (forall j, k :: 0 <= j < k < |r| ==> r[j] < r[k])
    && (forall i :: 0 <= i < |members| && members[i].name == name ==> i in r)
  }

  lemma {:induction false} IndicesNamedAreExact(members: seq<Member>, name: string)
    ensures ListsNamed(IndicesNamed(members, name), members, name)
  {
    if members != [] {
      var init, last := members[..|members| - 1], members[|members| - 1];
      IndicesNamedAreExact(init, name);
      assert members == init + [last];
      OneMoreListed(IndicesNamed(init, name), init, last, name);
    }
  }

  lemma OneMoreListed(r: seq<nat>, members: seq<Member>, last: Member, name: string)
    requires ListsNamed(r, members, name)
    ensures ListsNamed(r + if last.name == name then [|members|] else [], members + [last], name)
  {
  }

  function Locations(c: ClassInfo, indices: seq<nat>): (r: seq<MemberLocation>)
    ensures |r| == |indices| && forall k :: 0 <= k < |r| ==> r[k] == MemberLocation(c, indices[k])
  {
    seq(|indices|, k requires 0 <= k < |indices| => MemberLocation(c, indices[k]))
  }

  /** The members called `name` that `c` itself declares. */
  function OwnNamed(c: ClassInfo, kind: MemberKind, name: string): seq<MemberLocation> {
    Locations(c, IndicesNamed(c.Members(kind), name))
  }

  lemma OwnNamedElement(c: ClassInfo, kind: MemberKind, name: string, l: MemberLocation)
    ensures l in OwnNamed(c, kind, name) <==> l.owner == c && Names(kind, l, name)
  {
    var indices := IndicesNamed(c.Members(kind), name);
    IndicesNamedAreExact(c.Members(kind), name);
    var r := Locations(c, indices);
    if l.owner == c && Names(kind, l, name) {
      var k :| 0 <= k < |indices| && indices[k] == l.index;
      assert r[k] == l;
    }
  }

  lemma OwnNamedIsDeclared(c: ClassInfo, kind: MemberKind, name: string)
    ensures OwnNamed(c, kind, name) != [] <==> c.Declares(kind, name)
  {
    if OwnNamed(c, kind, name) != [] {
      var l := OwnNamed(c, kind, name)[0];
      assert l in OwnNamed(c, kind, name);
      OwnNamedElement(c, kind, name, l);
    }
    if i :| 0 <= i < |c.Members(kind)| && c.Members(kind)[i].name == name {
      OwnNamedElement(c, kind, name, MemberLocation(c, i));
    }
  }

  lemma OwnNamedIsDistinct(c: ClassInfo, kind: MemberKind, name: string)
    ensures var own := OwnNamed(c, kind, name);
            && (forall i :: 0 <= i < |own| ==> own[i].owner == c)
            && forall j, k :: 0 <= j < k < |own| ==> KeyOf(own[j]) != KeyOf(own[k])
  {
    IndicesNamedAreExact(c.Members(kind), name);
  }

  /** What identifies a declaration: the address of its class, and its index. */
  function KeyOf(l: MemberLocation): (nat, nat) {
    (l.owner.id, l.index)
  }

  function Keys(v: seq<MemberLocation>): set<(nat, nat)> {
    set l | l in v :: KeyOf(l)
  }

  /** The first declaration of every key, in order. */
  function FirstOccurrences(v: seq<MemberLocation>): seq<MemberLocation> {
    if v == [] then []
    else
      var init, last := v[..|v| - 1], v[|v| - 1];
      if KeyOf(last) in Keys(init) then FirstOccurrences(init) else FirstOccurrences(init) + [last]
  }

  /** Nothing new, every key, and no key twice. */
  lemma {:induction false} FirstOccurrencesAreExact(v: seq<MemberLocation>)
    ensures forall l :: l in FirstOccurrences(v) ==> l in v
    ensures Keys(FirstOccurrences(v)) == Keys(v)
    ensures forall j, k :: 0 <= j < k < |FirstOccurrences(v)| ==>
                             KeyOf(FirstOccurrences(v)[j]) != KeyOf(FirstOccurrences(v)[k])
  {
    if v != [] {
      var init, last := v[..|v| - 1], v[|v| - 1];
      var r := FirstOccurrences(init);
      FirstOccurrencesAreExact(init);
      assert v == init + [last];
      assert Keys(v) == Keys(init) + {KeyOf(last)};
      if KeyOf(last) in Keys(init) {
        assert Keys(v) == Keys(init);
      } else {
        assert forall j :: 0 <= j < |r| ==> KeyOf(r[j]) in Keys(r);
        assert Keys(r + [last]) == Keys(r) + {KeyOf(last)};
      }
    }
  }

  /** Keys identify declarations within `v`. */
  ghost predicate KeysIdentify(v: seq<MemberLocation>) {
    forall l, m :: l in v && m in v && KeyOf(l) == KeyOf(m) ==> l == m
  }

  lemma FirstOccurrencesKeepsElements(v: seq<MemberLocation>)
    requires KeysIdentify(v)
    ensures forall l :: l in v ==> l in FirstOccurrences(v)
  {
    FirstOccurrencesAreExact(v);
    forall l | l in v
      ensures l in FirstOccurrences(v)
    {
      assert KeyOf(l) in Keys(FirstOccurrences(v));
      var m :| m in FirstOccurrences(v) && KeyOf(m) == KeyOf(l);
    }
  }

  lemma {:induction false} FirstOccurrencesOfDistinct(v: seq<MemberLocation>)
    requires forall j, k :: 0 <= j < k < |v| ==> KeyOf(v[j]) != KeyOf(v[k])
    ensures FirstOccurrences(v) == v
  {
    if v != [] {
      var init, last := v[..|v| - 1], v[|v| - 1];
      FirstOccurrencesOfDistinct(init);
      if KeyOf(last) in Keys(init) {
        assert false;
      }
    }
  }

  lemma KeptKeys(v: seq<MemberLocation>, keep: MemberLocation -> bool, l: MemberLocation)
    requires keep(l) && forall m :: m in v && KeyOf(m) == KeyOf(l) ==> m == l
    ensures KeyOf(l) in Keys(v) <==> KeyOf(l) in Keys(Filter(v, keep))
  {
    FilterElement(v, keep, l);
    if KeyOf(l) in Keys(Filter(v, keep)) {
      var m :| m in Filter(v, keep) && KeyOf(m) == KeyOf(l);
      FilterElement(v, keep, m);
    }
  }

  /** Deduplication commutes with selection. */
  lemma {:induction false} FirstOccurrencesOfFilter(v: seq<MemberLocation>, keep: MemberLocation -> bool)
    requires KeysIdentify(v)
    ensures FirstOccurrences(Filter(v, keep)) == Filter(FirstOccurrences(v), keep)
  {
    if v != [] {
      var init, last := v[..|v| - 1], v[|v| - 1];
      assert forall l :: l in init ==> l in v;
      FirstOccurrencesOfFilter(init, keep);
      var kept := Filter(init, keep);
      var firsts := FirstOccurrences(init);
      FilterConcat(firsts, [last], keep);
      assert [last][..0] == [];
      assert Filter([last], keep) == if keep(last) then [last] else [];
      if keep(last) {
        assert (kept + [last])[..|kept|] == kept;
        KeptKeys(init, keep, last);
      } else {
        assert Filter(v, keep) == kept;
      }
    }
  }

  // --------------------------------------------------------------------
  // Declarations a class sees: its own, or else those its bases see.
  // --------------------------------------------------------------------

  function NamedView(c: ClassInfo, kind: MemberKind, name: string): seq<MemberLocation>
    decreases c, 1, 0
  {
    if OwnNamed(c, kind, name) != [] then OwnNamed(c, kind, name)
    else DeclsBelow(c, kind, name, |c.bases|)
  }

  /** What the first `n` bases of `c` see, in order and with repetitions. */
  function DeclsBelow(c: ClassInfo, kind: MemberKind, name: string, n: nat): seq<MemberLocation>
    requires n <= |c.bases|
    decreases c, 0, n
  {
    if n == 0 then []
    else
      DeclsBelow(c, kind, name, n - 1)
      + (if c.HasBase(n - 1) then NamedView(c.BaseAt(n - 1), kind, name) else [])
  }

  function BaseDecls(c: ClassInfo, kind: MemberKind, name: string): seq<MemberLocation> {
    FirstOccurrences(DeclsBelow(c, kind, name, |c.bases|))
  }

  function ClassNames(decls: seq<MemberLocation>): set<string> {
    set l | l in decls :: l.owner.name
  }

  /** The base subobjects of `c` whose class is one of `names`. */
  function SubobjectsNamed(c: ClassInfo, names: set<string>): set<(string, int)> {
    set n, o | n in names && o in BasePathOffsets(c, n) :: (n, o)
  }

  function SubobjectCount(c: ClassInfo, decls: seq<MemberLocation>): nat {
    |SubobjectsNamed(c, ClassNames(decls))|
  }

  // --------------------------------------------------------------------
  // The lookups.
  // --------------------------------------------------------------------

  function LookupNamed(c: ClassInfo, kind: MemberKind, name: string): Result<MemberLocation, LookupError> {
    var own, decls := OwnNamed(c, kind, name), BaseDecls(c, kind, name);
    if own != [] then Success(own[0])
    else if SubobjectCount(c, decls) >= 2 then Failure(AmbiguousName)
    else if decls != [] then Success(decls[0])
    else Failure(NameNotFound)
  }

  predicate MatchesSignature(kind: MemberKind, l: MemberLocation, types: seq<string>) {
    l.index < |l.owner.Members(kind)| && l.owner.Members(kind)[l.index].paramTypes == types
  }

  /** A declaration matches if it has as many parameters, of the same types in the same order. */
  lemma MatchesIff(kind: MemberKind, l: MemberLocation, types: seq<string>)
    ensures MatchesSignature(kind, l, types)
            <==> && l.index < |l.owner.Members(kind)|
                 && var declared := l.owner.Members(kind)[l.index].paramTypes;
                    |declared| == |types| && forall i :: 0 <= i < |types| ==> declared[i] == types[i]
  {
  }

  /** The first declaration that takes parameters of the given types. */
  function FirstMatch(kind: MemberKind, v: seq<MemberLocation>, types: seq<string>): Option<MemberLocation> {
    if v == [] then None
    else
      var r := FirstMatch(kind, v[..|v| - 1], types);
      if r.Some? then r
      else if MatchesSignature(kind, v[|v| - 1], types) then Some(v[|v| - 1])
      else None
  }

  lemma {:induction false} FirstMatchIsFirst(kind: MemberKind, v: seq<MemberLocation>, types: seq<string>)
    ensures var r := FirstMatch(kind, v, types);
            if r.None? then forall i :: 0 <= i < |v| ==> !MatchesSignature(kind, v[i], types)
            else exists i :: 0 <= i < |v| && v[i] == r.value && MatchesSignature(kind, v[i], types)
                             && forall j :: 0 <= j < i ==> !MatchesSignature(kind, v[j], types)
  {
    if v != [] {
      FirstMatchIsFirst(kind, v[..|v| - 1], types);
    }
  }

  function Found(match_: Option<MemberLocation>): Result<MemberLocation, LookupError> {
    match match_
    case Some(l) => Success(l)
    case None => Failure(NameNotFound)
  }

  function LookupSignature(c: ClassInfo, kind: MemberKind, name: string, types: seq<string>)
    : Result<MemberLocation, LookupError>
  {
    var own, decls := OwnNamed(c, kind, name), BaseDecls(c, kind, name);
    if own != [] then Found(FirstMatch(kind, own, types))
    else if SubobjectCount(c, decls) >= 2 then Failure(AmbiguousName)
    else Found(FirstMatch(kind, decls, types))
  }

  predicate ReachedOnce(c: ClassInfo, l: MemberLocation) {
    |BasePathOffsets(c, l.owner.name)| <= 1
  }

  function Unambiguous(c: ClassInfo): MemberLocation -> bool {
    l => ReachedOnce(c, l)
  }

  function LookupAll(c: ClassInfo, kind: MemberKind, name: string): seq<MemberLocation> {
    var own := OwnNamed(c, kind, name);
    if own != [] then own else Filter(BaseDecls(c, kind, name), Unambiguous(c))
  }

  // --------------------------------------------------------------------
  // The merged view of all names.
  // --------------------------------------------------------------------

  predicate HiddenBy(c: ClassInfo, kind: MemberKind, l: MemberLocation) {
    l.index < |l.owner.Members(kind)| && c.Declares(kind, l.owner.Members(kind)[l.index].name)
  }

  function VisibleIn(c: ClassInfo, kind: MemberKind): MemberLocation -> bool {
    l => !HiddenBy(c, kind, l)
  }

  function OwnMembers(c: ClassInfo, kind: MemberKind): (r: seq<MemberLocation>)
    ensures |r| == |c.Members(kind)|
    ensures forall i :: 0 <= i < |r| ==> r[i] == MemberLocation(c, i)
  {
    seq(|c.Members(kind)|, i requires 0 <= i < |c.Members(kind)| => MemberLocation(c, i))
  }

  function MergedView(c: ClassInfo, kind: MemberKind): seq<MemberLocation>
    decreases c, 1, 0
  {
    OwnMembers(c, kind) + MergedBelow(c, kind, |c.bases|)
  }

  function MergedBelow(c: ClassInfo, kind: MemberKind, n: nat): seq<MemberLocation>
    requires n <= |c.bases|
    decreases c, 0, n
  {
    if n == 0 then []
    else MergedBelow(c, kind, n - 1) + Contribution(c, kind, n - 1)
  }

  /** What one base adds: its own merged view, without the names `c` declares. */
  function Contribution(c: ClassInfo, kind: MemberKind, i: nat): seq<MemberLocation>
    decreases c, 0, 0
  {
    if c.HasBase(i) then Filter(MergedView(c.BaseAt(i), kind), VisibleIn(c, kind)) else []
  }

  function AllMembers(c: ClassInfo, kind: MemberKind): seq<MemberLocation> {
    Filter(FirstOccurrences(MergedView(c, kind)), Unambiguous(c))
  }

  // --------------------------------------------------------------------
  // The policy in terms of paths.
  // --------------------------------------------------------------------

  /** `p` leads from `c` to a declaration of `name`, past no other. */
  predicate Offers(c: ClassInfo, kind: MemberKind, name: string, p: Path)
    decreases |p|
  {
    && IsPath(c, p)
    && if p == [] then c.Declares(kind, name)
       else !c.Declares(kind, name) && Offers(c.BaseAt(p[0]), kind, name, p[1..])
  }

  /** `p` leads from a base of `c` to a declaration of `name`, past no other. */
  predicate Unhidden(c: ClassInfo, kind: MemberKind, name: string, p: Path) {
    p != [] && IsPath(c, p) && Offers(c.BaseAt(p[0]), kind, name, p[1..])
  }

  lemma DeclsBelowStep(c: ClassInfo, kind: MemberKind, name: string, n: nat, l: MemberLocation)
    requires n < |c.bases|
    ensures l in DeclsBelow(c, kind, name, n + 1)
            <==> || l in DeclsBelow(c, kind, name, n)
                 || (c.HasBase(n) && l in NamedView(c.BaseAt(n), kind, name))
  {
    var seen := DeclsBelow(c, kind, name, n);
    var more := if c.HasBase(n) then NamedView(c.BaseAt(n), kind, name) else [];
    assert DeclsBelow(c, kind, name, n + 1) == seen + more;
    assert l in seen + more <==> l in seen || l in more;
  }

  lemma {:induction false} DeclsBelowGrow(c: ClassInfo, kind: MemberKind, name: string, m: nat, n: nat, l: MemberLocation)
    requires m <= n <= |c.bases| && l in DeclsBelow(c, kind, name, m)
    ensures l in DeclsBelow(c, kind, name, n)
    decreases n - m
  {
    if m < n {
      DeclsBelowStep(c, kind, name, m, l);
      DeclsBelowGrow(c, kind, name, m + 1, n, l);
    }
  }

  lemma InDeclsBelow(c: ClassInfo, kind: MemberKind, name: string, n: nat, i: nat, l: MemberLocation)
    requires i < n <= |c.bases| && c.HasBase(i) && l in NamedView(c.BaseAt(i), kind, name)
    ensures l in DeclsBelow(c, kind, name, n)
  {
    DeclsBelowStep(c, kind, name, i, l);
    DeclsBelowGrow(c, kind, name, i + 1, n, l);
  }

  lemma {:induction false} FromDeclsBelow(c: ClassInfo, kind: MemberKind, name: string, n: nat, l: MemberLocation)
    returns (i: nat)
    requires n <= |c.bases| && l in DeclsBelow(c, kind, name, n)
    ensures i < n && c.HasBase(i) && l in NamedView(c.BaseAt(i), kind, name)
  {
    i := n - 1;
    DeclsBelowStep(c, kind, name, i, l);
    if l in DeclsBelow(c, kind, name, i) {
      i := FromDeclsBelow(c, kind, name, i, l);
    }
  }

  lemma {:induction false} OfferedIsSeen(c: ClassInfo, kind: MemberKind, name: string, p: Path, l: MemberLocation)
    requires Offers(c, kind, name, p) && End(c, p) == l.owner && Names(kind, l, name)
    ensures l in NamedView(c, kind, name)
    decreases |p|
  {
    OwnNamedIsDeclared(c, kind, name);
    if p == [] {
      OwnNamedElement(c, kind, name, l);
    } else {
      OfferedIsSeen(c.BaseAt(p[0]), kind, name, p[1..], l);
      InDeclsBelow(c, kind, name, |c.bases|, p[0], l);
    }
  }

  lemma {:induction false} SeenIsOffered(c: ClassInfo, kind: MemberKind, name: string, l: MemberLocation)
    returns (p: Path)
    requires l in NamedView(c, kind, name)
    ensures Offers(c, kind, name, p) && End(c, p) == l.owner && Names(kind, l, name)
    decreases c
  {
    OwnNamedIsDeclared(c, kind, name);
    if OwnNamed(c, kind, name) != [] {
      OwnNamedElement(c, kind, name, l);
      p := [];
    } else {
      var i := FromDeclsBelow(c, kind, name, |c.bases|, l);
      var q := SeenIsOffered(c.BaseAt(i), kind, name, l);
      p := [i] + q;
      assert p[1..] == q;
    }
  }

  /** The walk below a class collects exactly the declarations at the end of unhidden paths. */
  lemma CollectedIffUnhidden(c: ClassInfo, kind: MemberKind, name: string, l: MemberLocation)
    ensures l in DeclsBelow(c, kind, name, |c.bases|)
            <==> Names(kind, l, name) && exists p :: Unhidden(c, kind, name, p) && End(c, p) == l.owner
  {
    if l in DeclsBelow(c, kind, name, |c.bases|) {
      var i := FromDeclsBelow(c, kind, name, |c.bases|, l);
      var q := SeenIsOffered(c.BaseAt(i), kind, name, l);
      var p := [i] + q;
      assert p[1..] == q;
      assert Unhidden(c, kind, name, p) && End(c, p) == l.owner;
    }
    if p :| Names(kind, l, name) && Unhidden(c, kind, name, p) && End(c, p) == l.owner {
      OfferedIsSeen(c.BaseAt(p[0]), kind, name, p[1..], l);
      InDeclsBelow(c, kind, name, |c.bases|, p[0], l);
    }
  }

  /** Every path to a declaring class has an unhidden prefix. */
  lemma {:induction false} FirstDeclaring(c: ClassInfo, kind: MemberKind, name: string, p: Path) returns (k: nat)
    requires IsPath(c, p) && p != [] && End(c, p).Declares(kind, name)
    ensures 0 < k <= |p| && Unhidden(c, kind, name, p[..k])
    decreases |p|
  {
    var b := c.BaseAt(p[0]);
    if b.Declares(kind, name) {
      k := 1;
      assert p[..1][1..] == [];
    } else {
      var q := p[1..];
      assert End(c, p) == End(b, q);
      assert q != [];
      var j := FirstDeclaring(b, kind, name, q);
      k := j + 1;
      assert p[..k][1..] == q[..j];
    }
  }

  lemma UnhiddenEndsDeclaring(c: ClassInfo, kind: MemberKind, name: string, p: Path)
    requires Unhidden(c, kind, name, p)
    ensures End(c, p).Declares(kind, name)
  {
    OffersEndsDeclaring(c.BaseAt(p[0]), kind, name, p[1..]);
  }

  lemma {:induction false} OffersEndsDeclaring(c: ClassInfo, kind: MemberKind, name: string, p: Path)
    requires Offers(c, kind, name, p)
    ensures End(c, p).Declares(kind, name)
    decreases |p|
  {
    if p != [] {
      OffersEndsDeclaring(c.BaseAt(p[0]), kind, name, p[1..]);
    }
  }

  /** The owners of the collected declarations are the classes at the end of unhidden paths. */
  lemma DeclaringNames(c: ClassInfo, kind: MemberKind, name: string, n: string)
    requires WellFormed(c)
    ensures n in ClassNames(BaseDecls(c, kind, name))
            <==> exists p :: Unhidden(c, kind, name, p) && End(c, p).name == n
  {
    if n in ClassNames(BaseDecls(c, kind, name)) {
      var l :| l in BaseDecls(c, kind, name) && l.owner.name == n;
      DeclIffUnhidden(c, kind, name, l);
    }
    if p :| Unhidden(c, kind, name, p) && End(c, p).name == n {
      UnhiddenEndsDeclaring(c, kind, name, p);
      var d := End(c, p);
      var i :| 0 <= i < |d.Members(kind)| && d.Members(kind)[i].name == name;
      DeclIffUnhidden(c, kind, name, MemberLocation(d, i));
    }
  }

  /** What is left after deduplication is what was collected. */
  lemma DeclIffCollected(c: ClassInfo, kind: MemberKind, name: string, l: MemberLocation)
    requires WellFormed(c)
    ensures l in BaseDecls(c, kind, name) <==> l in DeclsBelow(c, kind, name, |c.bases|)
  {
    var all := DeclsBelow(c, kind, name, |c.bases|);
    FirstOccurrencesAreExact(all);
    CollectedKeysIdentify(c, kind, name);
    FirstOccurrencesKeepsElements(all);
  }

  /** The declarations counted are those at the end of unhidden paths. */
  lemma DeclIffUnhidden(c: ClassInfo, kind: MemberKind, name: string, l: MemberLocation)
    requires WellFormed(c)
    ensures l in BaseDecls(c, kind, name)
            <==> Names(kind, l, name) && exists p :: Unhidden(c, kind, name, p) && End(c, p) == l.owner
  {
    DeclIffCollected(c, kind, name, l);
    CollectedIffUnhidden(c, kind, name, l);
  }

  lemma CollectedKeysIdentify(c: ClassInfo, kind: MemberKind, name: string)
    requires WellFormed(c)
    ensures KeysIdentify(DeclsBelow(c, kind, name, |c.bases|))
  {
    var all := DeclsBelow(c, kind, name, |c.bases|);
    forall l, m | l in all && m in all && KeyOf(l) == KeyOf(m)
      ensures l == m
    {
      CollectedIffUnhidden(c, kind, name, l);
      CollectedIffUnhidden(c, kind, name, m);
    }
  }

  /** If unhidden paths lead to one class only, every path to it is unhidden. */
  lemma SoleDeclarerIsNeverHidden(c: ClassInfo, kind: MemberKind, name: string, u: Path, p: Path)
    requires WellFormed(c) && Unhidden(c, kind, name, u)
    requires forall q :: Unhidden(c, kind, name, q) ==> End(c, q).name == End(c, u).name
    requires IsPath(c, p) && End(c, p).name == End(c, u).name
    ensures Unhidden(c, kind, name, p)
  {
    UnhiddenEndsDeclaring(c, kind, name, u);
    assert End(c, p) == End(c, u);
    NameDiffersBelow(c, u);
    var k := FirstDeclaring(c, kind, name, p);
    PathSplit(c, p, k);
    if k < |p| {
      ProperPathDescends(End(c, p[..k]), p[k..]);
      assert false;
    }
    assert p[..k] == p;
  }

  /** Two different subobjects of `c` offer the name. */
  ghost predicate OfferedTwice(c: ClassInfo, kind: MemberKind, name: string) {
    exists p, q :: && Unhidden(c, kind, name, p) && Unhidden(c, kind, name, q)
                   && (End(c, p) != End(c, q) || Offset(c, p) != Offset(c, q))
  }

  /** The ambiguity test is exact: although it counts all paths to a declaring class, hidden
      ones included, it finds two subobjects just when two unhidden paths end in different ones. */
  lemma AmbiguityIsExact(c: ClassInfo, kind: MemberKind, name: string)
    requires WellFormed(c)
    ensures SubobjectCount(c, BaseDecls(c, kind, name)) >= 2 <==> OfferedTwice(c, kind, name)
  {
    if p, q :| && Unhidden(c, kind, name, p) && Unhidden(c, kind, name, q)
               && (End(c, p) != End(c, q) || Offset(c, p) != Offset(c, q))
    {
      UnhiddenSubobject(c, kind, name, p);
      UnhiddenSubobject(c, kind, name, q);
      TwoElements(SubobjectsNamed(c, ClassNames(BaseDecls(c, kind, name))),
                  (End(c, p).name, Offset(c, p)), (End(c, q).name, Offset(c, q)));
    }
    if SubobjectCount(c, BaseDecls(c, kind, name)) >= 2 {
      CountedTwiceIsOfferedTwice(c, kind, name);
    }
  }

  lemma CountedTwiceIsOfferedTwice(c: ClassInfo, kind: MemberKind, name: string)
    requires WellFormed(c) && SubobjectCount(c, BaseDecls(c, kind, name)) >= 2
    ensures OfferedTwice(c, kind, name)
  {
    var names := ClassNames(BaseDecls(c, kind, name));
    var x, y := TwoOf(SubobjectsNamed(c, names));
    var u := DeclaringPath(c, kind, name, x.0);
    if z :| z in names && z != x.0 {
      var v := DeclaringPath(c, kind, name, z);
    } else {
      forall q | Unhidden(c, kind, name, q)
        ensures End(c, q).name == End(c, u).name
      {
        DeclaringNames(c, kind, name, End(c, q).name);
      }
      var p := PathOfOffset(c, x.0, x.1);
      var q := PathOfOffset(c, y.0, y.1);
      SoleDeclarerIsNeverHidden(c, kind, name, u, p);
      SoleDeclarerIsNeverHidden(c, kind, name, u, q);
    }
  }

  lemma DeclaringPath(c: ClassInfo, kind: MemberKind, name: string, n: string) returns (p: Path)
    requires WellFormed(c) && n in ClassNames(BaseDecls(c, kind, name))
    ensures Unhidden(c, kind, name, p) && End(c, p).name == n
  {
    DeclaringNames(c, kind, name, n);
    p :| Unhidden(c, kind, name, p) && End(c, p).name == n;
  }

  lemma TwoOf<T>(s: set<T>) returns (x: T, y: T)
    requires |s| >= 2
    ensures x in s && y in s && x != y
  {
    x :| x in s;
    assert |s - {x}| >= 1;
    y :| y in s - {x};
  }

  lemma UnhiddenSubobject(c: ClassInfo, kind: MemberKind, name: string, p: Path)
    requires WellFormed(c) && Unhidden(c, kind, name, p)
    ensures (End(c, p).name, Offset(c, p)) in SubobjectsNamed(c, ClassNames(BaseDecls(c, kind, name)))
  {
    DeclaringNames(c, kind, name, End(c, p).name);
    OffsetOfPath(c, p);
  }

  lemma TwoElements<T>(s: set<T>, x: T, y: T)
    requires x in s && y in s && x != y
    ensures |s| >= 2
  {
    assert |s| == |s - {x, y}| + |{x, y}| by {
      assert s == (s - {x, y}) + {x, y};
    }
  }

  /** The result that the policy asks of a lookup of one name, stated on paths alone. */
  ghost predicate MeetsPolicy(
    c: ClassInfo, kind: MemberKind, name: string, r: Result<MemberLocation, LookupError>)
  {
    if c.Declares(kind, name) then
      // own members hide those of the bases; the first one wins
      r.Success? && r.value.owner == c && FirstNamed(kind, r.value, name)
    else if OfferedTwice(c, kind, name) then
      r == Failure(AmbiguousName)
    else if exists p :: Unhidden(c, kind, name, p) then
      && r.Success? && FirstNamed(kind, r.value, name)
      && (exists p :: Unhidden(c, kind, name, p) && End(c, p) == r.value.owner)
      && (forall p :: Unhidden(c, kind, name, p) ==>
                        End(c, p) == r.value.owner && UpcastOffset(c, r.value.owner.name) == Success(Offset(c, p)))
    else
      r == Failure(NameNotFound)
  }

  /** `l` is the first member of its class called `name`. */
  predicate FirstNamed(kind: MemberKind, l: MemberLocation, name: string) {
    Names(kind, l, name) && forall i :: 0 <= i < l.index ==> l.owner.Members(kind)[i].name != name
  }

  /** What an unambiguous base hit looks like: one class, one offset, its own declarations. */
  lemma SoleSubobject(c: ClassInfo, kind: MemberKind, name: string, l: MemberLocation)
    requires WellFormed(c) && l in BaseDecls(c, kind, name)
    requires SubobjectCount(c, BaseDecls(c, kind, name)) < 2
    ensures forall m :: m in BaseDecls(c, kind, name) ==> m.owner == l.owner
    ensures forall p :: Unhidden(c, kind, name, p) ==> End(c, p) == l.owner
    ensures UpcastOffset(c, l.owner.name).Success?
    ensures BaseDecls(c, kind, name) == OwnNamed(l.owner, kind, name)
  {
    var p := SolePath(c, kind, name, l);
    forall m | m in BaseDecls(c, kind, name)
      ensures m.owner == l.owner
    {
      var q := SolePath(c, kind, name, m);
    }
    SoleOffset(c, kind, name, p);
    SoleOwnerList(c, kind, name, l.owner);
  }

  lemma SolePath(c: ClassInfo, kind: MemberKind, name: string, l: MemberLocation) returns (p: Path)
    requires WellFormed(c) && l in BaseDecls(c, kind, name)
    requires SubobjectCount(c, BaseDecls(c, kind, name)) < 2
    ensures Unhidden(c, kind, name, p) && End(c, p) == l.owner
    ensures forall q :: Unhidden(c, kind, name, q) ==> End(c, q) == End(c, p) && Offset(c, q) == Offset(c, p)
  {
    DeclIffUnhidden(c, kind, name, l);
    p :| Unhidden(c, kind, name, p) && End(c, p) == l.owner;
    AmbiguityIsExact(c, kind, name);
  }

  lemma SoleOffset(c: ClassInfo, kind: MemberKind, name: string, p: Path)
    requires WellFormed(c) && Unhidden(c, kind, name, p)
    requires forall q :: Unhidden(c, kind, name, q) ==> End(c, q) == End(c, p) && Offset(c, q) == Offset(c, p)
    ensures UpcastOffset(c, End(c, p).name) == Success(Offset(c, p))
  {
    var d := End(c, p);
    OffsetOfPath(c, p);
    forall o | o in BasePathOffsets(c, d.name)
      ensures o == Offset(c, p)
    {
      var q := PathOfOffset(c, d.name, o);
      SoleDeclarerIsNeverHidden(c, kind, name, p, q);
    }
    assert BasePathOffsets(c, d.name) == {Offset(c, p)};
  }

  lemma SoleOwnerList(c: ClassInfo, kind: MemberKind, name: string, d: ClassInfo)
    requires WellFormed(c) && BaseDecls(c, kind, name) != []
    requires forall m :: m in BaseDecls(c, kind, name) ==> m.owner == d
    ensures BaseDecls(c, kind, name) == OwnNamed(d, kind, name)
  {
    forall m | m in DeclsBelow(c, kind, name, |c.bases|)
      ensures m.owner == d
    {
      DeclIffCollected(c, kind, name, m);
    }
    SoleOwnerBelow(c, kind, name, |c.bases|, d);
  }

  lemma {:induction false} FirstOccurrencesAppend(a: seq<MemberLocation>, b: seq<MemberLocation>)
    requires Keys(b) <= Keys(a)
    ensures FirstOccurrences(a + b) == FirstOccurrences(a)
  {
    if b == [] {
      assert a + b == a;
    } else {
      var init, last := b[..|b| - 1], b[|b| - 1];
      assert (a + b)[..|a + b| - 1] == a + init;
      assert b == init + [last];
      assert KeyOf(last) in Keys(b);
      assert Keys(init) <= Keys(b);
      assert Keys(a) <= Keys(a + init) by {
        forall k | k in Keys(a)
          ensures k in Keys(a + init)
        {
          var l :| l in a && KeyOf(l) == k;
          assert l in a + init;
        }
      }
      FirstOccurrencesAppend(a, init);
    }
  }

  /** With one declaring class, deduplication leaves that class's own list, in its own order. */
  lemma {:induction false} SoleOwnerView(c: ClassInfo, kind: MemberKind, name: string, d: ClassInfo)
    requires forall m :: m in NamedView(c, kind, name) ==> m.owner == d
    ensures var r := FirstOccurrences(NamedView(c, kind, name)); r == [] || r == OwnNamed(d, kind, name)
    decreases c, 1, 0
  {
    var own := OwnNamed(c, kind, name);
    if own != [] {
      assert own[0] in own;
      OwnNamedIsDistinct(c, kind, name);
      FirstOccurrencesOfDistinct(own);
    } else {
      SoleOwnerBelow(c, kind, name, |c.bases|, d);
    }
  }

  lemma {:induction false} SoleOwnerBelow(c: ClassInfo, kind: MemberKind, name: string, n: nat, d: ClassInfo)
    requires n <= |c.bases|
    requires forall m :: m in DeclsBelow(c, kind, name, n) ==> m.owner == d
    ensures var r := FirstOccurrences(DeclsBelow(c, kind, name, n)); r == [] || r == OwnNamed(d, kind, name)
    decreases c, 0, n
  {
    if n > 0 {
      var a := DeclsBelow(c, kind, name, n - 1);
      var b := if c.HasBase(n - 1) then NamedView(c.BaseAt(n - 1), kind, name) else [];
      assert DeclsBelow(c, kind, name, n) == a + b;
      SoleOwnerBelow(c, kind, name, n - 1, d);
      if c.HasBase(n - 1) {
        SoleOwnerView(c.BaseAt(n - 1), kind, name, d);
      }
      RepeatedListsCollapse(a, b, OwnNamed(d, kind, name));
    }
  }

  lemma RepeatedListsCollapse(a: seq<MemberLocation>, b: seq<MemberLocation>, own: seq<MemberLocation>)
    requires FirstOccurrences(a) == [] || FirstOccurrences(a) == own
    requires FirstOccurrences(b) == [] || FirstOccurrences(b) == own
    ensures FirstOccurrences(a + b) == [] || FirstOccurrences(a + b) == own
  {
    if a == [] {
      assert a + b == b;
    } else {
      assert KeyOf(a[0]) in Keys(a);
      FirstOccurrencesAreExact(a);
      FirstOccurrencesAreExact(b);
      FirstOccurrencesAppend(a, b);
    }
  }
}
