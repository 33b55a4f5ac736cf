/** The order of merged and plural lookup (refl.hpp): a handle stands where the depth-first walk first meets
    its declaration on an unhidden path. */
module MemberOrder {
  import opened Wrappers
  import opened ClassGraph
  import opened LookupPolicy
  import opened LookupTheorems

  // --------------------------------------------------------------------
  // The order of paths and of the declarations at their ends.
  // --------------------------------------------------------------------

  /** `p` is walked before `q`: it stops on the way to `q`, or turns off to an earlier base. */
  predicate PathBefore(p: Path, q: Path)
    decreases |p|
  {
    q != [] && (p == [] || p[0] < q[0] || (p[0] == q[0] && PathBefore(p[1..], q[1..])))
  }

  lemma {:induction false} PathBeforeIsStrict(p: Path)
    ensures !PathBefore(p, p)
    decreases |p|
  {
    if p != [] {
      PathBeforeIsStrict(p[1..]);
    }
  }

  /** A declaration, met at the end of a path. */
  datatype Shown = Shown(path: Path, location: MemberLocation)

  /** The path leads from `c` to the declaration, past no other of its name. */
  predicate Shows(c: ClassInfo, kind: MemberKind, l: MemberLocation, p: Path) {
    && l.index < |l.owner.Members(kind)|
    && Offers(c, kind, l.owner.Members(kind)[l.index].name, p) && IsPath(c, p) && End(c, p) == l.owner
  }

  /** Classes in the order of the walk, members in the order of their declaration. */
  predicate Precedes(a: Shown, b: Shown) {
    PathBefore(a.path, b.path) || (a.path == b.path && a.location.index < b.location.index)
  }

  predicate Sorted(v: seq<Shown>) {
    forall j, k :: 0 <= j < k < |v| ==> Precedes(v[j], v[k])
  }

  // --------------------------------------------------------------------
  // The merged view with the paths it follows.
  // --------------------------------------------------------------------

  function OwnShown(c: ClassInfo, kind: MemberKind): (r: seq<Shown>)
    ensures |r| == |c.Members(kind)|
    ensures forall i :: 0 <= i < |r| ==> r[i] == Shown([], MemberLocation(c, i))
  {
    seq(|c.Members(kind)|, i requires 0 <= i < |c.Members(kind)| => Shown([], MemberLocation(c, i)))
  }

  function Through(i: nat, v: seq<Shown>): (r: seq<Shown>)
    ensures |r| == |v|
    ensures forall k :: 0 <= k < |r| ==> r[k] == Shown([i] + v[k].path, v[k].location)
  {
    seq(|v|, k requires 0 <= k < |v| => Shown([i] + v[k].path, v[k].location))
  }

  function ShownFrom(c: ClassInfo, kind: MemberKind): seq<Shown>
    decreases c, 1, 0
  {
    OwnShown(c, kind) + ShownBelow(c, kind, |c.bases|)
  }

  function ShownBelow(c: ClassInfo, kind: MemberKind, n: nat): seq<Shown>
    requires n <= |c.bases|
    decreases c, 0, n
  {
    if n == 0 then [] else ShownBelow(c, kind, n - 1) + ShownThrough(c, kind, n - 1)
  }

  function ShownThrough(c: ClassInfo, kind: MemberKind, i: nat): seq<Shown>
    decreases c, 0, 0
  {
    if c.HasBase(i) then Filter(Through(i, ShownFrom(c.BaseAt(i), kind)), NotHidden(c, kind)) else []
  }

  function NotHidden(c: ClassInfo, kind: MemberKind): Shown -> bool {
    (s: Shown) => !HiddenBy(c, kind, s.location)
  }

  function LocationsOf(v: seq<Shown>): (r: seq<MemberLocation>)
    ensures |r| == |v| && forall k :: 0 <= k < |r| ==> r[k] == v[k].location
  {
    seq(|v|, k requires 0 <= k < |v| => v[k].location)
  }

  lemma {:induction false} FilterLocations(v: seq<Shown>, c: ClassInfo, kind: MemberKind)
    ensures LocationsOf(Filter(v, NotHidden(c, kind))) == Filter(LocationsOf(v), VisibleIn(c, kind))
  {
    if v != [] {
      var init, last := v[..|v| - 1], v[|v| - 1];
      FilterLocations(init, c, kind);
      assert LocationsOf(v)[..|v| - 1] == LocationsOf(init);
      var kept := Filter(init, NotHidden(c, kind));
      assert LocationsOf(kept + [last]) == LocationsOf(kept) + [last.location];
    }
  }

  /** The paths are those of the merged view. */
  lemma {:induction false} MergedLocations(c: ClassInfo, kind: MemberKind)
    ensures LocationsOf(ShownFrom(c, kind)) == MergedView(c, kind)
    decreases c, 1, 0
  {
    BelowLocations(c, kind, |c.bases|);
    assert LocationsOf(OwnShown(c, kind)) == OwnMembers(c, kind);
    LocationsConcat(OwnShown(c, kind), ShownBelow(c, kind, |c.bases|));
  }

  lemma LocationsConcat(a: seq<Shown>, b: seq<Shown>)
    ensures LocationsOf(a + b) == LocationsOf(a) + LocationsOf(b)
  {
  }

  lemma {:induction false} BelowLocations(c: ClassInfo, kind: MemberKind, n: nat)
    requires n <= |c.bases|
    ensures LocationsOf(ShownBelow(c, kind, n)) == MergedBelow(c, kind, n)
    decreases c, 0, n
  {
    if n > 0 {
      BelowLocations(c, kind, n - 1);
      ThroughLocations(c, kind, n - 1);
      LocationsConcat(ShownBelow(c, kind, n - 1), ShownThrough(c, kind, n - 1));
    }
  }

  lemma {:induction false} ThroughLocations(c: ClassInfo, kind: MemberKind, i: nat)
    ensures LocationsOf(ShownThrough(c, kind, i)) == Contribution(c, kind, i)
    decreases c, 0, 0
  {
    if c.HasBase(i) {
      var v := ShownFrom(c.BaseAt(i), kind);
      MergedLocations(c.BaseAt(i), kind);
      assert LocationsOf(Through(i, v)) == LocationsOf(v);
      FilterLocations(Through(i, v), c, kind);
    }
  }

  // --------------------------------------------------------------------
  // What is met, and in which order.
  // --------------------------------------------------------------------

  /** The walk meets exactly the declarations on unhidden paths. */
  lemma {:induction false} MeetsTheShown(c: ClassInfo, kind: MemberKind, s: Shown)
    ensures s in ShownFrom(c, kind) <==> Shows(c, kind, s.location, s.path)
    decreases c, 1, 0
  {
    var own, below := OwnShown(c, kind), ShownBelow(c, kind, |c.bases|);
    assert s in own + below <==> s in own || s in below;
    BelowMeets(c, kind, |c.bases|, s);
    if s.path == [] && Shows(c, kind, s.location, s.path) {
      assert own[s.location.index] == s;
    }
  }

  lemma {:induction false} BelowMeets(c: ClassInfo, kind: MemberKind, n: nat, s: Shown)
    requires n <= |c.bases|
    ensures s in ShownBelow(c, kind, n) <==> s.path != [] && s.path[0] < n && Shows(c, kind, s.location, s.path)
    decreases c, 0, n
  {
    if n > 0 {
      var init, last := ShownBelow(c, kind, n - 1), ShownThrough(c, kind, n - 1);
      assert s in init + last <==> s in init || s in last;
      BelowMeets(c, kind, n - 1, s);
      ThroughMeets(c, kind, n - 1, s);
    }
  }

  lemma {:induction false} ThroughMeets(c: ClassInfo, kind: MemberKind, i: nat, s: Shown)
    ensures s in ShownThrough(c, kind, i) <==> s.path != [] && s.path[0] == i && Shows(c, kind, s.location, s.path)
    decreases c, 0, 0
  {
    if c.HasBase(i) {
      var v := ShownFrom(c.BaseAt(i), kind);
      FilterElement(Through(i, v), NotHidden(c, kind), s);
      if s.path != [] && s.path[0] == i {
        var rest := Shown(s.path[1..], s.location);
        MeetsTheShown(c.BaseAt(i), kind, rest);
        InThrough(i, v, s);
        ShowsThrough(c, kind, s.location, s.path);
        assert s in Through(i, v) <==> Shows(c.BaseAt(i), kind, s.location, s.path[1..]);
      }
      ThroughStarts(i, v, s);
    }
  }

  /** A base's declaration is shown unless the class declares the name itself. */
  lemma ShowsThrough(c: ClassInfo, kind: MemberKind, l: MemberLocation, p: Path)
    requires p != [] && c.HasBase(p[0])
    ensures Shows(c, kind, l, p) <==> Shows(c.BaseAt(p[0]), kind, l, p[1..]) && !HiddenBy(c, kind, l)
  {
  }

  lemma ThroughStarts(i: nat, v: seq<Shown>, s: Shown)
    ensures s in Through(i, v) ==> s.path != [] && s.path[0] == i
  {
  }

  lemma InThrough(i: nat, v: seq<Shown>, s: Shown)
    requires s.path != [] && s.path[0] == i
    ensures s in Through(i, v) <==> Shown(s.path[1..], s.location) in v
  {
    var rest := Shown(s.path[1..], s.location);
    if s in Through(i, v) {
      var k :| 0 <= k < |v| && Through(i, v)[k] == s;
      assert ([i] + v[k].path)[1..] == v[k].path;
    }
    if rest in v {
      var k :| 0 <= k < |v| && v[k] == rest;
      assert [i] + s.path[1..] == s.path;
      assert Through(i, v)[k] == s;
    }
  }

  lemma {:induction false} FilterSorted(v: seq<Shown>, keep: Shown -> bool)
    requires Sorted(v)
    ensures Sorted(Filter(v, keep))
  {
    if v != [] {
      var init, last := v[..|v| - 1], v[|v| - 1];
      FilterSorted(init, keep);
      var kept := Filter(init, keep);
      forall k | 0 <= k < |kept|
        ensures Precedes(kept[k], last)
      {
        assert kept[k] in kept;
        FilterElement(init, keep, kept[k]);
        var j :| 0 <= j < |init| && init[j] == kept[k];
        assert Precedes(v[j], v[|v| - 1]);
      }
    }
  }

  lemma ThroughSorted(i: nat, v: seq<Shown>)
    requires Sorted(v)
    ensures Sorted(Through(i, v))
  {
    var r := Through(i, v);
    forall j, k | 0 <= j < k < |r|
      ensures Precedes(r[j], r[k])
    {
      assert Precedes(v[j], v[k]);
      assert ([i] + v[j].path)[1..] == v[j].path && ([i] + v[k].path)[1..] == v[k].path;
    }
  }

  lemma ConcatSorted(a: seq<Shown>, b: seq<Shown>)
    requires Sorted(a) && Sorted(b) && forall x, y :: x in a && y in b ==> Precedes(x, y)
    ensures Sorted(a + b)
  {
  }

  /** The walk meets them in order. */
  lemma {:induction false} ShownSorted(c: ClassInfo, kind: MemberKind)
    ensures Sorted(ShownFrom(c, kind))
    decreases c, 1, 0
  {
    BelowSorted(c, kind, |c.bases|);
    var own, below := OwnShown(c, kind), ShownBelow(c, kind, |c.bases|);
    forall x, y | x in own && y in below
      ensures Precedes(x, y)
    {
      BelowMeets(c, kind, |c.bases|, y);
    }
    ConcatSorted(own, below);
  }

  lemma {:induction false} BelowSorted(c: ClassInfo, kind: MemberKind, n: nat)
    requires n <= |c.bases|
    ensures Sorted(ShownBelow(c, kind, n))
    decreases c, 0, n
  {
    if n > 0 {
      BelowSorted(c, kind, n - 1);
      BaseSorted(c, kind, n - 1);
      EarlierBasesPrecede(c, kind, n - 1);
      ConcatSorted(ShownBelow(c, kind, n - 1), ShownThrough(c, kind, n - 1));
    }
  }

  lemma {:induction false} BaseSorted(c: ClassInfo, kind: MemberKind, i: nat)
    ensures Sorted(ShownThrough(c, kind, i))
    decreases c, 0, 0
  {
    if c.HasBase(i) {
      ShownSorted(c.BaseAt(i), kind);
      ThroughSorted(i, ShownFrom(c.BaseAt(i), kind));
      FilterSorted(Through(i, ShownFrom(c.BaseAt(i), kind)), NotHidden(c, kind));
    }
  }

  lemma EarlierBasesPrecede(c: ClassInfo, kind: MemberKind, i: nat)
    requires i <= |c.bases|
    ensures forall x, y :: x in ShownBelow(c, kind, i) && y in ShownThrough(c, kind, i) ==> Precedes(x, y)
  {
    forall x, y | x in ShownBelow(c, kind, i) && y in ShownThrough(c, kind, i)
      ensures Precedes(x, y)
    {
      BelowMeets(c, kind, i, x);
      ThroughMeets(c, kind, i, y);
    }
  }

  // --------------------------------------------------------------------
  // Deduplication keeps first occurrences, in order.
  // --------------------------------------------------------------------

  /** Where a key first stands, or the length. */
  function FirstIndex(v: seq<MemberLocation>, key: (nat, nat)): (i: nat)
    ensures i <= |v|
    ensures i < |v| ==> KeyOf(v[i]) == key
    ensures forall j :: 0 <= j < i ==> KeyOf(v[j]) != key
  {
    if v == [] || KeyOf(v[0]) == key then 0 else 1 + FirstIndex(v[1..], key)
  }

  lemma FirstIndexFound(v: seq<MemberLocation>, key: (nat, nat))
    ensures FirstIndex(v, key) < |v| ==> key in Keys(v)
  {
    if FirstIndex(v, key) < |v| {
      assert v[FirstIndex(v, key)] in v;
    }
  }

  lemma FirstIndexExtends(v: seq<MemberLocation>, last: MemberLocation, key: (nat, nat))
    ensures FirstIndex(v + [last], key)
            == if FirstIndex(v, key) < |v| then FirstIndex(v, key)
               else if KeyOf(last) == key then |v| else |v| + 1
  {
    var whole, i := v + [last], FirstIndex(v + [last], key);
    assert forall j :: 0 <= j < |v| ==> whole[j] == v[j];
    assert whole[|v|] == last;
  }

  /** `r` lists first occurrences in `v`, in their order. */
  ghost predicate FirstsOf(v: seq<MemberLocation>, r: seq<MemberLocation>) {
    && (forall k :: 0 <= k < |r| ==> FirstAt(v, r[k]))
    && (forall j, k :: 0 <= j < k < |r| ==> FirstIndex(v, KeyOf(r[j])) < FirstIndex(v, KeyOf(r[k])))
  }

  /** `l` is the first of its key. */
  predicate FirstAt(v: seq<MemberLocation>, l: MemberLocation) {
    FirstIndex(v, KeyOf(l)) < |v| && v[FirstIndex(v, KeyOf(l))] == l
  }

  lemma FirstsExtend(v: seq<MemberLocation>, last: MemberLocation, r: seq<MemberLocation>)
    requires FirstsOf(v, r)
    ensures FirstsOf(v + [last], r)
    ensures KeyOf(last) !in Keys(v) ==> FirstsOf(v + [last], r + [last])
  {
    forall k | 0 <= k < |r|
      ensures FirstAt(v + [last], r[k]) && FirstIndex(v + [last], KeyOf(r[k])) == FirstIndex(v, KeyOf(r[k]))
    {
      assert FirstAt(v, r[k]);
      FirstIndexExtends(v, last, KeyOf(r[k]));
    }
    if KeyOf(last) !in Keys(v) {
      FirstIndexExtends(v, last, KeyOf(last));
      FirstIndexFound(v, KeyOf(last));
      assert FirstAt(v + [last], last);
    }
  }

  /** Each handle kept is the first of its key, and first occurrences keep their order. */
  lemma {:induction false} FirstOccurrencesInOrder(v: seq<MemberLocation>)
    ensures FirstsOf(v, FirstOccurrences(v))
  {
    if v != [] {
      var init, last := v[..|v| - 1], v[|v| - 1];
      assert v == init + [last];
      FirstOccurrencesInOrder(init);
      FirstsExtend(init, last, FirstOccurrences(init));
    }
  }

  /** A selection keeps the order: its elements stand at increasing positions. */
  lemma {:induction false} FilterKeepsPlaces<T>(v: seq<T>, keep: T -> bool) returns (at: seq<nat>)
    ensures |at| == |Filter(v, keep)|
    ensures forall k :: 0 <= k < |at| ==> at[k] < |v| && v[at[k]] == Filter(v, keep)[k]
    ensures forall j, k :: 0 <= j < k < |at| ==> at[j] < at[k]
  {
    if v == [] {
      at := [];
    } else {
      var init, last := v[..|v| - 1], v[|v| - 1];
      at := FilterKeepsPlaces(init, keep);
      if keep(last) {
        at := at + [|v| - 1];
      }
    }
  }

  // --------------------------------------------------------------------
  // The order of lookup.
  // --------------------------------------------------------------------

  /** The walk meets `l` for the first time before it meets `m` at all. */
  ghost predicate MetBefore(c: ClassInfo, kind: MemberKind, l: MemberLocation, m: MemberLocation) {
    exists p :: Shows(c, kind, l, p) && forall q :: Shows(c, kind, m, q) ==> Precedes(Shown(p, l), Shown(q, m))
  }

  /** Handles that come one after the other when the merged view is deduplicated are met in that order. */
  lemma DedupedInOrder(c: ClassInfo, kind: MemberKind, j: nat, k: nat)
    requires WellFormed(c)
    requires j < k < |FirstOccurrences(MergedView(c, kind))|
    ensures MetBefore(c, kind, FirstOccurrences(MergedView(c, kind))[j], FirstOccurrences(MergedView(c, kind))[k])
  {
    var view, shown := MergedView(c, kind), ShownFrom(c, kind);
    var l, m := FirstOccurrences(view)[j], FirstOccurrences(view)[k];
    MergedLocations(c, kind);
    ShownSorted(c, kind);
    FirstOccurrencesInOrder(view);
    assert FirstAt(view, l) && FirstAt(view, m);
    var i := FirstIndex(view, KeyOf(l));
    assert shown[i].location == l;
    MeetsTheShown(c, kind, shown[i]);
    forall q | Shows(c, kind, m, q)
      ensures Precedes(Shown(shown[i].path, l), Shown(q, m))
    {
      MeetsTheShown(c, kind, Shown(q, m));
      var i' :| 0 <= i' < |shown| && shown[i'] == Shown(q, m);
      assert KeyOf(view[i']) == KeyOf(m);
      assert i < i';
    }
  }

  /** all_functions and its siblings list handles in the order in which the depth-first walk first meets
      their declarations on an unhidden path, whatever their names. */
  lemma MergedOrder(c: ClassInfo, kind: MemberKind, j: nat, k: nat)
    requires WellFormed(c) && j < k < |AllMembers(c, kind)|
    ensures MetBefore(c, kind, AllMembers(c, kind)[j], AllMembers(c, kind)[k])
  {
    var at := FilterKeepsPlaces(FirstOccurrences(MergedView(c, kind)), Unambiguous(c));
    DedupedInOrder(c, kind, at[j], at[k]);
  }

  /** They list exactly the declarations on unhidden paths to classes that are found in one place. */
  lemma MergedMembers(c: ClassInfo, kind: MemberKind, l: MemberLocation)
    requires WellFormed(c)
    ensures l in AllMembers(c, kind) <==> (exists p :: Shows(c, kind, l, p)) && OnePlace(c, l.owner)
  {
    var view := MergedView(c, kind);
    FilterElement(FirstOccurrences(view), Unambiguous(c), l);
    MergedKeysIdentify(c, kind);
    FirstOccurrencesKeepsElements(view);
    FirstOccurrencesAreExact(view);
    MergedLocations(c, kind);
    if l in view {
      var i :| 0 <= i < |view| && view[i] == l;
      MeetsTheShown(c, kind, ShownFrom(c, kind)[i]);
      ReachedOnceIsOnePlace(c, ShownFrom(c, kind)[i].path);
    }
    if p :| Shows(c, kind, l, p) {
      MeetsTheShown(c, kind, Shown(p, l));
      var i :| 0 <= i < |view| && ShownFrom(c, kind)[i] == Shown(p, l);
      assert view[i] == l;
    }
  }

  /** Two handles of a list are not each met before the other: the order leaves no choice. */
  lemma MetBeforeIsStrict(c: ClassInfo, kind: MemberKind, l: MemberLocation, m: MemberLocation)
    requires MetBefore(c, kind, l, m)
    ensures !MetBefore(c, kind, m, l)
  {
    var p :| Shows(c, kind, l, p) && forall q :: Shows(c, kind, m, q) ==> Precedes(Shown(p, l), Shown(q, m));
    if q :| Shows(c, kind, m, q) && forall p' :: Shows(c, kind, l, p') ==> Precedes(Shown(q, m), Shown(p', l)) {
      assert Precedes(Shown(p, l), Shown(q, m)) && Precedes(Shown(q, m), Shown(p, l));
      PrecedesIsStrict(Shown(p, l), Shown(q, m));
    }
  }

  lemma PrecedesIsStrict(a: Shown, b: Shown)
    ensures !(Precedes(a, b) && Precedes(b, a))
  {
    if Precedes(a, b) && Precedes(b, a) {
      PathBeforeIsStrict(a.path);
      PathsNotBothBefore(a.path, b.path);
    }
  }

  lemma {:induction false} PathsNotBothBefore(p: Path, q: Path)
    ensures !(PathBefore(p, q) && PathBefore(q, p))
    decreases |p|
  {
    if p != [] && q != [] {
      PathsNotBothBefore(p[1..], q[1..]);
    }
  }

  /** A class's own members lead, in the order of their declaration. */
  lemma OwnMembersLead(c: ClassInfo, kind: MemberKind)
    requires WellFormed(c)
    ensures OwnMembers(c, kind) <= AllMembers(c, kind)
  {
    var own, below := OwnMembers(c, kind), MergedBelow(c, kind, |c.bases|);
    OwnPrefixStays(own, below);
    FilterConcat(own, FirstOccurrences(own + below)[|own|..], Unambiguous(c));
    assert own + FirstOccurrences(own + below)[|own|..] == FirstOccurrences(own + below);
    forall l | l in own
      ensures ReachedOnce(c, l)
    {
      assert BasePathOffsets(c, c.name) == {0};
    }
    FilterKeepsAll(own, Unambiguous(c));
  }

  lemma {:induction false} OwnPrefixStays(own: seq<MemberLocation>, rest: seq<MemberLocation>)
    requires forall j, k :: 0 <= j < k < |own| ==> KeyOf(own[j]) != KeyOf(own[k])
    ensures own <= FirstOccurrences(own + rest)
  {
    if rest == [] {
      assert own + rest == own;
      FirstOccurrencesOfDistinct(own);
    } else {
      var init := rest[..|rest| - 1];
      OwnPrefixStays(own, init);
      assert (own + rest)[..|own + rest| - 1] == own + init;
    }
  }

  /** Plural lookup of a name keeps the same order. */
  lemma PluralOrder(c: ClassInfo, kind: MemberKind, name: string, j: nat, k: nat)
    requires WellFormed(c) && j < k < |LookupAll(c, kind, name)|
    ensures MetBefore(c, kind, LookupAll(c, kind, name)[j], LookupAll(c, kind, name)[k])
  {
    MergedViewIsNamedLookup(c, kind, name);
    var at := FilterKeepsPlaces(AllMembers(c, kind), Named(kind, name));
    MergedOrder(c, kind, at[j], at[k]);
  }
}
