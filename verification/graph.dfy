/** Class descriptors and the paths through their base edges (core/descriptor.hpp, refl.hpp). */
module ClassGraph {
  import opened Wrappers
  import opened Types

  datatype Member = Member(name: string, paramTypes: seq<string>, signature: Signature, isConst: bool)

  datatype MemberKind = Functions | Fields | StaticFunctions | StaticFields

  datatype BaseInfo = BaseInfo(name: string, offset: int, descriptor: Option<ClassInfo>)

  /** An immutable descriptor. `id` is the address that identifies it; descriptors only
      refer to descriptors made before them, so the value is a finite tree. */
  datatype ClassInfo = ClassInfo(
    id: nat,
    name: string,
    bases: seq<BaseInfo>,
    functions: seq<Member>,
    fields: seq<Member>,
    staticFunctions: seq<Member>,
    staticFields: seq<Member>)
  {
    function Members(kind: MemberKind): seq<Member> {
      match kind
      case Functions => functions
      case Fields => fields
      case StaticFunctions => staticFunctions
      case StaticFields => staticFields
    }

    predicate Declares(kind: MemberKind, name: string) {
      exists i :: 0 <= i < |Members(kind)| && Members(kind)[i].name == name
    }

    predicate HasBase(i: nat) {
      i < |bases| && bases[i].descriptor.Some?
    }

    function BaseAt(i: nat): (b: ClassInfo)
      requires HasBase(i)
      ensures b < this
    {
      bases[i].descriptor.value
    }
  }

  // --------------------------------------------------------------------
  // Paths: sequences of base indices, read from the derived class.
  // --------------------------------------------------------------------

  type Path = seq<nat>

  predicate IsPath(c: ClassInfo, p: Path)
    decreases |p|
  {
    p == [] || (c.HasBase(p[0]) && IsPath(c.BaseAt(p[0]), p[1..]))
  }

  /** The class a path ends in. */
  function End(c: ClassInfo, p: Path): ClassInfo
    requires IsPath(c, p)
    decreases |p|
  {
    if p == [] then c else End(c.BaseAt(p[0]), p[1..])
  }

  /** The byte offset of the subobject a path leads to. */
  function Offset(c: ClassInfo, p: Path): int
    requires IsPath(c, p)
    decreases |p|
  {
    if p == [] then 0 else c.bases[p[0]].offset + Offset(c.BaseAt(p[0]), p[1..])
  }

  /** A base edge that retains its descriptor, under that descriptor's name. */
  predicate EdgesDescribed(c: ClassInfo) {
    forall i :: 0 <= i < |c.bases| ==>
                  c.bases[i].descriptor.Some? && c.bases[i].descriptor.value.name == c.bases[i].name
  }

  /** What generate_class guarantees of the graph under `c`: within it a name, and an
      address, identifies one descriptor, and every edge is described. */
  ghost predicate WellFormed(c: ClassInfo) {
    && (forall p, q :: IsPath(c, p) && IsPath(c, q)
                       && (End(c, p).name == End(c, q).name || End(c, p).id == End(c, q).id)
                       ==> End(c, p) == End(c, q))
    && (forall p :: IsPath(c, p) ==> EdgesDescribed(End(c, p)))
  }

  /** Classes that refer to each other only, under names and addresses of their own. */
  ghost predicate ClosedGraph(classes: set<ClassInfo>) {
    && (forall d :: d in classes ==> EdgesDescribed(d))
    && (forall d, i: nat :: d in classes && d.HasBase(i) ==> d.BaseAt(i) in classes)
    && (forall d, e :: d in classes && e in classes && (d.name == e.name || d.id == e.id) ==> d == e)
  }

  lemma {:induction false} EndsInside(classes: set<ClassInfo>, c: ClassInfo, p: Path)
    requires ClosedGraph(classes) && c in classes && IsPath(c, p)
    ensures End(c, p) in classes
    decreases |p|
  {
    if p != [] {
      EndsInside(classes, c.BaseAt(p[0]), p[1..]);
    }
  }

  lemma ClosedGraphIsWellFormed(classes: set<ClassInfo>, c: ClassInfo)
    requires ClosedGraph(classes) && c in classes
    ensures WellFormed(c)
  {
    forall p | IsPath(c, p)
      ensures End(c, p) in classes
    {
      EndsInside(classes, c, p);
    }
  }

  lemma {:induction false} PathJoin(c: ClassInfo, p: Path, q: Path)
    requires IsPath(c, p) && IsPath(End(c, p), q)
    ensures IsPath(c, p + q)
    ensures End(c, p + q) == End(End(c, p), q)
    ensures Offset(c, p + q) == Offset(c, p) + Offset(End(c, p), q)
    decreases |p|
  {
    if p == [] {
      assert p + q == q;
    } else {
      assert (p + q)[1..] == p[1..] + q;
      PathJoin(c.BaseAt(p[0]), p[1..], q);
    }
  }

  lemma {:induction false} PathSplit(c: ClassInfo, p: Path, k: nat)
    requires IsPath(c, p) && k <= |p|
    ensures IsPath(c, p[..k]) && IsPath(End(c, p[..k]), p[k..])
    ensures End(c, p) == End(End(c, p[..k]), p[k..])
    decreases |p|
  {
    if k == 0 {
      assert p[..0] == [] && p[0..] == p;
    } else {
      assert p[..k][1..] == p[1..][..k - 1];
      assert p[k..] == p[1..][k - 1..];
      PathSplit(c.BaseAt(p[0]), p[1..], k - 1);
    }
  }

  /** No class is its own base, however indirectly. */
  lemma {:induction false} ProperPathDescends(c: ClassInfo, p: Path)
    requires IsPath(c, p) && p != []
    ensures End(c, p) < c
    ensures End(c, p) != c
    decreases |p|
  {
    if |p| > 1 {
      ProperPathDescends(c.BaseAt(p[0]), p[1..]);
    } else {
      assert p[1..] == [];
    }
  }

  lemma WellFormedBelow(c: ClassInfo, p: Path)
    requires WellFormed(c) && IsPath(c, p)
    ensures WellFormed(End(c, p))
  {
    var d := End(c, p);
    forall q | IsPath(d, q)
      ensures EdgesDescribed(End(d, q))
    {
      PathJoin(c, p, q);
    }
    forall q, r | IsPath(d, q) && IsPath(d, r)
                  && (End(d, q).name == End(d, r).name || End(d, q).id == End(d, r).id)
      ensures End(d, q) == End(d, r)
    {
      PathJoin(c, p, q);
      PathJoin(c, p, r);
    }
  }

  lemma WellFormedBase(c: ClassInfo, i: nat)
    requires WellFormed(c) && i < |c.bases|
    ensures c.HasBase(i) && c.BaseAt(i).name == c.bases[i].name
    ensures IsPath(c, [i]) && End(c, [i]) == c.BaseAt(i)
    ensures WellFormed(c.BaseAt(i))
  {
    assert IsPath(c, []) && End(c, []) == c;
    assert EdgesDescribed(c);
    assert [i][1..] == [];
    WellFormedBelow(c, [i]);
  }

  /** A name met at the end of a non-empty path is not the name of its start. */
  lemma NameDiffersBelow(c: ClassInfo, p: Path)
    requires WellFormed(c) && IsPath(c, p) && p != []
    ensures End(c, p).name != c.name
  {
    ProperPathDescends(c, p);
    assert IsPath(c, []) && End(c, []) == c;
  }

  // --------------------------------------------------------------------
  // Offsets of every path to a named base.
  // --------------------------------------------------------------------

  function BasePathOffsets(c: ClassInfo, base: string): set<int>
    decreases c
  {
    if c.name == base then {0}
    else set i: nat, o: int | i < |c.bases| && o in EdgeOffsets(c.bases[i], base) :: o
  }

  function EdgeOffsets(b: BaseInfo, base: string): set<int>
    decreases b
  {
    (if b.name == base then {b.offset} else {})
    + (match b.descriptor
       case None => {}
       case Some(d) => set o | o in BasePathOffsets(d, base) :: b.offset + o)
  }

  lemma {:induction false} OffsetOfPath(c: ClassInfo, p: Path)
    requires WellFormed(c) && IsPath(c, p)
    ensures Offset(c, p) in BasePathOffsets(c, End(c, p).name)
    decreases |p|
  {
    if p != [] {
      NameDiffersBelow(c, p);
      WellFormedBase(c, p[0]);
      OffsetOfPath(c.BaseAt(p[0]), p[1..]);
      assert Offset(c, p) in EdgeOffsets(c.bases[p[0]], End(c, p).name);
    }
  }

  lemma {:induction false} PathOfOffset(c: ClassInfo, base: string, o: int) returns (p: Path)
    requires WellFormed(c) && o in BasePathOffsets(c, base)
    ensures IsPath(c, p) && End(c, p).name == base && Offset(c, p) == o
    decreases c
  {
    if c.name == base {
      p := [];
    } else {
      var i: nat :| i < |c.bases| && o in EdgeOffsets(c.bases[i], base);
      WellFormedBase(c, i);
      var b := c.BaseAt(i);
      if b.name == base {
        assert BasePathOffsets(b, base) == {0};
        p := [i];
        assert p[1..] == [];
      } else {
        var q := PathOfOffset(b, base, o - c.bases[i].offset);
        p := [i] + q;
        assert p[1..] == q;
      }
    }
  }

  /** The set holds the edge-offset sum of every path to the named base, and nothing else. */
  lemma OffsetsAreThePathSums(c: ClassInfo, base: string, o: int)
    requires WellFormed(c)
    ensures o in BasePathOffsets(c, base)
            <==> exists p :: IsPath(c, p) && End(c, p).name == base && Offset(c, p) == o
  {
    if o in BasePathOffsets(c, base) {
      var p := PathOfOffset(c, base, o);
    }
    if p :| IsPath(c, p) && End(c, p).name == base && Offset(c, p) == o {
      OffsetOfPath(c, p);
    }
  }

  lemma SingletonIsUnique<T>(s: set<T>, x: T, y: T)
    requires |s| == 1 && x in s && y in s
    ensures x == y
  {
    assert |s - {x}| == 0;
  }

  datatype UpcastError = UnrelatedClass | AmbiguousBase

  /** The one offset of a base within a class. */
  function UpcastOffset(c: ClassInfo, base: string): (r: Result<int, UpcastError>)
    ensures r.Success? <==> |BasePathOffsets(c, base)| == 1
    ensures r.Success? ==> BasePathOffsets(c, base) == {r.value}
    ensures r == Failure(UnrelatedClass) <==> BasePathOffsets(c, base) == {}
  {
    var offsets := BasePathOffsets(c, base);
    if offsets == {} then Failure(UnrelatedClass)
    else if |offsets| > 1 then Failure(AmbiguousBase)
    else
      assert forall x, y :: x in offsets && y in offsets ==> x == y by {
        forall x, y | x in offsets && y in offsets
          ensures x == y
        {
          SingletonIsUnique(offsets, x, y);
        }
      }
      var o :| o in offsets;
      Success(o)
  }

  /** Upcasts are path independent: if the upcast from `d` to a base is unambiguous, so is
      every upcast to and from a class in between, and their offsets add up. */
  lemma UpcastsCompose(d: ClassInfo, p: Path, q: Path)
    requires WellFormed(d) && IsPath(d, p) && IsPath(End(d, p), q)
    requires UpcastOffset(d, End(End(d, p), q).name).Success?
    ensures
      var m, b := End(d, p), End(End(d, p), q);
      && UpcastOffset(d, m.name).Success?
      && UpcastOffset(m, b.name).Success?
      && UpcastOffset(d, b.name).value == UpcastOffset(d, m.name).value + UpcastOffset(m, b.name).value
  {
    var m, b := End(d, p), End(End(d, p), q);
    WellFormedBelow(d, p);
    OffsetOfPath(d, p);
    OffsetOfPath(m, q);
    var total := UpcastOffset(d, b.name).value;
    forall x, y | x in BasePathOffsets(d, m.name) && y in BasePathOffsets(m, b.name)
      ensures x + y == total
    {
      var p' := PathOfOffset(d, m.name, x);
      assert End(d, p') == m;
      var q' := PathOfOffset(m, b.name, y);
      assert IsPath(m, q') && End(m, q').name == b.name;
      PathJoin(d, p', q');
      OffsetOfPath(d, p' + q');
    }
    assert BasePathOffsets(d, m.name) == {Offset(d, p)} by {
      forall x | x in BasePathOffsets(d, m.name)
        ensures x == Offset(d, p)
      {
        assert x + Offset(m, q) == total && Offset(d, p) + Offset(m, q) == total;
      }
    }
    assert BasePathOffsets(m, b.name) == {Offset(m, q)} by {
      forall y | y in BasePathOffsets(m, b.name)
        ensures y == Offset(m, q)
      {
        assert Offset(d, p) + y == total && Offset(d, p) + Offset(m, q) == total;
      }
    }
  }
}
