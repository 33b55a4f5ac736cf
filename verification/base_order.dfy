/** The order of all_bases (refl.hpp), and when it puts direct bases first. */
module BaseOrder {
  import opened Wrappers
  import opened ClassGraph
  import opened LookupPolicy
  import opened LookupTheorems

  // --------------------------------------------------------------------
  // The full depth-first walk.
  // --------------------------------------------------------------------

  /** Every base edge below `c`, from its `i`-th base on, each as often as it is reached. */
  function Preorder(c: ClassInfo, i: nat): seq<BaseHandle>
    requires i <= |c.bases|
    decreases c, |c.bases| - i
  {
    if i == |c.bases| then []
    else [BaseHandle(c, i)] + (if c.HasBase(i) then Preorder(c.BaseAt(i), 0) else []) + Preorder(c, i + 1)
  }

  function NameSet(handles: seq<BaseHandle>): set<string> {
    set h | h in handles :: HandleName(h)
  }

  /** The first handle of each name that is not in `seen`, in order. */
  function Unseen(handles: seq<BaseHandle>, seen: set<string>): seq<BaseHandle> {
    if handles == [] then []
    else if HandleName(handles[0]) in seen then Unseen(handles[1..], seen)
    else [handles[0]] + Unseen(handles[1..], seen + {HandleName(handles[0])})
  }

  lemma NameSetConcat(a: seq<BaseHandle>, b: seq<BaseHandle>)
    ensures NameSet(a + b) == NameSet(a) + NameSet(b)
  {
    assert forall h :: h in a + b <==> h in a || h in b;
  }

  lemma {:induction false} UnseenConcat(a: seq<BaseHandle>, b: seq<BaseHandle>, seen: set<string>)
    ensures Unseen(a + b, seen) == Unseen(a, seen) + Unseen(b, seen + NameSet(a))
  {
    if a == [] {
      assert a + b == b && seen + NameSet(a) == seen;
    } else {
      var first, rest := HandleName(a[0]), a[1..];
      assert a == [a[0]] + rest && (a + b)[1..] == rest + b;
      NameSetConcat([a[0]], rest);
      var seen' := if first in seen then seen else seen + {first};
      UnseenConcat(rest, b, seen');
      assert seen' + NameSet(rest) == seen + NameSet(a);
    }
  }

  lemma {:induction false} NothingUnseen(handles: seq<BaseHandle>, seen: set<string>)
    requires NameSet(handles) <= seen
    ensures Unseen(handles, seen) == []
  {
    if handles != [] {
      assert handles == [handles[0]] + handles[1..];
      NameSetConcat([handles[0]], handles[1..]);
      NothingUnseen(handles[1..], seen);
    }
  }

  lemma PreorderNames(c: ClassInfo, i: nat)
    requires c.HasBase(i)
    ensures NameSet(Preorder(c, i)) == {c.bases[i].name} + NameSet(Preorder(c.BaseAt(i), 0)) + NameSet(Preorder(c, i + 1))
  {
    var edge, below, after := [BaseHandle(c, i)], Preorder(c.BaseAt(i), 0), Preorder(c, i + 1);
    NameSetConcat(edge, below);
    NameSetConcat(edge + below, after);
    EdgeName(c, i);
  }

  lemma EdgeName(c: ClassInfo, i: nat)
    requires i < |c.bases|
    ensures NameSet([BaseHandle(c, i)]) == {c.bases[i].name}
  {
    assert BaseHandle(c, i) in [BaseHandle(c, i)];
    assert HandleName(BaseHandle(c, i)) == c.bases[i].name;
  }

  lemma {:induction false} PreorderMeets(c: ClassInfo, i: nat, n: string)
    requires WellFormed(c) && i <= |c.bases|
    ensures n in NameSet(Preorder(c, i)) <==> ReachedFrom(c, i, n)
    decreases c, |c.bases| - i
  {
    if i < |c.bases| {
      WellFormedBase(c, i);
      PreorderNames(c, i);
      ReachedFromBase(c, i, n);
      PreorderMeets(c.BaseAt(i), 0, n);
      PreorderMeets(c, i + 1, n);
    } else {
      PathsStartAtABase(c, i, n);
    }
  }

  /** Below a name that has been seen there is nothing new. */
  lemma UnseenAtSeenBase(c: ClassInfo, i: nat, seen: set<string>)
    requires c.HasBase(i) && c.bases[i].name in seen && NameSet(Preorder(c.BaseAt(i), 0)) <= seen
    ensures Unseen(Preorder(c, i), seen) == Unseen(Preorder(c, i + 1), seen)
    ensures seen + NameSet(Preorder(c, i)) == seen + NameSet(Preorder(c, i + 1))
  {
    var walked := [BaseHandle(c, i)] + Preorder(c.BaseAt(i), 0);
    PreorderNames(c, i);
    EdgeName(c, i);
    NameSetConcat([BaseHandle(c, i)], Preorder(c.BaseAt(i), 0));
    NothingUnseen(walked, seen);
    UnseenConcat(walked, Preorder(c, i + 1), seen);
    assert seen + NameSet(walked) == seen;
  }

  lemma UnseenAtNewBase(c: ClassInfo, i: nat, seen: set<string>)
    requires c.HasBase(i) && c.bases[i].name !in seen
    ensures var entered, below := seen + {c.bases[i].name}, Preorder(c.BaseAt(i), 0);
            && Unseen(Preorder(c, i), seen)
               == ([BaseHandle(c, i)] + Unseen(below, entered)) + Unseen(Preorder(c, i + 1), entered + NameSet(below))
            && seen + NameSet(Preorder(c, i)) == (entered + NameSet(below)) + NameSet(Preorder(c, i + 1))
  {
    var below := Preorder(c.BaseAt(i), 0);
    var walked := [BaseHandle(c, i)] + below;
    PreorderNames(c, i);
    EdgeName(c, i);
    NameSetConcat([BaseHandle(c, i)], below);
    UnseenConcat(walked, Preorder(c, i + 1), seen);
    assert walked[1..] == below;
    assert seen + NameSet(walked) == seen + {c.bases[i].name} + NameSet(below);
  }

  /** `w` goes on to `w'` by what `handles` adds. */
  ghost predicate Adds(w: Walk, handles: seq<BaseHandle>, w': Walk) {
    w'.results == w.results + Unseen(handles, w.seen) && w'.seen == w.seen + NameSet(handles)
  }

  /** What the pruned walk adds is what the full walk meets for the first time. */
  lemma {:induction false} WalkIsPrunedPreorder(c: ClassInfo, i: nat, w: Walk)
    requires WellFormed(c) && i <= |c.bases| && Sound(w) && SeenIsClosed(c, w.seen)
    ensures Adds(w, Preorder(c, i), WalkFrom(c, i, w))
    decreases c, |c.bases| - i
  {
    if i < |c.bases| {
      WellFormedBase(c, i);
      if c.bases[i].name in w.seen {
        SeenBelow(c, i, w.seen);
        UnseenAtSeenBase(c, i, w.seen);
        WalkIsPrunedPreorder(c, i + 1, w);
      } else {
        var entered := Entered(c, i, w);
        WalkIsPrunedPreorder(c.BaseAt(i), 0, entered);
        WalkIsPrunedPreorder(c, i + 1, WalkFrom(c.BaseAt(i), 0, entered));
        UnseenAtNewBase(c, i, w.seen);
        AddsInTurn(BaseHandle(c, i), Preorder(c.BaseAt(i), 0), Preorder(c, i + 1), Preorder(c, i),
                   w, entered, WalkFrom(c.BaseAt(i), 0, entered), WalkFrom(c, i, w));
      }
    }
  }

  /** Adding an edge, what is below it and what comes after it is adding them all. */
  lemma AddsInTurn(
    edge: BaseHandle, below: seq<BaseHandle>, rest: seq<BaseHandle>, all: seq<BaseHandle>,
    w: Walk, entered: Walk, after: Walk, w': Walk)
    requires entered.results == w.results + [edge]
    requires Adds(entered, below, after) && Adds(after, rest, w')
    requires Unseen(all, w.seen) == ([edge] + Unseen(below, entered.seen)) + Unseen(rest, after.seen)
    requires w.seen + NameSet(all) == after.seen + NameSet(rest)
    ensures Adds(w, all, w')
  {
    var u, v := Unseen(below, entered.seen), Unseen(rest, after.seen);
    Regroup(w.results, [edge], u);
    Regroup(w.results, [edge] + u, v);
  }

  lemma SeenBelow(c: ClassInfo, i: nat, seen: set<string>)
    requires WellFormed(c) && c.HasBase(i) && SeenIsClosed(c, seen) && c.bases[i].name in seen
    ensures NameSet(Preorder(c.BaseAt(i), 0)) <= seen
  {
    WellFormedBase(c, i);
    SeenBaseAddsNothing(c, i, seen);
    forall n | n in NameSet(Preorder(c.BaseAt(i), 0))
      ensures n in seen
    {
      PreorderMeets(c.BaseAt(i), 0, n);
    }
  }

  /** The walk on entering a base whose name is new. */
  lemma Entered(c: ClassInfo, i: nat, w: Walk) returns (entered: Walk)
    requires WellFormed(c) && c.HasBase(i) && Sound(w) && SeenIsClosed(c, w.seen) && c.bases[i].name !in w.seen
    ensures entered == Walk(w.results + [BaseHandle(c, i)], w.seen + {c.bases[i].name})
    ensures WellFormed(c.BaseAt(i)) && Sound(entered) && SeenIsClosed(c.BaseAt(i), entered.seen)
    ensures var after := WalkFrom(c.BaseAt(i), 0, entered); Sound(after) && SeenIsClosed(c, after.seen)
  {
    entered := Walk(w.results + [BaseHandle(c, i)], w.seen + {c.bases[i].name});
    WellFormedBase(c, i);
    SoundWith(w, BaseHandle(c, i));
    ClosedBelow(c, i, w.seen);
    WalkSeesAll(c.BaseAt(i), 0, entered);
    ClosedAfter(c, i, w.seen, WalkFrom(c.BaseAt(i), 0, entered).seen);
  }

  /** all_bases lists the classes in the order in which the full depth-first walk first meets them. */
  lemma AllBasesOrder(c: ClassInfo)
    requires WellFormed(c)
    ensures WalkFrom(c, 0, Walk([], {})).results == Unseen(Preorder(c, 0), {})
  {
    WalkIsPrunedPreorder(c, 0, Walk([], {}));
  }

  // --------------------------------------------------------------------
  // Direct bases first?
  // --------------------------------------------------------------------

  function DirectNames(c: ClassInfo): set<string> {
    set i | 0 <= i < |c.bases| :: c.bases[i].name
  }

  /** Nothing outside `names` is listed before something in it. */
  predicate ListedFirst(handles: seq<BaseHandle>, names: set<string>) {
    forall j, k :: 0 <= j < k < |handles| && HandleName(handles[k]) in names ==> HandleName(handles[j]) in names
  }

  /** The handles before the first one outside `names`. */
  function LeadingRun(handles: seq<BaseHandle>, names: set<string>): seq<BaseHandle> {
    if handles == [] || HandleName(handles[0]) !in names then []
    else [handles[0]] + LeadingRun(handles[1..], names)
  }

  lemma ListedFirstStep(h: BaseHandle, rest: seq<BaseHandle>, names: set<string>)
    ensures ListedFirst([h] + rest, names)
            <==> if HandleName(h) in names then ListedFirst(rest, names) else NameSet(rest) !! names
  {
    var whole := [h] + rest;
    assert forall k :: 0 <= k < |rest| ==> whole[k + 1] == rest[k];
    if ListedFirst(whole, names) && HandleName(h) !in names {
      forall n | n in NameSet(rest)
        ensures n !in names
      {
        var k :| 0 <= k < |rest| && HandleName(rest[k]) == n;
        assert whole[k + 1] == rest[k] && whole[0] == h;
      }
    }
    if NameSet(rest) !! names {
      assert forall k :: 0 <= k < |rest| ==> HandleName(rest[k]) in NameSet(rest);
    }
  }

  lemma {:induction false} UnseenNames(handles: seq<BaseHandle>, seen: set<string>)
    ensures NameSet(Unseen(handles, seen)) == NameSet(handles) - seen
  {
    if handles != [] {
      var first, rest := HandleName(handles[0]), handles[1..];
      assert handles == [handles[0]] + rest;
      NameSetConcat([handles[0]], rest);
      UnseenNames(rest, if first in seen then seen else seen + {first});
      NameSetConcat([handles[0]], Unseen(rest, seen + {first}));
    }
  }

  lemma SameCover(first: string, met: set<string>, leading: set<string>, seen: set<string>, names: set<string>)
    requires first in seen
    ensures met * names <= seen + leading <==> ({first} + met) * names <= seen + ({first} + leading)
  {
    assert seen + ({first} + leading) == seen + leading;
    assert ({first} + met) * names <= met * names + seen;
    assert met * names <= ({first} + met) * names;
  }

  lemma {:induction false} FirstIffLeading(handles: seq<BaseHandle>, seen: set<string>, names: set<string>)
    requires seen <= names
    ensures ListedFirst(Unseen(handles, seen), names)
            <==> NameSet(handles) * names <= seen + NameSet(LeadingRun(handles, names))
  {
    if handles != [] {
      var first, rest := HandleName(handles[0]), handles[1..];
      assert handles == [handles[0]] + rest;
      NameSetConcat([handles[0]], rest);
      assert NameSet([handles[0]]) == {first};
      NameSetConcat([handles[0]], LeadingRun(rest, names));
      assert first in names ==> NameSet(LeadingRun(handles, names)) == {first} + NameSet(LeadingRun(rest, names));
      assert NameSet(handles) == {first} + NameSet(rest);
      if first in seen {
        FirstIffLeading(rest, seen, names);
        assert Unseen(handles, seen) == Unseen(rest, seen);
        SameCover(first, NameSet(rest), NameSet(LeadingRun(rest, names)), seen, names);
      } else if first in names {
        FirstIffLeading(rest, seen + {first}, names);
        SameCover(first, NameSet(rest), NameSet(LeadingRun(rest, names)), seen + {first}, names);
        ListedFirstStep(handles[0], Unseen(rest, seen + {first}), names);
      } else {
        ListedFirstStep(handles[0], Unseen(rest, seen + {first}), names);
        UnseenNames(rest, seen + {first});
      }
    }
  }

  /** all_bases puts direct bases first exactly if the depth-first walk meets them all before it
      meets any other class. */
  lemma DirectBasesFirst(c: ClassInfo)
    requires WellFormed(c)
    ensures ListedFirst(WalkFrom(c, 0, Walk([], {})).results, DirectNames(c))
            <==> DirectNames(c) <= NameSet(LeadingRun(Preorder(c, 0), DirectNames(c)))
  {
    AllBasesOrder(c);
    FirstIffLeading(Preorder(c, 0), {}, DirectNames(c));
    forall n | n in DirectNames(c)
      ensures n in NameSet(Preorder(c, 0))
    {
      var i :| 0 <= i < |c.bases| && c.bases[i].name == n;
      WellFormedBase(c, i);
      assert [i] != [] && 0 <= [i][0];
      PreorderMeets(c, 0, n);
    }
  }

  /** No class is a direct base twice, or a direct and an indirect base. */
  ghost predicate DirectBasesApart(c: ClassInfo) {
    && (forall i, j :: 0 <= i < j < |c.bases| ==> c.bases[i].name != c.bases[j].name)
    && (forall i, n :: 0 <= i < |c.bases| && c.HasBase(i) && n in DirectNames(c) ==> !ReachedFrom(c.BaseAt(i), 0, n))
  }

  /** The direct bases from the `i`-th on are met first in the walk from there. */
  predicate LeadFrom(c: ClassInfo, i: nat)
    requires i <= |c.bases|
  {
    DirectFrom(c, i) <= NameSet(LeadingRun(Preorder(c, i), DirectNames(c)))
  }

  function DirectFrom(c: ClassInfo, i: nat): set<string> {
    set k | i <= k < |c.bases| :: c.bases[k].name
  }

  predicate LeavesFrom(c: ClassInfo, i: nat) {
    forall k :: i <= k < |c.bases| - 1 && c.HasBase(k) ==> c.BaseAt(k).bases == []
  }

  lemma {:induction false} LeadIffLeaves(c: ClassInfo, i: nat)
    requires WellFormed(c) && DirectBasesApart(c) && i <= |c.bases|
    ensures LeadFrom(c, i) <==> LeavesFrom(c, i)
    decreases |c.bases| - i
  {
    if i < |c.bases| {
      WellFormedBase(c, i);
      LeadIffLeaves(c, i + 1);
      LeadStep(c, i);
      LeavesStep(c, i);
    }
  }

  lemma LeadStep(c: ClassInfo, i: nat)
    requires WellFormed(c) && DirectBasesApart(c) && c.HasBase(i)
    ensures LeadFrom(c, i) <==> i + 1 == |c.bases| || (c.BaseAt(i).bases == [] && LeadFrom(c, i + 1))
  {
    LeadingStep(c, i);
    DirectStep(c, i);
  }

  lemma LeavesStep(c: ClassInfo, i: nat)
    requires c.HasBase(i)
    ensures LeavesFrom(c, i) <==> i + 1 == |c.bases| || (c.BaseAt(i).bases == [] && LeavesFrom(c, i + 1))
  {
  }

  lemma DirectStep(c: ClassInfo, i: nat)
    requires DirectBasesApart(c) && i < |c.bases|
    ensures DirectFrom(c, i) == {c.bases[i].name} + DirectFrom(c, i + 1) && c.bases[i].name !in DirectFrom(c, i + 1)
    ensures DirectFrom(c, i + 1) == {} <==> i + 1 == |c.bases|
  {
    assert i + 1 < |c.bases| ==> c.bases[i + 1].name in DirectFrom(c, i + 1);
  }

  lemma LeadingStep(c: ClassInfo, i: nat)
    requires WellFormed(c) && DirectBasesApart(c) && c.HasBase(i)
    ensures NameSet(LeadingRun(Preorder(c, i), DirectNames(c)))
            == {c.bases[i].name}
               + if c.BaseAt(i).bases == [] then NameSet(LeadingRun(Preorder(c, i + 1), DirectNames(c))) else {}
  {
    var below, direct := Preorder(c.BaseAt(i), 0), DirectNames(c);
    assert Preorder(c, i) == [BaseHandle(c, i)] + (below + Preorder(c, i + 1)) by {
      Regroup([BaseHandle(c, i)], below, Preorder(c, i + 1));
    }
    LeadingHead(BaseHandle(c, i), below + Preorder(c, i + 1), direct);
    if c.BaseAt(i).bases != [] {
      IndirectNext(c, i);
      assert (below + Preorder(c, i + 1))[0] == below[0];
    } else {
      assert below + Preorder(c, i + 1) == Preorder(c, i + 1);
    }
  }

  lemma LeadingHead(h: BaseHandle, rest: seq<BaseHandle>, names: set<string>)
    requires HandleName(h) in names
    ensures NameSet(LeadingRun([h] + rest, names)) == {HandleName(h)} + NameSet(LeadingRun(rest, names))
    ensures rest != [] && HandleName(rest[0]) !in names ==> LeadingRun(rest, names) == []
  {
    assert ([h] + rest)[1..] == rest;
    NameSetConcat([h], LeadingRun(rest, names));
    assert h in [h] && NameSet([h]) == {HandleName(h)};
  }

  lemma IndirectNext(c: ClassInfo, i: nat)
    requires WellFormed(c) && DirectBasesApart(c) && c.HasBase(i) && c.BaseAt(i).bases != []
    ensures Preorder(c.BaseAt(i), 0) != [] && HandleName(Preorder(c.BaseAt(i), 0)[0]) !in DirectNames(c)
  {
    var b := c.BaseAt(i);
    WellFormedBase(c, i);
    assert Preorder(b, 0)[0] == BaseHandle(b, 0);
    PreorderMeets(b, 0, b.bases[0].name);
    assert Preorder(b, 0)[0] in Preorder(b, 0);
  }

  /** Where no direct base is also an indirect one, direct bases come first exactly if none of them
      but the last has bases of its own. */
  lemma DirectBasesFirstIffLeaves(c: ClassInfo)
    requires WellFormed(c) && DirectBasesApart(c)
    ensures ListedFirst(WalkFrom(c, 0, Walk([], {})).results, DirectNames(c))
            <==> LeavesFrom(c, 0)
  {
    DirectBasesFirst(c);
    LeadIffLeaves(c, 0);
    assert DirectFrom(c, 0) == DirectNames(c);
  }

  /** A class with the given bases, at consecutive offsets, and no members. */
  function Plain(id: nat, name: string, bases: seq<ClassInfo>): ClassInfo {
    ClassInfo(id, name,
              seq(|bases|, i requires 0 <= i < |bases| => BaseInfo(bases[i].name, 8 * i, Some(bases[i]))),
              [], [], [], [])
  }

  /** struct A : X and struct C : A, B list X before B. */
  lemma DirectBaseComesLate()
    ensures var c := Plain(3, "C", [Plain(1, "A", [Plain(0, "X", [])]), Plain(2, "B", [])]);
            && WellFormed(c)
            && HandleNames(WalkFrom(c, 0, Walk([], {})).results) == ["A", "X", "B"]
            && !ListedFirst(WalkFrom(c, 0, Walk([], {})).results, DirectNames(c))
  {
    var x := Plain(0, "X", []);
    var a, b := Plain(1, "A", [x]), Plain(2, "B", []);
    var c := Plain(3, "C", [a, b]);
    LateGraphIsWellFormed(x, a, b, c);
    LateWalk(x, a, b, c);
    var results := WalkFrom(c, 0, Walk([], {})).results;
    assert c.bases[1].name in DirectNames(c) && HandleName(results[2]) == c.bases[1].name;
    assert HandleName(results[1]) !in DirectNames(c);
  }

  lemma LateGraphIsWellFormed(x: ClassInfo, a: ClassInfo, b: ClassInfo, c: ClassInfo)
    requires x == Plain(0, "X", []) && a == Plain(1, "A", [x]) && b == Plain(2, "B", []) && c == Plain(3, "C", [a, b])
    ensures WellFormed(c)
  {
    assert c.bases[0].descriptor == Some(a) && c.bases[1].descriptor == Some(b) && a.bases[0].descriptor == Some(x);
    ClosedGraphIsWellFormed({x, a, b, c}, c);
  }

  lemma LateWalk(x: ClassInfo, a: ClassInfo, b: ClassInfo, c: ClassInfo)
    requires x == Plain(0, "X", []) && a == Plain(1, "A", [x]) && b == Plain(2, "B", []) && c == Plain(3, "C", [a, b])
    ensures WalkFrom(c, 0, Walk([], {})).results == [BaseHandle(c, 0), BaseHandle(a, 0), BaseHandle(c, 1)]
  {
    var w1 := Walk([BaseHandle(c, 0)], {"A"});
    var w2 := Walk([BaseHandle(c, 0), BaseHandle(a, 0)], {"A", "X"});
    var w3 := Walk([BaseHandle(c, 0), BaseHandle(a, 0), BaseHandle(c, 1)], {"A", "X", "B"});
    assert WalkFrom(a, 0, w1) == w2 by {
      assert WalkFrom(x, 0, w2) == w2;
      assert WalkFrom(a, 1, w2) == w2;
    }
    assert WalkFrom(c, 1, w2) == w3 by {
      assert WalkFrom(b, 0, w3) == w3;
      assert WalkFrom(c, 2, w3) == w3;
    }
    assert Walk([] + [BaseHandle(c, 0)], {} + {c.bases[0].name}) == w1;
    assert WalkFrom(c, 0, Walk([], {})) == WalkFrom(c, 1, WalkFrom(a, 0, w1));
  }
}
