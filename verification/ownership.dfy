/** Callbacks that own subscription tokens (extensions/observed.hpp). A listener that is in neither
    the list nor a snapshot is destroyed, and the tokens its callback owns end their subscriptions.
    Everything that happens is a run of the delivery machine; the question is whether erasing
    inactive listeners can still not be told from keeping them. */
module Ownership {
  import opened Wrappers
  import opened Types
  import opened ObservationPolicy
  import opened ObservationTheorems

  /** What the program does: an action of the machine, or passing the token of a subscription into
      or out of the callback of a listener. */
  datatype Move =
    | Act(action: Action)
    | Give(token: nat, owner: nat)
    | Take(token: nat)

  datatype World = World(
    s: State,
    holder: map<nat, nat>,  // which listener's callback owns a token
    destroyed: set<nat>,
    ended: seq<nat>,        // the subscriptions of active listeners ended by a destruction
    log: seq<Action>)       // the actions of the machine, those of destructions included

  const START := World(INITIAL_STATE, map[], {}, [], [])

  function Do(w: World, a: Action): World {
    w.(s := Step(w.s, a), log := w.log + [a])
  }

  // --------------------------------------------------------------------
  // Destruction.
  // --------------------------------------------------------------------

  /** The destructor of a token. */
  function EndToken(w: World, token: nat): World {
    if IsActive(w.s.listeners, token) then Do(w, Unsubscribe(token)).(ended := w.ended + [token]) else w
  }

  /** Those among the first `n` tokens that the callback of `l` owns. */
  function EndTokens(w: World, l: nat, n: nat): World {
    if n == 0 then w
    else
      var w' := EndTokens(w, l, n - 1);
      if n - 1 in w'.holder && w'.holder[n - 1] == l then EndToken(w', n - 1) else w'
  }

  predicate InSnapshot(frames: seq<Frame>, l: nat) {
    exists i :: 0 <= i < |frames| && l in frames[i].snapshot
  }

  /** The list lets go of a listener: it is destroyed unless a snapshot still holds it. */
  function Release(w: World, l: nat): World {
    if l in w.destroyed || InSnapshot(w.s.stack, l) then w
    else EndTokens(w.(destroyed := w.destroyed + {l}), l, |w.s.listeners|)
  }

  /** The erasing pass over what is left of the list. A listener that is kept moves into the first of
      the slots left behind, which lets go of what was there; the rest goes at the end. The result
      lists the erased ones. */
  function ErasePass(w: World, slots: seq<Option<nat>>, rest: seq<nat>, gone: set<nat>): (World, set<nat>)
    decreases |rest|, |slots|
  {
    if rest != [] && !IsActive(w.s.listeners, rest[0]) then
      ErasePass(w, slots + [Some(rest[0])], rest[1..], gone + {rest[0]})
    else if slots == [] then
      if rest == [] then (w, gone) else ErasePass(w, [], rest[1..], gone)
    else
      var w' := if slots[0].Some? then Release(w, slots[0].value) else w;
      if rest == [] then ErasePass(w', slots[1..], [], gone)
      else ErasePass(w', slots[1..] + [None], rest[1..], gone)
  }

  /** after: the pass, and then the new listener at the end. */
  function Join(w: World, key: OperationKey): World {
    var (w', gone) := ErasePass(w, [], w.s.registered, {});
    Do(Do(w', Erase(gone)), Subscribe(key))
  }

  /** Lets go of those among the first `n` listeners that are off the list. */
  function Sweep(w: World, n: nat): World {
    if n == 0 then w
    else
      var w' := Sweep(w, n - 1);
      if n - 1 in w'.s.registered then w' else Release(w', n - 1)
  }

  function Play(moves: seq<Move>): World {
    if moves == [] then START else Next(Play(moves[..|moves| - 1]), moves[|moves| - 1])
  }

  /** One move. When a call ends its snapshot goes, and with it the listeners that only it held. */
  function Next(w: World, m: Move): World {
    match m
    case Act(Erase(_)) => w
    case Act(Subscribe(key)) => Join(w, key)
    case Act(a) => Sweep(Do(w, a), |w.s.listeners|)
    case Give(token, owner) =>
      if token < |w.s.listeners| && owner < |w.s.listeners| && owner !in w.destroyed then
        w.(holder := w.holder[token := owner])
      else w
    case Take(token) => w.(holder := w.holder - {token})
  }

  /** The program's own actions. */
  function Actions(moves: seq<Move>): seq<Action> {
    if moves == [] then []
    else
      var init, last := moves[..|moves| - 1], moves[|moves| - 1];
      Actions(init) + (if last.Act? && !last.action.Erase? then [last.action] else [])
  }

  // --------------------------------------------------------------------
  // Every play is a run of the machine.
  // --------------------------------------------------------------------

  ghost predicate Logged(w: World) {
    w.s == Run(w.log)
  }

  lemma DoLogged(w: World, a: Action)
    requires Logged(w)
    ensures Logged(Do(w, a))
  {
    assert (w.log + [a])[..|w.log|] == w.log;
  }

  /** From `w` to `w'` nothing has happened but the ending of tokens. */
  ghost predicate OnlyEnds(w: World, w': World) {
    && (Logged(w) ==> Logged(w'))
    && |w.ended| <= |w'.ended|
    && |w'.s.trace| == |w.s.trace| + (|w'.ended| - |w.ended|)
    && (|w'.ended| == |w.ended| ==> w'.s == w.s && w'.log == w.log && w'.ended == w.ended)
  }

  lemma OnlyEndsTwice(w: World, mid: World, w': World)
    requires OnlyEnds(w, mid) && OnlyEnds(mid, w')
    ensures OnlyEnds(w, w')
  {
  }

  lemma NextTokenOnlyEnds(w: World, l: nat, n: nat)
    requires n > 0
    ensures OnlyEnds(EndTokens(w, l, n - 1), EndTokens(w, l, n))
  {
    TokenOnlyEnds(EndTokens(w, l, n - 1), n - 1);
  }

  lemma {:induction false} TokensOnlyEnd(w: World, l: nat, n: nat)
    ensures OnlyEnds(w, EndTokens(w, l, n))
  {
    if n > 0 {
      var mid := EndTokens(w, l, n - 1);
      TokensOnlyEnd(w, l, n - 1);
      NextTokenOnlyEnds(w, l, n);
      OnlyEndsTwice(w, mid, EndTokens(w, l, n));
    }
  }

  lemma TokenOnlyEnds(w: World, token: nat)
    ensures OnlyEnds(w, EndToken(w, token))
  {
    if Logged(w) {
      DoLogged(w, Unsubscribe(token));
    }
  }

  lemma ReleaseOnlyEnds(w: World, l: nat)
    ensures OnlyEnds(w, Release(w, l))
  {
    var w' := w.(destroyed := w.destroyed + {l});
    TokensOnlyEnd(w', l, |w.s.listeners|);
  }

  lemma {:induction false} PassOnlyEnds(w: World, slots: seq<Option<nat>>, rest: seq<nat>, gone: set<nat>)
    ensures OnlyEnds(w, ErasePass(w, slots, rest, gone).0)
    decreases |rest|, |slots|
  {
    if rest != [] && !IsActive(w.s.listeners, rest[0]) {
      PassOnlyEnds(w, slots + [Some(rest[0])], rest[1..], gone + {rest[0]});
    } else if slots == [] {
      if rest != [] {
        PassOnlyEnds(w, [], rest[1..], gone);
      }
    } else {
      var w' := if slots[0].Some? then Release(w, slots[0].value) else w;
      if slots[0].Some? {
        ReleaseOnlyEnds(w, slots[0].value);
      }
      if rest == [] {
        PassOnlyEnds(w', slots[1..], [], gone);
      } else {
        PassOnlyEnds(w', slots[1..] + [None], rest[1..], gone);
      }
    }
  }

  lemma {:induction false} SweepOnlyEnds(w: World, n: nat)
    ensures OnlyEnds(w, Sweep(w, n))
  {
    if n > 0 {
      var mid := Sweep(w, n - 1);
      SweepOnlyEnds(w, n - 1);
      if n - 1 !in mid.s.registered {
        ReleaseOnlyEnds(mid, n - 1);
        OnlyEndsTwice(w, mid, Release(mid, n - 1));
      }
    }
  }

  lemma NextLogged(w: World, m: Move)
    requires Logged(w)
    ensures Logged(Next(w, m))
  {
    if m.Act? {
      if m.action.Subscribe? {
        var (w', gone) := ErasePass(w, [], w.s.registered, {});
        PassOnlyEnds(w, [], w.s.registered, {});
        DoLogged(w', Erase(gone));
        DoLogged(Do(w', Erase(gone)), m.action);
      } else if !m.action.Erase? {
        DoLogged(w, m.action);
        SweepOnlyEnds(Do(w, m.action), |w.s.listeners|);
      }
    }
  }

  lemma {:induction false} PlayLogged(moves: seq<Move>)
    ensures Logged(Play(moves))
  {
    if moves != [] {
      PlayLogged(moves[..|moves| - 1]);
      NextLogged(Play(moves[..|moves| - 1]), moves[|moves| - 1]);
    }
  }

  /** The delivery contract holds whatever callbacks own, and whenever they are destroyed. */
  lemma EveryPlayIsLawful(moves: seq<Move>)
    ensures Lawful(Play(moves).s.trace)
  {
    PlayLogged(moves);
    EveryRunIsLawful(Play(moves).log);
  }

  // --------------------------------------------------------------------
  // Who is destroyed, and what that ends.
  // --------------------------------------------------------------------

  predicate Held(s: State, l: nat) {
    l in s.registered || InSnapshot(s.stack, l)
  }

  /** Destroyed are exactly the listeners that neither the list nor a snapshot holds. */
  ghost predicate DestroyedIffLetGo(w: World) {
    forall l: nat :: l in w.destroyed <==> l < |w.s.listeners| && !Held(w.s, l)
  }

  /** No token of an active listener is left with a callback that is gone. */
  predicate DeadHoldNothing(w: World) {
    forall t :: t in w.holder ==>
                  t < |w.s.listeners| && (w.holder[t] in w.destroyed ==> !IsActive(w.s.listeners, t))
  }

  /** Nothing but destructions lies between `w` and `w'`. */
  ghost predicate Destroying(w: World, w': World) {
    && w'.s.stack == w.s.stack && w'.s.registered == w.s.registered && |w'.s.listeners| == |w.s.listeners|
    && w'.holder == w.holder && w.destroyed <= w'.destroyed
    && forall l: nat :: IsActive(w'.s.listeners, l) ==> IsActive(w.s.listeners, l)
  }

  lemma {:induction false} TokensEnd(w: World, l: nat, n: nat)
    ensures var w' := EndTokens(w, l, n);
            && Destroying(w, w') && w'.destroyed == w.destroyed
            && forall t :: t in w.holder && t < n && w.holder[t] == l ==> !IsActive(w'.s.listeners, t)
  {
    if n > 0 {
      TokensEnd(w, l, n - 1);
      OthersKeepTheList(EndTokens(w, l, n - 1).s, Unsubscribe(n - 1));
    }
  }

  lemma ReleaseDestroys(w: World, l: nat)
    requires DeadHoldNothing(w)
    ensures Destroying(w, Release(w, l)) && DeadHoldNothing(Release(w, l))
    ensures Release(w, l).destroyed == w.destroyed + if InSnapshot(w.s.stack, l) then {} else {l}
  {
    TokensEnd(w.(destroyed := w.destroyed + {l}), l, |w.s.listeners|);
  }

  /** The listeners in the slots left behind. */
  function InSlots(slots: seq<Option<nat>>): set<nat> {
    if slots == [] then {} else InSlots(slots[1..]) + if slots[0].Some? then {slots[0].value} else {}
  }

  lemma {:induction false} InSlotsAppend(slots: seq<Option<nat>>, last: Option<nat>)
    ensures InSlots(slots + [last]) == InSlots(slots) + if last.Some? then {last.value} else {}
  {
    if slots != [] {
      assert (slots + [last])[1..] == slots[1..] + [last];
      InSlotsAppend(slots[1..], last);
    } else {
      assert (slots + [last])[1..] == [];
    }
  }

  /** What of a set of listeners no snapshot holds. */
  function Unheld(frames: seq<Frame>, ids: set<nat>): set<nat> {
    set l | l in ids && !InSnapshot(frames, l)
  }

  /** No listener twice, and none that is gone. */
  predicate Remaining(rest: seq<nat>, gone: set<nat>) {
    (forall i, j :: 0 <= i < j < |rest| ==> rest[i] != rest[j]) && forall i :: 0 <= i < |rest| ==> rest[i] !in gone
  }

  lemma RemainingTail(rest: seq<nat>, gone: set<nat>)
    requires Remaining(rest, gone) && rest != []
    ensures Remaining(rest[1..], gone) && Remaining(rest[1..], gone + {rest[0]})
    ensures forall l :: l in rest <==> l == rest[0] || l in rest[1..]
  {
    assert rest == [rest[0]] + rest[1..];
    assert forall i :: 0 <= i < |rest[1..]| ==> rest[1..][i] == rest[i + 1];
  }

  /** The pass takes inactive listeners off, and destroys those of them that no snapshot holds. */
  lemma {:induction false} PassDestroys(w: World, slots: seq<Option<nat>>, rest: seq<nat>, gone: set<nat>)
    requires DeadHoldNothing(w) && Remaining(rest, gone)
    ensures var (w', gone') := ErasePass(w, slots, rest, gone);
            && Destroying(w, w') && DeadHoldNothing(w')
            && gone <= gone' && (forall l :: l in gone' && l !in gone ==> l in rest && !IsActive(w'.s.listeners, l))
            && w'.destroyed == w.destroyed + Unheld(w.s.stack, InSlots(slots) + (gone' - gone))
            && forall l :: l in rest && l !in gone' ==> IsActive(w.s.listeners, l)
    decreases |rest|, |slots|
  {
    if rest != [] {
      RemainingTail(rest, gone);
    }
    if rest != [] && !IsActive(w.s.listeners, rest[0]) {
      InSlotsAppend(slots, Some(rest[0]));
      PassDestroys(w, slots + [Some(rest[0])], rest[1..], gone + {rest[0]});
      var gone' := ErasePass(w, slots, rest, gone).1;
      assert {rest[0]} + (gone' - (gone + {rest[0]})) == gone' - gone;
      assert InSlots(slots) + {rest[0]} + (gone' - (gone + {rest[0]})) == InSlots(slots) + (gone' - gone);
    } else if slots == [] {
      if rest != [] {
        PassDestroys(w, [], rest[1..], gone);
      }
    } else {
      var w' := if slots[0].Some? then Release(w, slots[0].value) else w;
      if slots[0].Some? {
        ReleaseDestroys(w, slots[0].value);
      }
      if rest == [] {
        PassDestroys(w', slots[1..], [], gone);
      } else {
        InSlotsAppend(slots[1..], None);
        PassDestroys(w', slots[1..] + [None], rest[1..], gone);
      }
    }
  }

  lemma {:induction false} SweepDestroys(w: World, n: nat)
    requires DeadHoldNothing(w)
    ensures var w' := Sweep(w, n);
            && Destroying(w, w') && DeadHoldNothing(w')
            && forall l: nat :: l in w'.destroyed <==> l in w.destroyed || (l < n && !Held(w.s, l))
  {
    if n > 0 {
      SweepDestroys(w, n - 1);
      var w' := Sweep(w, n - 1);
      if n - 1 !in w'.s.registered {
        ReleaseDestroys(w', n - 1);
      }
    }
  }

  /** A snapshot is one that there was, or the list. */
  lemma SnapshotsStay(s: State, a: Action, l: nat)
    requires !a.Subscribe? && !a.Erase? && InSnapshot(Step(s, a).stack, l)
    ensures Held(s, l)
  {
    var s' := Step(s, a);
    var i :| 0 <= i < |s'.stack| && l in s'.stack[i].snapshot;
    if i < |s.stack| {
      assert s'.stack[i].snapshot == s.stack[i].snapshot;
    } else {
      assert s'.stack[i].snapshot == s.registered;
    }
  }

  lemma ActDestroys(w: World, a: Action)
    requires Logged(w) && DestroyedIffLetGo(w) && DeadHoldNothing(w) && !a.Subscribe? && !a.Erase?
    ensures var w' := Next(w, Act(a)); DestroyedIffLetGo(w') && DeadHoldNothing(w')
  {
    var w' := Do(w, a);
    OthersKeepTheList(w.s, a);
    SweepDestroys(w', |w.s.listeners|);
    forall l: nat | Held(w'.s, l)
      ensures Held(w.s, l)
    {
      if l !in w'.s.registered {
        SnapshotsStay(w.s, a, l);
      }
    }
    SameHolding(w', Sweep(w', |w.s.listeners|));
  }

  lemma SameHolding(w: World, w': World)
    requires Destroying(w, w')
    ensures forall l: nat :: Held(w'.s, l) <==> Held(w.s, l)
  {
  }

  lemma JoinDestroys(w: World, key: OperationKey)
    requires Logged(w) && DestroyedIffLetGo(w) && DeadHoldNothing(w)
    ensures var w' := Join(w, key); DestroyedIffLetGo(w') && DeadHoldNothing(w')
  {
    var (passed, gone) := ErasePass(w, [], w.s.registered, {});
    var w' := Join(w, key);
    ReachableInv(w.log);
    PassDestroys(w, [], w.s.registered, {});
    SameHolding(w, passed);
    forall l: nat
      ensures l in w'.s.registered <==> l == |w.s.listeners| || (l in w.s.registered && l !in gone)
    {
      WithoutElement(passed.s.listeners, gone, passed.s.registered, l);
    }
    JoinLetsGo(w, w', gone);
  }

  lemma JoinLetsGo(w: World, w': World, gone: set<nat>)
    requires DestroyedIffLetGo(w) && w'.s.stack == w.s.stack && |w'.s.listeners| == |w.s.listeners| + 1
    requires Covers(w.s, w.s.registered, |w.s.listeners|) && forall l :: l in gone ==> l in w.s.registered
    requires w'.destroyed == w.destroyed + Unheld(w.s.stack, {} + (gone - {}))
    requires forall l: nat :: l in w'.s.registered <==> l == |w.s.listeners| || (l in w.s.registered && l !in gone)
    ensures DestroyedIffLetGo(w')
  {
    forall l: nat
      ensures l in w'.destroyed <==> l < |w'.s.listeners| && !Held(w'.s, l)
    {
      assert InSnapshot(w'.s.stack, l) <==> InSnapshot(w.s.stack, l);
    }
  }

  /** In every play the destroyed listeners are exactly those that neither the list nor a snapshot holds, and
      what their callbacks owned has ended. */
  lemma {:induction false} LetGoIsDestroyed(moves: seq<Move>)
    ensures DestroyedIffLetGo(Play(moves)) && DeadHoldNothing(Play(moves))
  {
    if moves != [] {
      var w, m := Play(moves[..|moves| - 1]), moves[|moves| - 1];
      LetGoIsDestroyed(moves[..|moves| - 1]);
      PlayLogged(moves[..|moves| - 1]);
      match m
      case Act(Subscribe(key)) => JoinDestroys(w, key);
      case Act(Erase(_)) =>
      case Act(a) => ActDestroys(w, a);
      case _ => assert DestroyedIffLetGo(Next(w, m));
    }
  }

  // --------------------------------------------------------------------
  // Which callback owns a token, and the order of destruction.
  // --------------------------------------------------------------------

  /** The move hands the token over. */
  predicate HandsOver(w: World, m: Move, token: nat) {
    || m == Take(token)
    || (&& m.Give? && m.token == token && token < |w.s.listeners| && m.owner < |w.s.listeners|
        && m.owner !in w.destroyed)
  }

  /** The token was given to the owner at move `i` and has not changed hands since. */
  predicate LastGiven(moves: seq<Move>, token: nat, owner: nat, i: nat) {
    && i < |moves| && moves[i] == Give(token, owner) && HandsOver(Play(moves[..i]), moves[i], token)
    && forall j :: i < j < |moves| ==> !HandsOver(Play(moves[..j]), moves[j], token)
  }

  /** Machine actions and destructions do not change who owns a token. */
  lemma ActsKeepHolders(moves: seq<Move>, a: Action)
    ensures Next(Play(moves), Act(a)).holder == Play(moves).holder
  {
    var w := Play(moves);
    LetGoIsDestroyed(moves);
    PlayLogged(moves);
    match a
    case Subscribe(key) =>
      ReachableInv(w.log);
      PassDestroys(w, [], w.s.registered, {});
    case Erase(_) =>
    case _ =>
      OthersKeepTheList(w.s, a);
      SweepDestroys(Do(w, a), |w.s.listeners|);
  }

  lemma HolderAfter(moves: seq<Move>, last: Move, token: nat, owner: nat)
    ensures var w, w' := Play(moves), Next(Play(moves), last);
            token in w'.holder && w'.holder[token] == owner
            <==> if HandsOver(w, last, token) then last == Give(token, owner)
                 else token in w.holder && w.holder[token] == owner
  {
    if last.Act? {
      ActsKeepHolders(moves, last.action);
    }
  }

  lemma LastGivenAfter(moves: seq<Move>, token: nat, owner: nat, i: nat)
    requires moves != []
    ensures var n := |moves| - 1;
            var over := HandsOver(Play(moves[..n]), moves[n], token);
            LastGiven(moves, token, owner, i)
            <==> if over then i == n && moves[n] == Give(token, owner) else LastGiven(moves[..n], token, owner, i)
  {
    var n := |moves| - 1;
    assert forall j :: 0 <= j <= n ==> moves[..n][..j] == moves[..j];
    assert forall j :: 0 <= j < n ==> moves[..n][j] == moves[j];
  }

  /** In every play a token is owned by the callback it was last given to. */
  lemma {:induction false} HolderIsLastGiven(moves: seq<Move>, token: nat, owner: nat)
    ensures token in Play(moves).holder && Play(moves).holder[token] == owner
            <==> exists i :: LastGiven(moves, token, owner, i)
  {
    if moves != [] {
      var n := |moves| - 1;
      HolderIsLastGiven(moves[..n], token, owner);
      HolderAfter(moves[..n], moves[n], token, owner);
      LastGivenAfter(moves, token, owner, n);
      if i: nat :| LastGiven(moves, token, owner, i) {
        LastGivenAfter(moves, token, owner, i);
      }
      if i: nat :| LastGiven(moves[..n], token, owner, i) {
        LastGivenAfter(moves, token, owner, i);
      }
    }
  }

  /** The tokens are owned by listeners from `low` on, in subscription order. */
  predicate InTurn(holder: map<nat, nat>, tokens: seq<nat>, low: nat) {
    && (forall i :: 0 <= i < |tokens| ==> tokens[i] in holder && low <= holder[tokens[i]])
    && forall i, j :: 0 <= i < j < |tokens| ==> holder[tokens[i]] <= holder[tokens[j]]
  }

  /** From `w` to `w'` callbacks from `low` on have been destroyed, in subscription order. */
  ghost predicate EndsInTurn(w: World, w': World, low: nat) {
    w.ended <= w'.ended && w'.holder == w.holder && InTurn(w.holder, w'.ended[|w.ended|..], low)
  }

  lemma {:induction false} TokensOf(w: World, l: nat, n: nat)
    ensures var w' := EndTokens(w, l, n);
            && w.ended <= w'.ended && w'.holder == w.holder
            && forall i :: |w.ended| <= i < |w'.ended| ==> w'.ended[i] in w.holder && w.holder[w'.ended[i]] == l
  {
    if n > 0 {
      TokensOf(w, l, n - 1);
    }
  }

  /** One callback, and then those behind it. */
  lemma ReleasedFirst(w: World, l: nat, w': World, low: nat)
    requires low <= l && EndsInTurn(Release(w, l), w', l + 1)
    ensures EndsInTurn(w, w', low)
  {
    TokensOf(w.(destroyed := w.destroyed + {l}), l, |w.s.listeners|);
    var mid := Release(w, l);
    var new' := w'.ended[|w.ended|..];
    assert forall i :: |mid.ended| <= i < |w'.ended| ==> w'.ended[i] == w'.ended[|mid.ended|..][i - |mid.ended|];
    assert forall i :: |w.ended| <= i < |mid.ended| ==> w'.ended[i] == mid.ended[i];
    forall i | 0 <= i < |new'|
      ensures new'[i] == w'.ended[|w.ended| + i]
    {
    }
  }

  /** The listeners in the slots, front to back. */
  function Queue(slots: seq<Option<nat>>): seq<nat> {
    if slots == [] then [] else (if slots[0].Some? then [slots[0].value] else []) + Queue(slots[1..])
  }

  lemma {:induction false} QueueAppend(slots: seq<Option<nat>>, last: Option<nat>)
    ensures Queue(slots + [last]) == Queue(slots) + if last.Some? then [last.value] else []
  {
    if slots == [] {
      assert slots + [last] == [last] && [last][1..] == [];
    } else {
      var all := slots + [last];
      assert all[0] == slots[0] && all[1..] == slots[1..] + [last];
      QueueAppend(slots[1..], last);
    }
  }

  /** Increasing, from `low` on. */
  predicate Ascends(ids: seq<nat>, low: nat) {
    Increasing(ids) && forall i :: 0 <= i < |ids| ==> low <= ids[i]
  }

  lemma AscendsWithout(a: seq<nat>, b: seq<nat>, low: nat)
    requires Ascends(a + b, low)
    ensures a != [] ==> low <= a[0] && Ascends(a[1..] + b, a[0] + 1)
    ensures b != [] ==> Ascends(a + b[1..], low)
  {
    var s := a + b;
    if a != [] {
      assert s[0] == a[0];
      assert forall i :: 0 <= i < |a[1..] + b| ==> (a[1..] + b)[i] == s[i + 1];
    }
    if b != [] {
      assert forall i :: 0 <= i < |a + b[1..]| ==> (a + b[1..])[i] == s[if i < |a| then i else i + 1];
    }
  }

  lemma {:induction false} PassEndsInTurn(w: World, slots: seq<Option<nat>>, rest: seq<nat>, gone: set<nat>, low: nat)
    requires Ascends(Queue(slots) + rest, low)
    ensures EndsInTurn(w, ErasePass(w, slots, rest, gone).0, low)
    decreases |rest|, |slots|
  {
    AscendsWithout(Queue(slots), rest, low);
    if rest != [] && !IsActive(w.s.listeners, rest[0]) {
      QueueAppend(slots, Some(rest[0]));
      assert Queue(slots) + [rest[0]] + rest[1..] == Queue(slots) + rest;
      PassEndsInTurn(w, slots + [Some(rest[0])], rest[1..], gone + {rest[0]}, low);
    } else if slots == [] {
      if rest != [] {
        PassEndsInTurn(w, [], rest[1..], gone, low);
      }
    } else {
      var front := slots[0];
      var behind := if front.Some? then front.value + 1 else low;
      var w' := if front.Some? then Release(w, front.value) else w;
      assert Queue(slots) == (if front.Some? then [front.value] else []) + Queue(slots[1..]);
      assert front.Some? ==> Queue(slots)[0] == front.value && Queue(slots)[1..] == Queue(slots[1..]);
      assert front.None? ==> Queue(slots) == Queue(slots[1..]);
      assert Ascends(Queue(slots[1..]) + rest, behind);
      AscendsWithout(Queue(slots[1..]), rest, behind);
      if rest == [] {
        PassEndsInTurn(w', slots[1..], [], gone, behind);
      } else {
        QueueAppend(slots[1..], None);
        assert Queue(slots[1..] + [None]) == Queue(slots[1..]);
        PassEndsInTurn(w', slots[1..] + [None], rest[1..], gone, behind);
      }
      if front.Some? {
        ReleasedFirst(w, front.value, ErasePass(w, slots, rest, gone).0, low);
      }
    }
  }

  lemma {:induction false} SweepEndsInTurn(w: World, n: nat)
    ensures var w' := Sweep(w, n);
            EndsInTurn(w, w', 0) && forall i :: |w.ended| <= i < |w'.ended| ==> w.holder[w'.ended[i]] < n
  {
    if n > 0 {
      SweepEndsInTurn(w, n - 1);
      var mid, w' := Sweep(w, n - 1), Sweep(w, n);
      TokensOf(mid.(destroyed := mid.destroyed + {n - 1}), n - 1, |mid.s.listeners|);
      assert forall i :: |w.ended| <= i < |w'.ended| ==> w'.ended[i] == w'.ended[|w.ended|..][i - |w.ended|];
      assert forall i :: |w.ended| <= i < |mid.ended| ==>
                           mid.ended[i] == mid.ended[|w.ended|..][i - |w.ended|] && w'.ended[i] == mid.ended[i];
    }
  }

  /** Whatever one move destroys, it destroys in subscription order, as far as the subscriptions that this
      ends can tell. */
  lemma DestroyedInTurn(moves: seq<Move>, a: Action)
    ensures EndsInTurn(Play(moves), Next(Play(moves), Act(a)), 0)
  {
    var w := Play(moves);
    match a
    case Subscribe(key) =>
      PlayLogged(moves);
      ReachableInv(w.log);
      assert Queue([]) + w.s.registered == w.s.registered;
      PassEndsInTurn(w, [], w.s.registered, {}, 0);
    case Erase(_) =>
    case _ => SweepEndsInTurn(Do(w, a), |w.s.listeners|);
  }

  // --------------------------------------------------------------------
  // When erasing cannot be observed.
  // --------------------------------------------------------------------

  lemma WithoutErasingLast(actions: seq<Action>, a: Action)
    ensures WithoutErasing(actions + [a]) == if a.Erase? then WithoutErasing(actions) else WithoutErasing(actions) + [a]
  {
    assert (actions + [a])[..|actions|] == actions;
  }

  /** One more move of a play over a list that keeps everyone: the trace it adds to. */
  function GrownBy(w: World, m: Move): State {
    if m.Act? && !m.action.Erase? then Step(w.s, m.action) else w.s
  }

  /** A move adds what its own action adds, and one event for each token it ends. */
  lemma NextCounts(w: World, m: Move)
    ensures var w' := Next(w, m);
            && |w.ended| <= |w'.ended|
            && |w'.s.trace| == |GrownBy(w, m).trace| + (|w'.ended| - |w.ended|)
            && (|w'.ended| == |w.ended| ==> w'.ended == w.ended)
  {
    if m.Act? {
      if m.action.Subscribe? {
        PassOnlyEnds(w, [], w.s.registered, {});
      } else if !m.action.Erase? {
        SweepOnlyEnds(Do(w, m.action), |w.s.listeners|);
      }
    }
  }

  lemma QuietNext(w: World, m: Move)
    requires Next(w, m).ended == w.ended
    ensures WithoutErasing(Next(w, m).log)
            == WithoutErasing(w.log) + (if m.Act? && !m.action.Erase? then [m.action] else [])
  {
    if m.Act? {
      if m.action.Subscribe? {
        var (w', gone) := ErasePass(w, [], w.s.registered, {});
        PassOnlyEnds(w, [], w.s.registered, {});
        WithoutErasingLast(w.log, Erase(gone));
        WithoutErasingLast(w.log + [Erase(gone)], m.action);
      } else if !m.action.Erase? {
        SweepOnlyEnds(Do(w, m.action), |w.s.listeners|);
        WithoutErasingLast(w.log, m.action);
      }
    }
  }

  lemma {:induction false} QuietPlay(moves: seq<Move>)
    requires Play(moves).ended == []
    ensures WithoutErasing(Play(moves).log) == Actions(moves)
  {
    if moves != [] {
      var w, last := Play(moves[..|moves| - 1]), moves[|moves| - 1];
      NextCounts(w, last);
      QuietPlay(moves[..|moves| - 1]);
      QuietNext(w, last);
    }
  }

  lemma QuietPlaySimulates(moves: seq<Move>)
    requires Play(moves).ended == []
    ensures SameToTheOutside(Play(moves).s, Run(Actions(moves)))
  {
    PlayLogged(moves);
    QuietPlay(moves);
    CompactionSimulates(Play(moves).log);
  }

  /** The traces of a play, with its erasing and its destructions, and of the same actions over a list
      that only grows are the same at every point. */
  ghost predicate Unobservable(moves: seq<Move>) {
    forall n :: 0 <= n <= |moves| ==> SameTraces(moves[..n])
  }

  ghost predicate SameTraces(moves: seq<Move>) {
    Play(moves).s.trace == Run(Actions(moves)).trace
  }

  lemma {:induction false} EndedEarlier(moves: seq<Move>, n: nat)
    requires n <= |moves| && Play(moves).ended == []
    ensures Play(moves[..n]).ended == []
  {
    if n < |moves| {
      NextCounts(Play(moves[..|moves| - 1]), moves[|moves| - 1]);
      EndedEarlier(moves[..|moves| - 1], n);
      assert moves[..|moves| - 1][..n] == moves[..n];
    } else {
      assert moves[..n] == moves;
    }
  }

  /** One move that leaves the traces the same has ended nothing. */
  lemma SameTraceEndsNothing(w: World, m: Move, s: State, s': State)
    requires w.ended == [] && w.s.trace == s.trace && Next(w, m).s.trace == s'.trace
    requires if m.Act? && !m.action.Erase? then Step(w.s, m.action).trace == s'.trace else s' == s
    ensures Next(w, m).ended == []
  {
    NextCounts(w, m);
  }

  lemma LastMoveEndsNothing(init: seq<Move>, last: Move)
    requires Play(init).ended == [] && SameTraces(init + [last])
    ensures Play(init + [last]).ended == []
  {
    QuietPlaySimulates(init);
    ActionsStep(init, last);
    PlayStep(init, last);
    if last.Act? && !last.action.Erase? {
      GrownTrace(Play(init), Actions(init), last.action);
    }
    SameTraceEndsNothing(Play(init), last, Run(Actions(init)), Run(Actions(init + [last])));
  }

  lemma UnobservableBefore(init: seq<Move>, last: Move)
    requires Unobservable(init + [last])
    ensures Unobservable(init) && SameTraces(init + [last])
  {
    var moves := init + [last];
    forall n | 0 <= n <= |init|
      ensures SameTraces(init[..n])
    {
      assert init[..n] == moves[..n];
    }
    assert moves[..|moves|] == moves;
  }

  lemma {:induction false} SameTracesEndNothing(moves: seq<Move>)
    requires Unobservable(moves)
    ensures Play(moves).ended == []
  {
    if moves != [] {
      var init, last := moves[..|moves| - 1], moves[|moves| - 1];
      assert moves == init + [last];
      UnobservableBefore(init, last);
      SameTracesEndNothing(init);
      LastMoveEndsNothing(init, last);
    }
  }

  lemma GrownTrace(w: World, actions: seq<Action>, a: Action)
    requires SameToTheOutside(w.s, Run(actions)) && !a.Erase?
    ensures Step(w.s, a).trace == Run(actions + [a]).trace
  {
    assert (actions + [a])[..|actions|] == actions;
    AlikeStep(w.s, Run(actions), a);
  }

  /** Erasing inactive listeners cannot be observed exactly if no listener that is destroyed has a
      callback that owns the token of an active one. */
  lemma CompactionIsUnobservable(moves: seq<Move>)
    ensures Unobservable(moves) <==> Play(moves).ended == []
  {
    if Unobservable(moves) {
      SameTracesEndNothing(moves);
    }
    if Play(moves).ended == [] {
      forall n | 0 <= n <= |moves|
        ensures SameTraces(moves[..n])
      {
        EndedEarlier(moves, n);
        QuietPlaySimulates(moves[..n]);
      }
    }
  }

  /** A list that only grows keeps every listener, so that none is ever destroyed over it. */
  lemma {:induction false} GrowingListKeepsAll(actions: seq<Action>, l: nat)
    requires forall i :: 0 <= i < |actions| ==> !actions[i].Erase?
    requires l < |Run(actions).listeners|
    ensures l in Run(actions).registered
  {
    if actions != [] {
      var init, last := actions[..|actions| - 1], actions[|actions| - 1];
      OthersKeepTheList(Run(init), last);
      if l < |Run(init).listeners| {
        GrowingListKeepsAll(init, l);
      }
    }
  }

  /** Only subscribing and erasing change the list, and nothing makes a listener active again. */
  lemma OthersKeepTheList(s: State, a: Action)
    ensures !a.Subscribe? && !a.Erase? ==>
              && Step(s, a).registered == s.registered && |Step(s, a).listeners| == |s.listeners|
              && forall l: nat :: IsActive(Step(s, a).listeners, l) ==> IsActive(s.listeners, l)
  {
  }

  // --------------------------------------------------------------------
  // What a caller can check.
  // --------------------------------------------------------------------

  /** The tokens of active listeners are owned by callbacks of active listeners only. */
  predicate Orderly(w: World) {
    forall t :: t in w.holder && IsActive(w.s.listeners, t) ==> IsActive(w.s.listeners, w.holder[t])
  }

  /** The callback of `l` owns no token of an active listener. */
  predicate Harmless(w: World, l: nat) {
    forall t :: t in w.holder && IsActive(w.s.listeners, t) ==> w.holder[t] != l
  }

  lemma {:induction false} HarmlessTokens(w: World, l: nat, n: nat)
    requires Harmless(w, l)
    ensures EndTokens(w, l, n) == w
  {
    if n > 0 {
      HarmlessTokens(w, l, n - 1);
    }
  }

  /** `w'` is `w`, perhaps with more listeners destroyed. */
  predicate SameButDestroyed(w: World, w': World) {
    w'.s == w.s && w'.holder == w.holder && w'.ended == w.ended
  }

  lemma HarmlessRelease(w: World, l: nat)
    requires Harmless(w, l)
    ensures SameButDestroyed(w, Release(w, l))
  {
    var w' := w.(destroyed := w.destroyed + {l});
    assert Harmless(w', l);
    HarmlessTokens(w', l, |w.s.listeners|);
  }

  lemma {:induction false} OrderlyPass(w: World, slots: seq<Option<nat>>, rest: seq<nat>, gone: set<nat>)
    requires Orderly(w)
    requires forall i :: 0 <= i < |slots| && slots[i].Some? ==> !IsActive(w.s.listeners, slots[i].value)
    ensures SameButDestroyed(w, ErasePass(w, slots, rest, gone).0)
    decreases |rest|, |slots|
  {
    if rest != [] && !IsActive(w.s.listeners, rest[0]) {
      OrderlyPass(w, slots + [Some(rest[0])], rest[1..], gone + {rest[0]});
    } else if slots == [] {
      if rest != [] {
        OrderlyPass(w, [], rest[1..], gone);
      }
    } else {
      var w' := if slots[0].Some? then Release(w, slots[0].value) else w;
      if slots[0].Some? {
        HarmlessRelease(w, slots[0].value);
      }
      assert forall i :: 0 <= i < |slots[1..]| ==> slots[1..][i] == slots[i + 1];
      if rest == [] {
        OrderlyPass(w', slots[1..], [], gone);
      } else {
        OrderlyPass(w', slots[1..] + [None], rest[1..], gone);
      }
    }
  }

  lemma {:induction false} HarmlessSweep(w: World, n: nat)
    requires forall l: nat :: l !in w.s.registered ==> Harmless(w, l)
    ensures SameButDestroyed(w, Sweep(w, n))
  {
    if n > 0 {
      HarmlessSweep(w, n - 1);
      if n - 1 !in w.s.registered {
        assert Harmless(w, n - 1);
        HarmlessRelease(Sweep(w, n - 1), n - 1);
      }
    }
  }

  lemma OrderlySweep(w: World, a: Action)
    requires Logged(w) && Orderly(w) && !a.Subscribe? && !a.Erase?
    ensures Sweep(Do(w, a), |w.s.listeners|).ended == w.ended
  {
    var w' := Do(w, a);
    OthersKeepTheList(w.s, a);
    ReachableInv(w.log);
    forall l: nat | l !in w'.s.registered
      ensures Harmless(w', l)
    {
      assert IsActive(w.s.listeners, l) ==> l in w.s.registered;
    }
    HarmlessSweep(w', |w.s.listeners|);
  }

  /** In an orderly world no move ends a subscription behind the program's back. */
  lemma OrderlyNext(w: World, m: Move)
    requires Logged(w) && Orderly(w)
    ensures Next(w, m).ended == w.ended
  {
    if m.Act? {
      if m.action.Subscribe? {
        OrderlyPass(w, [], w.s.registered, {});
      } else if !m.action.Erase? {
        OrderlySweep(w, m.action);
      }
    }
  }

  /** A program that gives the tokens of active listeners to callbacks of active listeners only, at
      every move, cannot observe erasing. */
  lemma {:induction false} OrderlyPlay(moves: seq<Move>)
    requires forall n :: 0 <= n < |moves| ==> Orderly(Play(moves[..n]))
    ensures Play(moves).ended == []
  {
    if moves != [] {
      var init := moves[..|moves| - 1];
      forall n | 0 <= n < |init|
        ensures Orderly(Play(init[..n]))
      {
        assert init[..n] == moves[..n];
      }
      OrderlyPlay(init);
      PlayLogged(init);
      assert Orderly(Play(moves[..|moves| - 1]));
      OrderlyNext(Play(init), moves[|moves| - 1]);
    }
  }

  // --------------------------------------------------------------------
  // A play in which erasing is observed.
  // --------------------------------------------------------------------

  /** Listener 1 takes over the token of listener 0 and unsubscribes. */
  function Handover(k: OperationKey): seq<Move> {
    [Act(Subscribe(k)), Act(Subscribe(k)), Give(0, 1), Act(Unsubscribe(1))]
  }

  /** Then a third listener subscribes, and a call is made. */
  function ErasedTooSoon(k: OperationKey): seq<Move> {
    Handover(k) + [Act(Subscribe(k)), Act(Invoke(k)), Act(CaptureResult)]
  }

  lemma PlayStep(moves: seq<Move>, m: Move)
    ensures Play(moves + [m]) == Next(Play(moves), m)
  {
    assert (moves + [m])[..|moves|] == moves;
  }

  lemma FirstTwo(k: OperationKey)
    ensures var w := Play([Act(Subscribe(k)), Act(Subscribe(k))]);
            && w.s == State([Listener(k, true), Listener(k, true)], [0, 1], 0, [],
                            [Event.Subscribed(0, k), Event.Subscribed(1, k)])
            && w.holder == map[] && w.destroyed == {} && w.ended == []
  {
    PlayStep([], Act(Subscribe(k)));
    PlayStep([Act(Subscribe(k))], Act(Subscribe(k)));
    assert [] + [Act(Subscribe(k))] == [Act(Subscribe(k))];
    assert [Act(Subscribe(k))] + [Act(Subscribe(k))] == [Act(Subscribe(k)), Act(Subscribe(k))];
    var w := Play([Act(Subscribe(k))]);
    assert ErasePass(START, [], [], {}) == (START, {});
    assert w.s == State([Listener(k, true)], [0], 0, [], [Event.Subscribed(0, k)]);
    assert ErasePass(w, [], [0], {}) == (w, {}) by {
      assert ErasePass(w, [], [0][1..], {}) == (w, {});
    }
    assert Without(w.s.listeners, {}, [0]) == [0];
  }

  lemma HandedOver(k: OperationKey)
    ensures var w := Play(Handover(k));
            && w.s == State([Listener(k, true), Listener(k, false)], [0, 1], 0, [],
                            [Event.Subscribed(0, k), Event.Subscribed(1, k), Unsubscribed(1)])
            && w.holder == map[0 := 1] && w.destroyed == {} && w.ended == []
  {
    var two := [Act(Subscribe(k)), Act(Subscribe(k))];
    FirstTwo(k);
    PlayStep(two, Give(0, 1));
    PlayStep(two + [Give(0, 1)], Act(Unsubscribe(1)));
    assert two + [Give(0, 1)] + [Act(Unsubscribe(1))] == Handover(k);
    var w := Do(Play(two + [Give(0, 1)]), Unsubscribe(1));
    assert Sweep(w, 0) == w && Sweep(w, 1) == w && Sweep(w, 2) == w;
  }

  /** The pass lets go of listener 1, and with it ends the subscription of listener 0. */
  lemma PassEnds(w: World, k: OperationKey)
    requires w.s.listeners == [Listener(k, true), Listener(k, false)] && w.s.stack == []
    requires w.holder == map[0 := 1] && w.destroyed == {}
    ensures ErasePass(w, [], [0, 1], {}) == (EndToken(w.(destroyed := {1}), 0), {1})
  {
    var dead := w.(destroyed := {1});
    assert EndTokens(dead, 1, 1) == EndToken(dead, 0) by {
      assert EndTokens(dead, 1, 0) == dead;
    }
    assert EndTokens(dead, 1, 2) == EndToken(dead, 0);
    assert w.destroyed + {1} == {1} && !InSnapshot(w.s.stack, 1);
    assert Release(w, 1) == EndToken(dead, 0);
    assert [0, 1][1..] == [1] && [1][1..] == [];
    assert [Some(1)][1..] == [];
    assert [] + [Some(1)] == [Some(1)] && {} + {1} == {1};
    assert ErasePass(Release(w, 1), [], [], {1}) == (Release(w, 1), {1});
    assert ErasePass(w, [Some(1)], [], {1}) == (Release(w, 1), {1});
    assert ErasePass(w, [], [1], {}) == (Release(w, 1), {1});
  }

  lemma EndedByThird(k: OperationKey)
    ensures var w := Play(Handover(k) + [Act(Subscribe(k))]);
            && w.s.listeners == [Listener(k, false), Listener(k, false), Listener(k, true)]
            && w.s.registered == [0, 2] && w.s.calls == 0 && w.s.stack == []
            && w.s.trace == [Event.Subscribed(0, k), Event.Subscribed(1, k), Unsubscribed(1), Unsubscribed(0),
                             Event.Subscribed(2, k)]
            && w.destroyed == {1} && w.ended == [0]
  {
    var w := Play(Handover(k));
    HandedOver(k);
    PlayStep(Handover(k), Act(Subscribe(k)));
    PassEnds(w, k);
    var w' := EndToken(w.(destroyed := {1}), 0);
    assert Without(w'.s.listeners, {1}, [0, 1]) == [0] by {
      assert [0, 1][1..] == [1] && Without(w'.s.listeners, {1}, [1]) == [];
    }
  }

  /** The first delivery of a call whose target has returned. */
  lemma FirstDelivery(s: State, k: OperationKey, snapshot: seq<nat>, n: nat)
    requires s.stack == [Body(0, k, snapshot)] && n < |snapshot| && NextMatch(s.listeners, k, snapshot, 0) == n
    ensures Step(s, CaptureResult).trace == s.trace + [Captured(0), Delivered(0, snapshot[n])]
  {
    var captured := Emit(Pop(s), Captured(0));
    assert AfterBody(s) == StopAt(captured, 0, k, snapshot, n);
  }

  /** Delivery reaches listener 2 only, over [0, 2]. */
  lemma DeliveredToThird(s: State, k: OperationKey)
    requires s.listeners == [Listener(k, false), Listener(k, false), Listener(k, true)]
    requires s.stack == [Body(0, k, [0, 2])]
    ensures Step(s, CaptureResult).trace == s.trace + [Captured(0), Delivered(0, 2)]
  {
    assert NextMatch(s.listeners, k, [0, 2], 1) == 1;
    FirstDelivery(s, k, [0, 2], 1);
  }

  lemma DeliveredToAll(s: State, k: OperationKey)
    requires s.listeners == [Listener(k, true), Listener(k, false), Listener(k, true)]
    requires s.stack == [Body(0, k, [0, 1, 2])]
    ensures Step(s, CaptureResult).trace == s.trace + [Captured(0), Delivered(0, 0)]
  {
    FirstDelivery(s, k, [0, 1, 2], 0);
  }

  /** Over a list that only grows, delivery starts with listener 0. */
  lemma DeliveredToFirst(k: OperationKey)
    ensures Delivered(0, 0) in Run(Actions(ErasedTooSoon(k))).trace
  {
    var actions := [Subscribe(k), Subscribe(k), Unsubscribe(1), Subscribe(k), Invoke(k), CaptureResult];
    ActionsOfErased(k);
    RunOfSix(actions);
    var s2 := Step(Step(INITIAL_STATE, Subscribe(k)), Subscribe(k));
    assert s2.listeners == [Listener(k, true), Listener(k, true)] && s2.registered == [0, 1];
    var s := Step(Step(s2, Unsubscribe(1)), Subscribe(k));
    assert s.listeners == [Listener(k, true), Listener(k, false), Listener(k, true)];
    assert s.registered == [0, 1, 2];
    var called := Step(s, Invoke(k));
    DeliveredToAll(called, k);
    var t := called.trace + [Captured(0), Delivered(0, 0)];
    assert t[|t| - 1] == Delivered(0, 0);
  }

  lemma RunOfSix(a: seq<Action>)
    requires |a| == 6
    ensures Run(a) == Step(Step(Step(Step(Step(Step(INITIAL_STATE, a[0]), a[1]), a[2]), a[3]), a[4]), a[5])
  {
    assert a[..5][..4] == a[..4] && a[..4][..3] == a[..3] && a[..3][..2] == a[..2] && a[..2][..1] == a[..1];
    assert a[..1][..0] == [];
    assert Run(a[..1]) == Step(INITIAL_STATE, a[0]);
    assert Run(a[..2]) == Step(Run(a[..1]), a[1]);
    assert Run(a[..3]) == Step(Run(a[..2]), a[2]);
    assert Run(a[..4]) == Step(Run(a[..3]), a[3]);
    assert Run(a[..5]) == Step(Run(a[..4]), a[4]);
  }

  lemma ActionsStep(moves: seq<Move>, m: Move)
    ensures Actions(moves + [m]) == if m.Act? && !m.action.Erase? then Actions(moves) + [m.action] else Actions(moves)
  {
    assert (moves + [m])[..|moves|] == moves;
  }

  lemma ActionsOfHandover(k: OperationKey)
    ensures Actions(Handover(k)) == [Subscribe(k), Subscribe(k), Unsubscribe(1)]
  {
    var one, two := [Act(Subscribe(k))], [Act(Subscribe(k)), Act(Subscribe(k))];
    ActionsStep([], Act(Subscribe(k)));
    assert [] + one == one;
    ActionsStep(one, Act(Subscribe(k)));
    assert one + one == two;
    ActionsStep(two, Give(0, 1));
    ActionsStep(two + [Give(0, 1)], Act(Unsubscribe(1)));
    assert two + [Give(0, 1)] + [Act(Unsubscribe(1))] == Handover(k);
  }

  lemma ActionsOfErased(k: OperationKey)
    ensures Actions(ErasedTooSoon(k))
            == [Subscribe(k), Subscribe(k), Unsubscribe(1), Subscribe(k), Invoke(k), CaptureResult]
  {
    var five := Handover(k) + [Act(Subscribe(k))];
    ActionsOfHandover(k);
    ActionsStep(Handover(k), Act(Subscribe(k)));
    assert Actions(five) == [Subscribe(k), Subscribe(k), Unsubscribe(1), Subscribe(k)];
    ActionsStep(five, Act(Invoke(k)));
    assert Actions(five + [Act(Invoke(k))]) == [Subscribe(k), Subscribe(k), Unsubscribe(1), Subscribe(k), Invoke(k)];
    ActionsStep(five + [Act(Invoke(k))], Act(CaptureResult));
    assert five + [Act(Invoke(k))] + [Act(CaptureResult)] == ErasedTooSoon(k);
  }

  lemma SweepsNobody(w: World)
    requires w.s.registered == [0, 2] && w.destroyed == {1}
    ensures Sweep(w, 3) == w
  {
    assert 0 in w.s.registered && 2 in w.s.registered;
    assert Sweep(w, 0) == w && Sweep(w, 1) == w && Sweep(w, 2) == w;
  }

  lemma LastTwo(w: World, k: OperationKey)
    requires w.s.listeners == [Listener(k, false), Listener(k, false), Listener(k, true)]
    requires w.s.registered == [0, 2] && w.s.calls == 0 && w.s.stack == [] && w.destroyed == {1}
    ensures var w' := Next(Next(w, Act(Invoke(k))), Act(CaptureResult));
            && w'.s.trace == w.s.trace + [Prepared(0, k, 3), Captured(0), Delivered(0, 2)]
            && w'.ended == w.ended
  {
    var w' := Do(w, Invoke(k));
    SweepsNobody(w');
    assert Next(w, Act(Invoke(k))) == w';
    var w'' := Do(w', CaptureResult);
    OthersKeepTheList(w'.s, CaptureResult);
    SweepsNobody(w'');
    assert Next(w', Act(CaptureResult)) == w'';
    DeliveredToThird(w'.s, k);
  }

  /** Listener 0 has unsubscribed nowhere, and yet the call is not delivered to it, because the list has
      let go of the listener that owned its token. Over a list that only grows it is. */
  lemma ErasingIsObserved(k: OperationKey)
    ensures Play(ErasedTooSoon(k)).ended == [0] && Unsubscribe(0) !in Actions(ErasedTooSoon(k))
    ensures Delivered(0, 0) !in Play(ErasedTooSoon(k)).s.trace
    ensures Delivered(0, 0) in Run(Actions(ErasedTooSoon(k))).trace
  {
    var five := Handover(k) + [Act(Subscribe(k))];
    EndedByThird(k);
    DeliveredToFirst(k);
    ActionsOfErased(k);
    PlayStep(five, Act(Invoke(k)));
    PlayStep(five + [Act(Invoke(k))], Act(CaptureResult));
    assert five + [Act(Invoke(k))] + [Act(CaptureResult)] == ErasedTooSoon(k);
    LastTwo(Play(five), k);
  }
}
