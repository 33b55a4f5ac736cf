/** What every run of observed calls guarantees. */
module ObservationTheorems {
  import opened Wrappers
  import opened Types
  import opened ObservationPolicy

  lemma {:induction false} PendingElement(listeners: seq<Listener>, key: Option<OperationKey>, ids: seq<nat>, l: nat)
    ensures l in Pending(listeners, key, ids) <==> l in ids && Wanted(listeners, key, l)
  {
    if ids != [] {
      PendingElement(listeners, key, ids[1..], l);
      assert ids == [ids[0]] + ids[1..];
    }
  }

  lemma {:induction false} WithoutElement(listeners: seq<Listener>, gone: set<nat>, ids: seq<nat>, l: nat)
    ensures l in Without(listeners, gone, ids) <==> l in ids && (l in gone ==> IsActive(listeners, l))
  {
    if ids != [] {
      WithoutElement(listeners, gone, ids[1..], l);
      assert ids == [ids[0]] + ids[1..];
    }
  }

  lemma {:induction false} WithoutIncreasing(listeners: seq<Listener>, gone: set<nat>, ids: seq<nat>)
    requires Increasing(ids)
    ensures Increasing(Without(listeners, gone, ids))
  {
    if ids != [] {
      var tail := ids[1..];
      var rest := Without(listeners, gone, tail);
      assert forall i :: 0 <= i < |tail| ==> tail[i] == ids[i + 1];
      WithoutIncreasing(listeners, gone, tail);
      forall i | 0 <= i < |rest|
        ensures ids[0] < rest[i]
      {
        WithoutElement(listeners, gone, tail, rest[i]);
      }
      IncreasingWith(ids[0], rest);
      assert [] + rest == rest;
    }
  }

  lemma IncreasingWith(first: nat, rest: seq<nat>)
    requires Increasing(rest) && forall i :: 0 <= i < |rest| ==> first < rest[i]
    ensures Increasing([first] + rest)
  {
  }

  /** What stays in the list still covers everyone active. */
  lemma WithoutCovers(s: State, gone: set<nat>, ids: seq<nat>)
    requires Covers(s, ids, |s.listeners|)
    ensures Covers(s, Without(s.listeners, gone, ids), |s.listeners|)
  {
    var kept := Without(s.listeners, gone, ids);
    WithoutIncreasing(s.listeners, gone, ids);
    forall i | 0 <= i < |kept|
      ensures kept[i] < |s.listeners|
    {
      WithoutElement(s.listeners, gone, ids, kept[i]);
    }
    forall l: nat | l < |s.listeners| && s.listeners[l].active
      ensures l in kept
    {
      WithoutElement(s.listeners, gone, ids, l);
    }
  }

  // --------------------------------------------------------------------
  // The invariant is kept, action by action.
  // --------------------------------------------------------------------

  /** Only listeners that exist have unsubscribed. */
  lemma UnsubscribedExists(s: State, l: nat)
    requires ListenersRecorded(s) && Lawful(s.trace) && Unsubscribed(l) in s.trace
    ensures l < |s.listeners|
  {
    var j :| 0 <= j < |s.trace| && s.trace[j] == Unsubscribed(l);
    assert AllowedAt(s.trace, j);
    var k :| Subscribed(l, k) in s.trace[..j];
    assert Subscribed(l, k) in s.trace;
  }

  lemma NewListenerRecorded(s: State, s': State, key: OperationKey)
    requires Recorded(s) && Unsubscribed(|s.listeners|) !in s.trace
    requires s'.listeners == s.listeners + [Listener(key, true)] && s'.registered == s.registered + [|s.listeners|]
    requires s'.calls == s.calls && s'.trace == s.trace + [Event.Subscribed(|s.listeners|, key)]
    ensures Recorded(s')
  {
    assert |s.listeners| in s'.registered;
    assert forall l: nat :: l in s.registered ==> l in s'.registered;
  }

  /** A step that leaves the stack alone and adds an event leaves every call accounted for. */
  lemma AccountedKept(s: State, s': State, e: Event, call: nat)
    requires Accounted(s, call) && s'.stack == s.stack && s'.calls == s.calls && s'.trace == s.trace + [e]
    ensures Accounted(s', call)
  {
  }

  lemma EraseKeeps(s: State, gone: set<nat>)
    requires Inv(s)
    ensures Inv(Step(s, Erase(gone)))
  {
    var s' := Step(s, Erase(gone));
    WithoutCovers(s, gone, s.registered);
    assert Recorded(s');
    forall i | 0 <= i < |s.stack|
      ensures FrameOk(s', s.stack[i])
    {
      SameRecord(s, s', s.stack[i]);
    }
  }

  lemma SubscribeKeeps(s: State, key: OperationKey)
    requires Inv(s)
    ensures Inv(Step(s, Subscribe(key)))
  {
    var s' := Step(s, Subscribe(key));
    var e := Event.Subscribed(|s.listeners|, key);
    if Unsubscribed(|s.listeners|) in s.trace {
      UnsubscribedExists(s, |s.listeners|);
    }
    NewListenerRecorded(s, s', key);
    FramesKept(s, s', e, s.stack);
    LawfulExtends(s.trace, e);
    AccountedKept(s, s', e, s.calls);
  }

  lemma DeadListenerRecorded(s: State, s': State, l: nat)
    requires Recorded(s) && l < |s.listeners|
    requires s' == Emit(s.(listeners := s.listeners[l := s.listeners[l].(active := false)]), Unsubscribed(l))
    ensures Recorded(s')
  {
  }

  lemma UnsubscribeKeeps(s: State, l: nat)
    requires Inv(s)
    ensures Inv(Step(s, Unsubscribe(l)))
  {
    if l < |s.listeners| {
      var s' := Step(s, Unsubscribe(l));
      DeadListenerRecorded(s, s', l);
      FramesKept(s, s', Unsubscribed(l), s.stack);
      assert Subscribed(l, s.listeners[l].key) in s.trace;
      LawfulExtends(s.trace, Unsubscribed(l));
      AccountedKept(s, s', Unsubscribed(l), s.calls);
    }
  }

  lemma NewCallRecorded(s: State, s': State, key: OperationKey)
    requires Recorded(s)
    requires s'.listeners == s.listeners && s'.registered == s.registered && s'.calls == s.calls + 1
    requires s'.trace == s.trace + [Prepared(s.calls, key, |s.listeners|)]
    ensures Recorded(s')
  {
  }

  lemma NewCallAllowed(s: State, key: OperationKey)
    requires Recorded(s)
    ensures Allowed(s.trace, Prepared(s.calls, key, |s.listeners|))
  {
    forall l: nat | l < |s.listeners|
      ensures HasSubscribed(s.trace, l)
    {
      assert Subscribed(l, s.listeners[l].key) in s.trace;
    }
  }

  lemma NewBodyOk(s: State, key: OperationKey)
    requires Recorded(s)
    ensures var s' := Step(s, Invoke(key)); FrameOk(s', Body(s.calls, key, s.registered))
  {
    var s' := Step(s, Invoke(key));
    assert Prepared(s.calls, key, |s.listeners|) in s'.trace;
    assert Covers(s', s.registered, |s.listeners|);
  }

  lemma NewCallAccounted(s: State, key: OperationKey)
    requires Accounted(s, s.calls)
    ensures var s' := Step(s, Invoke(key)); Accounted(s', s'.calls)
  {
    var s' := Step(s, Invoke(key));
    assert s'.stack[|s.stack|].call == s.calls;
    forall d | 0 <= d < s.calls && OnStack(s.stack, d)
      ensures OnStack(s'.stack, d)
    {
      var i :| 0 <= i < |s.stack| && s.stack[i].call == d;
      assert s'.stack[i].call == d;
    }
  }

  lemma InvokeKeeps(s: State, key: OperationKey)
    requires Inv(s)
    ensures Inv(Step(s, Invoke(key)))
  {
    var s' := Step(s, Invoke(key));
    var e := Prepared(s.calls, key, |s.listeners|);
    NewCallRecorded(s, s', key);
    FramesKept(s, s', e, s.stack);
    NewBodyOk(s, key);
    PushedFramesOk(s', s.stack, Body(s.calls, key, s.registered), s.calls);
    NewCallAllowed(s, key);
    LawfulExtends(s.trace, e);
    NewCallAccounted(s, key);
  }

  lemma PushedFramesOk(s: State, frames: seq<Frame>, f: Frame, call: nat)
    requires FramesOk(s, frames) && FrameOk(s, f) && f.call == call
    requires forall i :: 0 <= i < |frames| ==> frames[i].call < call
    ensures FramesOk(s, frames + [f])
  {
  }

  /** Without its last frame the stack is as good as before, and only the call left is open. */
  lemma PopKeeps(s: State)
    requires Inv(s) && s.stack != []
    ensures Core(Pop(s)) && FrameOk(s, s.stack[|s.stack| - 1])
    ensures Accounted(Pop(s), s.stack[|s.stack| - 1].call)
    ensures forall i :: 0 <= i < |Pop(s).stack| ==> Pop(s).stack[i].call < s.stack[|s.stack| - 1].call
  {
    forall i | 0 <= i < |Pop(s).stack|
      ensures FrameOk(Pop(s), Pop(s).stack[i])
    {
      assert FrameOk(s, s.stack[i]);
      SameRecord(s, Pop(s), s.stack[i]);
    }
    PoppedAccounted(s);
  }

  lemma PoppedAccounted(s: State)
    requires Accounted(s, s.calls) && s.stack != []
    ensures Accounted(Pop(s), s.stack[|s.stack| - 1].call)
  {
    forall d | 0 <= d < s.calls && d != s.stack[|s.stack| - 1].call && OnStack(s.stack, d)
      ensures OnStack(Pop(s).stack, d)
    {
      var i :| 0 <= i < |s.stack| && s.stack[i].call == d;
      assert Pop(s).stack[i].call == d;
    }
  }

  /** Calls above all those on the stack have ended. */
  lemma AccountedIsSettled(s: State, call: nat)
    requires Recorded(s) && Accounted(s, call) && forall i :: 0 <= i < |s.stack| ==> s.stack[i].call < call
    ensures Settled(s.trace, call)
  {
  }

  lemma SameRecord(s: State, s': State, f: Frame)
    requires FrameOk(s, f) && s'.listeners == s.listeners && s'.calls == s.calls && s'.trace == s.trace
    ensures FrameOk(s', f)
  {
    var n: nat :| Prepared(f.call, f.key, n) in s.trace && Covers(s, f.snapshot, n);
    assert Covers(s', f.snapshot, n);
  }

  /** An allowed event of a call above the stack keeps the invariant. */
  lemma CallEventKeeps(s: State, e: Event, call: nat)
    requires Core(s) && call < s.calls && About(e, call) && Allowed(s.trace, e) && Accounted(s, call)
    requires forall i :: 0 <= i < |s.stack| ==> s.stack[i].call < call
    ensures Core(Emit(s, e)) && Accounted(Emit(s, e), call)
  {
    CallEventKeepsRecords(s, Emit(s, e), e, call);
    FramesKept(s, Emit(s, e), e, s.stack);
    LawfulExtends(s.trace, e);
    AccountedKept(s, Emit(s, e), e, call);
  }

  /** The event that ends a call closes the account. */
  lemma EndKeeps(s: State, e: Event, call: nat)
    requires Core(s) && call < s.calls && Allowed(s.trace, e) && Accounted(s, call)
    requires e == Failed(call) || e == Completed(call)
    requires forall i :: 0 <= i < |s.stack| ==> s.stack[i].call < call
    ensures Inv(Emit(s, e))
  {
    CallEventKeeps(s, e, call);
    assert Ended(Emit(s, e).trace, call);
  }

  lemma FailAllowed(s: State, f: Frame)
    requires FrameOk(s, f) && f.Body? && Settled(s.trace, f.call)
    ensures Allowed(s.trace, Failed(f.call))
  {
  }

  lemma FailKeeps(s: State)
    requires Inv(s)
    ensures Inv(Step(s, FailCall))
  {
    if InBody(s) {
      var f := s.stack[|s.stack| - 1];
      PopKeeps(s);
      AccountedIsSettled(Pop(s), f.call);
      FailAllowed(s, f);
      EndKeeps(Pop(s), Failed(f.call), f.call);
    }
  }

  lemma SnapshotKept(s: State, e: Event, call: nat, key: OperationKey, snapshot: seq<nat>)
    requires SnapshotOk(s, call, key, snapshot)
    ensures SnapshotOk(Emit(s, e), call, key, snapshot)
  {
    var n: nat :| Prepared(call, key, n) in s.trace && Covers(s, snapshot, n);
    assert Prepared(call, key, n) in Emit(s, e).trace && Covers(Emit(s, e), snapshot, n);
  }

  /** Between two callbacks of a call, with the loop at `from`. */
  ghost predicate Delivering(s: State, call: nat, key: OperationKey, snapshot: seq<nat>, from: nat) {
    && Core(s) && Accounted(s, call) && SnapshotOk(s, call, key, snapshot) && DeliveredUpTo(s, call, key, snapshot, from)
    && forall i :: 0 <= i < |s.stack| ==> s.stack[i].call < call
  }

  lemma DeliveryStarts(s: State, f: Frame)
    requires FrameOk(s, f) && f.Body? && Settled(s.trace, f.call)
    ensures DeliveredUpTo(Emit(s, Captured(f.call)), f.call, f.key, f.snapshot, 0)
    ensures Allowed(s.trace, Captured(f.call))
  {
  }

  /** Once the result is captured, delivery starts at the head of the snapshot. */
  lemma CaptureKeeps(s: State)
    requires Inv(s) && InBody(s)
    ensures
      var f := s.stack[|s.stack| - 1];
      Delivering(Emit(Pop(s), Captured(f.call)), f.call, f.key, f.snapshot, 0)
  {
    var f := s.stack[|s.stack| - 1];
    PopKeeps(s);
    SameRecord(s, Pop(s), f);
    AccountedIsSettled(Pop(s), f.call);
    DeliveryStarts(Pop(s), f);
    CallEventKeeps(Pop(s), Captured(f.call), f.call);
    SnapshotKept(Pop(s), Captured(f.call), f.call, f.key, f.snapshot);
  }

  lemma FinishGoesOn(s: State)
    requires Inv(s) && InCallback(s)
    ensures var f := s.stack[|s.stack| - 1]; Delivering(Pop(s), f.call, f.key, f.snapshot, f.at + 1)
  {
    PopKeeps(s);
    SameRecord(s, Pop(s), s.stack[|s.stack| - 1]);
  }

  lemma SinkAllowed(s: State, f: Frame)
    requires FrameOk(s, f) && f.Callback? && Settled(s.trace, f.call)
    ensures f.at < |f.snapshot| && Allowed(s.trace, Sunk(f.call, f.snapshot[f.at]))
    ensures DeliveredUpTo(Emit(s, Sunk(f.call, f.snapshot[f.at])), f.call, f.key, f.snapshot, f.at + 1)
  {
  }

  /** A listener's exception only reaches the sink. */
  lemma SinkGoesOn(s: State)
    requires Inv(s) && InCallback(s)
    ensures var f := s.stack[|s.stack| - 1];
            Delivering(Emit(Pop(s), Sunk(f.call, f.snapshot[f.at])), f.call, f.key, f.snapshot, f.at + 1)
  {
    var f := s.stack[|s.stack| - 1];
    var e := Sunk(f.call, f.snapshot[f.at]);
    PopKeeps(s);
    SameRecord(s, Pop(s), f);
    AccountedIsSettled(Pop(s), f.call);
    SinkAllowed(Pop(s), f);
    CallEventKeeps(Pop(s), e, f.call);
    SnapshotKept(Pop(s), e, f.call, f.key, f.snapshot);
  }

  /** The loop's next delivery, or its end, is what the contract allows. */
  lemma AdvanceKeeps(s: State, call: nat, key: OperationKey, snapshot: seq<nat>, from: nat)
    requires Delivering(s, call, key, snapshot, from)
    ensures Inv(Advance(s, call, key, snapshot, from))
  {
    var at := NextMatch(s.listeners, key, snapshot, from);
    NextMatchIsNext(s.listeners, key, snapshot, from);
    assert DeliveredUpTo(s, call, key, snapshot, at);
    AccountedIsSettled(s, call);
    assert Advance(s, call, key, snapshot, from) == StopAt(s, call, key, snapshot, at);
    if at < |snapshot| {
      DeliverKeeps(s, call, key, snapshot, at);
    } else {
      EndAllowed(s, call, key, snapshot);
      EndKeeps(s, Completed(call), call);
    }
  }

  lemma EndAllowed(s: State, call: nat, key: OperationKey, snapshot: seq<nat>)
    requires Recorded(s) && SnapshotOk(s, call, key, snapshot) && DeliveredUpTo(s, call, key, snapshot, |snapshot|)
    requires Settled(s.trace, call)
    ensures Allowed(s.trace, Completed(call))
  {
    var n: nat :| Prepared(call, key, n) in s.trace && Covers(s, snapshot, n);
    forall k, m: nat, l: nat | && Prepared(call, k, m) in s.trace && l < m && Subscribed(l, k) in s.trace
                               && Unsubscribed(l) !in s.trace
      ensures Delivered(call, l) in s.trace
    {
      assert k == key && m == n;
      assert l in snapshot;
      var j :| 0 <= j < |snapshot| && snapshot[j] == l;
      assert Wanted(s.listeners, Some(key), snapshot[j]);
    }
  }

  lemma DeliveryAllowed(s: State, call: nat, key: OperationKey, snapshot: seq<nat>, at: nat)
    requires Recorded(s) && SnapshotOk(s, call, key, snapshot) && DeliveredUpTo(s, call, key, snapshot, at)
    requires at < |snapshot| && Wanted(s.listeners, Some(key), snapshot[at]) && Settled(s.trace, call)
    ensures Allowed(s.trace, Delivered(call, snapshot[at]))
  {
    var n: nat :| Prepared(call, key, n) in s.trace && Covers(s, snapshot, n);
    assert Subscribed(snapshot[at], key) in s.trace;
  }

  lemma NewCallbackOk(s: State, s': State, call: nat, key: OperationKey, snapshot: seq<nat>, at: nat)
    requires Recorded(s) && SnapshotOk(s, call, key, snapshot) && DeliveredUpTo(s, call, key, snapshot, at)
    requires at < |snapshot|
    requires s'.listeners == s.listeners && s'.calls == s.calls && s'.trace == s.trace + [Delivered(call, snapshot[at])]
    ensures FrameOk(s', Callback(call, key, snapshot, at))
  {
    var n: nat :| Prepared(call, key, n) in s.trace && Covers(s, snapshot, n);
    assert Prepared(call, key, n) in s'.trace && Covers(s', snapshot, n);
    assert Delivered(call, snapshot[at]) !in s.trace;
    forall l: nat, j | Delivered(call, l) in s'.trace && at + 1 <= j < |snapshot|
      ensures l < snapshot[j]
    {
      assert snapshot[at] < snapshot[j];
    }
  }

  lemma PushAccounted(s: State, f: Frame)
    requires Accounted(s, f.call)
    ensures var s' := s.(stack := s.stack + [f]); Accounted(s', s.calls)
  {
    var frames := s.stack + [f];
    assert frames[|s.stack|].call == f.call;
    forall d | 0 <= d < s.calls && OnStack(s.stack, d)
      ensures OnStack(frames, d)
    {
      var i :| 0 <= i < |s.stack| && s.stack[i].call == d;
      assert frames[i].call == d;
    }
  }

  lemma DeliverKeeps(s: State, call: nat, key: OperationKey, snapshot: seq<nat>, at: nat)
    requires Delivering(s, call, key, snapshot, at) && Settled(s.trace, call)
    requires at < |snapshot| && Wanted(s.listeners, Some(key), snapshot[at])
    ensures Inv(Emit(s.(stack := s.stack + [Callback(call, key, snapshot, at)]), Delivered(call, snapshot[at])))
  {
    var e := Delivered(call, snapshot[at]);
    var f := Callback(call, key, snapshot, at);
    var s' := Emit(s.(stack := s.stack + [f]), e);
    DeliveryAllowed(s, call, key, snapshot, at);
    CallEventKeepsRecords(s, s', e, call);
    FramesKept(s, s', e, s.stack);
    NewCallbackOk(s, s', call, key, snapshot, at);
    PushedFramesOk(s', s.stack, f, call);
    LawfulExtends(s.trace, e);
    PushAccounted(s, f);
    AccountedKept(s.(stack := s.stack + [f]), s', e, s.calls);
  }

  lemma LeftGoesOn(s: State, throws: bool)
    requires Inv(s) && InCallback(s)
    ensures var f := s.stack[|s.stack| - 1];
            Delivering(LeftCallback(s, throws), f.call, f.key, f.snapshot, f.at + 1)
  {
    if throws {
      SinkGoesOn(s);
    } else {
      FinishGoesOn(s);
    }
  }

  lemma CallbackEndKeeps(s: State, throws: bool)
    requires Inv(s) && InCallback(s)
    ensures Inv(AfterCallback(s, throws))
  {
    LeftGoesOn(s, throws);
    ResumeKeeps(LeftCallback(s, throws), s.stack[|s.stack| - 1]);
  }

  lemma ResumeKeeps(s: State, f: Frame)
    requires f.Callback? && f.at < |f.snapshot| && Delivering(s, f.call, f.key, f.snapshot, f.at + 1)
    ensures Inv(Resume(s, f))
  {
    assert Resume(s, f) == Advance(s, f.call, f.key, f.snapshot, f.at + 1);
    AdvanceKeeps(s, f.call, f.key, f.snapshot, f.at + 1);
  }

  lemma BodyEndKeeps(s: State)
    requires Inv(s) && InBody(s)
    ensures Inv(AfterBody(s))
  {
    var f := s.stack[|s.stack| - 1];
    CaptureKeeps(s);
    AdvanceKeeps(Emit(Pop(s), Captured(f.call)), f.call, f.key, f.snapshot, 0);
  }

  lemma LeaveKeeps(s: State, a: Action)
    requires Inv(s) && (a.CaptureResult? || a.FinishCallback? || a.ThrowInCallback?)
    ensures Inv(Step(s, a))
  {
    if a.CaptureResult? && InBody(s) {
      assert Step(s, a) == AfterBody(s);
      BodyEndKeeps(s);
    } else if !a.CaptureResult? && InCallback(s) {
      assert Step(s, a) == AfterCallback(s, a.ThrowInCallback?);
      CallbackEndKeeps(s, a.ThrowInCallback?);
    } else {
      assert Step(s, a) == s;
    }
  }

  lemma StepKeeps(s: State, a: Action)
    requires Inv(s)
    ensures Inv(Step(s, a))
  {
    match a
    case Erase(gone) => EraseKeeps(s, gone);
    case Subscribe(key) => SubscribeKeeps(s, key);
    case Unsubscribe(l) => UnsubscribeKeeps(s, l);
    case Invoke(key) => InvokeKeeps(s, key);
    case FailCall => FailKeeps(s);
    case _ => LeaveKeeps(s, a);
  }

  lemma {:induction false} ReachableInv(actions: seq<Action>)
    ensures Inv(Run(actions))
  {
    if actions != [] {
      ReachableInv(actions[..|actions| - 1]);
      StepKeeps(Run(actions[..|actions| - 1]), actions[|actions| - 1]);
    }
  }

  /** Every run obeys the delivery contract, whatever its callbacks do. */
  lemma EveryRunIsLawful(actions: seq<Action>)
    ensures Lawful(Run(actions).trace)
  {
    ReachableInv(actions);
  }

  // --------------------------------------------------------------------
  // What the contract says of one listener and one call.
  // --------------------------------------------------------------------

  lemma LawfulAt(t: seq<Event>, j: nat)
    requires Lawful(t) && j < |t|
    ensures Allowed(t[..j], t[j])
    ensures forall u :: 0 <= u < j ==> t[u] in t[..j]
  {
    assert AllowedAt(t, j);
  }

  lemma SubscribedOnce(t: seq<Event>, i: nat, j: nat)
    requires Lawful(t) && i < |t| && j < |t|
    requires t[i].Subscribed? && t[j].Subscribed? && t[i].listener == t[j].listener
    ensures i == j
  {
    LawfulAt(t, i);
    LawfulAt(t, j);
  }

  lemma PreparedOnce(t: seq<Event>, i: nat, j: nat)
    requires Lawful(t) && i < |t| && j < |t| && t[i].Prepared? && t[j].Prepared? && t[i].call == t[j].call
    ensures i == j
  {
    LawfulAt(t, i);
    LawfulAt(t, j);
  }

  /** A delivery reaches only a listener of the call's key that subscribed before the call was
      prepared, and that has not unsubscribed. */
  lemma DeliveryIsEntitled(t: seq<Event>, j: nat, call: nat, listener: nat) returns (i: nat, p: nat)
    requires Lawful(t) && j < |t| && t[j] == Delivered(call, listener)
    ensures i < p < j && t[p].Prepared? && t[p].call == call && t[i] == Event.Subscribed(listener, t[p].key)
    ensures Unsubscribed(listener) !in t[..j]
  {
    LawfulAt(t, j);
    var k, n: nat :| Prepared(call, k, n) in t[..j] && listener < n && Subscribed(listener, k) in t[..j];
    p :| 0 <= p < j && t[p] == Prepared(call, k, n);
    i :| 0 <= i < j && t[i] == Event.Subscribed(listener, k);
    LawfulAt(t, p);
    assert HasSubscribed(t[..p], listener);
    var k' :| Subscribed(listener, k') in t[..p];
    var i' :| 0 <= i' < p && t[i'] == Event.Subscribed(listener, k');
    SubscribedOnce(t, i, i');
  }

  /** The deliveries of one call come in subscription order, none of them twice. */
  lemma DeliveriesInOrder(t: seq<Event>, d: nat, j: nat)
    requires Lawful(t) && d < j < |t| && t[d].Delivered? && t[j].Delivered? && t[d].call == t[j].call
    ensures t[d].listener < t[j].listener
  {
    LawfulAt(t, j);
  }

  /** A call that fails delivers nothing. */
  lemma FailedCallDeliversNothing(t: seq<Event>, f: nat, j: nat)
    requires Lawful(t) && f < |t| && j < |t| && t[f].Failed? && t[j].Delivered?
    ensures t[f].call != t[j].call
  {
    LawfulAt(t, j);
    var c :| 0 <= c < j && t[c] == Captured(t[j].call);
    FailedIsNotCaptured(t, f, c);
  }

  lemma FailedIsNotCaptured(t: seq<Event>, f: nat, c: nat)
    requires Lawful(t) && f < |t| && c < |t| && t[f].Failed? && t[c].Captured?
    ensures t[f].call != t[c].call
  {
    LawfulAt(t, f);
    LawfulAt(t, c);
  }

  /** Everyone entitled is served: when a call completes, each listener of its key that subscribed
      before the call was prepared and is still subscribed has had its delivery. */
  lemma NobodyIsForgotten(t: seq<Event>, i: nat, p: nat, j: nat, listener: nat)
    requires Lawful(t) && i < p < j < |t|
    requires t[p].Prepared? && t[i] == Event.Subscribed(listener, t[p].key) && t[j] == Completed(t[p].call)
    requires Unsubscribed(listener) !in t[..j]
    ensures exists d :: p < d < j && t[d] == Delivered(t[p].call, listener)
  {
    LawfulAt(t, p);
    LawfulAt(t, j);
    assert Prepared(t[p].call, t[p].key, t[p].issued) in t[..j];
    assert Delivered(t[p].call, listener) in t[..j];
    var d :| 0 <= d < j && t[d] == Delivered(t[p].call, listener);
    var i', p' := DeliveryIsEntitled(t, d, t[p].call, listener);
    PreparedOnce(t, p, p');
  }

  // --------------------------------------------------------------------
  // What each action does.
  // --------------------------------------------------------------------

  /** The next thing a call does after its capture or after a callback: it calls a listener, or completes. */
  predicate GoesOn(s: State, call: nat) {
    s.trace != [] && var e := s.trace[|s.trace| - 1];
                     e == Completed(call) || (e.Delivered? && e.call == call && InCallback(s))
  }

  lemma AdvanceGoesOn(s: State, call: nat, key: OperationKey, snapshot: seq<nat>, from: nat)
    requires from <= |snapshot|
    ensures var s' := Advance(s, call, key, snapshot, from);
            |s'.trace| == |s.trace| + 1 && s.trace < s'.trace && GoesOn(s', call)
  {
  }

  /** Subscribing makes an active listener at the end of the list, unsubscribing ends one, and a call is
      prepared with the list as it is. */
  lemma OutsideLaws(s: State, a: Action)
    ensures
      var s' := Step(s, a);
      match a
      case Erase(_) => s' == s.(registered := s'.registered)
      case Subscribe(key) =>
        && s'.trace == s.trace + [Event.Subscribed(|s.listeners|, key)]
        && s'.listeners == s.listeners + [Listener(key, true)] && s'.registered == s.registered + [|s.listeners|]
        && s'.stack == s.stack && s'.calls == s.calls
      case Unsubscribe(l) =>
        if l < |s.listeners| then
          && s'.trace == s.trace + [Unsubscribed(l)] && !IsActive(s'.listeners, l)
          && |s'.listeners| == |s.listeners|
          && (forall m :: 0 <= m < |s.listeners| && m != l ==> s'.listeners[m] == s.listeners[m])
          && s'.registered == s.registered && s'.stack == s.stack && s'.calls == s.calls
        else s' == s
      case Invoke(key) =>
        && s'.trace == s.trace + [Prepared(s.calls, key, |s.listeners|)] && s'.calls == s.calls + 1
        && s'.stack == s.stack + [Body(s.calls, key, s.registered)]
        && s'.listeners == s.listeners && s'.registered == s.registered
      case _ => true
  {
  }

  /** A call that fails is left without a delivery; one whose result is captured, and a listener that
      returns, go on with the delivery; and a listener that throws does so after the sink got its
      exception. */
  lemma InsideLaws(s: State, a: Action)
    ensures
      var s', n := Step(s, a), |s.trace|;
      match a
      case FailCall =>
        if InBody(s) then
          s' == Pop(s).(trace := s.trace + [Failed(s.stack[|s.stack| - 1].call)])
        else s' == s
      case CaptureResult =>
        if InBody(s) then
          var call := s.stack[|s.stack| - 1].call;
          |s'.trace| == n + 2 && s.trace < s'.trace && s'.trace[n] == Captured(call) && GoesOn(s', call)
        else s' == s
      case FinishCallback =>
        if InCallback(s) then
          |s'.trace| == n + 1 && s.trace < s'.trace && GoesOn(s', s.stack[|s.stack| - 1].call)
        else s' == s
      case ThrowInCallback =>
        if InCallback(s) then
          var f := s.stack[|s.stack| - 1];
          && |s'.trace| == n + 2 && s.trace < s'.trace
          && s'.trace[n] == Sunk(f.call, f.snapshot[f.at]) && GoesOn(s', f.call)
        else s' == s
      case _ => true
  {
    if s.stack != [] {
      var f := s.stack[|s.stack| - 1];
      if a.CaptureResult? && f.Body? {
        AdvanceGoesOn(Emit(Pop(s), Captured(f.call)), f.call, f.key, f.snapshot, 0);
      } else if (a.FinishCallback? || a.ThrowInCallback?) && InCallback(s) {
        AdvanceGoesOn(LeftCallback(s, a.ThrowInCallback?), f.call, f.key, f.snapshot, f.at + 1);
      }
    }
  }

  function SunkCount(t: seq<Event>): nat {
    if t == [] then 0 else SunkCount(t[..|t| - 1]) + (if t[|t| - 1].Sunk? then 1 else 0)
  }

  /** How many times a listener has thrown. */
  function ThrowCount(actions: seq<Action>): nat {
    if actions == [] then 0
    else
      var init, last := actions[..|actions| - 1], actions[|actions| - 1];
      ThrowCount(init) + (if last.ThrowInCallback? && InCallback(Run(init)) then 1 else 0)
  }

  lemma SunkCountEmit(t: seq<Event>, e: Event)
    ensures SunkCount(t + [e]) == SunkCount(t) + (if e.Sunk? then 1 else 0)
  {
    assert (t + [e])[..|t|] == t;
  }

  lemma AddedTwo(t: seq<Event>, t': seq<Event>)
    requires t < t' && |t'| == |t| + 2
    ensures t' == t + [t'[|t|]] + [t'[|t| + 1]]
  {
  }

  lemma AddedOne(t: seq<Event>, t': seq<Event>)
    requires t < t' && |t'| == |t| + 1
    ensures t' == t + [t'[|t|]]
  {
  }

  lemma StepSinks(s: State, a: Action)
    ensures SunkCount(Step(s, a).trace) == SunkCount(s.trace) + (if a.ThrowInCallback? && InCallback(s) then 1 else 0)
  {
    var t, t' := s.trace, Step(s, a).trace;
    OutsideLaws(s, a);
    InsideLaws(s, a);
    if |t'| == |t| + 2 {
      AddedTwo(t, t');
      SunkCountEmit(t, t'[|t|]);
      SunkCountEmit(t + [t'[|t|]], t'[|t| + 1]);
    } else if |t'| == |t| + 1 {
      AddedOne(t, t');
      SunkCountEmit(t, t'[|t|]);
    }
  }

  /** The error sink gets the exception of every listener that throws, once. */
  lemma {:induction false} EveryThrowIsSunk(actions: seq<Action>)
    ensures SunkCount(Run(actions).trace) == ThrowCount(actions)
  {
    if actions != [] {
      EveryThrowIsSunk(actions[..|actions| - 1]);
      StepSinks(Run(actions[..|actions| - 1]), actions[|actions| - 1]);
    }
  }

  /** After a subscription everyone on the list is active: those that were, and the new listener. */
  lemma AfterLeavesActive(s: State, key: OperationKey)
    ensures var s' := AfterStep(s, key);
            forall l: nat :: l in s'.registered <==> l == |s.listeners| || (l in s.registered && IsActive(s.listeners, l))
    ensures AfterStep(s, key).registered == Pending(s.listeners, None, s.registered) + [|s.listeners|]
  {
    WithoutAll(s.listeners, AllListed(s), s.registered);
    forall l: nat
      ensures l in Pending(s.listeners, None, s.registered) <==> l in s.registered && IsActive(s.listeners, l)
    {
      PendingElement(s.listeners, None, s.registered, l);
    }
  }

  // --------------------------------------------------------------------
  // Exceptions change no delivery.
  // --------------------------------------------------------------------

  function CalmAction(a: Action): Action {
    if a.ThrowInCallback? then FinishCallback else a
  }

  /** The same run with every listener returning normally. */
  function Calm(actions: seq<Action>): seq<Action> {
    if actions == [] then []
    else Calm(actions[..|actions| - 1]) + [CalmAction(actions[|actions| - 1])]
  }

  /** The trace without the sink's share. */
  function WithoutSink(t: seq<Event>): seq<Event> {
    if t == [] then []
    else WithoutSink(t[..|t| - 1]) + (if t[|t| - 1].Sunk? then [] else [t[|t| - 1]])
  }

  function Hushed(s: State): State {
    s.(trace := WithoutSink(s.trace))
  }

  lemma HushedEmit(s: State, e: Event)
    ensures Hushed(Emit(s, e)) == if e.Sunk? then Hushed(s) else Emit(Hushed(s), e)
  {
    assert (s.trace + [e])[..|s.trace|] == s.trace;
  }

  lemma HushedAdvance(s: State, call: nat, key: OperationKey, snapshot: seq<nat>, from: nat)
    requires from <= |snapshot|
    ensures Hushed(Advance(s, call, key, snapshot, from)) == Advance(Hushed(s), call, key, snapshot, from)
  {
    var n := NextMatch(s.listeners, key, snapshot, from);
    if n < |snapshot| {
      HushedEmit(s.(stack := s.stack + [Callback(call, key, snapshot, n)]), Delivered(call, snapshot[n]));
    } else {
      HushedEmit(s, Completed(call));
    }
  }

  lemma HushedSubscribe(s: State, key: OperationKey)
    ensures Hushed(Step(s, Subscribe(key))) == Step(Hushed(s), Subscribe(key))
  {
    HushedEmit(s.(listeners := s.listeners + [Listener(key, true)], registered := s.registered + [|s.listeners|]),
               Event.Subscribed(|s.listeners|, key));
  }

  lemma HushedUnsubscribe(s: State, l: nat)
    ensures Hushed(Step(s, Unsubscribe(l))) == Step(Hushed(s), Unsubscribe(l))
  {
    if l < |s.listeners| {
      HushedEmit(s.(listeners := s.listeners[l := s.listeners[l].(active := false)]), Unsubscribed(l));
    }
  }

  lemma HushedInvoke(s: State, key: OperationKey)
    ensures Hushed(Step(s, Invoke(key))) == Step(Hushed(s), Invoke(key))
  {
    HushedEmit(s.(calls := s.calls + 1, stack := s.stack + [Body(s.calls, key, s.registered)]),
               Prepared(s.calls, key, |s.listeners|));
  }

  lemma HushedFail(s: State)
    ensures Hushed(Step(s, FailCall)) == Step(Hushed(s), FailCall)
  {
    if s.stack != [] {
      HushedEmit(Pop(s), Failed(s.stack[|s.stack| - 1].call));
    }
  }

  lemma HushedCapture(s: State)
    ensures Hushed(Step(s, CaptureResult)) == Step(Hushed(s), CaptureResult)
  {
    if InBody(s) {
      var f := s.stack[|s.stack| - 1];
      HushedEmit(Pop(s), Captured(f.call));
      HushedAdvance(Emit(Pop(s), Captured(f.call)), f.call, f.key, f.snapshot, 0);
    }
  }

  lemma HushedLeft(s: State, throws: bool)
    requires InCallback(s)
    ensures Hushed(LeftCallback(s, throws)) == LeftCallback(Hushed(s), false)
  {
    if throws {
      var f := s.stack[|s.stack| - 1];
      HushedEmit(Pop(s), Sunk(f.call, f.snapshot[f.at]));
    }
  }

  lemma HushedAfterCallback(s: State, throws: bool)
    requires InCallback(s)
    ensures Hushed(AfterCallback(s, throws)) == AfterCallback(Hushed(s), false)
  {
    var f := s.stack[|s.stack| - 1];
    HushedLeft(s, throws);
    HushedAdvance(LeftCallback(s, throws), f.call, f.key, f.snapshot, f.at + 1);
  }

  lemma HushedLeave(s: State, throws: bool)
    ensures Hushed(Step(s, if throws then ThrowInCallback else FinishCallback))
            == Step(Hushed(s), FinishCallback)
  {
    if InCallback(s) {
      HushedAfterCallback(s, throws);
    }
  }

  lemma HushedStep(s: State, a: Action)
    ensures Hushed(Step(s, a)) == Step(Hushed(s), CalmAction(a))
  {
    match a
    case Erase(_) =>
    case Subscribe(key) => HushedSubscribe(s, key);
    case Unsubscribe(l) => HushedUnsubscribe(s, l);
    case Invoke(key) => HushedInvoke(s, key);
    case FailCall => HushedFail(s);
    case CaptureResult => HushedCapture(s);
    case FinishCallback => HushedLeave(s, false);
    case ThrowInCallback => HushedLeave(s, true);
  }

  /** A run in which listeners throw has, but for the sink, the trace of the run in which the same
      listeners return instead. */
  lemma {:induction false} ThrowsChangeNoDelivery(actions: seq<Action>)
    ensures Hushed(Run(actions)) == Run(Calm(actions))
  {
    if actions != [] {
      var init, last := actions[..|actions| - 1], actions[|actions| - 1];
      ThrowsChangeNoDelivery(init);
      HushedStep(Run(init), last);
      assert Calm(actions)[..|Calm(actions)| - 1] == Calm(init);
    }
  }

  // --------------------------------------------------------------------
  // Compaction is unobservable.
  // --------------------------------------------------------------------

  ghost predicate InRange(listeners: seq<Listener>, ids: seq<nat>) {
    forall i :: 0 <= i < |ids| ==> ids[i] < |listeners|
  }

  /** The two lists agree on everybody who can still be called. */
  ghost predicate Alike(listeners: seq<Listener>, a: seq<nat>, b: seq<nat>) {
    && InRange(listeners, a) && InRange(listeners, b)
    && Pending(listeners, None, a) == Pending(listeners, None, b)
  }

  ghost predicate AlikeFrames(listeners: seq<Listener>, f: Frame, g: Frame) {
    match (f, g)
    case (Body(c, k, s), Body(c', k', s')) =>
      c == c' && k == k' && Alike(listeners, s, s')
    case (Callback(c, k, s, at), Callback(c', k', s', at')) =>
      && c == c' && k == k' && at < |s| && at' < |s'| && s[at] == s'[at'] && InRange(listeners, s) && InRange(listeners, s')
      && Alike(listeners, s[at + 1..], s'[at' + 1..])
    case _ => false
  }

  ghost predicate SameToTheOutside(s: State, s': State) {
    && s.listeners == s'.listeners && s.calls == s'.calls && s.trace == s'.trace
    && Alike(s.listeners, s.registered, s'.registered)
    && AlikeStacks(s.listeners, s.stack, s'.stack)
  }

  ghost predicate AlikeAt(listeners: seq<Listener>, a: seq<Frame>, b: seq<Frame>, i: nat)
    requires i < |a| == |b|
  {
    AlikeFrames(listeners, a[i], b[i])
  }

  ghost predicate AlikeStacks(listeners: seq<Listener>, a: seq<Frame>, b: seq<Frame>) {
    |a| == |b| && forall i :: 0 <= i < |a| ==> AlikeAt(listeners, a, b, i)
  }

  lemma AlikeStacksPush(listeners: seq<Listener>, a: seq<Frame>, b: seq<Frame>, f: Frame, g: Frame)
    requires AlikeStacks(listeners, a, b) && AlikeFrames(listeners, f, g)
    ensures AlikeStacks(listeners, a + [f], b + [g])
  {
    forall i | 0 <= i < |a + [f]|
      ensures AlikeAt(listeners, a + [f], b + [g], i)
    {
      assert i < |a| ==> AlikeAt(listeners, a, b, i);
    }
  }

  lemma AlikeStacksPop(listeners: seq<Listener>, a: seq<Frame>, b: seq<Frame>)
    requires AlikeStacks(listeners, a, b) && a != []
    ensures AlikeFrames(listeners, a[|a| - 1], b[|b| - 1])
    ensures AlikeStacks(listeners, a[..|a| - 1], b[..|b| - 1])
  {
    var a', b' := a[..|a| - 1], b[..|b| - 1];
    assert AlikeAt(listeners, a, b, |a| - 1);
    forall i | 0 <= i < |a'|
      ensures AlikeAt(listeners, a', b', i)
    {
      assert AlikeAt(listeners, a, b, i);
    }
  }

  lemma {:induction false} PendingAfterEnd(before: seq<Listener>, after: seq<Listener>, ids: seq<nat>)
    requires InRange(before, ids) && |before| <= |after|
    requires forall l :: 0 <= l < |before| ==> (after[l].active ==> before[l].active)
    ensures Pending(after, None, Pending(before, None, ids)) == Pending(after, None, ids)
  {
    if ids != [] {
      PendingAfterEnd(before, after, ids[1..]);
      var rest := Pending(before, None, ids[1..]);
      if Wanted(before, None, ids[0]) {
        assert ([ids[0]] + rest)[1..] == rest;
      } else {
        assert [] + rest == rest;
      }
    }
  }

  /** Lists that agree keep agreeing when listeners end or are added. */
  lemma AlikeLater(before: seq<Listener>, after: seq<Listener>, a: seq<nat>, b: seq<nat>)
    requires Alike(before, a, b) && |before| <= |after|
    requires forall l :: 0 <= l < |before| ==> (after[l].active ==> before[l].active)
    ensures Alike(after, a, b)
  {
    PendingAfterEnd(before, after, a);
    PendingAfterEnd(before, after, b);
  }

  lemma AlikeFramesLater(before: seq<Listener>, after: seq<Listener>, f: Frame, g: Frame)
    requires AlikeFrames(before, f, g) && |before| <= |after|
    requires forall l :: 0 <= l < |before| ==> (after[l].active ==> before[l].active)
    ensures AlikeFrames(after, f, g)
  {
    if f.Body? {
      AlikeLater(before, after, f.snapshot, g.snapshot);
    } else {
      AlikeLater(before, after, f.snapshot[f.at + 1..], g.snapshot[g.at + 1..]);
    }
  }

  /** Where the first listener to `key` is among the active ones. */
  function FirstWanted(listeners: seq<Listener>, key: OperationKey, ids: seq<nat>): (i: nat)
    ensures i <= |ids|
  {
    if ids == [] || Wanted(listeners, Some(key), ids[0]) then 0
    else 1 + FirstWanted(listeners, key, ids[1..])
  }

  /** The active ones from a position on. */
  function ActiveFrom(listeners: seq<Listener>, ids: seq<nat>, from: nat): seq<nat>
    requires from <= |ids|
    decreases |ids| - from
  {
    if from == |ids| then []
    else if Wanted(listeners, None, ids[from]) then [ids[from]] + ActiveFrom(listeners, ids, from + 1)
    else ActiveFrom(listeners, ids, from + 1)
  }

  lemma {:induction false} ActiveFromIsPending(listeners: seq<Listener>, ids: seq<nat>, from: nat)
    requires from <= |ids|
    ensures ActiveFrom(listeners, ids, from) == Pending(listeners, None, ids[from..])
    decreases |ids| - from
  {
    if from < |ids| {
      assert ids[from..][1..] == ids[from + 1..];
      ActiveFromIsPending(listeners, ids, from + 1);
      assert [] + Pending(listeners, None, ids[from + 1..]) == Pending(listeners, None, ids[from + 1..]);
    }
  }

  /** `snapshot[n]` is the first of the active listeners that the loop wants, or there is none. */
  predicate StopsAt(listeners: seq<Listener>, key: OperationKey, snapshot: seq<nat>, n: nat, active: seq<nat>)
    requires n <= |snapshot|
  {
    var i := FirstWanted(listeners, key, active);
    if n == |snapshot| then i == |active|
    else i < |active| && active[i] == snapshot[n] && active[i + 1..] == ActiveFrom(listeners, snapshot, n + 1)
  }

  /** The loop's next stop, and what is left after it, depend on the active ones only. */
  lemma {:induction false} NextMatchAmongActive(listeners: seq<Listener>, key: OperationKey, snapshot: seq<nat>, from: nat)
    requires from <= |snapshot|
    ensures StopsAt(listeners, key, snapshot, NextMatch(listeners, key, snapshot, from), ActiveFrom(listeners, snapshot, from))
    decreases |snapshot| - from
  {
    if from < |snapshot| {
      var x, rest := snapshot[from], ActiveFrom(listeners, snapshot, from + 1);
      if Wanted(listeners, Some(key), x) {
        assert ([x] + rest)[1..] == rest;
      } else {
        NextMatchAmongActive(listeners, key, snapshot, from + 1);
        if Wanted(listeners, None, x) {
          StopsLater(listeners, key, snapshot, NextMatch(listeners, key, snapshot, from + 1), x, rest);
        }
      }
    }
  }

  lemma StopsLater(listeners: seq<Listener>, key: OperationKey, snapshot: seq<nat>, n: nat, x: nat, active: seq<nat>)
    requires n <= |snapshot| && !Wanted(listeners, Some(key), x) && StopsAt(listeners, key, snapshot, n, active)
    ensures StopsAt(listeners, key, snapshot, n, [x] + active)
  {
    SkipUnwanted(listeners, key, x, active);
  }

  lemma SkipUnwanted(listeners: seq<Listener>, key: OperationKey, x: nat, rest: seq<nat>)
    requires !Wanted(listeners, Some(key), x)
    ensures
      var i := FirstWanted(listeners, key, rest);
      && FirstWanted(listeners, key, [x] + rest) == i + 1
      && (i < |rest| ==> ([x] + rest)[i + 1] == rest[i] && ([x] + rest)[i + 2..] == rest[i + 1..])
  {
    assert ([x] + rest)[1..] == rest;
  }

  /** Over lists that agree the loop stops at the same listener, and what is left agrees. */
  lemma AlikeStop(listeners: seq<Listener>, key: OperationKey, a: seq<nat>, i: nat, b: seq<nat>, j: nat)
    requires InRange(listeners, a) && InRange(listeners, b)
    requires i <= |a| && j <= |b| && Alike(listeners, a[i..], b[j..])
    ensures
      var n, m := NextMatch(listeners, key, a, i), NextMatch(listeners, key, b, j);
      && (n < |a| <==> m < |b|)
      && (n < |a| ==> a[n] == b[m] && Alike(listeners, a[n + 1..], b[m + 1..]))
  {
    ActiveFromIsPending(listeners, a, i);
    ActiveFromIsPending(listeners, b, j);
    NextMatchAmongActive(listeners, key, a, i);
    NextMatchAmongActive(listeners, key, b, j);
    AlikeRest(listeners, key, a, NextMatch(listeners, key, a, i), b, NextMatch(listeners, key, b, j),
              ActiveFrom(listeners, a, i));
  }

  lemma AlikeRest(listeners: seq<Listener>, key: OperationKey, a: seq<nat>, n: nat, b: seq<nat>, m: nat, active: seq<nat>)
    requires InRange(listeners, a) && InRange(listeners, b) && n <= |a| && m <= |b|
    requires StopsAt(listeners, key, a, n, active) && StopsAt(listeners, key, b, m, active)
    ensures n < |a| <==> m < |b|
    ensures n < |a| ==> a[n] == b[m] && Alike(listeners, a[n + 1..], b[m + 1..])
  {
    if n < |a| {
      ActiveFromIsPending(listeners, a, n + 1);
      ActiveFromIsPending(listeners, b, m + 1);
    }
  }

  lemma AlikeStopAt(s: State, s': State, call: nat, key: OperationKey, a: seq<nat>, n: nat, b: seq<nat>, m: nat)
    requires SameToTheOutside(s, s') && InRange(s.listeners, a) && InRange(s.listeners, b)
    requires n <= |a| && m <= |b| && (n < |a| <==> m < |b|)
    requires n < |a| ==> a[n] == b[m] && Alike(s.listeners, a[n + 1..], b[m + 1..])
    ensures SameToTheOutside(StopAt(s, call, key, a, n), StopAt(s', call, key, b, m))
  {
    if n < |a| {
      AlikePush(s, s', Callback(call, key, a, n), Callback(call, key, b, m), Delivered(call, a[n]));
    } else {
      AlikeEmit(s, s', Completed(call));
    }
  }

  lemma AlikeAdvance(s: State, s': State, call: nat, key: OperationKey, a: seq<nat>, i: nat, b: seq<nat>, j: nat)
    requires SameToTheOutside(s, s') && InRange(s.listeners, a) && InRange(s.listeners, b)
    requires i <= |a| && j <= |b| && Alike(s.listeners, a[i..], b[j..])
    ensures SameToTheOutside(Advance(s, call, key, a, i), Advance(s', call, key, b, j))
  {
    AlikeStop(s.listeners, key, a, i, b, j);
    AlikeStopAt(s, s', call, key, a, NextMatch(s.listeners, key, a, i), b, NextMatch(s'.listeners, key, b, j));
  }

  lemma AlikeEmit(s: State, s': State, e: Event)
    requires SameToTheOutside(s, s')
    ensures SameToTheOutside(Emit(s, e), Emit(s', e))
  {
  }

  lemma AlikePush(s: State, s': State, f: Frame, g: Frame, e: Event)
    requires SameToTheOutside(s, s') && AlikeFrames(s.listeners, f, g)
    ensures SameToTheOutside(Emit(s.(stack := s.stack + [f]), e), Emit(s'.(stack := s'.stack + [g]), e))
  {
    AlikeStacksPush(s.listeners, s.stack, s'.stack, f, g);
  }

  lemma AlikeSubscribe(s: State, s': State, key: OperationKey)
    requires SameToTheOutside(s, s')
    ensures SameToTheOutside(Step(s, Subscribe(key)), Step(s', Subscribe(key)))
  {
    var l := |s.listeners|;
    var after := s.listeners + [Listener(key, true)];
    AlikeLater(s.listeners, after, s.registered, s'.registered);
    PendingConcat(after, s.registered, [l]);
    PendingConcat(after, s'.registered, [l]);
    AlikeStackLater(s, s', after);
  }

  lemma {:induction false} WithoutPending(listeners: seq<Listener>, gone: set<nat>, ids: seq<nat>)
    ensures Pending(listeners, None, Without(listeners, gone, ids)) == Pending(listeners, None, ids)
  {
    if ids != [] {
      var rest := Without(listeners, gone, ids[1..]);
      WithoutPending(listeners, gone, ids[1..]);
      assert ([ids[0]] + rest)[1..] == rest;
      assert [] + rest == rest;
    }
  }

  /** Erasing everyone leaves the active ones. */
  lemma {:induction false} WithoutAll(listeners: seq<Listener>, gone: set<nat>, ids: seq<nat>)
    requires forall i :: 0 <= i < |ids| ==> ids[i] in gone
    ensures Without(listeners, gone, ids) == Pending(listeners, None, ids)
  {
    if ids != [] {
      assert ids[0] in gone;
      assert forall i :: 0 <= i < |ids[1..]| ==> ids[1..][i] == ids[i + 1];
      WithoutAll(listeners, gone, ids[1..]);
    }
  }

  /** Erasing on one side only makes no difference. */
  lemma AlikeErase(s: State, s': State, gone: set<nat>)
    requires SameToTheOutside(s, s')
    ensures SameToTheOutside(Step(s, Erase(gone)), s')
  {
    var kept := Without(s.listeners, gone, s.registered);
    WithoutPending(s.listeners, gone, s.registered);
    forall i | 0 <= i < |kept|
      ensures kept[i] < |s.listeners|
    {
      WithoutElement(s.listeners, gone, s.registered, kept[i]);
    }
  }

  lemma {:induction false} PendingConcat(listeners: seq<Listener>, a: seq<nat>, b: seq<nat>)
    ensures Pending(listeners, None, a + b) == Pending(listeners, None, a) + Pending(listeners, None, b)
  {
    if a == [] {
      assert a + b == b;
    } else {
      assert (a + b)[1..] == a[1..] + b;
      PendingConcat(listeners, a[1..], b);
    }
  }

  lemma PendingSnoc(listeners: seq<Listener>, ids: seq<nat>, l: nat)
    ensures Pending(listeners, None, ids + [l])
            == if IsActive(listeners, l) then Pending(listeners, None, ids) + [l] else Pending(listeners, None, ids)
  {
    PendingConcat(listeners, ids, [l]);
  }

  lemma AlikeStackLater(s: State, s': State, after: seq<Listener>)
    requires SameToTheOutside(s, s') && |s.listeners| <= |after|
    requires forall l :: 0 <= l < |s.listeners| ==> (after[l].active ==> s.listeners[l].active)
    ensures AlikeStacks(after, s.stack, s'.stack)
  {
    forall i | 0 <= i < |s.stack|
      ensures AlikeAt(after, s.stack, s'.stack, i)
    {
      assert AlikeAt(s.listeners, s.stack, s'.stack, i);
      AlikeFramesLater(s.listeners, after, s.stack[i], s'.stack[i]);
    }
  }

  lemma AlikeUnsubscribe(s: State, s': State, l: nat)
    requires SameToTheOutside(s, s')
    ensures SameToTheOutside(Step(s, Unsubscribe(l)), Step(s', Unsubscribe(l)))
  {
    if l < |s.listeners| {
      var after := s.listeners[l := s.listeners[l].(active := false)];
      AlikeLater(s.listeners, after, s.registered, s'.registered);
      AlikeStackLater(s, s', after);
    }
  }

  lemma AlikeTops(s: State, s': State)
    requires SameToTheOutside(s, s') && s.stack != []
    ensures s'.stack != []
    ensures AlikeFrames(s.listeners, s.stack[|s.stack| - 1], s'.stack[|s'.stack| - 1])
    ensures SameToTheOutside(Pop(s), Pop(s'))
  {
    AlikeStacksPop(s.listeners, s.stack, s'.stack);
  }

  lemma AlikeCapture(s: State, s': State)
    requires SameToTheOutside(s, s')
    ensures SameToTheOutside(Step(s, CaptureResult), Step(s', CaptureResult))
  {
    if s.stack != [] {
      AlikeTops(s, s');
      var f, g := s.stack[|s.stack| - 1], s'.stack[|s'.stack| - 1];
      if f.Body? {
        assert f.snapshot[0..] == f.snapshot && g.snapshot[0..] == g.snapshot;
        AlikeAdvance(Emit(Pop(s), Captured(f.call)), Emit(Pop(s'), Captured(f.call)), f.call, f.key, f.snapshot, 0, g.snapshot, 0);
      }
    }
  }

  lemma AlikeLeft(s: State, s': State, throws: bool)
    requires SameToTheOutside(s, s') && InCallback(s)
    ensures InCallback(s') && SameToTheOutside(LeftCallback(s, throws), LeftCallback(s', throws))
    ensures AlikeFrames(LeftCallback(s, throws).listeners, s.stack[|s.stack| - 1], s'.stack[|s'.stack| - 1])
  {
    AlikeTops(s, s');
    if throws {
      var f := s.stack[|s.stack| - 1];
      AlikeEmit(Pop(s), Pop(s'), Sunk(f.call, f.snapshot[f.at]));
    }
  }

  /** Deliveries whose callbacks agree go on alike. */
  lemma AlikeResume(s: State, s': State, f: Frame, g: Frame)
    requires SameToTheOutside(s, s') && AlikeFrames(s.listeners, f, g) && f.Callback?
    ensures g.Callback? && f.at < |f.snapshot| && g.at < |g.snapshot|
    ensures SameToTheOutside(Resume(s, f), Resume(s', g))
  {
    assert Resume(s, f) == Advance(s, f.call, f.key, f.snapshot, f.at + 1);
    assert Resume(s', g) == Advance(s', g.call, g.key, g.snapshot, g.at + 1);
    AlikeAdvance(s, s', f.call, f.key, f.snapshot, f.at + 1, g.snapshot, g.at + 1);
  }

  lemma AlikeAfterCallback(s: State, s': State, throws: bool)
    requires SameToTheOutside(s, s') && InCallback(s)
    ensures InCallback(s') && SameToTheOutside(AfterCallback(s, throws), AfterCallback(s', throws))
  {
    AlikeLeft(s, s', throws);
    AlikeResume(LeftCallback(s, throws), LeftCallback(s', throws), s.stack[|s.stack| - 1], s'.stack[|s'.stack| - 1]);
  }

  lemma AlikeLeave(s: State, s': State, throws: bool)
    requires SameToTheOutside(s, s')
    ensures var a := if throws then ThrowInCallback else FinishCallback;
            SameToTheOutside(Step(s, a), Step(s', a))
  {
    if s.stack != [] {
      AlikeTops(s, s');
      if InCallback(s) {
        AlikeAfterCallback(s, s', throws);
      }
    }
  }

  lemma AlikeStep(s: State, s': State, a: Action)
    requires SameToTheOutside(s, s') && !a.Erase?
    ensures SameToTheOutside(Step(s, a), Step(s', a))
  {
    match a
    case Subscribe(key) => AlikeSubscribe(s, s', key);
    case Unsubscribe(l) => AlikeUnsubscribe(s, s', l);
    case Invoke(key) =>
      AlikePush(s.(calls := s.calls + 1), s'.(calls := s.calls + 1),
                Body(s.calls, key, s.registered), Body(s.calls, key, s'.registered),
                Prepared(s.calls, key, |s.listeners|));
    case FailCall =>
      if s.stack != [] {
        AlikeTops(s, s');
      }
    case CaptureResult => AlikeCapture(s, s');
    case FinishCallback => AlikeLeave(s, s', false);
    case ThrowInCallback => AlikeLeave(s, s', true);
  }

  /** The same run over a list that only grows. */
  function WithoutErasing(actions: seq<Action>): seq<Action> {
    if actions == [] then []
    else
      var init, last := actions[..|actions| - 1], actions[|actions| - 1];
      if last.Erase? then WithoutErasing(init) else WithoutErasing(init) + [last]
  }

  lemma {:induction false} CompactionSimulates(actions: seq<Action>)
    ensures SameToTheOutside(Run(actions), Run(WithoutErasing(actions)))
  {
    if actions != [] {
      var init, last := actions[..|actions| - 1], actions[|actions| - 1];
      CompactionSimulates(init);
      if last.Erase? {
        AlikeErase(Run(init), Run(WithoutErasing(init)), last.gone);
      } else {
        assert WithoutErasing(actions)[..|WithoutErasing(init)|] == WithoutErasing(init);
        AlikeStep(Run(init), Run(WithoutErasing(init)), last);
      }
    }
  }

  /** Erasing inactive listeners, any of them and at any time, while deliveries over older snapshots
      are under way too, cannot be told from never erasing any. */
  lemma ErasingIsUnobservable(actions: seq<Action>)
    ensures Run(actions).trace == Run(WithoutErasing(actions)).trace
  {
    CompactionSimulates(actions);
  }

  // --------------------------------------------------------------------
  // Nested calls.
  // --------------------------------------------------------------------

  /** What is called inside a call runs to its end first: between the preparation of a call and any
      later event of one prepared before it, it fails or completes. */
  lemma NestedCallsAreSynchronous(t: seq<Event>, i: nat, p: nat, j: nat) returns (e: nat)
    requires Lawful(t) && i < p < j < |t| && t[i].Prepared? && t[p].Prepared? && About(t[j], t[i].call)
    ensures p < e < j && (t[e] == Failed(t[p].call) || t[e] == Completed(t[p].call))
  {
    LawfulAt(t, p);
    LawfulAt(t, j);
    var call := t[p].call;
    assert Prepared(t[i].call, t[i].key, t[i].issued) in t[..p];
    assert Prepared(call, t[p].key, t[p].issued) in t[..j];
    assert Ended(t[..j], call);
    e :| 0 <= e < j && (t[e] == Failed(call) || t[e] == Completed(call));
    LawfulAt(t, e);
    PreparedBeforeEnd(t, e, p);
  }

  /** A call ends after it was prepared. */
  lemma PreparedBeforeEnd(t: seq<Event>, e: nat, p: nat)
    requires Lawful(t) && e < |t| && p < |t| && t[p].Prepared?
    requires t[e] == Failed(t[p].call) || t[e] == Completed(t[p].call)
    ensures p < e
  {
    var call := t[p].call;
    LawfulAt(t, e);
    var c := e;
    if t[e].Completed? {
      c :| 0 <= c < e && t[c] == Captured(call);
      LawfulAt(t, c);
    }
    var k, n: nat :| Prepared(call, k, n) in t[..c];
    var p' :| 0 <= p' < c && t[p'] == Prepared(call, k, n);
    PreparedOnce(t, p, p');
  }
}
