/** Delivery of completion events under reentrancy (extensions/observed.hpp) as a stack machine.
    The program, its targets and its listeners choose every action, so that a run may subscribe,
    unsubscribe, throw and call recursively at any point where user code is running. */
module ObservationPolicy {
  import opened Wrappers
  import opened Types

  /** Listeners are numbered in the order of their subscriptions. */
  datatype Listener = Listener(key: OperationKey, active: bool)

  /** A call whose target is running, or one that is delivering and is inside the callback of
      `snapshot[at]`. The snapshot is the one taken when the call was prepared. */
  datatype Frame =
    | Body(call: nat, key: OperationKey, snapshot: seq<nat>)
    | Callback(call: nat, key: OperationKey, snapshot: seq<nat>, at: nat)

  datatype Event =
    | Subscribed(listener: nat, key: OperationKey)
    | Unsubscribed(listener: nat)
    | Prepared(call: nat, key: OperationKey, issued: nat)  // `issued` listeners exist so far
    | Failed(call: nat)                                    // refused, or the target threw
    | Captured(call: nat)                                  // the result was captured
    | Delivered(call: nat, listener: nat)
    | Sunk(call: nat, listener: nat)                       // the error sink got the listener's exception
    | Completed(call: nat)

  datatype State = State(
    listeners: seq<Listener>,  // every listener ever made
    registered: seq<nat>,      // the listener list of the observation state
    calls: nat,
    stack: seq<Frame>,
    trace: seq<Event>)

  datatype Action =
    | Erase(gone: set<nat>)  // takes inactive listeners off the list
    | Subscribe(key: OperationKey)
    | Unsubscribe(listener: nat)
    | Invoke(key: OperationKey)
    | FailCall
    | CaptureResult
    | FinishCallback
    | ThrowInCallback

  const INITIAL_STATE := State([], [], 0, [], [])

  predicate IsActive(listeners: seq<Listener>, l: nat) {
    l < |listeners| && listeners[l].active
  }

  /** `l` is active and, where a key is given, listens to it. */
  predicate Wanted(listeners: seq<Listener>, key: Option<OperationKey>, l: nat) {
    IsActive(listeners, l) && (key.Some? ==> listeners[l].key == key.value)
  }

  /** The wanted ones among `ids`, in order. */
  function Pending(listeners: seq<Listener>, key: Option<OperationKey>, ids: seq<nat>): seq<nat> {
    if ids == [] then []
    else (if Wanted(listeners, key, ids[0]) then [ids[0]] else []) + Pending(listeners, key, ids[1..])
  }

  /** The list without the inactive ones among `gone`, in order. */
  function Without(listeners: seq<Listener>, gone: set<nat>, ids: seq<nat>): seq<nat> {
    if ids == [] then []
    else
      (if ids[0] in gone && !IsActive(listeners, ids[0]) then [] else [ids[0]]) + Without(listeners, gone, ids[1..])
  }

  /** Where the delivery loop calls next: the first wanted listener from `from` on, or the end. */
  function NextMatch(listeners: seq<Listener>, key: OperationKey, snapshot: seq<nat>, from: nat): (n: nat)
    requires from <= |snapshot|
    ensures from <= n <= |snapshot|
    decreases |snapshot| - from
  {
    if from == |snapshot| || Wanted(listeners, Some(key), snapshot[from]) then from
    else NextMatch(listeners, key, snapshot, from + 1)
  }

  lemma {:induction false} NextMatchIsNext(listeners: seq<Listener>, key: OperationKey, snapshot: seq<nat>, from: nat)
    requires from <= |snapshot|
    ensures var n := NextMatch(listeners, key, snapshot, from);
            && (n < |snapshot| ==> Wanted(listeners, Some(key), snapshot[n]))
            && forall j :: from <= j < n ==> !Wanted(listeners, Some(key), snapshot[j])
    decreases |snapshot| - from
  {
    if from < |snapshot| && !Wanted(listeners, Some(key), snapshot[from]) {
      NextMatchIsNext(listeners, key, snapshot, from + 1);
    }
  }

  function Emit(s: State, e: Event): State {
    s.(trace := s.trace + [e])
  }

  function Pop(s: State): State
    requires s.stack != []
  {
    s.(stack := s.stack[..|s.stack| - 1])
  }

  /** The delivery loop calls the listener at `n`, or ends there. */
  function StopAt(s: State, call: nat, key: OperationKey, snapshot: seq<nat>, n: nat): State
    requires n <= |snapshot|
  {
    if n < |snapshot| then
      Emit(s.(stack := s.stack + [Callback(call, key, snapshot, n)]), Delivered(call, snapshot[n]))
    else Emit(s, Completed(call))
  }

  /** The delivery loop from position `from` to its next callback, or to its end. */
  function Advance(s: State, call: nat, key: OperationKey, snapshot: seq<nat>, from: nat): State
    requires from <= |snapshot|
  {
    StopAt(s, call, key, snapshot, NextMatch(s.listeners, key, snapshot, from))
  }

  predicate InBody(s: State) {
    s.stack != [] && s.stack[|s.stack| - 1].Body?
  }

  predicate InCallback(s: State) {
    s.stack != [] && var f := s.stack[|s.stack| - 1]; f.Callback? && f.at < |f.snapshot|
  }

  /** The target's result has been captured: delivery starts. */
  function AfterBody(s: State): State
    requires InBody(s)
  {
    var f := s.stack[|s.stack| - 1];
    Advance(Emit(Pop(s), Captured(f.call)), f.call, f.key, f.snapshot, 0)
  }

  /** The callback is left, with its exception in the sink if it throws. */
  function LeftCallback(s: State, throws: bool): State
    requires InCallback(s)
  {
    var f := s.stack[|s.stack| - 1];
    if throws then Emit(Pop(s), Sunk(f.call, f.snapshot[f.at])) else Pop(s)
  }

  /** The delivery of the callback `f` goes on behind it. */
  function Resume(s: State, f: Frame): State
    requires f.Callback? && f.at < |f.snapshot|
  {
    Advance(s, f.call, f.key, f.snapshot, f.at + 1)
  }

  /** A listener has returned, or thrown: delivery goes on. */
  function AfterCallback(s: State, throws: bool): State
    requires InCallback(s)
  {
    Resume(LeftCallback(s, throws), s.stack[|s.stack| - 1])
  }

  /** One action. An action that is not possible does nothing. */
  function Step(s: State, a: Action): State {
    match a
    case Erase(gone) => s.(registered := Without(s.listeners, gone, s.registered))
    case Subscribe(key) =>
      Emit(s.(listeners := s.listeners + [Listener(key, true)], registered := s.registered + [|s.listeners|]),
           Subscribed(|s.listeners|, key))
    case Unsubscribe(l) =>
      if l < |s.listeners| then
        Emit(s.(listeners := s.listeners[l := s.listeners[l].(active := false)]), Unsubscribed(l))
      else s
    case Invoke(key) =>
      Emit(s.(calls := s.calls + 1, stack := s.stack + [Body(s.calls, key, s.registered)]),
           Prepared(s.calls, key, |s.listeners|))
    case FailCall =>
      if InBody(s) then Emit(Pop(s), Failed(s.stack[|s.stack| - 1].call)) else s
    case CaptureResult => if InBody(s) then AfterBody(s) else s
    case FinishCallback => if InCallback(s) then AfterCallback(s, false) else s
    case ThrowInCallback => if InCallback(s) then AfterCallback(s, true) else s
  }

  /** Everyone on the list. */
  function AllListed(s: State): set<nat> {
    set l | l in s.registered
  }

  /** after: the inactive listeners are erased before the new one is put at the end. */
  function AfterStep(s: State, key: OperationKey): State {
    Step(Step(s, Erase(AllListed(s))), Subscribe(key))
  }

  function Run(actions: seq<Action>): State {
    if actions == [] then INITIAL_STATE
    else Step(Run(actions[..|actions| - 1]), actions[|actions| - 1])
  }

  // --------------------------------------------------------------------
  // The delivery contract, on traces alone.
  // --------------------------------------------------------------------

  ghost predicate HasSubscribed(past: seq<Event>, l: nat) {
    exists k :: Subscribed(l, k) in past
  }

  predicate Ended(t: seq<Event>, call: nat) {
    Failed(call) in t || Completed(call) in t
  }

  /** Every call prepared after this one has ended: what runs inside a call runs to its end. */
  ghost predicate Settled(past: seq<Event>, call: nat) {
    forall d: nat, k, n: nat :: Prepared(d, k, n) in past && call < d ==> Ended(past, d)
  }

  /** `e` may follow `past`. */
  ghost predicate Allowed(past: seq<Event>, e: Event) {
    match e
    case Subscribed(l, _) =>
      forall m: nat, k :: Subscribed(m, k) in past ==> m < l
    case Unsubscribed(l) =>
      HasSubscribed(past, l)
    case Prepared(c, _, issued) =>
      && (forall d: nat, k, n: nat :: Prepared(d, k, n) in past ==> d < c)
      && (forall l: nat, k :: Subscribed(l, k) in past ==> l < issued)
      && (forall l: nat :: l < issued ==> HasSubscribed(past, l))
    case Failed(c) =>
      // once, instead of a capture
      && (exists k, n: nat :: Prepared(c, k, n) in past) && Settled(past, c)
      && Failed(c) !in past && Captured(c) !in past
    case Captured(c) =>
      && (exists k, n: nat :: Prepared(c, k, n) in past) && Settled(past, c)
      && Failed(c) !in past && Captured(c) !in past
    case Delivered(c, l) =>
      // after the capture, before the end, in subscription order and so at most once
      && Settled(past, c) && Captured(c) in past && Completed(c) !in past
      && (forall m: nat :: Delivered(c, m) in past ==> m < l)
      // to a listener of the call's key that subscribed before the call was prepared
      && (exists k, n: nat :: Prepared(c, k, n) in past && l < n && Subscribed(l, k) in past)
      // and has not unsubscribed since
      && Unsubscribed(l) !in past
    case Sunk(c, l) =>
      // once, from the last listener that was called
      && Settled(past, c) && Delivered(c, l) in past && Completed(c) !in past
      && (forall m: nat :: Delivered(c, m) in past ==> m <= l)
      && Sunk(c, l) !in past
    case Completed(c) =>
      // nobody who was entitled to the event has been left out
      && Settled(past, c) && Captured(c) in past && Completed(c) !in past
      && (forall k, n: nat, l: nat ::
            Prepared(c, k, n) in past && l < n && Subscribed(l, k) in past && Unsubscribed(l) !in past
            ==> Delivered(c, l) in past)
  }

  ghost predicate AllowedAt(t: seq<Event>, j: nat)
    requires j < |t|
  {
    Allowed(t[..j], t[j])
  }

  ghost predicate Lawful(t: seq<Event>) {
    forall j :: 0 <= j < |t| ==> AllowedAt(t, j)
  }

  lemma LawfulExtends(t: seq<Event>, e: Event)
    requires Lawful(t) && Allowed(t, e)
    ensures Lawful(t + [e])
  {
    var whole := t + [e];
    forall j | 0 <= j < |whole|
      ensures AllowedAt(whole, j)
    {
      if j < |t| {
        assert AllowedAt(t, j);
        assert whole[..j] == t[..j];
      } else {
        assert whole[..j] == t;
      }
    }
  }

  // --------------------------------------------------------------------
  // The invariant of every reachable state.
  // --------------------------------------------------------------------

  ghost predicate ListenersRecorded(s: State) {
    && (forall l: nat, k :: Subscribed(l, k) in s.trace <==> l < |s.listeners| && s.listeners[l].key == k)
    && (forall l :: 0 <= l < |s.listeners| ==> (s.listeners[l].active <==> Unsubscribed(l) !in s.trace))
  }

  predicate Increasing(ids: seq<nat>) {
    forall i, j :: 0 <= i < j < |ids| ==> ids[i] < ids[j]
  }

  /** In subscription order, and with every active one of the first `issued` listeners. */
  ghost predicate Covers(s: State, ids: seq<nat>, issued: nat) {
    && issued <= |s.listeners|
    && Increasing(ids)
    && (forall i :: 0 <= i < |ids| ==> ids[i] < issued)
    && (forall l :: 0 <= l < issued && s.listeners[l].active ==> l in ids)
  }

  ghost predicate CallsRecorded(s: State) {
    && (forall c: nat, k, n: nat :: Prepared(c, k, n) in s.trace ==> c < s.calls && n <= |s.listeners|)
    && (forall c: nat, k, n: nat, k', n': nat ::
          Prepared(c, k, n) in s.trace && Prepared(c, k', n') in s.trace ==> k == k' && n == n')
    && (forall c: nat :: Captured(c) in s.trace || Failed(c) in s.trace || Completed(c) in s.trace ==> c < s.calls)
    && (forall c: nat, l: nat :: Delivered(c, l) in s.trace ==> c < s.calls)
    && (forall c: nat, l: nat :: Sunk(c, l) in s.trace ==> Delivered(c, l) in s.trace)
  }

  /** The call was prepared for `key` with this snapshot. */
  ghost predicate SnapshotOk(s: State, call: nat, key: OperationKey, snapshot: seq<nat>) {
    call < s.calls && exists n: nat :: Prepared(call, key, n) in s.trace && Covers(s, snapshot, n)
  }

  /** The delivery of the call has dealt with the positions before `from`, and no others. */
  ghost predicate DeliveredUpTo(s: State, call: nat, key: OperationKey, snapshot: seq<nat>, from: nat) {
    && from <= |snapshot|
    && Captured(call) in s.trace && Completed(call) !in s.trace
    && (forall l: nat, j :: Delivered(call, l) in s.trace && from <= j < |snapshot| ==> l < snapshot[j])
    && (forall j :: 0 <= j < from && Wanted(s.listeners, Some(key), snapshot[j]) ==>
                      Delivered(call, snapshot[j]) in s.trace)
  }

  ghost predicate FrameOk(s: State, f: Frame) {
    && SnapshotOk(s, f.call, f.key, f.snapshot)
    && match f
       case Body(c, _, _) =>
         && Captured(c) !in s.trace && Failed(c) !in s.trace && Completed(c) !in s.trace
         && forall l: nat :: Delivered(c, l) !in s.trace
       case Callback(c, k, snapshot, at) =>
         && at < |snapshot| && Delivered(c, snapshot[at]) in s.trace && Sunk(c, snapshot[at]) !in s.trace
         && (forall l: nat :: Delivered(c, l) in s.trace ==> l <= snapshot[at])
         && DeliveredUpTo(s, c, k, snapshot, at + 1)
  }

  /** The trace agrees with the listeners, their list and the calls made. */
  ghost predicate Recorded(s: State) {
    ListenersRecorded(s) && Covers(s, s.registered, |s.listeners|) && CallsRecorded(s)
  }

  ghost predicate FramesOk(s: State, frames: seq<Frame>) {
    && (forall i :: 0 <= i < |frames| ==> FrameOk(s, frames[i]))
    && (forall i, j :: 0 <= i < j < |frames| ==> frames[i].call < frames[j].call)
  }

  ghost predicate Core(s: State) {
    Recorded(s) && FramesOk(s, s.stack) && Lawful(s.trace)
  }

  predicate OnStack(frames: seq<Frame>, call: nat) {
    exists i :: 0 <= i < |frames| && frames[i].call == call
  }

  /** Every call but the given one has ended or is on the stack. */
  ghost predicate Accounted(s: State, call: nat) {
    forall d :: 0 <= d < s.calls && d != call ==> Ended(s.trace, d) || OnStack(s.stack, d)
  }

  ghost predicate Inv(s: State) {
    Core(s) && Accounted(s, s.calls)
  }

  predicate About(e: Event, call: nat) {
    match e
    case Failed(c) => c == call
    case Captured(c) => c == call
    case Delivered(c, _) => c == call
    case Sunk(c, _) => c == call
    case Completed(c) => c == call
    case _ => false
  }

  /** The listeners of `s'` are those of `s`, some of them no longer active, and perhaps new ones. */
  predicate Grown(s: State, s': State) {
    && |s.listeners| <= |s'.listeners|
    && s.calls <= s'.calls
    && forall l :: 0 <= l < |s.listeners| ==>
                     && s'.listeners[l].key == s.listeners[l].key
                     && (s'.listeners[l].active ==> s.listeners[l].active)
  }

  /** An event about another call leaves a frame as it was. */
  lemma FrameKept(s: State, s': State, e: Event, f: Frame)
    requires FrameOk(s, f) && Grown(s, s') && s'.trace == s.trace + [e] && !About(e, f.call)
    ensures FrameOk(s', f)
  {
    var n: nat :| Prepared(f.call, f.key, n) in s.trace && Covers(s, f.snapshot, n);
    assert Prepared(f.call, f.key, n) in s'.trace && Covers(s', f.snapshot, n);
    forall l: nat | Wanted(s'.listeners, Some(f.key), l) && l in f.snapshot
      ensures Wanted(s.listeners, Some(f.key), l)
    {
      assert l < n;
    }
  }

  lemma FramesKept(s: State, s': State, e: Event, frames: seq<Frame>)
    requires FramesOk(s, frames) && forall i :: 0 <= i < |frames| ==> !About(e, frames[i].call)
    requires Grown(s, s') && s'.trace == s.trace + [e]
    ensures FramesOk(s', frames)
  {
    forall i | 0 <= i < |frames|
      ensures FrameOk(s', frames[i])
    {
      FrameKept(s, s', e, frames[i]);
    }
  }

  /** An event of a call that exists changes nothing of what is recorded. */
  lemma CallEventKeepsRecords(s: State, s': State, e: Event, call: nat)
    requires Recorded(s) && call < s.calls && About(e, call)
    requires e.Sunk? ==> Delivered(e.call, e.listener) in s.trace
    requires s'.listeners == s.listeners && s'.registered == s.registered && s'.calls == s.calls
    requires s'.trace == s.trace + [e]
    ensures Recorded(s')
  {
  }
}
