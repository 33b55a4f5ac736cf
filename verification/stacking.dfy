/** Several observation layers over one handle (core/call.hpp, extensions/observed.hpp), each with its
    own listeners, snapshots and deliveries. A call prepares every layer it passes, the inner ones
    first, and on success delivers layer by layer in the same order. Any listener of any layer may
    do anything, calls through other handles of the stack included. */
module Stacking {
  import opened Types
  import opened ObservationPolicy
  import opened ObservationTheorems

  /** Where a call is: its target runs; the completion of a layer comes next; or a listener of that
      layer is running. */
  datatype Stage = Running | Before(layer: nat) | InLayer(layer: nat)

  /** A call in progress through the handle that has `depth` layers. */
  datatype Activity = Activity(depth: nat, stage: Stage)

  datatype System = System(
    layers: seq<State>,        // from the innermost out
    logs: seq<seq<Action>>,    // what each layer has done
    activities: seq<Activity>)

  datatype Move =
    | OnLayer(layer: nat, action: Action)  // subscribing, unsubscribing and erasing
    | Call(depth: nat, key: OperationKey)
    | Fail
    | Capture
    | Complete                             // the completion of the next layer is called
    | Return(throws: bool)                 // a listener returns, or throws

  /** One layer acts. */
  function Do(sys: System, k: nat, a: Action): System {
    if k < |sys.layers| && k < |sys.logs| then
      sys.(layers := sys.layers[k := Step(sys.layers[k], a)], logs := sys.logs[k := sys.logs[k] + [a]])
    else sys
  }

  /** The same action on the innermost `n` layers, in turn. */
  function DoUpTo(sys: System, n: nat, a: Action): System {
    if n == 0 then sys else Do(DoUpTo(sys, n - 1, a), n - 1, a)
  }

  /** The call on top does something in layer `i`: it stays there as long as there is a listener to
      call, and then goes on to the next layer. */
  function Deliver(sys: System, depth: nat, i: nat, a: Action): System {
    var sys' := Do(sys, i, a);
    var stays := i < |sys.layers| && i < |sys'.layers| && |sys'.layers[i].stack| == |sys.layers[i].stack|;
    Push(sys', Activity(depth, if stays then InLayer(i) else Before(i + 1)))
  }

  function Push(sys: System, a: Activity): System {
    sys.(activities := sys.activities + [a])
  }

  function PopActivity(sys: System): System
    requires sys.activities != []
  {
    sys.(activities := sys.activities[..|sys.activities| - 1])
  }

  /** The stage of the call on top; outside of all calls the program runs. */
  function Top(sys: System): Stage {
    if sys.activities == [] then Running else sys.activities[|sys.activities| - 1].stage
  }

  /** Between two layers no user code runs. */
  function Next(sys: System, m: Move): System {
    if m.OnLayer? && !Top(sys).Before? && (m.action.Subscribe? || m.action.Unsubscribe? || m.action.Erase?) then
      Do(sys, m.layer, m.action)
    else if m.Call? && !Top(sys).Before? && m.depth <= |sys.layers| then
      Push(DoUpTo(sys, m.depth, Invoke(m.key)), Activity(m.depth, Running))
    else if sys.activities == [] then sys
    else OnTop(PopActivity(sys), sys.activities[|sys.activities| - 1], m, sys)
  }

  /** A move of the call on top, which is off the stack; one that is not possible changes nothing. */
  function OnTop(sys: System, top: Activity, m: Move, same: System): System {
    match (m, top.stage)
    case (Fail, Running) => DoUpTo(sys, top.depth, FailCall)
    case (Capture, Running) => Push(sys, Activity(top.depth, Before(0)))
    case (Complete, Before(i)) => if i < top.depth then Deliver(sys, top.depth, i, CaptureResult) else sys
    case (Return(throws), InLayer(i)) =>
      Deliver(sys, top.depth, i, if throws then ThrowInCallback else FinishCallback)
    case _ => same
  }

  function Start(n: nat): System {
    System(seq(n, _ => INITIAL_STATE), seq(n, _ => []), [])
  }

  function Play(n: nat, moves: seq<Move>): System {
    if moves == [] then Start(n) else Next(Play(n, moves[..|moves| - 1]), moves[|moves| - 1])
  }

  // --------------------------------------------------------------------
  // Each layer is a run of the delivery machine.
  // --------------------------------------------------------------------

  ghost predicate Logged(s: State, log: seq<Action>) {
    s == ObservationPolicy.Run(log)
  }

  ghost predicate Built(sys: System) {
    |sys.logs| == |sys.layers| && forall k :: 0 <= k < |sys.layers| ==> Logged(sys.layers[k], sys.logs[k])
  }

  lemma StepLogged(s: State, log: seq<Action>, a: Action)
    requires Logged(s, log)
    ensures Logged(Step(s, a), log + [a])
  {
    assert (log + [a])[..|log|] == log;
  }

  lemma DoBuilt(sys: System, k: nat, a: Action)
    requires Built(sys)
    ensures Built(Do(sys, k, a)) && |Do(sys, k, a).layers| == |sys.layers|
  {
    if k < |sys.layers| {
      StepLogged(sys.layers[k], sys.logs[k], a);
    }
  }

  /** Calls in progress do not matter. */
  lemma SameLayersBuilt(sys: System, sys': System)
    requires Built(sys) && sys'.layers == sys.layers && sys'.logs == sys.logs
    ensures Built(sys')
  {
  }

  lemma {:induction false} UpToBuilt(sys: System, n: nat, a: Action)
    requires Built(sys)
    ensures Built(DoUpTo(sys, n, a)) && |DoUpTo(sys, n, a).layers| == |sys.layers|
  {
    if n > 0 {
      UpToBuilt(sys, n - 1, a);
      DoBuilt(DoUpTo(sys, n - 1, a), n - 1, a);
    }
  }

  lemma DeliverBuilt(sys: System, depth: nat, i: nat, a: Action)
    requires Built(sys)
    ensures Built(Deliver(sys, depth, i, a)) && |Deliver(sys, depth, i, a).layers| == |sys.layers|
  {
    DoBuilt(sys, i, a);
    SameLayersBuilt(Do(sys, i, a), Deliver(sys, depth, i, a));
  }

  lemma OnTopBuilt(sys: System, top: Activity, m: Move, same: System)
    requires Built(sys) && Built(same) && |same.layers| == |sys.layers|
    ensures Built(OnTop(sys, top, m, same)) && |OnTop(sys, top, m, same).layers| == |sys.layers|
  {
    match (m, top.stage)
    case (Fail, Running) => UpToBuilt(sys, top.depth, FailCall);
    case (Capture, Running) => SameLayersBuilt(sys, Push(sys, Activity(top.depth, Before(0))));
    case (Complete, Before(i)) => DeliverBuilt(sys, top.depth, i, CaptureResult);
    case (Return(throws), InLayer(i)) =>
      DeliverBuilt(sys, top.depth, i, if throws then ThrowInCallback else FinishCallback);
    case _ =>
  }

  lemma NextBuilt(sys: System, m: Move)
    requires Built(sys)
    ensures Built(Next(sys, m)) && |Next(sys, m).layers| == |sys.layers|
  {
    if m.OnLayer? {
      DoBuilt(sys, m.layer, m.action);
    }
    if m.Call? {
      UpToBuilt(sys, m.depth, Invoke(m.key));
      SameLayersBuilt(DoUpTo(sys, m.depth, Invoke(m.key)), Push(DoUpTo(sys, m.depth, Invoke(m.key)), Activity(m.depth, Running)));
    }
    if sys.activities != [] {
      SameLayersBuilt(sys, PopActivity(sys));
      OnTopBuilt(PopActivity(sys), sys.activities[|sys.activities| - 1], m, sys);
    }
  }

  lemma {:induction false} PlayBuilt(n: nat, moves: seq<Move>)
    ensures Built(Play(n, moves)) && |Play(n, moves).layers| == n
  {
    if moves != [] {
      PlayBuilt(n, moves[..|moves| - 1]);
      NextBuilt(Play(n, moves[..|moves| - 1]), moves[|moves| - 1]);
    }
  }

  /** Each of any number of layers obeys the delivery contract in every run. */
  lemma EveryLayerIsLawful(n: nat, moves: seq<Move>, k: nat)
    requires k < n
    ensures k < |Play(n, moves).layers| && Lawful(Play(n, moves).layers[k].trace)
  {
    PlayBuilt(n, moves);
    assert Logged(Play(n, moves).layers[k], Play(n, moves).logs[k]);
    EveryRunIsLawful(Play(n, moves).logs[k]);
  }

  // --------------------------------------------------------------------
  // What each move does to the layers.
  // --------------------------------------------------------------------

  /** The innermost `n` layers have each done `a`, the others nothing. */
  ghost predicate Did(sys: System, sys': System, n: nat, a: Action) {
    && |sys'.layers| == |sys.layers|
    && forall k :: 0 <= k < |sys.layers| ==> sys'.layers[k] == if k < n then Step(sys.layers[k], a) else sys.layers[k]
  }

  lemma {:induction false} UpToDid(sys: System, n: nat, a: Action)
    requires |sys.logs| == |sys.layers|
    ensures Did(sys, DoUpTo(sys, n, a), n, a) && DoUpTo(sys, n, a).activities == sys.activities
    ensures |DoUpTo(sys, n, a).logs| == |sys.logs|
  {
    if n > 0 {
      UpToDid(sys, n - 1, a);
    }
  }

  /** A call prepares every layer it passes, and fails in every one; its result is captured, and its listeners
      return, in the one layer whose turn it is. */
  lemma MoveLaws(sys: System, m: Move)
    requires |sys.logs| == |sys.layers|
    ensures
      var sys', top := Next(sys, m), if sys.activities == [] then Activity(0, Running) else sys.activities[|sys.activities| - 1];
      match m
      case Call(depth, key) =>
        depth <= |sys.layers| && !Top(sys).Before? ==>
          Did(sys, sys', depth, Invoke(key)) && sys'.activities == sys.activities + [Activity(depth, Running)]
      case Fail =>
        sys.activities != [] && top.stage.Running? ==>
          Did(sys, sys', top.depth, FailCall) && sys'.activities == sys.activities[..|sys.activities| - 1]
      case Capture =>
        sys.activities != [] && top.stage.Running? ==>
          && sys'.layers == sys.layers
          && sys'.activities == sys.activities[..|sys.activities| - 1] + [Activity(top.depth, Before(0))]
      case Complete =>
        sys.activities != [] && top.stage.Before? && top.stage.layer < top.depth <= |sys.layers| ==>
          OneActs(sys, sys', top.stage.layer, CaptureResult)
      case Return(throws) =>
        sys.activities != [] && top.stage.InLayer? && top.stage.layer < |sys.layers| ==>
          OneActs(sys, sys', top.stage.layer, if throws then ThrowInCallback else FinishCallback)
      case OnLayer(k, a) =>
        k < |sys.layers| && !Top(sys).Before? && (a.Subscribe? || a.Unsubscribe? || a.Erase?) ==> OneActs(sys, sys', k, a)
  {
    if m.Call? {
      UpToDid(sys, m.depth, Invoke(m.key));
    } else if m.Fail? && sys.activities != [] {
      UpToDid(PopActivity(sys), sys.activities[|sys.activities| - 1].depth, FailCall);
    }
  }

  ghost predicate OneActs(sys: System, sys': System, i: nat, a: Action)
    requires i < |sys.layers|
  {
    && |sys'.layers| == |sys.layers| && sys'.layers[i] == Step(sys.layers[i], a)
    && forall k :: 0 <= k < |sys.layers| && k != i ==> sys'.layers[k] == sys.layers[k]
  }

  // --------------------------------------------------------------------
  // The layers stay in step.
  // --------------------------------------------------------------------

  /** Of each frame of a layer, whether it is a callback. */
  function Kinds(frames: seq<Frame>): (r: seq<bool>)
    ensures |r| == |frames| && forall i :: 0 <= i < |r| ==> r[i] == frames[i].Callback?
  {
    seq(|frames|, i requires 0 <= i < |frames| => frames[i].Callback?)
  }

  /** The frame that a call has in layer `k`: a running target, or a callback in the layer that is being
      delivered; none in the layers that it does not pass, or that it has finished with. */
  function FrameIn(a: Activity, k: nat): seq<bool> {
    if k >= a.depth then []
    else
      match a.stage
      case Running => [false]
      case Before(i) => if k < i then [] else [false]
      case InLayer(i) => if k < i then [] else [k == i]
  }

  function FramesIn(activities: seq<Activity>, k: nat): seq<bool> {
    if activities == [] then []
    else FramesIn(activities[..|activities| - 1], k) + FrameIn(activities[|activities| - 1], k)
  }

  predicate Sane(a: Activity, n: nat) {
    a.depth <= n && (a.stage.InLayer? ==> a.stage.layer < a.depth)
  }

  /** Layer `k` has the frames of the calls in progress, and then those of `extra`. */
  ghost predicate LayerInStep(sys: System, k: nat, extra: seq<bool>)
    requires k < |sys.layers|
  {
    Kinds(sys.layers[k].stack) == FramesIn(sys.activities, k) + extra
  }

  /** Each layer has the frames that the calls in progress should have in it, and no others: delivery
      in a layer begins only when all the layers further in have finished. */
  ghost predicate InStep(sys: System) {
    && |sys.logs| == |sys.layers|
    && (forall i :: 0 <= i < |sys.activities| ==> Sane(sys.activities[i], |sys.layers|))
    && forall k :: 0 <= k < |sys.layers| ==> LayerInStep(sys, k, [])
  }

  /** The same with one more call, which is off the stack. */
  ghost predicate InStepWith(sys: System, a: Activity) {
    && |sys.logs| == |sys.layers| && Sane(a, |sys.layers|)
    && (forall i :: 0 <= i < |sys.activities| ==> Sane(sys.activities[i], |sys.layers|))
    && forall k :: 0 <= k < |sys.layers| ==> LayerInStep(sys, k, FrameIn(a, k))
  }

  lemma FramesInLast(activities: seq<Activity>, a: Activity, k: nat)
    ensures FramesIn(activities + [a], k) == FramesIn(activities, k) + FrameIn(a, k)
  {
    assert (activities + [a])[..|activities|] == activities;
  }

  lemma Pushed(sys: System, a: Activity)
    requires InStepWith(sys, a)
    ensures InStep(Push(sys, a))
  {
    forall k | 0 <= k < |sys.layers|
      ensures LayerInStep(Push(sys, a), k, [])
    {
      assert LayerInStep(sys, k, FrameIn(a, k));
      FramesInLast(sys.activities, a, k);
    }
  }

  lemma Popped(sys: System)
    requires InStep(sys) && sys.activities != []
    ensures InStepWith(PopActivity(sys), sys.activities[|sys.activities| - 1])
  {
    var popped, top := PopActivity(sys), sys.activities[|sys.activities| - 1];
    forall k | 0 <= k < |popped.layers|
      ensures LayerInStep(popped, k, FrameIn(top, k))
    {
      assert LayerInStep(sys, k, []);
    }
  }

  /** A call that has no frame anywhere any more may go. */
  lemma Finished(sys: System, a: Activity)
    requires InStepWith(sys, a) && forall k :: 0 <= k < |sys.layers| ==> FrameIn(a, k) == []
    ensures InStep(sys)
  {
    forall k | 0 <= k < |sys.layers|
      ensures LayerInStep(sys, k, [])
    {
      assert LayerInStep(sys, k, FrameIn(a, k));
    }
  }

  lemma SameKinds(s: State, a: Action)
    requires a.Subscribe? || a.Unsubscribe? || a.Erase?
    ensures Step(s, a).stack == s.stack
  {
  }

  lemma InvokeKinds(s: State, key: OperationKey)
    ensures Kinds(Step(s, Invoke(key)).stack) == Kinds(s.stack) + [false]
  {
  }

  lemma FailKinds(s: State, kinds: seq<bool>)
    requires Kinds(s.stack) == kinds + [false]
    ensures Kinds(Step(s, FailCall).stack) == kinds
  {
    assert Kinds(s.stack)[|kinds|] == false;
  }

  /** Capturing replaces the running target by the first callback, or takes it off. */
  lemma CaptureKinds(s: State, kinds: seq<bool>)
    requires Kinds(s.stack) == kinds + [false]
    ensures var r := Step(s, CaptureResult).stack;
            Kinds(r) == kinds + if |r| == |s.stack| then [true] else []
  {
    assert Kinds(s.stack)[|kinds|] == false;
    assert Kinds(Pop(s).stack) == kinds;
    assert kinds + [] == kinds;
  }

  /** Leaving a callback leads to the next one, or takes the frame off. */
  lemma ReturnKinds(s: State, kinds: seq<bool>, throws: bool)
    requires Kinds(s.stack) == kinds + [true] && Inv(s)
    ensures var r := Step(s, if throws then ThrowInCallback else FinishCallback).stack;
            Kinds(r) == kinds + if |r| == |s.stack| then [true] else []
  {
    assert Kinds(s.stack)[|kinds|];
    assert FrameOk(s, s.stack[|s.stack| - 1]);
    assert Kinds(Pop(s).stack) == kinds;
    assert kinds + [] == kinds;
  }

  lemma {:induction false} InvokeUpTo(sys: System, n: nat, key: OperationKey)
    requires InStep(sys) && n <= |sys.layers|
    ensures InStepWith(DoUpTo(sys, n, Invoke(key)), Activity(n, Running))
    ensures |DoUpTo(sys, n, Invoke(key)).layers| == |sys.layers| && DoUpTo(sys, n, Invoke(key)).activities == sys.activities
  {
    if n > 0 {
      var init := DoUpTo(sys, n - 1, Invoke(key));
      InvokeUpTo(sys, n - 1, key);
      assert LayerInStep(init, n - 1, FrameIn(Activity(n - 1, Running), n - 1));
      assert FramesIn(init.activities, n - 1) + [] == FramesIn(init.activities, n - 1);
      InvokeKinds(init.layers[n - 1], key);
      OneLayer(init, Activity(n - 1, Running), n - 1, DoUpTo(sys, n, Invoke(key)), Activity(n, Running));
    } else {
      assert forall k :: 0 <= k < |sys.layers| ==> LayerInStep(sys, k, []);
    }
  }

  /** From `sys` to `sys'` only layer `i` has acted. */
  predicate OnlyLayer(sys: System, sys': System, i: nat) {
    && |sys'.layers| == |sys.layers| && |sys'.logs| == |sys.logs| && sys'.activities == sys.activities
    && forall k :: 0 <= k < |sys.layers| && k != i ==> sys'.layers[k] == sys.layers[k]
  }

  /** An action of one layer takes the call from one place to another. */
  lemma OneLayer(sys: System, a: Activity, i: nat, sys': System, a': Activity)
    requires InStepWith(sys, a) && Sane(a', |sys.layers|) && i < |sys.layers| && OnlyLayer(sys, sys', i)
    requires forall k :: 0 <= k < |sys.layers| && k != i ==> FrameIn(a', k) == FrameIn(a, k)
    requires Kinds(sys'.layers[i].stack) == FramesIn(sys.activities, i) + FrameIn(a', i)
    ensures InStepWith(sys', a')
  {
    forall k | 0 <= k < |sys.layers|
      ensures LayerInStep(sys', k, FrameIn(a', k))
    {
      assert LayerInStep(sys, k, FrameIn(a, k));
    }
  }

  /** The innermost `n` layers have failed. */
  lemma {:induction false} FailUpTo(sys: System, depth: nat, n: nat)
    requires InStepWith(sys, Activity(depth, Running)) && n <= depth
    ensures InStepWith(DoUpTo(sys, n, FailCall), Activity(depth, Before(n)))
    ensures |DoUpTo(sys, n, FailCall).layers| == |sys.layers|
  {
    if n > 0 {
      var init := DoUpTo(sys, n - 1, FailCall);
      FailUpTo(sys, depth, n - 1);
      assert LayerInStep(init, n - 1, FrameIn(Activity(depth, Before(n - 1)), n - 1));
      FailKinds(init.layers[n - 1], FramesIn(init.activities, n - 1));
      assert FramesIn(init.activities, n - 1) + [] == FramesIn(init.activities, n - 1);
      OneLayer(init, Activity(depth, Before(n - 1)), n - 1, DoUpTo(sys, n, FailCall), Activity(depth, Before(n)));
    } else {
      SamePlace(sys, Activity(depth, Running), Activity(depth, Before(0)));
    }
  }

  lemma SamePlace(sys: System, a: Activity, a': Activity)
    requires InStepWith(sys, a) && Sane(a', |sys.layers|)
    requires forall k :: 0 <= k < |sys.layers| ==> FrameIn(a', k) == FrameIn(a, k)
    ensures InStepWith(sys, a')
  {
    forall k | 0 <= k < |sys.layers|
      ensures LayerInStep(sys, k, FrameIn(a', k))
    {
      assert LayerInStep(sys, k, FrameIn(a, k));
    }
  }

  /** Where a call is when layer `i` has gone from `frames` to `next`. */
  function After(depth: nat, i: nat, frames: seq<Frame>, next: seq<Frame>): Activity {
    Activity(depth, if |next| == |frames| then InLayer(i) else Before(i + 1))
  }

  lemma DeliverIsAfter(sys: System, depth: nat, i: nat, action: Action)
    requires |sys.logs| == |sys.layers| && i < |sys.layers|
    ensures OnlyLayer(sys, Do(sys, i, action), i) && Do(sys, i, action).layers[i] == Step(sys.layers[i], action)
    ensures Deliver(sys, depth, i, action)
            == Push(Do(sys, i, action), After(depth, i, sys.layers[i].stack, Step(sys.layers[i], action).stack))
  {
  }

  /** A layer that is being delivered gets a callback, or has finished. */
  lemma DeliverInStep(sys: System, a: Activity, i: nat, sys': System)
    requires InStepWith(sys, a) && i < a.depth && (a.stage == Before(i) || a.stage == InLayer(i))
    requires OnlyLayer(sys, sys', i)
    requires var a' := After(a.depth, i, sys.layers[i].stack, sys'.layers[i].stack);
             Kinds(sys'.layers[i].stack) == FramesIn(sys.activities, i) + FrameIn(a', i)
    ensures InStep(Push(sys', After(a.depth, i, sys.layers[i].stack, sys'.layers[i].stack)))
  {
    var a' := After(a.depth, i, sys.layers[i].stack, sys'.layers[i].stack);
    OneLayer(sys, a, i, sys', a');
    Pushed(sys', a');
  }

  lemma CompleteInStep(sys: System, depth: nat, i: nat)
    requires InStepWith(sys, Activity(depth, Before(i))) && i < depth
    ensures InStep(Deliver(sys, depth, i, CaptureResult))
  {
    assert LayerInStep(sys, i, FrameIn(Activity(depth, Before(i)), i));
    CaptureKinds(sys.layers[i], FramesIn(sys.activities, i));
    DeliverIsAfter(sys, depth, i, CaptureResult);
    DeliverInStep(sys, Activity(depth, Before(i)), i, Do(sys, i, CaptureResult));
  }

  lemma ReturnInStep(sys: System, depth: nat, i: nat, throws: bool)
    requires Built(sys) && InStepWith(sys, Activity(depth, InLayer(i)))
    ensures InStep(Deliver(sys, depth, i, if throws then ThrowInCallback else FinishCallback))
  {
    var action := if throws then ThrowInCallback else FinishCallback;
    assert LayerInStep(sys, i, FrameIn(Activity(depth, InLayer(i)), i));
    assert Logged(sys.layers[i], sys.logs[i]);
    ReachableInv(sys.logs[i]);
    ReturnKinds(sys.layers[i], FramesIn(sys.activities, i), throws);
    DeliverIsAfter(sys, depth, i, action);
    DeliverInStep(sys, Activity(depth, InLayer(i)), i, Do(sys, i, action));
  }

  lemma OnTopInStep(sys: System, top: Activity, m: Move, same: System)
    requires Built(sys) && InStepWith(sys, top) && InStep(same)
    ensures InStep(OnTop(sys, top, m, same))
  {
    match (m, top.stage)
    case (Fail, Running) =>
      FailUpTo(sys, top.depth, top.depth);
      Finished(DoUpTo(sys, top.depth, FailCall), Activity(top.depth, Before(top.depth)));
    case (Capture, Running) =>
      SamePlace(sys, top, Activity(top.depth, Before(0)));
      Pushed(sys, Activity(top.depth, Before(0)));
    case (Complete, Before(i)) =>
      if i < top.depth {
        CompleteInStep(sys, top.depth, i);
      } else {
        Finished(sys, top);
      }
    case (Return(throws), InLayer(i)) => ReturnInStep(sys, top.depth, i, throws);
    case _ =>
  }

  lemma OnLayerInStep(sys: System, k: nat, a: Action)
    requires InStep(sys) && (a.Subscribe? || a.Unsubscribe? || a.Erase?)
    ensures InStep(Do(sys, k, a))
  {
    if k < |sys.layers| {
      SameKinds(sys.layers[k], a);
      forall j | 0 <= j < |sys.layers|
        ensures LayerInStep(Do(sys, k, a), j, [])
      {
        assert LayerInStep(sys, j, []);
      }
    }
  }

  lemma NextInStep(sys: System, m: Move)
    requires InStep(sys) && Built(sys)
    ensures InStep(Next(sys, m))
  {
    if m.OnLayer? && !Top(sys).Before? && (m.action.Subscribe? || m.action.Unsubscribe? || m.action.Erase?) {
      OnLayerInStep(sys, m.layer, m.action);
    } else if m.Call? && !Top(sys).Before? && m.depth <= |sys.layers| {
      InvokeUpTo(sys, m.depth, m.key);
      Pushed(DoUpTo(sys, m.depth, Invoke(m.key)), Activity(m.depth, Running));
    } else if sys.activities != [] {
      Popped(sys);
      SameLayersBuilt(sys, PopActivity(sys));
      OnTopInStep(PopActivity(sys), sys.activities[|sys.activities| - 1], m, sys);
    }
  }

  /** In every run of any number of layers, a call that is being delivered in one layer has finished
      with all the layers further in and has not begun with those further out. */
  lemma {:induction false} LayersStayInStep(n: nat, moves: seq<Move>)
    ensures InStep(Play(n, moves))
  {
    if moves != [] {
      LayersStayInStep(n, moves[..|moves| - 1]);
      PlayBuilt(n, moves[..|moves| - 1]);
      NextInStep(Play(n, moves[..|moves| - 1]), moves[|moves| - 1]);
    }
  }
}
