/** Observed handles over shared listener objects (extensions/observed.hpp). Lists, snapshots and
    subscriptions hold the same objects, so ending a listener is seen through all of them. Each
    operation is proved to be one action of the delivery machine. */
module Observation {
  import opened Wrappers
  import opened Types
  import P = ObservationPolicy
  import ObservationTheorems

  class ListenerCell {
    const key: OperationKey
    var active: bool
    ghost const id: nat

    constructor (key: OperationKey, ghost id: nat)
      ensures this.key == key && this.id == id && active
    {
      this.key := key;
      this.active := true;
      this.id := id;
    }

    ghost function Value(): P.Listener
      reads this
    {
      P.Listener(key, active)
    }
  }

  ghost function Values(cells: seq<ListenerCell>): (r: seq<P.Listener>)
    reads cells
    ensures |r| == |cells|
    ensures forall i :: 0 <= i < |r| ==> r[i] == cells[i].Value()
  {
    if cells == [] then []
    else Values(cells[..|cells| - 1]) + [cells[|cells| - 1].Value()]
  }

  ghost function Ids(cells: seq<ListenerCell>): (r: seq<nat>)
    ensures |r| == |cells|
    ensures forall i :: 0 <= i < |r| ==> r[i] == cells[i].id
  {
    seq(|cells|, i requires 0 <= i < |cells| => cells[i].id)
  }

  /** Every cell of the list stands among those issued, where its number says. */
  ghost predicate Issued(issued: seq<ListenerCell>, cells: seq<ListenerCell>) {
    forall i :: 0 <= i < |cells| ==> cells[i].id < |issued| && issued[cells[i].id] == cells[i]
  }

  lemma IssuedExtends(issued: seq<ListenerCell>, cells: seq<ListenerCell>, l: ListenerCell)
    requires Issued(issued, cells)
    ensures Issued(issued + [l], cells)
  {
  }

  /** The active listeners of a list, in order. */
  ghost function ActiveOnes(cells: seq<ListenerCell>): seq<ListenerCell>
    reads cells
  {
    if cells == [] then []
    else
      ActiveOnes(cells[..|cells| - 1]) + (if cells[|cells| - 1].active then [cells[|cells| - 1]] else [])
  }

  /** A call in progress, with the list it was prepared with. */
  datatype Activation =
    | Running(call: nat, key: OperationKey, snapshot: seq<ListenerCell>)
    | InCallback(call: nat, key: OperationKey, snapshot: seq<ListenerCell>, at: nat)

  ghost function FrameOf(a: Activation): P.Frame {
    match a
    case Running(c, k, s) => P.Body(c, k, Ids(s))
    case InCallback(c, k, s, at) => P.Callback(c, k, Ids(s), at)
  }

  ghost function FramesOf(stack: seq<Activation>): (r: seq<P.Frame>)
    ensures |r| == |stack|
    ensures forall i :: 0 <= i < |r| ==> r[i] == FrameOf(stack[i])
  {
    seq(|stack|, i requires 0 <= i < |stack| => FrameOf(stack[i]))
  }

  /** What the observed handles of one source share. */
  class ObservationState {
    var listeners: seq<ListenerCell>
    var calls: nat
    var stack: seq<Activation>
    ghost var issued: seq<ListenerCell>
    ghost var trace: seq<P.Event>

    ghost predicate Known(cells: seq<ListenerCell>)
      reads this`issued
    {
      Issued(issued, cells)
    }

    ghost predicate Valid()
      reads this`issued, this`listeners, this`stack
    {
      && (forall i :: 0 <= i < |issued| ==> issued[i].id == i)
      && Known(listeners)
      && forall i :: 0 <= i < |stack| ==>
                       && Known(stack[i].snapshot)
                       && (stack[i].InCallback? ==> stack[i].at < |stack[i].snapshot|)
    }

    ghost function Abs(): P.State
      reads this, issued
    {
      P.State(Values(issued), Ids(listeners), calls, FramesOf(stack), trace)
    }

    constructor ()
      ensures Valid() && Abs() == P.INITIAL_STATE && issued == []
    {
      listeners, calls, stack := [], 0, [];
      issued, trace := [], [];
    }

    lemma KeptNext(prefix: seq<ListenerCell>, l: ListenerCell, kept: seq<ListenerCell>)
      requires Valid() && Known([l]) && Known(kept)
      requires Ids(kept) == P.Pending(Values(issued), None, Ids(prefix))
      ensures var next := if l.active then kept + [l] else kept;
              Known(next) && Ids(next) == P.Pending(Values(issued), None, Ids(prefix + [l]))
    {
      assert Ids(prefix + [l]) == Ids(prefix) + [l.id];
      assert Ids(kept + [l]) == Ids(kept) + [l.id];
      assert [l][0] == l;
      assert Values(issued)[l.id] == l.Value();
      ObservationTheorems.PendingSnoc(Values(issued), Ids(prefix), l.id);
    }

    lemma ActiveArePending(cells: seq<ListenerCell>)
      requires Valid() && Known(cells)
      ensures Known(ActiveOnes(cells))
      ensures Ids(ActiveOnes(cells)) == P.Pending(Values(issued), None, Ids(cells))
    {
      if cells != [] {
        var init, last := cells[..|cells| - 1], cells[|cells| - 1];
        ActiveArePending(init);
        assert cells == init + [last];
        assert Known([last]);
        assert ActiveOnes(cells) == if last.active then ActiveOnes(init) + [last] else ActiveOnes(init);
        KeptNext(init, last, ActiveOnes(init));
      }
    }

    /** Erases the inactive listeners, keeping the order of the others. */
    method EraseInactive() returns (kept: seq<ListenerCell>)
      requires Valid()
      ensures Known(kept)
      ensures Ids(kept) == P.Pending(Values(issued), None, Ids(listeners))
    {
      kept := [];
      for i := 0 to |listeners|
        invariant kept == ActiveOnes(listeners[..i])
      {
        assert listeners[..i + 1][..i] == listeners[..i];
        if listeners[i].active {
          kept := kept + [listeners[i]];
        }
      }
      assert listeners[..|listeners|] == listeners;
      ActiveArePending(listeners);
    }

    /** Appends a listener to those ever issued. */
    method Issue(key: OperationKey, kept: seq<ListenerCell>) returns (listener: ListenerCell)
      requires Valid() && Known(kept)
      modifies this`issued, this`trace
      ensures Valid() && fresh(listener) && listener.key == key && listener.id == |old(issued)|
      ensures Known(kept + [listener]) && Known([listener])
      ensures Values(issued) == old(Values(issued)) + [P.Listener(key, true)]
      ensures trace == old(trace) + [P.Subscribed(listener.id, key)]
    {
      ghost var cells := issued;
      listener := new ListenerCell(key, |issued|);
      IssuedExtends(issued, listeners, listener);
      IssuedExtends(issued, kept, listener);
      forall i | 0 <= i < |stack|
        ensures Issued(issued + [listener], stack[i].snapshot)
      {
        IssuedExtends(issued, stack[i].snapshot, listener);
      }
      trace := trace + [P.Subscribed(listener.id, key)];
      issued := issued + [listener];
      assert issued[..|cells|] == cells;
    }

    /** The list becomes `list`. */
    method Relist(list: seq<ListenerCell>)
      requires Valid() && Known(list)
      modifies this`listeners
      ensures Valid() && Ids(listeners) == Ids(list)
    {
      listeners := list;
    }

    /** Puts a new listener at the end of what is kept of the list. */
    method Register(key: OperationKey, kept: seq<ListenerCell>) returns (listener: ListenerCell)
      requires Valid() && Known(kept)
      modifies this`listeners, this`issued, this`trace
      ensures Valid() && fresh(listener) && listener.key == key && Known([listener])
      ensures Values(issued) == old(Values(issued)) + [P.Listener(key, true)]
      ensures Ids(listeners) == Ids(kept) + [|old(issued)|]
      ensures trace == old(trace) + [P.Subscribed(|old(issued)|, key)]
    {
      listener := Issue(key, kept);
      Relist(kept + [listener]);
    }

    lemma ErasedIsActive()
      requires Valid()
      ensures P.Without(Values(issued), P.AllListed(Abs()), Ids(listeners)) == P.Pending(Values(issued), None, Ids(listeners))
    {
      ObservationTheorems.WithoutAll(Values(issued), P.AllListed(Abs()), Ids(listeners));
    }

    /** A new listener, put where the inactive ones have been erased. */
    method Subscribe(key: OperationKey) returns (listener: ListenerCell)
      requires Valid()
      modifies this`listeners, this`issued, this`trace
      ensures Valid() && fresh(listener) && listener.key == key && Known([listener])
      ensures Abs() == P.AfterStep(old(Abs()), key)
    {
      ErasedIsActive();
      var kept := EraseInactive();
      listener := Register(key, kept);
    }

    method Unsubscribe(listener: ListenerCell)
      requires Valid() && Known([listener])
      modifies listener`active, this`trace
      ensures Valid()
      ensures Abs() == P.Step(old(Abs()), P.Unsubscribe(listener.id))
    {
      ghost var before := Abs();
      assert [listener][0] == listener;
      listener.active := false;
      trace := trace + [P.Unsubscribed(listener.id)];
      assert Values(issued) == before.listeners[listener.id := before.listeners[listener.id].(active := false)];
    }

    /** Takes the snapshot that the call will deliver to. */
    method Prepare(key: OperationKey)
      requires Valid()
      modifies this`calls, this`stack, this`trace
      ensures Valid()
      ensures Abs() == P.Step(old(Abs()), P.Invoke(key))
    {
      ghost var before := Abs();
      stack := stack + [Running(calls, key, listeners)];
      trace := trace + [P.Prepared(calls, key, |issued|)];
      calls := calls + 1;
      assert FramesOf(stack) == before.stack + [FrameOf(Running(before.calls, key, listeners))];
    }

    ghost predicate TargetRuns()
      reads this`stack
    {
      stack != [] && stack[|stack| - 1].Running?
    }

    ghost predicate ListenerRuns()
      reads this`stack
    {
      stack != [] && stack[|stack| - 1].InCallback?
    }

    lemma TopFrame()
      requires Valid() && stack != []
      ensures Abs().stack != [] && Abs().stack[|stack| - 1] == FrameOf(stack[|stack| - 1])
      ensures ListenerRuns() ==> P.InCallback(Abs())
    {
    }

    /** Leaves the innermost call or callback. */
    method PopActivation() returns (top: Activation)
      requires Valid() && stack != []
      modifies this`stack
      ensures Valid() && top == old(stack[|stack| - 1]) && Abs() == P.Pop(old(Abs()))
      ensures Known(top.snapshot)
    {
      ghost var before := Abs();
      top := stack[|stack| - 1];
      stack := stack[..|stack| - 1];
      assert FramesOf(stack) == before.stack[..|before.stack| - 1];
    }

    /** The target throws, or the frame is refused: no event. */
    method Fail()
      requires Valid() && TargetRuns()
      modifies this`stack, this`trace
      ensures Valid()
      ensures Abs() == P.Step(old(Abs()), P.FailCall)
    {
      TopFrame();
      var top := PopActivation();
      trace := trace + [P.Failed(top.call)];
    }

    /** The delivery loop skips listeners that are inactive or listen to another key. */
    method Skip(key: OperationKey, snapshot: seq<ListenerCell>, from: nat) returns (at: nat)
      requires Valid() && Known(snapshot) && from <= |snapshot|
      ensures at == P.NextMatch(Values(issued), key, Ids(snapshot), from)
      ensures at <= |snapshot|
    {
      at := from;
      while at < |snapshot| && (!snapshot[at].active || snapshot[at].key != key)
        invariant from <= at <= |snapshot|
        invariant P.NextMatch(Values(issued), key, Ids(snapshot), from) == P.NextMatch(Values(issued), key, Ids(snapshot), at)
      {
        assert Values(issued)[snapshot[at].id] == snapshot[at].Value();
        at := at + 1;
      }
      if at < |snapshot| {
        assert Values(issued)[snapshot[at].id] == snapshot[at].Value();
      }
    }

    /** Calls the listener at a position of the snapshot. */
    method EnterCallback(call: nat, key: OperationKey, snapshot: seq<ListenerCell>, at: nat)
      requires Valid() && Known(snapshot) && at < |snapshot|
      modifies this`stack, this`trace
      ensures Valid()
      ensures Abs() == P.StopAt(old(Abs()), call, key, Ids(snapshot), at)
    {
      ghost var before := FramesOf(stack);
      stack := stack + [InCallback(call, key, snapshot, at)];
      trace := trace + [P.Delivered(call, snapshot[at].id)];
      assert FramesOf(stack) == before + [P.Callback(call, key, Ids(snapshot), at)];
    }

    /** The delivery loop: enters the callback of the next active listener for the key, or ends. */
    method Deliver(call: nat, key: OperationKey, snapshot: seq<ListenerCell>, from: nat)
      requires Valid() && Known(snapshot) && from <= |snapshot|
      modifies this`stack, this`trace
      ensures Valid()
      ensures Abs() == P.Advance(old(Abs()), call, key, Ids(snapshot), from)
    {
      var at := Skip(key, snapshot, from);
      if at < |snapshot| {
        EnterCallback(call, key, snapshot, at);
      } else {
        Record(P.Completed(call));
      }
    }

    /** What the proofs keep of an event. */
    ghost method Record(e: P.Event)
      requires Valid()
      modifies this`trace
      ensures Valid() && Abs() == P.Emit(old(Abs()), e)
    {
      trace := trace + [e];
    }

    /** The result is captured and delivery begins. */
    method Capture()
      requires Valid() && TargetRuns()
      modifies this`stack, this`trace
      ensures Valid()
      ensures Abs() == P.Step(old(Abs()), P.CaptureResult)
    {
      TopFrame();
      var top := PopActivation();
      Record(P.Captured(top.call));
      Deliver(top.call, top.key, top.snapshot, 0);
    }

    /** The callback returns, or throws into the sink. */
    method EndCallback(throws: bool) returns (top: Activation)
      requires Valid() && ListenerRuns()
      modifies this`stack, this`trace
      ensures Valid() && Known(top.snapshot) && top.InCallback? && top.at < |top.snapshot|
      ensures P.InCallback(old(Abs())) && Abs() == P.LeftCallback(old(Abs()), throws)
      ensures FrameOf(top) == old(Abs().stack[|stack| - 1])
    {
      TopFrame();
      top := PopActivation();
      if throws {
        Record(P.Sunk(top.call, top.snapshot[top.at].id));
      }
    }

    /** Delivery goes on behind a callback that has ended. */
    method ResumeAfter(top: Activation)
      requires Valid() && Known(top.snapshot) && top.InCallback? && top.at < |top.snapshot|
      modifies this`stack, this`trace
      ensures Valid()
      ensures Abs() == P.Resume(old(Abs()), FrameOf(top))
    {
      Deliver(top.call, top.key, top.snapshot, top.at + 1);
    }

    /** Delivery goes on after a callback, however it ended. */
    method LeaveCallback(throws: bool)
      requires Valid() && ListenerRuns()
      modifies this`stack, this`trace
      ensures Valid()
      ensures P.InCallback(old(Abs())) && Abs() == P.AfterCallback(old(Abs()), throws)
    {
      var top := EndCallback(throws);
      ResumeAfter(top);
    }

    method Finish()
      requires Valid() && ListenerRuns()
      modifies this`stack, this`trace
      ensures Valid()
      ensures Abs() == P.Step(old(Abs()), P.FinishCallback)
    {
      LeaveCallback(false);
    }

    method Throw()
      requires Valid() && ListenerRuns()
      modifies this`stack, this`trace
      ensures Valid()
      ensures Abs() == P.Step(old(Abs()), P.ThrowInCallback)
    {
      LeaveCallback(true);
    }
  }

  /** The entries of a schema for one member. */
  function OfMember(schema: seq<OperationKey>, member: MemberId): seq<OperationKey> {
    if schema == [] then []
    else
      var init, last := schema[..|schema| - 1], schema[|schema| - 1];
      OfMember(init, member) + (if last.member == member then [last] else [])
  }

  /** The entries for a member are those of the schema that name it, each as often as it stands there. */
  lemma {:induction false} OfMemberIsExact(schema: seq<OperationKey>, member: MemberId, key: OperationKey)
    ensures key in OfMember(schema, member) <==> key in schema && key.member == member
    ensures |OfMember(schema, member)| <= 1 <==>
              forall i, j :: 0 <= i < j < |schema| ==> !(schema[i].member == member && schema[j].member == member)
  {
    if schema != [] {
      var init, last := schema[..|schema| - 1], schema[|schema| - 1];
      OfMemberIsExact(init, member, key);
      assert schema == init + [last];
      if last.member == member && OfMember(init, member) != [] {
        OfMemberIsExact(init, member, OfMember(init, member)[0]);
        assert OfMember(init, member)[0] in init;
        var i :| 0 <= i < |init| && init[i] == OfMember(init, member)[0];
        assert schema[i].member == member && schema[|schema| - 1].member == member;
      } else if last.member == member {
        forall i | 0 <= i < |init|
          ensures init[i].member != member
        {
          OfMemberIsExact(init, member, init[i]);
        }
      }
    }
  }

  lemma {:induction false} OfMemberPrefix(schema: seq<OperationKey>, n: nat, member: MemberId)
    requires n <= |schema|
    ensures OfMember(schema[..n], member) <= OfMember(schema, member)
  {
    if n < |schema| {
      assert schema[..|schema| - 1][..n] == schema[..n];
      OfMemberPrefix(schema[..|schema| - 1], n, member);
    } else {
      assert schema[..n] == schema;
    }
  }

  class ObservedHandle {
    /** The keys of the source's schema; None for a null schema. */
    const schema: Option<seq<OperationKey>>
    const state: ObservationState

    constructor (schema: Option<seq<OperationKey>>)
      ensures this.schema == schema && fresh(state) && state.Valid() && state.Abs() == P.INITIAL_STATE
    {
      this.schema := schema;
      this.state := new ObservationState();
    }

    /** One more handle over a state, with a schema of its own. */
    constructor Share(schema: Option<seq<OperationKey>>, state: ObservationState)
      ensures this.schema == schema && this.state == state
    {
      this.schema, this.state := schema, state;
    }

    method After(key: OperationKey) returns (r: Result<ListenerCell, DiagnosticCode>)
      requires state.Valid()
      modifies state`listeners, state`issued, state`trace
      ensures state.Valid()
      ensures r.Success? <==> schema.Some? && key in schema.value
      ensures r.Failure? ==> r.error == (if schema.None? then NullHandle else NotFound) && state.Abs() == old(state.Abs())
      ensures r.Success? ==> && state.Abs() == P.AfterStep(old(state.Abs()), key)
                             && fresh(r.value) && r.value.key == key && state.Known([r.value])
    {
      if schema.None? {
        return Failure(NullHandle);
      }
      if key !in schema.value {
        return Failure(NotFound);
      }
      var listener := state.Subscribe(key);
      return Success(listener);
    }

    /** The one operation of a member. */
    method OnlyOperation(member: MemberId) returns (r: Result<OperationKey, DiagnosticCode>)
      ensures var matches := OfMember(schema.GetOr([]), member);
              r == if |matches| == 1 then Success(matches[0])
                   else Failure(if matches == [] then NotFound else Ambiguous)
      ensures r.Success? ==> r.value in schema.GetOr([])
    {
      var operations := schema.GetOr([]);
      var selected: Option<OperationKey> := None;
      for i := 0 to |operations|
        invariant OfMember(operations[..i], member) == if selected.Some? then [selected.value] else []
        invariant selected.Some? ==> selected.value in operations
      {
        assert operations[..i + 1][..i] == operations[..i];
        if operations[i].member == member {
          if selected.Some? {
            OfMemberPrefix(operations, i + 1, member);
            return Failure(Ambiguous);
          }
          selected := Some(operations[i]);
        }
      }
      assert operations[..|operations|] == operations;
      r := if selected.Some? then Success(selected.value) else Failure(NotFound);
    }

    /** Subscribes to the one operation of a member. */
    method AfterMember(member: MemberId) returns (r: Result<ListenerCell, DiagnosticCode>)
      requires state.Valid()
      modifies state`listeners, state`issued, state`trace
      ensures state.Valid()
      ensures var matches := OfMember(schema.GetOr([]), member);
              if |matches| == 1 then
                r.Success? && r.value.key == matches[0]
                && state.Abs() == P.AfterStep(old(state.Abs()), matches[0])
              else
                r == Failure(if matches == [] then NotFound else Ambiguous) && state.Abs() == old(state.Abs())
    {
      var selected := OnlyOperation(member);
      if selected.Failure? {
        return Failure(selected.error);
      }
      r := After(selected.value);
    }
  }

  /** The token that keeps a subscription; it can be moved but not copied. */
  class Subscription {
    var listener: ListenerCell?

    constructor (listener: ListenerCell?)
      ensures this.listener == listener
    {
      this.listener := listener;
    }

    method Release(state: ObservationState)
      requires state.Valid() && (listener != null ==> state.Known([listener]))
      modifies this, listener, state`trace
      ensures state.Valid() && listener == null
      ensures state.Abs() == if old(listener) == null then old(state.Abs())
                                else P.Step(old(state.Abs()), P.Unsubscribe(old(listener.id)))
    {
      if listener != null {
        state.Unsubscribe(listener);
      }
      listener := null;
    }

    /** Move assignment ends the subscription that was held, unless a token is moved to itself. */
    method MoveFrom(other: Subscription, state: ObservationState)
      requires state.Valid() && (listener != null ==> state.Known([listener]))
      modifies this, other, listener, state`trace
      ensures state.Valid()
      ensures this == other ==> listener == old(listener) && state.Abs() == old(state.Abs())
      ensures this != other ==> listener == old(other.listener) && other.listener == null
      ensures this != other ==>
                state.Abs() == if old(listener) == null then old(state.Abs())
                                  else P.Step(old(state.Abs()), P.Unsubscribe(old(listener.id)))
    {
      if this != other {
        Release(state);
        listener, other.listener := other.listener, null;
      }
    }
  }
}
