/** Chains of completions over one handle (core/call.hpp): observing an observed handle again. */
module Completions {
  import opened Wrappers

  /** What a layer does with the world once the result is captured. */
  type Completion<!W> = W -> W

  /** What a layer does when a call is prepared, and the completion it leaves for later, if any. */
  type Prepare<!W> = W -> (W, Option<Completion<W>>)

  function Prepared<W>(prepare: Option<Prepare<W>>, w: W): (W, Option<Completion<W>>) {
    match prepare
    case Some(p) => p(w)
    case None => (w, None)
  }

  function Completed<W>(completion: Option<Completion<W>>, w: W): W {
    match completion
    case Some(c) => c(w)
    case None => w
  }

  function Both<W>(first: Option<Completion<W>>, second: Option<Completion<W>>): Option<Completion<W>> {
    if first.None? then second
    else if second.None? then first
    else Some(w => second.value(first.value(w)))
  }

  /** with_completion: what the handle prepared before, then what is added. */
  function WithCompletion<W>(previous: Option<Prepare<W>>, prepare: Option<Prepare<W>>): Prepare<W> {
    w =>
      var (w', first) := Prepared(previous, w);
      var (w'', second) := Prepared(prepare, w');
      (w'', Both(first, second))
  }

  /** A bare handle with layers added one after the other. */
  function Layered<W>(layers: seq<Option<Prepare<W>>>): Option<Prepare<W>> {
    if layers == [] then None
    else Some(WithCompletion(Layered(layers[..|layers| - 1]), layers[|layers| - 1]))
  }

  // --------------------------------------------------------------------
  // What a chain is: every layer in turn.
  // --------------------------------------------------------------------

  /** Prepares the layers from the innermost one out, and lists the completions they leave. */
  function PrepareInTurn<W>(layers: seq<Option<Prepare<W>>>, w: W): (W, seq<Completion<W>>) {
    if layers == [] then (w, [])
    else
      var (w', left) := PrepareInTurn(layers[..|layers| - 1], w);
      var (w'', last) := Prepared(layers[|layers| - 1], w');
      (w'', left + if last.Some? then [last.value] else [])
  }

  function CompleteInTurn<W>(completions: seq<Completion<W>>, w: W): W {
    if completions == [] then w
    else completions[|completions| - 1](CompleteInTurn(completions[..|completions| - 1], w))
  }

  /** A call over any number of layers prepares each of them once, innermost first, and on success
      completes each of those that asked for it once, in the same order. */
  lemma {:induction false} LayersTakeTurns<W>(layers: seq<Option<Prepare<W>>>, w: W, captured: W)
    ensures Prepared(Layered(layers), w).0 == PrepareInTurn(layers, w).0
    ensures Completed(Prepared(Layered(layers), w).1, captured) == CompleteInTurn(PrepareInTurn(layers, w).1, captured)
  {
    if layers != [] {
      var init, last := layers[..|layers| - 1], layers[|layers| - 1];
      LayersTakeTurns(init, w, captured);
      var (w', left) := PrepareInTurn(init, w);
      var (w'', second) := Prepared(last, w');
      if second.Some? {
        assert (left + [second.value])[..|left|] == left;
      } else {
        assert left + [] == left;
      }
    }
  }

  // --------------------------------------------------------------------
  // The events of several observation layers.
  // --------------------------------------------------------------------

  datatype LayerEvent = Snapshot(layer: nat) | Delivery(layer: nat)

  /** An observation layer: a snapshot when the call is prepared, a delivery when it succeeds. */
  function Observer(layer: nat): Option<Prepare<seq<LayerEvent>>> {
    Some(trace => (trace + [Snapshot(layer)], Some(events => events + [Delivery(layer)])))
  }

  function Observers(n: nat): (r: seq<Option<Prepare<seq<LayerEvent>>>>)
    ensures |r| == n
  {
    if n == 0 then [] else Observers(n - 1) + [Observer(n - 1)]
  }

  function Snapshots(n: nat): seq<LayerEvent> {
    seq(n, i requires 0 <= i => Snapshot(i))
  }

  function Deliveries(n: nat): seq<LayerEvent> {
    seq(n, i requires 0 <= i => Delivery(i))
  }

  lemma OneMoreInTurn<W>(layers: seq<Option<Prepare<W>>>, last: Prepare<W>, w: W, captured: W)
    ensures var (w', left) := PrepareInTurn(layers, w);
            var next := last(w');
            && PrepareInTurn(layers + [Some(last)], w).0 == next.0
            && CompleteInTurn(PrepareInTurn(layers + [Some(last)], w).1, captured)
               == Completed(next.1, CompleteInTurn(left, captured))
  {
    assert (layers + [Some(last)])[..|layers|] == layers;
    var (w', left) := PrepareInTurn(layers, w);
    var next := last(w');
    if next.1.Some? {
      assert (left + [next.1.value])[..|left|] == left;
    } else {
      assert left + [] == left;
    }
  }

  lemma OneMoreEvent(n: nat, trace: seq<LayerEvent>)
    ensures (trace + Snapshots(n)) + [Snapshot(n)] == trace + Snapshots(n + 1)
    ensures (trace + Deliveries(n)) + [Delivery(n)] == trace + Deliveries(n + 1)
  {
  }

  lemma OneMoreObserver(n: nat, trace: seq<LayerEvent>, captured: seq<LayerEvent>)
    ensures var (w, left) := PrepareInTurn(Observers(n), trace);
            && PrepareInTurn(Observers(n + 1), trace).0 == w + [Snapshot(n)]
            && CompleteInTurn(PrepareInTurn(Observers(n + 1), trace).1, captured)
               == CompleteInTurn(left, captured) + [Delivery(n)]
  {
    OneMoreInTurn(Observers(n), Observer(n).value, trace, captured);
  }

  lemma {:induction false} ObserversInTurn(n: nat, trace: seq<LayerEvent>, captured: seq<LayerEvent>)
    ensures PrepareInTurn(Observers(n), trace).0 == trace + Snapshots(n)
    ensures CompleteInTurn(PrepareInTurn(Observers(n), trace).1, captured) == captured + Deliveries(n)
  {
    if n > 0 {
      ObserversInTurn(n - 1, trace, captured);
      OneMoreObserver(n - 1, trace, captured);
      OneMoreEvent(n - 1, trace);
      OneMoreEvent(n - 1, captured);
    }
  }

  /** `n` observation layers: all snapshots before the target is entered and all deliveries after the
      capture, each layer once, the inner ones first. */
  lemma InnerLayersFirst(n: nat, trace: seq<LayerEvent>, captured: seq<LayerEvent>)
    ensures Prepared(Layered(Observers(n)), trace).0 == trace + Snapshots(n)
    ensures Completed(Prepared(Layered(Observers(n)), trace).1, captured) == captured + Deliveries(n)
  {
    LayersTakeTurns(Observers(n), trace, captured);
    ObserversInTurn(n, trace, captured);
  }
}
