/** The budgeted spike scheduler: draining the event queue while the events
    that are processed may post new ones into it. */
module Scheduler {
  import opened Graph
  import MpmcQueue
  import SpikeQueue

  /** Nodes that reach the threshold post a spike of the given voltage. */
  datatype Poster = Poster(threshold: real, voltage: real)

  /** What does not change during a drain. */
  datatype Net = Net(edges: seq<seq<Edge>>, poster: Option<Poster>, capacity: nat, maxHop: nat, propagate: bool)

  /** What changes: activations, the queue, and the history of this drain: the
      nodes that posted a spike and the spikes that the queue accepted. */
  datatype World = World(acts: seq<real>, queue: seq<MpmcQueue.SpikeEvent>, accepted: seq<MpmcQueue.SpikeEvent>, fired: seq<nat>)

  // ----- What one event does -----

  function Spike(p: Poster, id: nat): MpmcQueue.SpikeEvent {
    MpmcQueue.SpikeEvent(id, p.voltage, 0, 0)
  }

  function Posted(w: World, capacity: nat, p: Poster, id: nat): World {
    if |w.queue| < capacity then
      World(w.acts, w.queue + [Spike(p, id)], w.accepted + [Spike(p, id)], w.fired + [id])
    else
      w.(fired := w.fired + [id])
  }

  function Charged(net: Net, w: World, id: nat, dv: real): (w': World)
    requires id < |w.acts|
    ensures |w'.acts| == |w.acts|
  {
    var before, after := w.acts[id], w.acts[id] + dv;
    var v := w.(acts := w.acts[id := after]);
    if net.poster.Some? && before < net.poster.value.threshold <= after
    then Posted(v, net.capacity, net.poster.value, id) else v
  }

  function Dose(voltage: real, weight: real): real {
    voltage * weight * 0.10
  }

  function Spread(net: Net, w: World, edges: seq<Edge>, voltage: real, i: nat): (w': World)
    ensures |w'.acts| == |w.acts|
    decreases |edges| - i
  {
    if i >= |edges| then w
    else
      var e := edges[i];
      if 0 <= e.target < |w.acts| && Dose(voltage, e.weight) > 0.0
      then Spread(net, Charged(net, w, e.target, Dose(voltage, e.weight)), edges, voltage, i + 1)
      else Spread(net, w, edges, voltage, i + 1)
  }

  function Processed(net: Net, w: World, ev: MpmcQueue.SpikeEvent): (w': World)
    requires |net.edges| == |w.acts|
    ensures |w'.acts| == |w.acts|
  {
    if !net.propagate || ev.hop >= net.maxHop || !(0 <= ev.src < |w.acts|) then w
    else Spread(net, w, net.edges[ev.src], ev.voltage, 0)
  }

  /** The world after the k oldest events have been processed, new ones included. */
  function Drained(net: Net, w: World, k: nat): (w': World)
    requires |net.edges| == |w.acts|
    ensures |w'.acts| == |w.acts|
  {
    if k == 0 then w
    else
      var v := Drained(net, w, k - 1);
      if v.queue == [] then v else Processed(net, v.(queue := v.queue[1..]), v.queue[0])
  }

  /** The k events that were processed. */
  function Events(net: Net, w: World, k: nat): seq<MpmcQueue.SpikeEvent>
    requires |net.edges| == |w.acts|
  {
    if k == 0 then []
    else
      var v := Drained(net, w, k - 1);
      Events(net, w, k - 1) + if v.queue == [] then [] else [v.queue[0]]
  }

  // ----- Conservation -----

  /** What was there at first and what was accepted since is what has gone out
      and what is still in, in this order. */
  ghost predicate Balanced(first: seq<MpmcQueue.SpikeEvent>, out: seq<MpmcQueue.SpikeEvent>, w: World) {
    first + w.accepted == out + w.queue
  }

  lemma ChargedBalanced(net: Net, w: World, id: nat, dv: real, first: seq<MpmcQueue.SpikeEvent>, out: seq<MpmcQueue.SpikeEvent>)
    requires id < |w.acts| && Balanced(first, out, w)
    ensures Balanced(first, out, Charged(net, w, id, dv))
  {
    if net.poster.Some? {
      var s := Spike(net.poster.value, id);
      assert first + (w.accepted + [s]) == (first + w.accepted) + [s];
      assert out + (w.queue + [s]) == (out + w.queue) + [s];
    }
  }

  lemma {:induction false} SpreadBalanced(net: Net, w: World, edges: seq<Edge>, voltage: real, i: nat,
                                          first: seq<MpmcQueue.SpikeEvent>, out: seq<MpmcQueue.SpikeEvent>)
    requires Balanced(first, out, w)
    ensures Balanced(first, out, Spread(net, w, edges, voltage, i))
    decreases |edges| - i
  {
    if i < |edges| {
      var e := edges[i];
      if 0 <= e.target < |w.acts| && Dose(voltage, e.weight) > 0.0 {
        var v := Charged(net, w, e.target, Dose(voltage, e.weight));
        ChargedBalanced(net, w, e.target, Dose(voltage, e.weight), first, out);
        SpreadBalanced(net, v, edges, voltage, i + 1, first, out);
      } else {
        SpreadBalanced(net, w, edges, voltage, i + 1, first, out);
      }
    }
  }

  /** Nothing is lost and nothing is made up: the queue stays a FIFO of the first
      events followed by the accepted ones. */
  lemma {:induction false} DrainConserves(net: Net, w: World, k: nat)
    requires |net.edges| == |w.acts| && w.accepted == []
    ensures var d := Drained(net, w, k);
      w.queue + d.accepted == Events(net, w, k) + d.queue
  {
    if k == 0 {
      assert w.queue + [] == w.queue && [] + w.queue == w.queue;
    } else {
      DrainConserves(net, w, k - 1);
      var v, out := Drained(net, w, k - 1), Events(net, w, k - 1);
      if v.queue != [] {
        var ev, popped := v.queue[0], v.(queue := v.queue[1..]);
        assert out + v.queue == (out + [ev]) + v.queue[1..];
        assert Balanced(w.queue, out + [ev], popped);
        if net.propagate && ev.hop < net.maxHop && 0 <= ev.src < |v.acts| {
          SpreadBalanced(net, popped, net.edges[ev.src], ev.voltage, 0, w.queue, out + [ev]);
        }
      } else {
        assert out + [] == out;
      }
    }
  }

  // ----- Where the voltage goes -----

  /** What the edges from position i on bring to node v. */
  function Brought(edges: seq<Edge>, voltage: real, i: nat, v: nat): real
    decreases |edges| - i
  {
    if i >= |edges| then 0.0
    else
      var dose := Dose(voltage, edges[i].weight);
      (if edges[i].target == v && dose > 0.0 then dose else 0.0) + Brought(edges, voltage, i + 1, v)
  }

  /** The weights above zero, of the edges from position i on that lead to v. */
  function WeightTo(edges: seq<Edge>, i: nat, v: nat): real
    decreases |edges| - i
  {
    if i >= |edges| then 0.0
    else (if edges[i].target == v && edges[i].weight > 0.0 then edges[i].weight else 0.0) + WeightTo(edges, i + 1, v)
  }

  /** One event brings a node a tenth of its voltage for every unit of weight. */
  lemma {:induction false} BroughtIsTenth(edges: seq<Edge>, voltage: real, i: nat, v: nat)
    requires voltage > 0.0
    ensures Brought(edges, voltage, i, v) == voltage * WeightTo(edges, i, v) / 10.0
    decreases |edges| - i
  {
    if i < |edges| {
      BroughtIsTenth(edges, voltage, i + 1, v);
      DoseIsTenth(voltage, edges[i].weight);
      Share(voltage, edges[i].weight, WeightTo(edges, i + 1, v));
    }
  }

  lemma DoseIsTenth(voltage: real, weight: real)
    requires voltage > 0.0
    ensures Dose(voltage, weight) == voltage * weight / 10.0 && (Dose(voltage, weight) > 0.0 <==> weight > 0.0)
  {
    assert weight > 0.0 ==> voltage * weight > 0.0;
    assert weight <= 0.0 ==> voltage * -weight >= 0.0;
  }

  lemma Share(voltage: real, x: real, y: real)
    ensures voltage * (x + y) / 10.0 == voltage * x / 10.0 + voltage * y / 10.0
  {
  }

  /** What the processed events bring to node v. */
  function Received(net: Net, events: seq<MpmcQueue.SpikeEvent>, v: nat): real {
    if events == [] then 0.0
    else
      var ev := events[|events| - 1];
      Received(net, events[..|events| - 1], v) +
      if net.propagate && ev.hop < net.maxHop && 0 <= ev.src < |net.edges|
      then Brought(net.edges[ev.src], ev.voltage, 0, v) else 0.0
  }

  lemma {:induction false} SpreadBrings(net: Net, w: World, edges: seq<Edge>, voltage: real, i: nat, v: nat)
    requires v < |w.acts|
    ensures Spread(net, w, edges, voltage, i).acts[v] == w.acts[v] + Brought(edges, voltage, i, v)
    decreases |edges| - i
  {
    if i < |edges| {
      var e, dose := edges[i], Dose(voltage, edges[i].weight);
      if 0 <= e.target < |w.acts| && dose > 0.0 {
        SpreadBrings(net, Charged(net, w, e.target, dose), edges, voltage, i + 1, v);
      } else {
        SpreadBrings(net, w, edges, voltage, i + 1, v);
      }
    }
  }

  /** A node ends with what it had and the doses of the processed events, be they
      old or posted on the way. */
  lemma {:induction false} DrainBrings(net: Net, w: World, k: nat, v: nat)
    requires |net.edges| == |w.acts| && v < |w.acts|
    ensures Drained(net, w, k).acts[v] == w.acts[v] + Received(net, Events(net, w, k), v)
  {
    if k > 0 {
      DrainBrings(net, w, k - 1, v);
      var u, out := Drained(net, w, k - 1), Events(net, w, k - 1);
      if u.queue != [] {
        var ev := u.queue[0];
        assert (out + [ev])[..|out|] == out;
        if net.propagate && ev.hop < net.maxHop && 0 <= ev.src < |u.acts| {
          SpreadBrings(net, u.(queue := u.queue[1..]), net.edges[ev.src], ev.voltage, 0, v);
        }
      } else {
        assert out + [] == out;
      }
    }
  }

  // ----- Who fires -----

  predicate Crossed(before: seq<real>, after: seq<real>, poster: Option<Poster>, i: nat) {
    i < |before| && i < |after| && poster.Some? && before[i] < poster.value.threshold <= after[i]
  }

  ghost predicate Raised(before: seq<real>, after: seq<real>) {
    |before| == |after| && forall i :: 0 <= i < |before| ==> before[i] <= after[i]
  }

  ghost predicate Distinct(s: seq<nat>) {
    forall i, j :: 0 <= i < j < |s| ==> s[i] != s[j]
  }

  /** The nodes that fired are those that crossed the threshold, once each. */
  ghost predicate FiredOnce(net: Net, before: seq<real>, w: World) {
    && Raised(before, w.acts) && Distinct(w.fired)
    && forall i: nat :: i in w.fired <==> Crossed(before, w.acts, net.poster, i)
  }

  lemma ChargedFires(net: Net, before: seq<real>, w: World, id: nat, dv: real)
    requires id < |w.acts| && dv > 0.0 && FiredOnce(net, before, w)
    ensures FiredOnce(net, before, Charged(net, w, id, dv))
  {
    var v := Charged(net, w, id, dv);
    var fires := net.poster.Some? && w.acts[id] < net.poster.value.threshold <= w.acts[id] + dv;
    assert v.acts == w.acts[id := w.acts[id] + dv];
    assert v.fired == if fires then w.fired + [id] else w.fired;
    assert fires ==> id !in w.fired;
  }

  lemma {:induction false} SpreadFires(net: Net, before: seq<real>, w: World, edges: seq<Edge>, voltage: real, i: nat)
    requires FiredOnce(net, before, w)
    ensures FiredOnce(net, before, Spread(net, w, edges, voltage, i))
    decreases |edges| - i
  {
    if i < |edges| {
      var e := edges[i];
      if 0 <= e.target < |w.acts| && Dose(voltage, e.weight) > 0.0 {
        var v := Charged(net, w, e.target, Dose(voltage, e.weight));
        ChargedFires(net, before, w, e.target, Dose(voltage, e.weight));
        SpreadFires(net, before, v, edges, voltage, i + 1);
      } else {
        SpreadFires(net, before, w, edges, voltage, i + 1);
      }
    }
  }

  /** However long the drain, activations only rise, and a node posts a spike
      exactly when it crosses the threshold, so once at most. */
  lemma {:induction false} DrainFiresOnce(net: Net, w: World, k: nat)
    requires |net.edges| == |w.acts| && w.fired == []
    ensures FiredOnce(net, w.acts, Drained(net, w, k))
  {
    if k > 0 {
      DrainFiresOnce(net, w, k - 1);
      var v := Drained(net, w, k - 1);
      if v.queue != [] {
        var ev, popped := v.queue[0], v.(queue := v.queue[1..]);
        assert FiredOnce(net, w.acts, popped);
        if net.propagate && ev.hop < net.maxHop && 0 <= ev.src < |v.acts| {
          SpreadFires(net, w.acts, popped, net.edges[ev.src], ev.voltage, 0);
        }
      }
    }
  }

  // ----- How many events a drain can meet -----

  function IdsBelow(n: nat): (s: set<nat>)
    ensures |s| == n && forall i: nat :: i in s <==> i < n
  {
    if n == 0 then {} else IdsBelow(n - 1) + {n - 1}
  }

  lemma {:induction false} DistinctBelow(s: seq<nat>, ids: set<nat>)
    requires Distinct(s) && forall i :: 0 <= i < |s| ==> s[i] in ids
    ensures |s| <= |ids|
  {
    if s != [] { DistinctBelow(s[..|s| - 1], ids - {s[|s| - 1]}); }
  }

  lemma FiredAtMost(net: Net, before: seq<real>, w: World)
    requires FiredOnce(net, before, w)
    ensures |w.fired| <= |w.acts|
  {
    forall i | 0 <= i < |w.fired|
      ensures w.fired[i] in IdsBelow(|w.acts|)
    {
      assert w.fired[i] in w.fired;
    }
    DistinctBelow(w.fired, IdsBelow(|w.acts|));
  }

  function Spikes(poster: Option<Poster>, ids: seq<nat>): (r: seq<MpmcQueue.SpikeEvent>)
    requires poster.Some? || ids == []
    ensures |r| == |ids| && forall i :: 0 <= i < |r| ==> r[i] == Spike(poster.value, ids[i])
  {
    seq(|ids|, i requires 0 <= i < |ids| => Spike(poster.value, ids[i]))
  }

  /** Every spike posted so far has been accepted. */
  ghost predicate NoneRefused(net: Net, w: World) {
    (net.poster.Some? || w.fired == []) && w.accepted == Spikes(net.poster, w.fired)
  }

  lemma ChargedAccepts(net: Net, before: seq<real>, w: World, id: nat, dv: real, first: seq<MpmcQueue.SpikeEvent>,
                       out: seq<MpmcQueue.SpikeEvent>)
    requires id < |w.acts| && dv > 0.0 && FiredOnce(net, before, w) && Balanced(first, out, w)
    requires |first| + |w.acts| <= net.capacity && NoneRefused(net, w)
    ensures NoneRefused(net, Charged(net, w, id, dv))
  {
    var v := Charged(net, w, id, dv);
    ChargedFires(net, before, w, id, dv);
    FiredAtMost(net, before, v);
    assert |first| + |w.accepted| == |out| + |w.queue|;
  }

  lemma {:induction false} SpreadAccepts(net: Net, before: seq<real>, w: World, edges: seq<Edge>, voltage: real, i: nat,
                                         first: seq<MpmcQueue.SpikeEvent>, out: seq<MpmcQueue.SpikeEvent>)
    requires FiredOnce(net, before, w) && Balanced(first, out, w)
    requires |first| + |w.acts| <= net.capacity && NoneRefused(net, w)
    ensures NoneRefused(net, Spread(net, w, edges, voltage, i))
    decreases |edges| - i
  {
    if i < |edges| {
      var e := edges[i];
      if 0 <= e.target < |w.acts| && Dose(voltage, e.weight) > 0.0 {
        var v := Charged(net, w, e.target, Dose(voltage, e.weight));
        ChargedFires(net, before, w, e.target, Dose(voltage, e.weight));
        ChargedBalanced(net, w, e.target, Dose(voltage, e.weight), first, out);
        ChargedAccepts(net, before, w, e.target, Dose(voltage, e.weight), first, out);
        SpreadAccepts(net, before, v, edges, voltage, i + 1, first, out);
      } else {
        SpreadAccepts(net, before, w, edges, voltage, i + 1, first, out);
      }
    }
  }

  lemma ProcessedAccepts(net: Net, before: seq<real>, v: World, first: seq<MpmcQueue.SpikeEvent>, out: seq<MpmcQueue.SpikeEvent>)
    requires |net.edges| == |v.acts| && v.queue != []
    requires FiredOnce(net, before, v) && Balanced(first, out, v)
    requires |first| + |v.acts| <= net.capacity && NoneRefused(net, v)
    ensures NoneRefused(net, Processed(net, v.(queue := v.queue[1..]), v.queue[0]))
  {
    var ev, popped := v.queue[0], v.(queue := v.queue[1..]);
    assert out + v.queue == (out + [ev]) + v.queue[1..];
    if net.propagate && ev.hop < net.maxHop && 0 <= ev.src < |v.acts| {
      SpreadAccepts(net, before, popped, net.edges[ev.src], ev.voltage, 0, first, out + [ev]);
    }
  }

  /** With room for one spike of every node, no spike is refused: what the queue
      took in are the spikes of the nodes that crossed the threshold, in order. */
  lemma {:induction false} DrainRefusesNothing(net: Net, w: World, k: nat)
    requires |net.edges| == |w.acts| && w.accepted == [] && w.fired == []
    requires |w.queue| + |w.acts| <= net.capacity
    ensures NoneRefused(net, Drained(net, w, k))
  {
    if k > 0 {
      DrainRefusesNothing(net, w, k - 1);
      DrainFiresOnce(net, w, k - 1);
      DrainConserves(net, w, k - 1);
      var v, out := Drained(net, w, k - 1), Events(net, w, k - 1);
      if v.queue != [] {
        ProcessedAccepts(net, w.acts, v, w.queue, out);
      }
    }
  }

  /** Every spike taken in names a node that fired, with the posting voltage, at
      hop 0 and without a deadline. */
  ghost predicate SpikesOk(net: Net, w: World) {
    forall s :: s in w.accepted ==>
      && net.poster.Some? && s.src >= 0 && (s.src as nat) in w.fired
      && s.voltage == net.poster.value.voltage && s.hop == 0 && s.deadline == 0
  }

  lemma ChargedSpikes(net: Net, w: World, id: nat, dv: real)
    requires id < |w.acts| && SpikesOk(net, w)
    ensures SpikesOk(net, Charged(net, w, id, dv))
  {
    var v := Charged(net, w, id, dv);
    assert forall i :: i in w.fired ==> i in v.fired;
  }

  lemma {:induction false} SpreadSpikes(net: Net, w: World, edges: seq<Edge>, voltage: real, i: nat)
    requires SpikesOk(net, w)
    ensures SpikesOk(net, Spread(net, w, edges, voltage, i))
    decreases |edges| - i
  {
    if i < |edges| {
      var e := edges[i];
      if 0 <= e.target < |w.acts| && Dose(voltage, e.weight) > 0.0 {
        ChargedSpikes(net, w, e.target, Dose(voltage, e.weight));
        SpreadSpikes(net, Charged(net, w, e.target, Dose(voltage, e.weight)), edges, voltage, i + 1);
      } else {
        SpreadSpikes(net, w, edges, voltage, i + 1);
      }
    }
  }

  lemma {:induction false} DrainSpikes(net: Net, w: World, k: nat)
    requires |net.edges| == |w.acts| && w.accepted == []
    ensures SpikesOk(net, Drained(net, w, k))
  {
    if k > 0 {
      DrainSpikes(net, w, k - 1);
      var v := Drained(net, w, k - 1);
      if v.queue != [] {
        var ev, popped := v.queue[0], v.(queue := v.queue[1..]);
        if net.propagate && ev.hop < net.maxHop && 0 <= ev.src < |v.acts| {
          SpreadSpikes(net, popped, net.edges[ev.src], ev.voltage, 0);
        }
      }
    }
  }

  /** However long the drain, every spike that the queue has taken in on the way
      comes from a node whose activation crossed the threshold, and carries the
      posting voltage, hop 0 and no deadline. */
  lemma SpikesAreCrossings(net: Net, w: World, k: nat, s: MpmcQueue.SpikeEvent)
    requires |net.edges| == |w.acts| && w.accepted == [] && w.fired == [] && s in Drained(net, w, k).accepted
    ensures net.poster.Some? && 0 <= s.src < |w.acts| &&
      var (before, after) := (w.acts[s.src], Drained(net, w, k).acts[s.src]);
      before < net.poster.value.threshold <= after &&
      s == MpmcQueue.SpikeEvent(s.src, net.poster.value.voltage, 0, 0)
  {
    DrainSpikes(net, w, k);
    DrainFiresOnce(net, w, k);
    assert Crossed(w.acts, Drained(net, w, k).acts, net.poster, s.src as nat);
  }

  lemma {:induction false} SpreadAcceptsFired(net: Net, w: World, edges: seq<Edge>, voltage: real, i: nat)
    requires |w.accepted| <= |w.fired|
    ensures var v := Spread(net, w, edges, voltage, i); |v.accepted| <= |v.fired|
    decreases |edges| - i
  {
    if i < |edges| {
      var e := edges[i];
      if 0 <= e.target < |w.acts| && Dose(voltage, e.weight) > 0.0 {
        SpreadAcceptsFired(net, Charged(net, w, e.target, Dose(voltage, e.weight)), edges, voltage, i + 1);
      } else {
        SpreadAcceptsFired(net, w, edges, voltage, i + 1);
      }
    }
  }

  lemma {:induction false} AcceptedAtMostFired(net: Net, w: World, k: nat)
    requires |net.edges| == |w.acts| && w.accepted == []
    ensures var d := Drained(net, w, k); |d.accepted| <= |d.fired|
  {
    if k > 0 {
      AcceptedAtMostFired(net, w, k - 1);
      var v := Drained(net, w, k - 1);
      if v.queue != [] {
        var ev, popped := v.queue[0], v.(queue := v.queue[1..]);
        if net.propagate && ev.hop < net.maxHop && 0 <= ev.src < |v.acts| {
          SpreadAcceptsFired(net, popped, net.edges[ev.src], ev.voltage, 0);
        }
      }
    }
  }

  lemma {:induction false} EventsCounted(net: Net, w: World, k: nat)
    requires |net.edges| == |w.acts| && Drained(net, w, k).queue != []
    ensures |Events(net, w, k)| == k
  {
    if k > 0 { EventsCounted(net, w, k - 1); }
  }

  /** Even without a budget a drain comes to an end: however the nodes feed each
      other, the queue is empty after one event for each that was waiting and
      one for each node. */
  lemma RunsDry(net: Net, w: World)
    requires |net.edges| == |w.acts| && w.accepted == [] && w.fired == []
    ensures Drained(net, w, |w.queue| + |w.acts|).queue == []
  {
    var k := |w.queue| + |w.acts|;
    var d := Drained(net, w, k);
    DrainConserves(net, w, k);
    assert |w.queue| + |d.accepted| == |Events(net, w, k)| + |d.queue|;
    AcceptedAtMostFired(net, w, k);
    DrainFiresOnce(net, w, k);
    FiredAtMost(net, w.acts, d);
    if d.queue != [] {
      EventsCounted(net, w, k);
      assert false;
    }
  }

  // ----- When a drain stops -----

  /** The time that the drain goes by after k events: the last sample, taken every eight. */
  function Now(now: nat, clock: Option<nat -> nat>, k: nat): nat {
    if clock.None? || k == 0 then now
    else if k % 8 == 0 then clock.value(k)
    else Now(now, clock, k - 1)
  }

  predicate Due(ev: MpmcQueue.SpikeEvent, now: nat) {
    ev.deadline == 0 || ev.deadline <= now
  }

  function MaxEvents(budget: nat): nat {
    budget / 1000 + 32
  }

  /** Neither the event count nor the clock has ended the drain after k events. */
  predicate InBudget(now: nat, budget: nat, clock: Option<nat -> nat>, k: nat) {
    k < MaxEvents(budget) && (clock.Some? && k > 0 && k % 8 == 0 ==> clock.value(k) < now + budget)
  }

  /** The drain goes on to a (k+1)-st event. */
  predicate GoesOn(net: Net, w: World, now: nat, budget: nat, clock: Option<nat -> nat>, k: nat)
    requires |net.edges| == |w.acts|
  {
    var q := Drained(net, w, k).queue;
    InBudget(now, budget, clock, k) && q != [] && Due(q[0], Now(now, clock, k))
  }

  /** The oldest event, not due yet, goes to the end of the queue. */
  function Deferred(w: World): (d: World) {
    if w.queue == [] then w else w.(queue := w.queue[1..] + [w.queue[0]])
  }

  /** The world that a drain of k events leaves. */
  function Outcome(net: Net, w: World, now: nat, budget: nat, clock: Option<nat -> nat>, k: nat): World
    requires |net.edges| == |w.acts|
  {
    var d := Drained(net, w, k);
    if InBudget(now, budget, clock, k) then Deferred(d) else d
  }

  /** A drain loses nothing: what was there and what was accepted is what was
      processed and what remains, in order, but for one event that is not due,
      which is now last. */
  lemma OutcomeConserves(net: Net, w: World, now: nat, budget: nat, clock: Option<nat -> nat>, k: nat)
    requires |net.edges| == |w.acts| && w.accepted == []
    requires !GoesOn(net, w, now, budget, clock, k)
    ensures var d, out := Outcome(net, w, now, budget, clock, k), Events(net, w, k);
      || w.queue + d.accepted == out + d.queue
      || (&& d.queue != []
          && var last := |d.queue| - 1;
             && !Due(d.queue[last], Now(now, clock, k))
             && w.queue + d.accepted == out + [d.queue[last]] + d.queue[..last])
  {
    DrainConserves(net, w, k);
    var v, out := Drained(net, w, k), Events(net, w, k);
    if InBudget(now, budget, clock, k) && v.queue != [] {
      var d := Deferred(v);
      assert d.queue[..|d.queue| - 1] == v.queue[1..];
      assert out + [v.queue[0]] + v.queue[1..] == out + v.queue;
    }
  }

  lemma {:induction false} NowIsSample(now: nat, clock: Option<nat -> nat>, k: nat)
    ensures Now(now, clock, k) == if clock.None? || k < 8 then now else clock.value(k / 8 * 8)
  {
    if k > 0 && clock.Some? && k % 8 != 0 { NowIsSample(now, clock, k - 1); }
  }

  /** The drain has a reason to stop after k events: nothing waits, or budget/1000
      + 32 events are done, or the clock, looked at after every eighth event, has
      passed the end, or the oldest event is not due at the last sample. */
  predicate MayStop(net: Net, w: World, now: nat, budget: nat, clock: Option<nat -> nat>, k: nat)
    requires |net.edges| == |w.acts|
  {
    var q := Drained(net, w, k).queue;
    || q == []
    || k >= budget / 1000 + 32
    || (clock.Some? && k > 0 && k % 8 == 0 && clock.value(k) >= now + budget)
    || (q[0].deadline > 0 && q[0].deadline > if clock.None? || k < 8 then now else clock.value(k / 8 * 8))
  }

  /** A drain goes on exactly as long as it has no reason to stop. */
  lemma StopsExactly(net: Net, w: World, now: nat, budget: nat, clock: Option<nat -> nat>, k: nat)
    requires |net.edges| == |w.acts|
    ensures GoesOn(net, w, now, budget, clock, k) <==> !MayStop(net, w, now, budget, clock, k)
  {
    NowIsSample(now, clock, k);
  }

  /** One event in numbers: below the hop limit, and with its source in range, it
      raises every node by a tenth of its voltage for every unit of weight that
      leads there; any other event changes nothing. */
  lemma EventBrings(net: Net, w: World, ev: MpmcQueue.SpikeEvent, v: nat)
    requires |net.edges| == |w.acts| && v < |w.acts| && net.propagate && ev.voltage > 0.0
    ensures var w' := Processed(net, w, ev);
      if ev.hop < net.maxHop && 0 <= ev.src < |w.acts|
      then w'.acts[v] == w.acts[v] + ev.voltage * WeightTo(net.edges[ev.src], 0, v) / 10.0
      else w' == w
  {
    if ev.hop < net.maxHop && 0 <= ev.src < |w.acts| {
      SpreadBrings(net, w, net.edges[ev.src], ev.voltage, 0, v);
      BroughtIsTenth(net.edges[ev.src], ev.voltage, 0, v);
    }
  }

  // ----- The scheduler in place -----

  class Scheduler {
    const edges: seq<seq<Edge>>
    const poster: Option<Poster>
    const maxHop: nat
    const queue: SpikeQueue.Queue
    var acts: seq<real>
    var propagate: bool
    ghost var accepted: seq<MpmcQueue.SpikeEvent>  // since the last drain began
    ghost var fired: seq<nat>

    ghost predicate Valid()
      reads this, queue, queue.seqs, queue.data
    {
      queue.Valid() && |acts| == |edges|
    }

    ghost function Repr(): set<object> {
      {this, queue, queue.seqs, queue.data}
    }

    ghost function State(): World
      reads this, queue
    {
      World(acts, queue.contents, accepted, fired)
    }

    ghost function Wiring(): Net
      reads this
    {
      Net(edges, poster, queue.seqs.Length, maxHop, propagate)
    }

    constructor (edges: seq<seq<Edge>>, poster: Option<Poster>, maxHop: nat, capacity: nat, blank: MpmcQueue.SpikeEvent)
      requires 2 <= capacity
      ensures Valid() && this.edges == edges && this.poster == poster && this.maxHop == maxHop
      ensures fresh(Repr()) && queue.seqs.Length == capacity && queue.contents == []
    {
      this.edges, this.poster, this.maxHop := edges, poster, maxHop;
      queue := new SpikeQueue.Queue(capacity, blank);
      acts := seq(|edges|, _ => 0.0);
      propagate, accepted, fired := true, [], [];
    }

    method PostSpike(id: nat, p: Poster) returns (ok: bool)
      requires Valid()
      modifies Repr()
      ensures Valid() && propagate == old(propagate)
      ensures State() == Posted(old(State()), queue.seqs.Length, p, id)
      ensures ok == (|old(queue.contents)| < queue.seqs.Length)
    {
      ok := queue.TryPush(Spike(p, id));
      if ok { accepted := accepted + [Spike(p, id)]; }
      fired := fired + [id];
    }

    method AddVoltageTo(id: nat, dv: real)
      requires Valid() && id < |acts|
      modifies Repr()
      ensures Valid() && propagate == old(propagate)
      ensures State() == Charged(Wiring(), old(State()), id, dv)
    {
      var before := acts[id];
      acts := acts[id := before + dv];
      if poster.Some? {
        var after := acts[id];
        if before < poster.value.threshold && after >= poster.value.threshold {
          var _ := PostSpike(id, poster.value);
        }
      }
    }

    method PropagateOne(ev: MpmcQueue.SpikeEvent)
      requires Valid()
      modifies Repr()
      ensures Valid() && propagate == old(propagate)
      ensures State() == Processed(Wiring().(propagate := true), old(State()), ev)
    {
      if ev.hop >= maxHop { return; }
      if ev.src < 0 || ev.src >= |acts| { return; }
      ghost var net, w := Wiring().(propagate := true), State();
      var es := edges[ev.src];
      var i := 0;
      while i < |es|
        invariant i <= |es| && Valid() && propagate == old(propagate)
        invariant Spread(net, State(), es, ev.voltage, i) == Spread(net, w, es, ev.voltage, 0)
      {
        PropagateAlong(es[i], ev.voltage, net);
        i := i + 1;
      }
    }

    method PropagateAlong(e: Edge, voltage: real, ghost net: Net)
      requires Valid() && net == Wiring().(propagate := true)
      modifies Repr()
      ensures Valid() && propagate == old(propagate)
      ensures State() == if 0 <= e.target < |old(acts)| && Dose(voltage, e.weight) > 0.0
                         then Charged(net, old(State()), e.target, Dose(voltage, e.weight)) else old(State())
    {
      if e.target < 0 || e.target >= |acts| { return; }
      var dv := Dose(voltage, e.weight);
      if dv <= 0.0 { return; }
      AddVoltageTo(e.target, dv);
    }

    /** Processes events until the queue is empty, an event is not due, or the
        budget is spent. No other thread touches the queue meanwhile. */
    method DrainUntil(now0: nat, budget: nat, clock: Option<nat -> nat>, blank: MpmcQueue.SpikeEvent) returns (count: nat)
      requires Valid()
      modifies Repr()
      ensures Valid() && Wiring() == old(Wiring()) && count <= MaxEvents(budget)
      ensures var w := old(State()).(accepted := [], fired := []);
        && State() == Outcome(Wiring(), w, now0, budget, clock, count)
        && !GoesOn(Wiring(), w, now0, budget, clock, count)
        && forall k: nat :: k < count ==> GoesOn(Wiring(), w, now0, budget, clock, k)
    {
      count := 0;
      accepted, fired := [], [];
      ghost var net, w := Wiring(), State();
      var now := now0;
      while true
        invariant Valid() && Wiring() == net && State() == Drained(net, w, count)
        invariant InBudget(now0, budget, clock, count) && now == Now(now0, clock, count)
        invariant forall k: nat :: k < count ==> GoesOn(net, w, now0, budget, clock, k)
        decreases MaxEvents(budget) - count
      {
        var some, ev := queue.TryPop(blank);
        if !some { return; }
        if ev.deadline != 0 && ev.deadline > now {
          var _ := queue.TryPush(ev);
          return;
        }
        assert GoesOn(net, w, now0, budget, clock, count);
        if propagate { PropagateOne(ev); }
        count := count + 1;
        if count >= MaxEvents(budget) { return; }
        if count % 8 == 0 && clock.Some? {
          now := clock.value(count);
          if now >= now0 + budget { return; }
        }
      }
    }
  }
}
