/** Spreading activation: the recursive walk of `spread_activation`, with its
    depth bound, its fan-out cap and its binding nodes. */
module Spread {
  import opened Graph

  /** What a query reads: the edges by node, which nodes bind, the effective
      cutoff, and the two caps. */
  datatype Net = Net(edges: seq<seq<Edge>>, binding: seq<bool>, cutoff: real, maxDepth: nat, fanoutCap: nat)
  {
    predicate Ok() {
      && |binding| == |edges| && cutoff >= 0.0
      && forall u, i :: 0 <= u < |edges| && 0 <= i < |edges[u]| ==> edges[u][i].weight >= 0.0
    }

    function Limit(u: nat): nat
      requires u < |edges|
    {
      if |edges[u]| < fanoutCap then |edges[u]| else fanoutCap
    }

    predicate InRange(v: int) {
      0 <= v < |edges|
    }
  }

  /** What a query changes: activations and fired marks. `log` lists the binding
      nodes it has expanded as targets, in order. */
  datatype Field = Field(act: seq<real>, fired: seq<bool>, log: seq<nat>)
  {
    predicate Fits(net: Net) {
      |act| == |fired| == |net.edges| == |net.binding|
    }
  }

  const DECAY := 0.7
  const FIRE := 1.5

  function Down(strength: real, w: real): real {
    strength * DECAY * w
  }

  // ----- What a query computes -----

  function SpreadFrom(net: Net, f: Field, u: int, strength: real, depth: nat): (r: (Field, nat))
    requires f.Fits(net)
    ensures r.0.Fits(net)
    decreases if depth < net.maxDepth then net.maxDepth - depth else 0, 2, 0
  {
    if depth >= net.maxDepth || strength < net.cutoff || !net.InRange(u) then (f, 0)
    else
      var f1 := if depth == 0 && strength > f.act[u] then f.(act := f.act[u := strength]) else f;
      var (f2, n) := SpreadEdges(net, f1, u, strength, depth, 0);
      (f2, 1 + n)
  }

  function SpreadEdges(net: Net, f: Field, u: nat, strength: real, depth: nat, i: nat): (r: (Field, nat))
    requires f.Fits(net) && u < |net.edges| && depth < net.maxDepth && i <= net.Limit(u)
    ensures r.0.Fits(net)
    decreases net.maxDepth - depth, 1, net.Limit(u) - i
  {
    if i == net.Limit(u) then (f, 0)
    else
      var (f1, m) := SpreadEdge(net, f, net.edges[u][i], strength, depth);
      var (f2, n) := SpreadEdges(net, f1, u, strength, depth, i + 1);
      (f2, m + n)
  }

  function SpreadEdge(net: Net, f: Field, e: Edge, strength: real, depth: nat): (r: (Field, nat))
    requires f.Fits(net) && depth < net.maxDepth
    ensures r.0.Fits(net)
    decreases net.maxDepth - depth, 0, 0
  {
    var prop := Down(strength, e.weight);
    if !net.InRange(e.target) then (f, 0)
    else if net.binding[e.target] then
      if e.etype != Temporal then (f, 0)
      else
        var act := f.act[e.target] + prop;
        var f1 := f.(act := f.act[e.target := act]);
        if act > FIRE && !f.fired[e.target] then SpreadFrom(net, Fire(f1, e.target), e.target, act, depth + 1)
        else if f.fired[e.target] then (RaiseMembers(net, f1, e.target, act, 0), 0)
        else (f1, 0)
    else if prop > f.act[e.target] then
      SpreadFrom(net, f.(act := f.act[e.target := prop]), e.target, prop, depth + 1)
    else (f, 0)
  }

  function Fire(f: Field, v: nat): Field
    requires v < |f.fired|
  {
    f.(fired := f.fired[v := true], log := f.log + [v])
  }

  /** A binding node that has fired passes its voltage on, one hop, to nodes that do not bind. */
  function RaiseMembers(net: Net, f: Field, v: nat, act: real, j: nat): (r: Field)
    requires f.Fits(net) && v < |net.edges| && j <= net.Limit(v)
    ensures r.Fits(net)
    decreases net.Limit(v) - j
  {
    if j == net.Limit(v) then f
    else RaiseMembers(net, RaiseMember(net, f, net.edges[v][j], act), v, act, j + 1)
  }

  function RaiseMember(net: Net, f: Field, e: Edge, act: real): (r: Field)
    requires f.Fits(net)
    ensures r.Fits(net)
  {
    var sp := Down(act, e.weight);
    if net.InRange(e.target) && !net.binding[e.target] && sp > f.act[e.target]
    then f.(act := f.act[e.target := sp]) else f
  }

  // ----- Nothing is lowered, and a binding node is expanded once -----

  predicate Grows(net: Net, f: Field, g: Field)
    requires f.Fits(net) && g.Fits(net)
  {
    && (forall v :: 0 <= v < |f.act| ==> g.act[v] >= f.act[v])
    && (forall v :: 0 <= v < |f.fired| && f.fired[v] ==> g.fired[v])
    && f.log <= g.log
    && (forall k :: |f.log| <= k < |g.log| ==>
          g.log[k] < |net.edges| && net.binding[g.log[k]] && !f.fired[g.log[k]] && g.fired[g.log[k]])
    && (forall j, k :: |f.log| <= j < k < |g.log| ==> g.log[j] != g.log[k])
  }

  lemma GrowsTrans(net: Net, f: Field, g: Field, h: Field)
    requires f.Fits(net) && g.Fits(net) && h.Fits(net) && Grows(net, f, g) && Grows(net, g, h)
    ensures Grows(net, f, h)
  {
    assert forall k :: |f.log| <= k < |g.log| ==> h.log[k] == g.log[k];
  }

  lemma DownNonNegative(s: real, w: real)
    requires s >= 0.0 && w >= 0.0
    ensures Down(s, w) >= 0.0
  {
  }

  lemma {:induction false} SpreadFromGrows(net: Net, f: Field, u: int, strength: real, depth: nat)
    requires net.Ok() && f.Fits(net)
    ensures Grows(net, f, SpreadFrom(net, f, u, strength, depth).0)
    decreases if depth < net.maxDepth then net.maxDepth - depth else 0, 2, 0
  {
    if depth >= net.maxDepth || strength < net.cutoff || !net.InRange(u) {
    } else {
      var f1 := if depth == 0 && strength > f.act[u] then f.(act := f.act[u := strength]) else f;
      SpreadEdgesGrow(net, f1, u, strength, depth, 0);
      GrowsTrans(net, f, f1, SpreadEdges(net, f1, u, strength, depth, 0).0);
    }
  }

  lemma {:induction false} SpreadEdgesGrow(net: Net, f: Field, u: nat, strength: real, depth: nat, i: nat)
    requires net.Ok() && f.Fits(net) && u < |net.edges| && depth < net.maxDepth && i <= net.Limit(u) && strength >= 0.0
    ensures Grows(net, f, SpreadEdges(net, f, u, strength, depth, i).0)
    decreases net.maxDepth - depth, 1, net.Limit(u) - i
  {
    if i < net.Limit(u) {
      var f1 := SpreadEdge(net, f, net.edges[u][i], strength, depth).0;
      SpreadEdgeGrows(net, f, net.edges[u][i], strength, depth);
      SpreadEdgesGrow(net, f1, u, strength, depth, i + 1);
      GrowsTrans(net, f, f1, SpreadEdges(net, f1, u, strength, depth, i + 1).0);
    }
  }

  lemma {:induction false} SpreadEdgeGrows(net: Net, f: Field, e: Edge, strength: real, depth: nat)
    requires net.Ok() && f.Fits(net) && depth < net.maxDepth && strength >= 0.0 && e.weight >= 0.0
    ensures Grows(net, f, SpreadEdge(net, f, e, strength, depth).0)
    decreases net.maxDepth - depth, 0, 0
  {
    var prop := Down(strength, e.weight);
    DownNonNegative(strength, e.weight);
    var v := e.target;
    if net.InRange(v) && net.binding[v] && e.etype == Temporal {
      var act := f.act[v] + prop;
      var f1 := f.(act := f.act[v := act]);
      if act > FIRE && !f.fired[v] {
        FiredGrows(net, f, v, act, SpreadFrom(net, Fire(f1, v), v, act, depth + 1).0, depth);
      } else if f.fired[v] {
        RaiseMembersGrows(net, f1, v, act, 0);
        GrowsTrans(net, f, f1, RaiseMembers(net, f1, v, act, 0));
      }
    } else if net.InRange(v) && !net.binding[v] && prop > f.act[v] {
      var f1 := f.(act := f.act[v := prop]);
      SpreadFromGrows(net, f1, v, prop, depth + 1);
      GrowsTrans(net, f, f1, SpreadFrom(net, f1, v, prop, depth + 1).0);
    }
  }

  lemma {:induction false} FiredGrows(net: Net, f: Field, v: nat, act: real, h: Field, depth: nat)
    requires net.Ok() && f.Fits(net) && v < |net.edges| && net.binding[v] && !f.fired[v] && act >= f.act[v]
    requires depth < net.maxDepth
    requires h == SpreadFrom(net, Fire(f.(act := f.act[v := act]), v), v, act, depth + 1).0
    ensures h.Fits(net) && Grows(net, f, h)
    decreases net.maxDepth - depth, 0, -1
  {
    var g := Fire(f.(act := f.act[v := act]), v);
    SpreadFromGrows(net, g, v, act, depth + 1);
    GrowsTrans(net, f, g, h);
  }

  lemma {:induction false} RaiseMembersGrows(net: Net, f: Field, v: nat, act: real, j: nat)
    requires f.Fits(net) && v < |net.edges| && j <= net.Limit(v)
    ensures Grows(net, f, RaiseMembers(net, f, v, act, j))
    ensures RaiseMembers(net, f, v, act, j).fired == f.fired && RaiseMembers(net, f, v, act, j).log == f.log
    decreases net.Limit(v) - j
  {
    if j < net.Limit(v) {
      var f1 := RaiseMember(net, f, net.edges[v][j], act);
      RaiseMembersGrows(net, f1, v, act, j + 1);
      GrowsTrans(net, f, f1, RaiseMembers(net, f1, v, act, j + 1));
    }
  }

  // ----- Only nodes a bounded number of hops away change -----

  /** p lists the edge positions of a walk from u to v along followed edges. */
  predicate Trail(net: Net, u: int, p: seq<nat>, v: int)
    decreases |p|
  {
    if p == [] then u == v && net.InRange(v)
    else net.InRange(u) && p[0] < net.Limit(u) && Trail(net, net.edges[u][p[0]].target, p[1..], v)
  }

  ghost predicate Near(net: Net, u: int, v: int, hops: nat) {
    exists p :: |p| <= hops && Trail(net, u, p, v)
  }

  lemma NearSelf(net: Net, u: int, hops: nat)
    requires net.InRange(u)
    ensures Near(net, u, u, hops)
  {
    assert Trail(net, u, [], u);
  }

  lemma NearStep(net: Net, u: nat, i: nat, v: int, hops: nat)
    requires net.InRange(u) && i < net.Limit(u) && Near(net, net.edges[u][i].target, v, hops)
    ensures Near(net, u, v, hops + 1)
  {
    var p :| |p| <= hops && Trail(net, net.edges[u][i].target, p, v);
    assert ([i] + p)[1..] == p;
    assert Trail(net, u, [i] + p, v);
  }

  lemma NearMore(net: Net, u: int, v: int, hops: nat, more: nat)
    requires Near(net, u, v, hops) && hops <= more
    ensures Near(net, u, v, more)
  {
  }

  predicate Differ(f: Field, g: Field, v: nat)
    requires |f.act| == |f.fired| == |g.act| == |g.fired| && v < |f.act|
  {
    f.act[v] != g.act[v] || f.fired[v] != g.fired[v]
  }

  ghost predicate Within(net: Net, f: Field, g: Field, u: int, hops: nat)
    requires f.Fits(net) && g.Fits(net)
  {
    forall v: nat :: v < |f.act| && Differ(f, g, v) ==> Near(net, u, v, hops)
  }

  lemma WithinTrans(net: Net, f: Field, g: Field, h: Field, u: int, hops: nat)
    requires f.Fits(net) && g.Fits(net) && h.Fits(net) && Within(net, f, g, u, hops) && Within(net, g, h, u, hops)
    ensures Within(net, f, h, u, hops)
  {
    forall v: nat | v < |f.act| && Differ(f, h, v)
      ensures Near(net, u, v, hops)
    {
      assert Differ(f, g, v) || Differ(g, h, v);
    }
  }

  lemma WithinStep(net: Net, f: Field, g: Field, u: nat, i: nat, hops: nat)
    requires f.Fits(net) && g.Fits(net) && net.InRange(u) && i < net.Limit(u)
    requires Within(net, f, g, net.edges[u][i].target, hops)
    ensures Within(net, f, g, u, hops + 1)
  {
    forall v: nat | v < |f.act| && Differ(f, g, v)
      ensures Near(net, u, v, hops + 1)
    {
      NearStep(net, u, i, v, hops);
    }
  }

  lemma {:induction false} SpreadFromWithin(net: Net, f: Field, u: int, strength: real, depth: nat)
    requires f.Fits(net) && depth <= net.maxDepth
    ensures Within(net, f, SpreadFrom(net, f, u, strength, depth).0, u, net.maxDepth - depth + 1)
    decreases net.maxDepth - depth, 2, 0
  {
    if depth >= net.maxDepth || strength < net.cutoff || !net.InRange(u) {
    } else {
      var f1 := if depth == 0 && strength > f.act[u] then f.(act := f.act[u := strength]) else f;
      NearSelf(net, u, net.maxDepth - depth + 1);
      assert Within(net, f, f1, u, net.maxDepth - depth + 1);
      SpreadEdgesWithin(net, f1, u, strength, depth, 0);
      WithinTrans(net, f, f1, SpreadEdges(net, f1, u, strength, depth, 0).0, u, net.maxDepth - depth + 1);
    }
  }

  lemma {:induction false} SpreadEdgesWithin(net: Net, f: Field, u: nat, strength: real, depth: nat, i: nat)
    requires f.Fits(net) && u < |net.edges| && depth < net.maxDepth && i <= net.Limit(u)
    ensures Within(net, f, SpreadEdges(net, f, u, strength, depth, i).0, u, net.maxDepth - depth + 1)
    decreases net.maxDepth - depth, 1, net.Limit(u) - i
  {
    if i < net.Limit(u) {
      var f1 := SpreadEdge(net, f, net.edges[u][i], strength, depth).0;
      SpreadEdgeWithin(net, f, net.edges[u][i], strength, depth);
      WithinStep(net, f, f1, u, i, net.maxDepth - depth);
      SpreadEdgesWithin(net, f1, u, strength, depth, i + 1);
      WithinTrans(net, f, f1, SpreadEdges(net, f1, u, strength, depth, i + 1).0, u, net.maxDepth - depth + 1);
    }
  }

  lemma {:induction false} SpreadEdgeWithin(net: Net, f: Field, e: Edge, strength: real, depth: nat)
    requires f.Fits(net) && depth < net.maxDepth
    ensures Within(net, f, SpreadEdge(net, f, e, strength, depth).0, e.target, net.maxDepth - depth)
    decreases net.maxDepth - depth, 0, 0
  {
    var v, prop, hops := e.target, Down(strength, e.weight), net.maxDepth - depth;
    if net.InRange(v) {
      NearSelf(net, v, hops);
      var act := f.act[v] + prop;
      var f1 := f.(act := f.act[v := act]);
      if net.binding[v] && e.etype == Temporal && act > FIRE && !f.fired[v] {
        SpreadFromWithin(net, Fire(f1, v), v, act, depth + 1);
        assert Within(net, f, Fire(f1, v), v, hops);
        WithinTrans(net, f, Fire(f1, v), SpreadFrom(net, Fire(f1, v), v, act, depth + 1).0, v, hops);
      } else if net.binding[v] && e.etype == Temporal && f.fired[v] {
        RaiseMembersWithin(net, f1, v, act, 0, hops);
        assert Within(net, f, f1, v, hops);
        WithinTrans(net, f, f1, RaiseMembers(net, f1, v, act, 0), v, hops);
      } else if !net.binding[v] && prop > f.act[v] {
        var f2 := f.(act := f.act[v := prop]);
        SpreadFromWithin(net, f2, v, prop, depth + 1);
        assert Within(net, f, f2, v, hops);
        WithinTrans(net, f, f2, SpreadFrom(net, f2, v, prop, depth + 1).0, v, hops);
      }
    }
  }

  lemma {:induction false} RaiseMembersWithin(net: Net, f: Field, v: nat, act: real, j: nat, hops: nat)
    requires f.Fits(net) && v < |net.edges| && j <= net.Limit(v) && 1 <= hops
    ensures Within(net, f, RaiseMembers(net, f, v, act, j), v, hops)
    decreases net.Limit(v) - j
  {
    if j < net.Limit(v) {
      var f1 := RaiseMember(net, f, net.edges[v][j], act);
      var t := net.edges[v][j].target;
      if net.InRange(t) {
        NearSelf(net, t, 0);
        NearStep(net, v, j, t, 0);
        NearMore(net, v, t, 1, hops);
      }
      assert Within(net, f, f1, v, hops);
      RaiseMembersWithin(net, f1, v, act, j + 1, hops);
      WithinTrans(net, f, f1, RaiseMembers(net, f1, v, act, j + 1), v, hops);
    }
  }

  // ----- Without binding nodes: every raised value is explained by a walk -----

  predicate NoBinding(net: Net) {
    forall v :: 0 <= v < |net.binding| ==> !net.binding[v]
  }

  /** The voltage that arrives at the end of the walk. */
  function Along(net: Net, u: int, p: seq<nat>, strength: real): real
    decreases |p|
  {
    if p == [] || !net.InRange(u) || p[0] >= net.Limit(u) then strength
    else var e := net.edges[u][p[0]]; Along(net, e.target, p[1..], Down(strength, e.weight))
  }

  /** The product of 0.7 * weight along the walk. */
  function Gain(net: Net, u: int, p: seq<nat>): real
    decreases |p|
  {
    if p == [] || !net.InRange(u) || p[0] >= net.Limit(u) then 1.0
    else var e := net.edges[u][p[0]]; DECAY * e.weight * Gain(net, e.target, p[1..])
  }

  lemma {:induction false} AlongIsGain(net: Net, u: int, p: seq<nat>, strength: real)
    ensures Along(net, u, p, strength) == strength * Gain(net, u, p)
    decreases |p|
  {
    if p == [] || !net.InRange(u) || p[0] >= net.Limit(u) {
    } else {
      var e := net.edges[u][p[0]];
      AlongIsGain(net, e.target, p[1..], Down(strength, e.weight));
      Reassociate(strength, DECAY, e.weight, Gain(net, e.target, p[1..]));
    }
  }

  lemma Reassociate(s: real, d: real, w: real, g: real)
    ensures s * d * w * g == s * (d * w * g)
  {
    var x := d * w;
    assert s * d * w == s * x;
    assert s * x * g == s * (x * g);
  }

  ghost predicate Arrives(net: Net, u: int, strength: real, hops: nat, v: nat, value: real) {
    exists p :: |p| <= hops && Trail(net, u, p, v) && value == Along(net, u, p, strength)
  }

  ghost predicate Explained(net: Net, f: Field, g: Field, u: int, strength: real, hops: nat)
    requires f.Fits(net) && g.Fits(net)
  {
    && g.fired == f.fired && g.log == f.log
    && forall v: nat :: v < |f.act| && g.act[v] != f.act[v] ==> Arrives(net, u, strength, hops, v, g.act[v])
  }

  lemma ArrivesSelf(net: Net, u: nat, strength: real, hops: nat)
    requires net.InRange(u)
    ensures Arrives(net, u, strength, hops, u, strength)
  {
    assert Trail(net, u, [], u) && Along(net, u, [], strength) == strength;
  }

  lemma ArrivesStep(net: Net, u: nat, i: nat, strength: real, hops: nat, v: nat, value: real)
    requires net.InRange(u) && i < net.Limit(u)
    requires var e := net.edges[u][i]; Arrives(net, e.target, Down(strength, e.weight), hops, v, value)
    ensures Arrives(net, u, strength, hops + 1, v, value)
  {
    var e := net.edges[u][i];
    var p :| |p| <= hops && Trail(net, e.target, p, v) && value == Along(net, e.target, p, Down(strength, e.weight));
    assert ([i] + p)[1..] == p;
    assert Trail(net, u, [i] + p, v) && value == Along(net, u, [i] + p, strength);
  }

  lemma {:induction false} SpreadFromExplained(net: Net, f: Field, u: int, strength: real, depth: nat)
    requires f.Fits(net) && NoBinding(net) && depth <= net.maxDepth
    ensures Explained(net, f, SpreadFrom(net, f, u, strength, depth).0, u, strength, net.maxDepth - depth)
    decreases net.maxDepth - depth, 2, 0
  {
    if depth >= net.maxDepth || strength < net.cutoff || !net.InRange(u) {
    } else {
      var f1 := if depth == 0 && strength > f.act[u] then f.(act := f.act[u := strength]) else f;
      ArrivesSelf(net, u, strength, net.maxDepth - depth);
      SpreadEdgesExplained(net, f1, u, strength, depth, 0);
    }
  }

  lemma {:induction false} SpreadEdgesExplained(net: Net, f: Field, u: nat, strength: real, depth: nat, i: nat)
    requires f.Fits(net) && NoBinding(net) && u < |net.edges| && depth < net.maxDepth && i <= net.Limit(u)
    ensures Explained(net, f, SpreadEdges(net, f, u, strength, depth, i).0, u, strength, net.maxDepth - depth)
    decreases net.maxDepth - depth, 1, net.Limit(u) - i
  {
    if i < net.Limit(u) {
      var e := net.edges[u][i];
      var f1 := SpreadEdge(net, f, e, strength, depth).0;
      SpreadEdgeExplained(net, f, e, strength, depth);
      forall v: nat | v < |f.act| && f1.act[v] != f.act[v]
        ensures Arrives(net, u, strength, net.maxDepth - depth, v, f1.act[v])
      {
        ArrivesStep(net, u, i, strength, net.maxDepth - depth - 1, v, f1.act[v]);
      }
      SpreadEdgesExplained(net, f1, u, strength, depth, i + 1);
    }
  }

  lemma {:induction false} SpreadEdgeExplained(net: Net, f: Field, e: Edge, strength: real, depth: nat)
    requires f.Fits(net) && NoBinding(net) && depth < net.maxDepth
    ensures Explained(net, f, SpreadEdge(net, f, e, strength, depth).0,
                      e.target, Down(strength, e.weight), net.maxDepth - depth - 1)
    decreases net.maxDepth - depth, 0, 0
  {
    var v, prop := e.target, Down(strength, e.weight);
    if net.InRange(v) && prop > f.act[v] {
      ArrivesSelf(net, v, prop, net.maxDepth - depth - 1);
      SpreadFromExplained(net, f.(act := f.act[v := prop]), v, prop, depth + 1);
    }
  }

  // ----- The query as a whole -----

  /** A query never lowers an activation, marks and expands each binding node at
      most once and only if it was unmarked, and changes only nodes within one
      hop more than the depth bound. */
  lemma QueryEffect(net: Net, f: Field, u: int, strength: real)
    requires net.Ok() && f.Fits(net)
    ensures var g := SpreadFrom(net, f, u, strength, 0).0;
      Grows(net, f, g) && Within(net, f, g, u, net.maxDepth + 1)
  {
    SpreadFromGrows(net, f, u, strength, 0);
    SpreadFromWithin(net, f, u, strength, 0);
  }

  /** Without binding nodes the bound is the depth bound itself, and every raised
      value is the strength times the product of 0.7 * weight along a walk. */
  lemma QueryValues(net: Net, f: Field, u: int, strength: real)
    requires net.Ok() && f.Fits(net) && NoBinding(net)
    ensures var g := SpreadFrom(net, f, u, strength, 0).0;
      && g.fired == f.fired
      && forall v: nat :: v < |f.act| && g.act[v] != f.act[v] ==>
           exists p :: |p| <= net.maxDepth && Trail(net, u, p, v) && g.act[v] == strength * Gain(net, u, p)
  {
    SpreadFromExplained(net, f, u, strength, 0);
    var g := SpreadFrom(net, f, u, strength, 0).0;
    forall v: nat | v < |f.act| && g.act[v] != f.act[v]
      ensures exists p :: |p| <= net.maxDepth && Trail(net, u, p, v) && g.act[v] == strength * Gain(net, u, p)
    {
      var p :| |p| <= net.maxDepth && Trail(net, u, p, v) && g.act[v] == Along(net, u, p, strength);
      AlongIsGain(net, u, p, strength);
    }
  }

  // ----- The extra hop is real -----

  /** A chain 0 -> 1 -> ... -> n+1 that loses no voltage; node n binds. */
  function Chain(n: nat): (net: Net)
    ensures |net.edges| == |net.binding| == n + 2
  {
    Net(seq(n + 2, i => if i <= n then [Edge(i + 1, 10.0 / 7.0, 1, Temporal, Unknown)] else []),
        seq(n + 2, i => i == n), 0.01, n, 12)
  }

  lemma {:induction false} ChainTrail(n: nat, u: int, p: seq<nat>, v: int)
    requires Trail(Chain(n), u, p, v)
    ensures v == u + |p|
    decreases |p|
  {
    if p != [] {
      assert u <= n && Chain(n).edges[u][p[0]].target == u + 1;
      ChainTrail(n, u + 1, p[1..], v);
    }
  }

  lemma ChainDown()
    ensures Down(1.0, 10.0 / 7.0) == 1.0
  {
  }

  lemma {:induction false} ChainReaches(n: nat, f: Field, d: nat)
    requires d < n && f.Fits(Chain(n)) && f.fired[n]
    requires forall j :: d < j < n + 2 ==> f.act[j] == 0.0
    ensures SpreadFrom(Chain(n), f, d, 1.0, d).0.act[n + 1] == 1.0
    decreases n - d
  {
    var net := Chain(n);
    ChainDown();
    assert net.Limit(d) == 1 && net.Limit(n) == 1;
    var f0 := if d == 0 && 1.0 > f.act[d] then f.(act := f.act[d := 1.0]) else f;
    var e := net.edges[d][0];
    var f1 := f0.(act := f0.act[d + 1 := 1.0]);
    if d + 1 < n {
      ChainReaches(n, f1, d + 1);
      assert SpreadEdge(net, f0, e, 1.0, d).0 == SpreadFrom(net, f1, d + 1, 1.0, d + 1).0;
    } else {
      var f2 := RaiseMember(net, f1, net.edges[n][0], 1.0);
      assert RaiseMembers(net, f1, n, 1.0, 0) == RaiseMembers(net, f2, n, 1.0, 1) == f2;
      assert SpreadEdge(net, f0, e, 1.0, d).0 == f2;
    }
    var g := SpreadEdge(net, f0, e, 1.0, d).0;
    assert SpreadEdges(net, g, d, 1.0, d, 1).0 == g;
  }

  /** For every depth bound n, node n + 1 of the chain is raised although it is
      n + 1 hops away: a binding node at the bound that has already fired passes
      its voltage on. */
  lemma BoundAttained(n: nat, f: Field)
    requires 1 <= n && f.Fits(Chain(n)) && f.fired[n]
    requires forall j :: 0 <= j < n + 2 ==> f.act[j] == 0.0
    ensures Differ(f, SpreadFrom(Chain(n), f, 0, 1.0, 0).0, n + 1)
    ensures !Near(Chain(n), 0, n + 1, n)
  {
    ChainReaches(n, f, 0);
    forall p | |p| <= n && Trail(Chain(n), 0, p, n + 1)
      ensures false
    {
      ChainTrail(n, 0, p, n + 1);
    }
  }

  // ----- The walk over the arena in place -----

  class Arena {
    const net: Net
    const activation: array<real>
    const firedThisQuery: array<bool>
    ghost var log: seq<nat>

    ghost predicate Valid()
      reads this, activation, firedThisQuery
    {
      activation.Length == firedThisQuery.Length == |net.edges| == |net.binding|
    }

    ghost function Current(): (f: Field)
      requires Valid()
      reads this, activation, firedThisQuery
      ensures f.Fits(net)
    {
      Field(activation[..], firedThisQuery[..], log)
    }

    constructor (net: Net)
      requires |net.binding| == |net.edges|
      ensures Valid() && this.net == net && fresh(activation) && fresh(firedThisQuery)
      ensures log == [] && forall v :: 0 <= v < |net.edges| ==> Current().act[v] == 0.0 && !Current().fired[v]
    {
      this.net := net;
      activation := new real[|net.edges|](_ => 0.0);
      firedThisQuery := new bool[|net.edges|](_ => false);
      log := [];
    }

    method SpreadActivation(source: int, strength: real, depth: nat) returns (activated: nat)
      requires Valid()
      modifies this`log, activation, firedThisQuery
      ensures Valid() && (Current(), activated) == SpreadFrom(net, old(Current()), source, strength, depth)
      decreases if depth < net.maxDepth then net.maxDepth - depth else 0, 1
    {
      if depth >= net.maxDepth || strength < net.cutoff { return 0; }
      if source < 0 || source >= |net.edges| { return 0; }
      ghost var f := Current();
      if depth == 0 && strength > activation[source] {
        activation[source] := strength;
      }
      ghost var f1 := Current();
      assert f1 == if depth == 0 && strength > f.act[source] then f.(act := f.act[source := strength]) else f;
      activated := 1;
      var limit := net.Limit(source);
      for i := 0 to limit
        invariant Valid()
        invariant var rest := SpreadEdges(net, Current(), source, strength, depth, i);
          (rest.0, activated + rest.1) == SpreadFrom(net, f, source, strength, depth)
      {
        ghost var before := Current();
        var n := FollowEdge(net.edges[source][i], strength, depth);
        assert (Current(), n) == SpreadEdge(net, before, net.edges[source][i], strength, depth);
        activated := activated + n;
      }
    }

    method FollowEdge(e: Edge, strength: real, depth: nat) returns (activated: nat)
      requires Valid() && depth < net.maxDepth
      modifies this`log, activation, firedThisQuery
      ensures Valid() && (Current(), activated) == SpreadEdge(net, old(Current()), e, strength, depth)
      decreases net.maxDepth - depth, 0
    {
      var tgt, prop := e.target, Down(strength, e.weight);
      ghost var f := Current();
      if tgt < 0 || tgt >= |net.edges| { return 0; }
      if net.binding[tgt] {
        if e.etype != Temporal { return 0; }
        activation[tgt] := activation[tgt] + prop;
        var act := activation[tgt];
        assert activation[..] == f.act[tgt := f.act[tgt] + prop];
        if act > FIRE && !firedThisQuery[tgt] {
          firedThisQuery[tgt] := true;
          log := log + [tgt];
          assert Current() == Fire(f.(act := f.act[tgt := act]), tgt);
          activated := SpreadActivation(tgt, act, depth + 1);
        } else {
          if firedThisQuery[tgt] { PassOn(tgt, act); }
          activated := 0;
        }
      } else if prop > activation[tgt] {
        activation[tgt] := prop;
        assert Current() == f.(act := f.act[tgt := prop]);
        activated := SpreadActivation(tgt, prop, depth + 1);
      } else {
        activated := 0;
      }
    }

    method PassOn(tgt: nat, act: real)
      requires Valid() && tgt < |net.edges|
      modifies activation
      ensures Valid() && Current() == RaiseMembers(net, old(Current()), tgt, act, 0)
    {
      ghost var f := Current();
      var subLim := net.Limit(tgt);
      for j := 0 to subLim
        invariant RaiseMembers(net, Current(), tgt, act, j) == RaiseMembers(net, f, tgt, act, 0)
      {
        ghost var before := Current();
        var e := net.edges[tgt][j];
        var st, sp := e.target, Down(act, e.weight);
        if 0 <= st < |net.edges| && !net.binding[st] && sp > activation[st] {
          activation[st] := sp;
        }
        assert Current() == RaiseMember(net, before, e, act);
      }
    }
  }
}
