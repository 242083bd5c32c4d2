/** What a query reaches: lower bounds on the activations it leaves, and on the
    count it returns. */
module SpreadReach {
  import opened Graph
  import opened Spread

  // ----- Along every edge that is followed -----

  /** The query is carried out: not refused for its depth, strength or source. */
  predicate Accepted(net: Net, u: int, strength: real, depth: nat) {
    depth < net.maxDepth && strength >= net.cutoff && net.InRange(u)
  }

  /** Every member of v that does not bind has at least its share of act. */
  ghost predicate Passed(net: Net, g: Field, v: nat, act: real, j: nat)
    requires g.Fits(net) && v < |net.edges|
  {
    forall k :: j <= k < net.Limit(v) ==> HasShare(net, g, net.edges[v][k], act)
  }

  predicate HasShare(net: Net, g: Field, e: Edge, act: real)
    requires g.Fits(net)
  {
    net.InRange(e.target) && !net.binding[e.target] ==> g.act[e.target] >= Down(act, e.weight)
  }

  lemma ShareKept(net: Net, g: Field, h: Field, e: Edge, act: real)
    requires g.Fits(net) && h.Fits(net) && Grows(net, g, h) && HasShare(net, g, e, act)
    ensures HasShare(net, h, e, act)
  {
  }

  lemma {:induction false} MembersPassed(net: Net, f: Field, v: nat, act: real, j: nat)
    requires f.Fits(net) && v < |net.edges| && j <= net.Limit(v)
    ensures Passed(net, RaiseMembers(net, f, v, act, j), v, act, j)
    decreases net.Limit(v) - j
  {
    if j < net.Limit(v) {
      var f1 := RaiseMember(net, f, net.edges[v][j], act);
      MembersPassed(net, f1, v, act, j + 1);
      RaiseMembersGrows(net, f1, v, act, j + 1);
      ShareKept(net, f1, RaiseMembers(net, f1, v, act, j + 1), net.edges[v][j], act);
    }
  }

  /** What following one edge brings about: a node that does not bind has the
      voltage that arrives, or more; a binding node gains it over a temporal edge,
      is marked if that makes it fire, and if it was marked before it passes its
      voltage on to its members. */
  ghost predicate Delivered(net: Net, f: Field, g: Field, e: Edge, strength: real)
    requires f.Fits(net) && g.Fits(net)
  {
    net.InRange(e.target) ==>
      var (t, prop) := (e.target, Down(strength, e.weight));
      if !net.binding[t] then g.act[t] >= prop
      else e.etype == Temporal ==>
        && g.act[t] >= f.act[t] + prop
        && (f.act[t] + prop > FIRE ==> g.fired[t])
        && (f.fired[t] ==> Passed(net, g, t, f.act[t] + prop, 0))
  }

  lemma EdgeDelivers(net: Net, f: Field, e: Edge, strength: real, depth: nat)
    requires net.Ok() && f.Fits(net) && depth < net.maxDepth && strength >= 0.0 && e.weight >= 0.0
    ensures Delivered(net, f, SpreadEdge(net, f, e, strength, depth).0, e, strength)
  {
    var t, prop := e.target, Down(strength, e.weight);
    if net.InRange(t) {
      if net.binding[t] {
        var act := f.act[t] + prop;
        var f1 := f.(act := f.act[t := act]);
        if e.etype == Temporal && act > FIRE && !f.fired[t] {
          SpreadFromGrows(net, Fire(f1, t), t, act, depth + 1);
        } else if e.etype == Temporal && f.fired[t] {
          RaiseMembersGrows(net, f1, t, act, 0);
          MembersPassed(net, f1, t, act, 0);
        }
      } else if prop > f.act[t] {
        SpreadFromGrows(net, f.(act := f.act[t := prop]), t, prop, depth + 1);
      }
    }
  }

  lemma DownMore(s: real, s': real, w: real)
    requires w >= 0.0 && s <= s'
    ensures Down(s, w) <= Down(s', w)
  {
    assert (s' - s) * DECAY * w >= 0.0;
  }

  /** What was delivered to a field that had grown, and has grown since, was delivered. */
  lemma DeliveredOver(net: Net, f0: Field, f: Field, g: Field, h: Field, e: Edge, strength: real)
    requires net.Ok() && f0.Fits(net) && f.Fits(net) && g.Fits(net) && h.Fits(net)
    requires Grows(net, f0, f) && Delivered(net, f, g, e, strength) && Grows(net, g, h)
    ensures Delivered(net, f0, h, e, strength)
  {
    var (t, prop) := (e.target, Down(strength, e.weight));
    if net.InRange(t) && net.binding[t] && e.etype == Temporal && f0.fired[t] {
      forall k | 0 <= k < net.Limit(t)
        ensures HasShare(net, h, net.edges[t][k], f0.act[t] + prop)
      {
        assert HasShare(net, g, net.edges[t][k], f.act[t] + prop);
        DownMore(f0.act[t] + prop, f.act[t] + prop, net.edges[t][k].weight);
        ShareKept(net, g, h, net.edges[t][k], f0.act[t] + prop);
      }
    }
  }

  lemma {:induction false} EdgesDeliver(net: Net, f0: Field, f: Field, u: nat, strength: real, depth: nat, i: nat, k: nat)
    requires net.Ok() && f0.Fits(net) && f.Fits(net) && Grows(net, f0, f)
    requires u < |net.edges| && depth < net.maxDepth && i <= k < net.Limit(u) && strength >= 0.0
    ensures Delivered(net, f0, SpreadEdges(net, f, u, strength, depth, i).0, net.edges[u][k], strength)
    decreases net.Limit(u) - i
  {
    var e := net.edges[u][i];
    var f1 := SpreadEdge(net, f, e, strength, depth).0;
    SpreadEdgeGrows(net, f, e, strength, depth);
    if i == k {
      EdgeDelivers(net, f, e, strength, depth);
      SpreadEdgesGrow(net, f1, u, strength, depth, i + 1);
      DeliveredOver(net, f0, f, f1, SpreadEdges(net, f1, u, strength, depth, i + 1).0, e, strength);
    } else {
      GrowsTrans(net, f0, f, f1);
      EdgesDeliver(net, f0, f1, u, strength, depth, i + 1, k);
    }
  }

  /** A query that is not refused leaves its source with the strength, or more, and
      delivers along each of the first edges of the source, up to the cap. */
  lemma QueryDelivers(net: Net, f: Field, u: int, strength: real)
    requires net.Ok() && f.Fits(net) && Accepted(net, u, strength, 0)
    ensures var g := SpreadFrom(net, f, u, strength, 0).0;
      && g.act[u] >= strength && g.act[u] >= f.act[u]
      && forall k :: 0 <= k < net.Limit(u) ==> Delivered(net, f, g, net.edges[u][k], strength)
  {
    var f1 := if strength > f.act[u] then f.(act := f.act[u := strength]) else f;
    SpreadEdgesGrow(net, f1, u, strength, 0, 0);
    forall k | 0 <= k < net.Limit(u)
      ensures Delivered(net, f, SpreadFrom(net, f, u, strength, 0).0, net.edges[u][k], strength)
    {
      EdgesDeliver(net, f, f1, u, strength, 0, 0, k);
    }
  }

  /** It counts nothing exactly when it is refused, and then changes nothing. */
  lemma RefusedExactly(net: Net, f: Field, u: int, strength: real, depth: nat)
    requires f.Fits(net)
    ensures SpreadFrom(net, f, u, strength, depth).1 == 0 <==> !Accepted(net, u, strength, depth)
    ensures !Accepted(net, u, strength, depth) ==> SpreadFrom(net, f, u, strength, depth).0 == f
  {
  }

  // ----- Without binding nodes: what was raised has passed it on -----

  /** The value arrives at v by a walk of exactly n edges. */
  ghost predicate ArrivesAfter(net: Net, u: int, strength: real, n: nat, v: int, value: real) {
    exists p :: |p| == n && Trail(net, u, p, v) && value == Along(net, u, p, strength)
  }

  lemma ArrivesAfterSelf(net: Net, u: int, strength: real)
    requires net.InRange(u)
    ensures ArrivesAfter(net, u, strength, 0, u, strength)
  {
    assert Trail(net, u, [], u) && Along(net, u, [], strength) == strength;
  }

  lemma ArrivesAfterStep(net: Net, u: nat, i: nat, strength: real, n: nat, v: int, value: real)
    requires net.InRange(u) && i < net.Limit(u)
    requires var e := net.edges[u][i]; ArrivesAfter(net, e.target, Down(strength, e.weight), n, v, value)
    ensures ArrivesAfter(net, u, strength, n + 1, v, value)
  {
    var e := net.edges[u][i];
    var p :| |p| == n && Trail(net, e.target, p, v) && value == Along(net, e.target, p, Down(strength, e.weight));
    assert ([i] + p)[1..] == p;
    assert Trail(net, u, [i] + p, v) && value == Along(net, u, [i] + p, strength);
  }

  /** What v has is below the cutoff, or its members have their share of it, or it
      came by a walk of exactly n edges. */
  ghost predicate Settled(net: Net, g: Field, u: int, strength: real, n: nat, v: nat)
    requires g.Fits(net) && v < |net.edges|
  {
    || g.act[v] < net.cutoff
    || Passed(net, g, v, g.act[v], 0)
    || ArrivesAfter(net, u, strength, n, v, g.act[v])
  }

  ghost predicate Settles(net: Net, f: Field, g: Field, u: int, strength: real, n: nat)
    requires f.Fits(net) && g.Fits(net)
  {
    forall v: nat :: v < |f.act| && g.act[v] != f.act[v] ==> Settled(net, g, u, strength, n, v)
  }

  lemma SettledKept(net: Net, g: Field, h: Field, u: int, strength: real, n: nat, v: nat)
    requires g.Fits(net) && h.Fits(net) && v < |net.edges| && Settled(net, g, u, strength, n, v)
    requires Grows(net, g, h) && h.act[v] == g.act[v]
    ensures Settled(net, h, u, strength, n, v)
  {
    if Passed(net, g, v, g.act[v], 0) {
      forall k | 0 <= k < net.Limit(v)
        ensures HasShare(net, h, net.edges[v][k], h.act[v])
      {
        ShareKept(net, g, h, net.edges[v][k], g.act[v]);
      }
    }
  }

  lemma SettlesThen(net: Net, f: Field, g: Field, h: Field, u: int, strength: real, n: nat)
    requires f.Fits(net) && g.Fits(net) && h.Fits(net) && Grows(net, g, h)
    requires Settles(net, f, g, u, strength, n) && Settles(net, g, h, u, strength, n)
    ensures Settles(net, f, h, u, strength, n)
  {
    forall v: nat | v < |f.act| && h.act[v] != f.act[v]
      ensures Settled(net, h, u, strength, n, v)
    {
      if h.act[v] == g.act[v] { SettledKept(net, g, h, u, strength, n, v); }
    }
  }

  lemma SettlesStep(net: Net, f: Field, g: Field, u: nat, i: nat, strength: real, n: nat)
    requires f.Fits(net) && g.Fits(net) && net.InRange(u) && i < net.Limit(u)
    requires var e := net.edges[u][i]; Settles(net, f, g, e.target, Down(strength, e.weight), n)
    ensures Settles(net, f, g, u, strength, n + 1)
  {
    var e := net.edges[u][i];
    forall v: nat | v < |f.act| && g.act[v] != f.act[v]
      ensures Settled(net, g, u, strength, n + 1, v)
    {
      if ArrivesAfter(net, e.target, Down(strength, e.weight), n, v, g.act[v]) {
        ArrivesAfterStep(net, u, i, strength, n, v, g.act[v]);
      }
    }
  }

  /** The members of an expanded node have their share. */
  lemma ExpandedPasses(net: Net, f: Field, u: nat, strength: real, depth: nat)
    requires net.Ok() && f.Fits(net) && NoBinding(net) && u < |net.edges| && depth < net.maxDepth && strength >= 0.0
    ensures Passed(net, SpreadEdges(net, f, u, strength, depth, 0).0, u, strength, 0)
  {
    forall k | 0 <= k < net.Limit(u)
      ensures HasShare(net, SpreadEdges(net, f, u, strength, depth, 0).0, net.edges[u][k], strength)
    {
      EdgesDeliver(net, f, f, u, strength, depth, 0, k);
    }
  }

  /** A node that has just been raised to the strength, and whatever else this raises, is settled. */
  lemma {:induction false} SpreadFromSettles(net: Net, f: Field, u: int, strength: real, depth: nat)
    requires net.Ok() && f.Fits(net) && NoBinding(net) && depth <= net.maxDepth
    requires net.InRange(u) && f.act[u] >= strength && (depth > 0 ==> f.act[u] == strength)
    ensures var g := SpreadFrom(net, f, u, strength, depth).0;
      && Settles(net, f, g, u, strength, net.maxDepth - depth)
      && (f.act[u] == strength ==> Settled(net, g, u, strength, net.maxDepth - depth, u))
    decreases net.maxDepth - depth, 2, 0
  {
    if depth == net.maxDepth {
      ArrivesAfterSelf(net, u, strength);
    } else if strength >= net.cutoff {
      SpreadEdgesSettle(net, f, u, strength, depth, 0);
      ExpandedPasses(net, f, u, strength, depth);
    }
  }

  lemma {:induction false} SpreadEdgesSettle(net: Net, f: Field, u: nat, strength: real, depth: nat, i: nat)
    requires net.Ok() && f.Fits(net) && NoBinding(net) && u < |net.edges| && depth < net.maxDepth
    requires i <= net.Limit(u) && strength >= 0.0
    ensures Settles(net, f, SpreadEdges(net, f, u, strength, depth, i).0, u, strength, net.maxDepth - depth)
    decreases net.maxDepth - depth, 1, net.Limit(u) - i
  {
    if i < net.Limit(u) {
      var e := net.edges[u][i];
      var f1 := SpreadEdge(net, f, e, strength, depth).0;
      SpreadEdgeSettles(net, f, e, strength, depth);
      SettlesStep(net, f, f1, u, i, strength, net.maxDepth - depth - 1);
      SpreadEdgesSettle(net, f1, u, strength, depth, i + 1);
      SpreadEdgesGrow(net, f1, u, strength, depth, i + 1);
      SettlesThen(net, f, f1, SpreadEdges(net, f1, u, strength, depth, i + 1).0, u, strength, net.maxDepth - depth);
    }
  }

  lemma {:induction false} SpreadEdgeSettles(net: Net, f: Field, e: Edge, strength: real, depth: nat)
    requires net.Ok() && f.Fits(net) && NoBinding(net) && depth < net.maxDepth && strength >= 0.0 && e.weight >= 0.0
    ensures Settles(net, f, SpreadEdge(net, f, e, strength, depth).0,
                    e.target, Down(strength, e.weight), net.maxDepth - depth - 1)
    decreases net.maxDepth - depth, 0, 0
  {
    var v, prop := e.target, Down(strength, e.weight);
    if net.InRange(v) && prop > f.act[v] {
      var f1 := f.(act := f.act[v := prop]);
      SpreadFromSettles(net, f1, v, prop, depth + 1);
    }
  }

  /** Without binding nodes, every node that a query raises, its source included,
      ends below the cutoff, or has passed its final voltage on to all members, or
      got it by a walk of exactly as many edges as the depth bound. */
  lemma RaisedIsSettled(net: Net, f: Field, u: int, strength: real, v: nat)
    requires net.Ok() && f.Fits(net) && NoBinding(net) && Accepted(net, u, strength, 0) && v < |f.act|
    ensures var g := SpreadFrom(net, f, u, strength, 0).0;
      g.act[v] != f.act[v] ==> Settled(net, g, u, strength, net.maxDepth, v)
  {
    var f1 := if strength > f.act[u] then f.(act := f.act[u := strength]) else f;
    assert SpreadFrom(net, f1, u, strength, 0).0 == SpreadFrom(net, f, u, strength, 0).0;
    SpreadFromSettles(net, f1, u, strength, 0);
  }

  // ----- When every walk within the bound is honoured -----

  /** The node at which the walk ends. */
  function End(net: Net, u: int, p: seq<nat>): int
    decreases |p|
  {
    if p == [] || !net.InRange(u) || p[0] >= net.Limit(u) then u else End(net, net.edges[u][p[0]].target, p[1..])
  }

  /** Up to position k the walk is one to a node whose edge p[k] it takes next. */
  lemma {:induction false} WalkAt(net: Net, u: int, p: seq<nat>, v: int, strength: real, k: nat)
    requires Trail(net, u, p, v) && k < |p|
    ensures var w := End(net, u, p[..k]);
      && Trail(net, u, p[..k], w) && net.InRange(w) && p[k] < net.Limit(w)
      && End(net, u, p[..k + 1]) == net.edges[w][p[k]].target
      && Along(net, u, p[..k + 1], strength) == Down(Along(net, u, p[..k], strength), net.edges[w][p[k]].weight)
    decreases k
  {
    var e := net.edges[u][p[0]];
    if k == 0 {
      assert p[..1][1..] == [];
    } else {
      WalkAt(net, e.target, p[1..], v, Down(strength, e.weight), k - 1);
      assert p[..k][1..] == p[1..][..k - 1] && p[..k + 1][1..] == p[1..][..k];
    }
  }

  lemma {:induction false} WalkEnds(net: Net, u: int, p: seq<nat>, v: int)
    requires Trail(net, u, p, v)
    ensures End(net, u, p) == v && net.InRange(v)
    decreases |p|
  {
    if p != [] { WalkEnds(net, net.edges[u][p[0]].target, p[1..], v); }
  }

  /** The voltage on the way never falls below the cutoff. */
  ghost predicate Strong(net: Net, u: int, p: seq<nat>, strength: real) {
    forall k :: 0 <= k < |p| ==> StrongAt(net, u, p, strength, k)
  }

  predicate StrongAt(net: Net, u: int, p: seq<nat>, strength: real, k: nat)
    requires k < |p|
  {
    Along(net, u, p[..k], strength) >= net.cutoff
  }

  /** Before the query, the nodes on the way have less than what the walk brings. */
  ghost predicate Fresh(net: Net, f: Field, u: int, p: seq<nat>, strength: real) {
    forall k :: 0 < k < |p| ==> FreshAt(net, f, u, p, strength, k)
  }

  predicate FreshAt(net: Net, f: Field, u: int, p: seq<nat>, strength: real, k: nat)
    requires k < |p|
  {
    var w := End(net, u, p[..k]);
    0 <= w < |f.act| ==> f.act[w] < Along(net, u, p[..k], strength)
  }

  /** A walk of as many edges as the depth bound is weaker than any shorter one to its end. */
  ghost predicate FadesAtBound(net: Net, u: int) {
    forall p, q, v :: Trail(net, u, p, v) && Trail(net, u, q, v) ==> Fades(net, u, p, q)
  }

  predicate Fades(net: Net, u: int, p: seq<nat>, q: seq<nat>) {
    |p| < |q| == net.maxDepth ==> Gain(net, u, q) < Gain(net, u, p)
  }

  /** Walk p leaves at its end what it brings, or more. */
  predicate Honours(net: Net, g: Field, u: int, p: seq<nat>, strength: real) {
    var v := End(net, u, p);
    0 <= v < |g.act| && g.act[v] >= strength * Gain(net, u, p)
  }

  /** A number as a product, out of sight of the solver's multiplication. */
  function Scaled(s: real, x: real): real {
    s * x
  }

  lemma AlongScaled(net: Net, u: int, p: seq<nat>, strength: real)
    ensures Along(net, u, p, strength) == Scaled(strength, Gain(net, u, p))
  {
    AlongIsGain(net, u, p, strength);
  }

  lemma ScaledLess(s: real, x: real, y: real)
    requires s > 0.0 && x < y
    ensures Scaled(s, x) < Scaled(s, y)
  {
  }

  lemma WeakerAtBound(net: Net, u: int, strength: real, p: seq<nat>, q: seq<nat>)
    requires strength > 0.0 && Gain(net, u, q) < Gain(net, u, p)
    ensures Along(net, u, q, strength) < Along(net, u, p, strength)
  {
    AlongScaled(net, u, p, strength);
    AlongScaled(net, u, q, strength);
    ScaledLess(strength, Gain(net, u, q), Gain(net, u, p));
  }

  /** What v has is not from a walk of as many edges as the bound. */
  lemma NotAtBound(net: Net, u: int, strength: real, p: seq<nat>, v: int, value: real)
    requires strength > 0.0 && FadesAtBound(net, u) && |p| < net.maxDepth && Trail(net, u, p, v)
    requires value >= Along(net, u, p, strength)
    ensures !ArrivesAfter(net, u, strength, net.maxDepth, v, value)
  {
    forall q | |q| == net.maxDepth && Trail(net, u, q, v)
      ensures value != Along(net, u, q, strength)
    {
      assert Fades(net, u, p, q);
      WeakerAtBound(net, u, strength, p, q);
    }
  }

  /** A raised node on the way of a walk has passed its voltage on. */
  lemma OnTheWay(net: Net, f: Field, u: int, strength: real, p: seq<nat>, v: nat)
    requires net.Ok() && f.Fits(net) && NoBinding(net) && Accepted(net, u, strength, 0) && strength > 0.0
    requires FadesAtBound(net, u) && |p| < net.maxDepth && Trail(net, u, p, v) && v < |f.act|
    requires var g := SpreadFrom(net, f, u, strength, 0).0;
      f.act[v] < Along(net, u, p, strength) <= g.act[v]
    requires Along(net, u, p, strength) >= net.cutoff
    ensures var g := SpreadFrom(net, f, u, strength, 0).0; Passed(net, g, v, g.act[v], 0)
  {
    RaisedIsSettled(net, f, u, strength, v);
    NotAtBound(net, u, strength, p, v, SpreadFrom(net, f, u, strength, 0).0.act[v]);
  }

  lemma OneMore(net: Net, f: Field, u: int, strength: real, p: seq<nat>, v: int, k: nat)
    requires net.Ok() && f.Fits(net) && NoBinding(net) && Accepted(net, u, strength, 0) && strength > 0.0
    requires FadesAtBound(net, u) && |p| <= net.maxDepth && Trail(net, u, p, v) && k < |p|
    requires Strong(net, u, p, strength) && Fresh(net, f, u, p, strength)
    requires var g, w := SpreadFrom(net, f, u, strength, 0).0, End(net, u, p[..k]);
      0 <= w < |f.act| && g.act[w] >= Along(net, u, p[..k], strength)
    ensures var g, w := SpreadFrom(net, f, u, strength, 0).0, End(net, u, p[..k + 1]);
      0 <= w < |f.act| ==> g.act[w] >= Along(net, u, p[..k + 1], strength)
  {
    var g, w := SpreadFrom(net, f, u, strength, 0).0, End(net, u, p[..k]);
    WalkAt(net, u, p, v, strength, k);
    var e, x := net.edges[w][p[k]], Along(net, u, p[..k], strength);
    if k == 0 {
      QueryDelivers(net, f, u, strength);
      assert Delivered(net, f, g, e, strength);
    } else {
      assert StrongAt(net, u, p, strength, k) && FreshAt(net, f, u, p, strength, k);
      OnTheWay(net, f, u, strength, p[..k], w);
      assert HasShare(net, g, e, g.act[w]);
      DownMore(x, g.act[w], e.weight);
    }
  }

  lemma {:induction false} UpTo(net: Net, f: Field, u: int, strength: real, p: seq<nat>, v: int, k: nat)
    requires net.Ok() && f.Fits(net) && NoBinding(net) && Accepted(net, u, strength, 0) && strength > 0.0
    requires FadesAtBound(net, u) && |p| <= net.maxDepth && Trail(net, u, p, v) && k <= |p|
    requires Strong(net, u, p, strength) && Fresh(net, f, u, p, strength)
    ensures var g, w := SpreadFrom(net, f, u, strength, 0).0, End(net, u, p[..k]);
      0 <= w < |f.act| && g.act[w] >= Along(net, u, p[..k], strength)
    decreases k
  {
    if k == 0 {
      QueryDelivers(net, f, u, strength);
    } else {
      UpTo(net, f, u, strength, p, v, k - 1);
      OneMore(net, f, u, strength, p, v, k - 1);
      if k < |p| {
        WalkAt(net, u, p, v, strength, k);
      } else {
        assert p[..k] == p;
        WalkEnds(net, u, p, v);
      }
    }
  }

  /** Without binding nodes, and where walks fade at the bound, every walk within
      the bound whose voltage stays at the cutoff or above, through nodes that have
      less than it brings, leaves its end with the strength times its gain, or more. */
  lemma WalkHonoured(net: Net, f: Field, u: int, strength: real, p: seq<nat>, v: int)
    requires net.Ok() && f.Fits(net) && NoBinding(net) && Accepted(net, u, strength, 0) && strength > 0.0
    requires FadesAtBound(net, u) && |p| <= net.maxDepth && Trail(net, u, p, v)
    requires Strong(net, u, p, strength) && Fresh(net, f, u, p, strength)
    ensures Honours(net, SpreadFrom(net, f, u, strength, 0).0, u, p, strength)
  {
    UpTo(net, f, u, strength, p, v, |p|);
    assert p[..|p|] == p;
    AlongIsGain(net, u, p, strength);
  }

  /** Some walk within the bound brings exactly the value. */
  ghost predicate Brought(net: Net, u: int, strength: real, v: int, value: real) {
    exists p :: |p| <= net.maxDepth && Trail(net, u, p, v) && value == strength * Gain(net, u, p)
  }

  /** A walk within the bound, strong all the way and through nodes that have less. */
  ghost predicate Open(net: Net, f: Field, u: int, strength: real, p: seq<nat>, v: int) {
    |p| <= net.maxDepth && Trail(net, u, p, v) && Strong(net, u, p, strength) && Fresh(net, f, u, p, strength)
  }

  /** No such walk brings more. */
  ghost predicate NoneBringsMore(net: Net, f: Field, u: int, strength: real, v: int, value: real) {
    forall p :: Open(net, f, u, strength, p, v) ==> strength * Gain(net, u, p) <= value
  }

  lemma NoneMore(net: Net, f: Field, u: int, strength: real, v: nat)
    requires net.Ok() && f.Fits(net) && NoBinding(net) && Accepted(net, u, strength, 0) && strength > 0.0
    requires FadesAtBound(net, u) && v < |f.act|
    ensures NoneBringsMore(net, f, u, strength, v, SpreadFrom(net, f, u, strength, 0).0.act[v])
  {
    forall p | Open(net, f, u, strength, p, v)
      ensures strength * Gain(net, u, p) <= SpreadFrom(net, f, u, strength, 0).0.act[v]
    {
      WalkHonoured(net, f, u, strength, p, v);
      WalkEnds(net, u, p, v);
    }
  }

  lemma ValueBrought(net: Net, f: Field, u: int, strength: real, v: nat)
    requires net.Ok() && f.Fits(net) && NoBinding(net) && v < |f.act|
    ensures var value := SpreadFrom(net, f, u, strength, 0).0.act[v];
      value == f.act[v] || (value > f.act[v] && Brought(net, u, strength, v, value))
  {
    QueryEffect(net, f, u, strength);
    QueryValues(net, f, u, strength);
  }

  /** So the final voltage of a raised node is pinned from both sides: a walk
      within the bound brings exactly that, and no open walk brings more. */
  lemma RaisedIsPinned(net: Net, f: Field, u: int, strength: real, v: nat)
    requires net.Ok() && f.Fits(net) && NoBinding(net) && Accepted(net, u, strength, 0) && strength > 0.0
    requires FadesAtBound(net, u) && v < |f.act|
    ensures var value := SpreadFrom(net, f, u, strength, 0).0.act[v];
      && (value == f.act[v] || (value > f.act[v] && Brought(net, u, strength, v, value)))
      && NoneBringsMore(net, f, u, strength, v, value)
  {
    ValueBrought(net, f, u, strength, v);
    NoneMore(net, f, u, strength, v);
  }

  /** An old voltage on the way can hold a walk up: here node 1 keeps its 1.0, and
      node 2 gets nothing of the 0.49 that the walk brings. */
  lemma OldVoltageBlocks()
    ensures var net := Net([[Edge(1, 1.0, 1, Temporal, Unknown)], [Edge(2, 1.0, 1, Temporal, Unknown)], []],
                           [false, false, false], 0.01, 2, 12);
      var f := Field([0.0, 1.0, 0.0], [false, false, false], []);
      && Trail(net, 0, [0, 0], 2) && Gain(net, 0, [0, 0]) == 0.49
      && SpreadFrom(net, f, 0, 1.0, 0).0.act == [1.0, 1.0, 0.0]
  {
    var net := Net([[Edge(1, 1.0, 1, Temporal, Unknown)], [Edge(2, 1.0, 1, Temporal, Unknown)], []],
                   [false, false, false], 0.01, 2, 12);
    assert Trail(net, 2, [], 2) && [0, 0][1..] == [0] && [0][1..] == [];
    assert Trail(net, 1, [0], 2) && Gain(net, 1, [0]) == 0.7;
    var f1 := Field([1.0, 1.0, 0.0], [false, false, false], []);
    assert net.Limit(0) == 1;
    assert SpreadEdge(net, f1, net.edges[0][0], 1.0, 0).0 == f1;
    assert SpreadEdges(net, f1, 0, 1.0, 0, 1).0 == f1;
  }

  // ----- The count -----

  /** The nodes raised to the cutoff or above other than by a walk of exactly n edges. */
  ghost function Counted(net: Net, f: Field, g: Field, u: int, strength: real, n: nat): set<nat>
    requires f.Fits(net) && g.Fits(net)
  {
    set v: nat | v < |f.act| && g.act[v] != f.act[v] && g.act[v] >= net.cutoff &&
                 !ArrivesAfter(net, u, strength, n, v, g.act[v])
  }

  lemma Covers(a: set<nat>, b: set<nat>, c: set<nat>)
    requires a <= b + c
    ensures |a| <= |b| + |c|
  {
    Smaller(a, b + c);
    assert b + c == b + (c - b);
    Smaller(c - b, c);
  }

  lemma {:induction false} Smaller(a: set<nat>, b: set<nat>)
    requires a <= b
    ensures |a| <= |b|
  {
    if a != {} {
      var x :| x in a;
      Smaller(a - {x}, b - {x});
    }
  }

  lemma CountedThen(net: Net, f: Field, g: Field, h: Field, u: int, strength: real, n: nat)
    requires f.Fits(net) && g.Fits(net) && h.Fits(net)
    ensures |Counted(net, f, h, u, strength, n)| <=
      |Counted(net, f, g, u, strength, n)| + |Counted(net, g, h, u, strength, n)|
  {
    Covers(Counted(net, f, h, u, strength, n), Counted(net, f, g, u, strength, n), Counted(net, g, h, u, strength, n));
  }

  lemma CountedStep(net: Net, f: Field, g: Field, u: nat, i: nat, strength: real, n: nat)
    requires f.Fits(net) && g.Fits(net) && net.InRange(u) && i < net.Limit(u)
    ensures var e := net.edges[u][i];
      |Counted(net, f, g, u, strength, n + 1)| <= |Counted(net, f, g, e.target, Down(strength, e.weight), n)|
  {
    var e := net.edges[u][i];
    var a, b := Counted(net, f, g, u, strength, n + 1), Counted(net, f, g, e.target, Down(strength, e.weight), n);
    forall v | v in a
      ensures v in b
    {
      if ArrivesAfter(net, e.target, Down(strength, e.weight), n, v, g.act[v]) {
        ArrivesAfterStep(net, u, i, strength, n, v, g.act[v]);
      }
    }
    Smaller(a, b);
  }

  lemma {:induction false} SpreadEdgesCount(net: Net, f: Field, u: nat, strength: real, depth: nat, i: nat)
    requires f.Fits(net) && NoBinding(net) && u < |net.edges| && depth < net.maxDepth && i <= net.Limit(u)
    ensures var (g, m) := SpreadEdges(net, f, u, strength, depth, i);
      |Counted(net, f, g, u, strength, net.maxDepth - depth)| <= m
    decreases net.maxDepth - depth, 1, net.Limit(u) - i
  {
    var n := net.maxDepth - depth;
    if i < net.Limit(u) {
      var e := net.edges[u][i];
      var (f1, m1) := SpreadEdge(net, f, e, strength, depth);
      var (f2, m2) := SpreadEdges(net, f1, u, strength, depth, i + 1);
      SpreadEdgeCount(net, f, e, strength, depth);
      CountedStep(net, f, f1, u, i, strength, n - 1);
      SpreadEdgesCount(net, f1, u, strength, depth, i + 1);
      CountedThen(net, f, f1, f2, u, strength, n);
    } else {
      assert Counted(net, f, f, u, strength, n) == {};
    }
  }

  lemma {:induction false} SpreadEdgeCount(net: Net, f: Field, e: Edge, strength: real, depth: nat)
    requires f.Fits(net) && NoBinding(net) && depth < net.maxDepth
    ensures var (g, m) := SpreadEdge(net, f, e, strength, depth);
      |Counted(net, f, g, e.target, Down(strength, e.weight), net.maxDepth - depth - 1)| <= m
    decreases net.maxDepth - depth, 0, 0
  {
    var v, prop, n := e.target, Down(strength, e.weight), net.maxDepth - depth - 1;
    if net.InRange(v) && prop > f.act[v] {
      var f1 := f.(act := f.act[v := prop]);
      var (g, m) := SpreadFrom(net, f1, v, prop, depth + 1);
      if Accepted(net, v, prop, depth + 1) {
        SpreadEdgesCount(net, f1, v, prop, depth + 1, 0);
        Covers(Counted(net, f, g, v, prop, n), Counted(net, f1, g, v, prop, n), {v as nat});
      } else {
        if n == 0 { ArrivesAfterSelf(net, v, prop); }
        assert Counted(net, f, g, v, prop, n) == {};
      }
    } else {
      assert Counted(net, f, f, v, prop, n) == {};
    }
  }

  /** A query that is not refused counts its source and, without binding nodes,
      every other node that it raises to the cutoff or above, other than by a walk
      of exactly as many edges as the bound. */
  lemma CountsRaised(net: Net, f: Field, u: int, strength: real)
    requires f.Fits(net) && NoBinding(net) && Accepted(net, u, strength, 0)
    ensures var (g, m) := SpreadFrom(net, f, u, strength, 0);
      |Counted(net, f, g, u, strength, net.maxDepth) - {u}| < m
  {
    var f1 := if strength > f.act[u] then f.(act := f.act[u := strength]) else f;
    var g := SpreadFrom(net, f, u, strength, 0).0;
    SpreadEdgesCount(net, f1, u, strength, 0, 0);
    Smaller(Counted(net, f, g, u, strength, net.maxDepth) - {u}, Counted(net, f1, g, u, strength, net.maxDepth));
  }

  // ----- Where all weights are alike, the condition is that nothing is lossless -----

  predicate Uniform(net: Net, w: real) {
    forall u, i :: 0 <= u < |net.edges| && 0 <= i < |net.edges[u]| ==> net.edges[u][i].weight == w
  }

  function Power(c: real, n: nat): real {
    if n == 0 then 1.0 else c * Power(c, n - 1)
  }

  lemma {:induction false} GainIsPower(net: Net, u: int, p: seq<nat>, v: int, w: real)
    requires Uniform(net, w) && Trail(net, u, p, v)
    ensures Gain(net, u, p) == Power(DECAY * w, |p|)
    decreases |p|
  {
    if p != [] { GainIsPower(net, net.edges[u][p[0]].target, p[1..], v, w); }
  }

  lemma ScaleLess(s: real, x: real, y: real, a: real, b: real)
    requires s > 0.0 && x < y && a == s * x && b == s * y
    ensures a < b
  {
  }

  lemma {:induction false} PowerFalls(c: real, m: nat, n: nat)
    requires 0.0 < c < 1.0 && m < n
    ensures 0.0 < Power(c, n) < Power(c, m)
    decreases n
  {
    if m + 1 < n { PowerFalls(c, m, n - 1); } else { PowerPositive(c, m); }
    ScaleLess(Power(c, n - 1), c, 1.0, Power(c, n - 1) * c, Power(c, n - 1));
  }

  lemma {:induction false} PowerPositive(c: real, n: nat)
    requires 0.0 < c
    ensures 0.0 < Power(c, n)
  {
    if n > 0 { PowerPositive(c, n - 1); }
  }

  lemma UniformFades(net: Net, u: int, w: real)
    requires Uniform(net, w) && 0.0 < DECAY * w < 1.0
    ensures FadesAtBound(net, u)
  {
    forall p, q, v | Trail(net, u, p, v) && Trail(net, u, q, v)
      ensures Fades(net, u, p, q)
    {
      GainIsPower(net, u, p, v, w);
      GainIsPower(net, u, q, v, w);
      if |p| < |q| { PowerFalls(DECAY * w, |p|, |q|); }
    }
  }

  /** A query of a graph without binding nodes whose weights are all w. */
  predicate UniformQuery(net: Net, u: int, f: Field, s: real, w: real, bound: nat) {
    && net.Ok() && f.Fits(net) && NoBinding(net) && Uniform(net, w)
    && net.maxDepth == bound && Accepted(net, u, s, 0) && s > 0.0
  }

  ghost predicate HonoursOpen(net: Net, u: int, f: Field, s: real)
    requires f.Fits(net)
  {
    forall p, v :: Open(net, f, u, s, p, v) ==> Honours(net, SpreadFrom(net, f, u, s, 0).0, u, p, s)
  }

  /** 0 -> 1 -> 2 -> ... -> n + 1, and the shortcut 0 -> 2. */
  function Shortcut(n: nat, w: real): (net: Net)
    ensures |net.edges| == |net.binding| == n + 2
  {
    Net(seq(n + 2, i =>
          if i == 0 then [Edge(1, w, 1, Temporal, Unknown), Edge(2, w, 1, Temporal, Unknown)]
          else if i <= n then [Edge(i + 1, w, 1, Temporal, Unknown)] else []),
        seq(n + 2, _ => false), 0.01, n, 12)
  }

  function Zeros(n: nat): (z: seq<real>)
    ensures |z| == n && forall i :: 0 <= i < n ==> z[i] == 0.0
  {
    seq(n, _ => 0.0)
  }

  function Blank(n: nat): Field {
    Field(Zeros(n), seq(n, _ => false), [])
  }

  lemma DownLossless(s: real, w: real)
    requires s >= 1.0 && DECAY * w >= 1.0
    ensures Down(s, w) >= s
  {
    assert Down(s, w) - s == s * (DECAY * w - 1.0);
  }

  /** Along the line the way ends at node n. */
  lemma {:induction false} LineStops(n: nat, w: real, f: Field, d: nat, s: real)
    requires DECAY * w >= 1.0 && 1 <= d <= n && f.Fits(Shortcut(n, w)) && s >= 1.0
    requires forall j :: d < j < n + 2 ==> f.act[j] == 0.0
    ensures var g := SpreadFrom(Shortcut(n, w), f, d, s, d).0;
      && (forall j :: 0 <= j <= d ==> g.act[j] == f.act[j])
      && g.act[n + 1] == f.act[n + 1]
      && (d < n ==> g.act[d + 1] == Down(s, w))
    decreases n - d
  {
    if d < n {
      var net := Shortcut(n, w);
      assert net.Limit(d) == 1;
      var e := net.edges[d][0];
      DownLossless(s, w);
      var f1 := f.(act := f.act[d + 1 := Down(s, w)]);
      LineStops(n, w, f1, d + 1, Down(s, w));
      var g := SpreadFrom(net, f1, d + 1, Down(s, w), d + 1).0;
      assert SpreadEdge(net, f, e, s, d).0 == g;
      assert SpreadEdges(net, g, d, s, d, 1).0 == g;
      assert SpreadFrom(net, f, d, s, d).0 == SpreadEdges(net, f, d, s, d, 0).0;
    }
  }

  /** The shortcut comes too late: node 2 has been raised along the longer way. */
  lemma ShortcutStops(n: nat, w: real)
    requires n >= 2 && DECAY * w >= 1.0
    ensures SpreadFrom(Shortcut(n, w), Blank(n + 2), 0, 1.0, 0).0.act[n + 1] == 0.0
  {
    var net, f := Shortcut(n, w), Blank(n + 2);
    assert net.Limit(0) == 2;
    var f0 := f.(act := f.act[0 := 1.0]);
    var c := Down(1.0, w);
    DownLossless(1.0, w);
    DownLossless(c, w);
    var f1 := f0.(act := f0.act[1 := c]);
    LineStops(n, w, f1, 1, c);
    var g := SpreadFrom(net, f1, 1, c, 1).0;
    assert SpreadEdge(net, f0, net.edges[0][0], 1.0, 0).0 == g;
    assert SpreadEdge(net, g, net.edges[0][1], 1.0, 0).0 == g;
    assert SpreadEdges(net, g, 0, 1.0, 0, 2).0 == g;
    assert SpreadEdges(net, g, 0, 1.0, 0, 1).0 == g;
  }

  /** The way over the shortcut: its second edge, then the only ones. */
  function Way(n: nat): (p: seq<nat>)
    ensures |p| == n
  {
    seq(n, k => if k == 0 then 1 else 0)
  }

  lemma {:induction false} LineTrail(n: nat, w: real, d: nat, p: seq<nat>, s: real, k: nat)
    requires DECAY * w >= 1.0 && 1 <= d && d + |p| == n + 1 && (forall i :: 0 <= i < |p| ==> p[i] == 0) && k <= |p| && s >= 1.0
    ensures var net := Shortcut(n, w);
      Trail(net, d, p, n + 1) && End(net, d, p[..k]) == d + k && Along(net, d, p[..k], s) >= 1.0
    decreases |p|
  {
    var net := Shortcut(n, w);
    if p != [] {
      var e := net.edges[d][0];
      assert net.Limit(d) == 1 && e.target == d + 1;
      DownLossless(s, w);
      LineTrail(n, w, d + 1, p[1..], Down(s, w), if k == 0 then 0 else k - 1);
      if k > 0 { assert p[..k][1..] == p[1..][..k - 1]; }
    }
  }

  lemma ShortcutTrail(n: nat, w: real, k: nat)
    requires n >= 2 && DECAY * w >= 1.0 && k <= n
    ensures var net := Shortcut(n, w);
      && Trail(net, 0, Way(n), n + 1) && End(net, 0, Way(n)[..k]) == (if k == 0 then 0 else k + 1)
      && Along(net, 0, Way(n)[..k], 1.0) >= 1.0
  {
    var net, p := Shortcut(n, w), Way(n);
    assert net.Limit(0) == 2;
    DownLossless(1.0, w);
    LineTrail(n, w, 2, p[1..], Down(1.0, w), if k == 0 then 0 else k - 1);
    if k > 0 { assert p[..k][1..] == p[1..][..k - 1]; }
  }

  /** In a lossless graph an open walk may be left out. */
  lemma ShortcutIsMissed(n: nat, w: real)
    requires n >= 2 && DECAY * w >= 1.0
    ensures UniformQuery(Shortcut(n, w), 0, Blank(n + 2), 1.0, w, n)
    ensures !HonoursOpen(Shortcut(n, w), 0, Blank(n + 2), 1.0)
  {
    var net, f, p := Shortcut(n, w), Blank(n + 2), Way(n);
    assert w >= 0.0;
    forall k: nat | k <= n
      ensures End(net, 0, p[..k]) == (if k == 0 then 0 else k + 1) && Along(net, 0, p[..k], 1.0) >= 1.0
    {
      ShortcutTrail(n, w, k);
    }
    ShortcutTrail(n, w, n);
    ShortcutStops(n, w);
    assert p[..n] == p;
    AlongIsGain(net, 0, p, 1.0);
    assert Open(net, f, 0, 1.0, p, n + 1);
  }

  /** For graphs without binding nodes whose edges all have the weight w, and a
      depth bound of two or more: queries honour every open walk, in every graph
      and field and for every strength, if and only if 0.7 * w is less than one. */
  lemma UniformExactly(w: real, bound: nat)
    requires w > 0.0 && bound >= 2
    ensures DECAY * w < 1.0 <==>
      forall net, u, f, s :: UniformQuery(net, u, f, s, w, bound) ==> HonoursOpen(net, u, f, s)
  {
    if DECAY * w < 1.0 {
      forall net, u, f, s | UniformQuery(net, u, f, s, w, bound)
        ensures HonoursOpen(net, u, f, s)
      {
        UniformFades(net, u, w);
        forall p, v | Open(net, f, u, s, p, v)
          ensures Honours(net, SpreadFrom(net, f, u, s, 0).0, u, p, s)
        {
          WalkHonoured(net, f, u, s, p, v);
        }
      }
    } else {
      ShortcutIsMissed(bound, w);
    }
  }
}
