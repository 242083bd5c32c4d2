/** When a query of spreading activation stays within its depth bound. */
module SpreadBound {
  import opened Graph
  import opened Spread

  /** The walk can go along e: only a temporal edge leads into a binding node. */
  predicate Followable(net: Net, e: Edge)
    requires |net.binding| == |net.edges|
  {
    net.InRange(e.target) && (net.binding[e.target] ==> e.etype == Temporal)
  }

  /** p lists the edge positions of a walk from u to v that a query can take. */
  predicate Route(net: Net, u: int, p: seq<nat>, v: int)
    requires |net.binding| == |net.edges|
    decreases |p|
  {
    if p == [] then u == v && net.InRange(v)
    else
      && net.InRange(u) && p[0] < net.Limit(u) && Followable(net, net.edges[u][p[0]])
      && Route(net, net.edges[u][p[0]].target, p[1..], v)
  }

  predicate IsEdge(net: Net, a: int, i: nat, b: int) {
    net.InRange(a) && i < net.Limit(a) && net.edges[a][i].target == b
  }

  /** b binds and has v, which does not, among its members. */
  ghost predicate PassesTo(net: Net, b: int, v: int)
    requires |net.binding| == |net.edges|
  {
    && net.InRange(b) && net.binding[b] && net.InRange(v) && !net.binding[v]
    && exists i :: IsEdge(net, b, i, v)
  }

  /** v is a member of a binding node that a query can enter after exactly so many hops. */
  ghost predicate Beyond(net: Net, u: int, hops: nat, v: int)
    requires |net.binding| == |net.edges|
  {
    exists p, b :: |p| == hops && Route(net, u, p, b) && PassesTo(net, b, v)
  }

  /** The members of binding nodes at the depth bound are themselves within the bound. */
  ghost predicate Contained(net: Net, u: int)
    requires |net.binding| == |net.edges|
  {
    net.maxDepth > 0 ==> forall v: nat :: Beyond(net, u, net.maxDepth, v) ==> Near(net, u, v, net.maxDepth)
  }

  // ----- The condition is enough, for every graph -----

  ghost predicate Reached(net: Net, f: Field, g: Field, u: int, hops: nat)
    requires f.Fits(net) && g.Fits(net)
  {
    forall v: nat :: v < |f.act| && Differ(f, g, v) ==> Near(net, u, v, hops) || Beyond(net, u, hops, v)
  }

  lemma ReachedTrans(net: Net, f: Field, g: Field, h: Field, u: int, hops: nat)
    requires f.Fits(net) && g.Fits(net) && h.Fits(net) && Reached(net, f, g, u, hops) && Reached(net, g, h, u, hops)
    ensures Reached(net, f, h, u, hops)
  {
    forall v: nat | v < |f.act| && Differ(f, h, v)
      ensures Near(net, u, v, hops) || Beyond(net, u, hops, v)
    {
      assert Differ(f, g, v) || Differ(g, h, v);
    }
  }

  lemma BeyondStep(net: Net, u: nat, i: nat, hops: nat, v: int)
    requires |net.binding| == |net.edges| && net.InRange(u) && i < net.Limit(u) && Followable(net, net.edges[u][i])
    requires Beyond(net, net.edges[u][i].target, hops, v)
    ensures Beyond(net, u, hops + 1, v)
  {
    var p, b :| |p| == hops && Route(net, net.edges[u][i].target, p, b) && PassesTo(net, b, v);
    assert ([i] + p)[1..] == p;
    assert Route(net, u, [i] + p, b);
  }

  lemma ReachedStep(net: Net, f: Field, g: Field, u: nat, i: nat, hops: nat)
    requires f.Fits(net) && g.Fits(net) && net.InRange(u) && i < net.Limit(u) && Followable(net, net.edges[u][i])
    requires Reached(net, f, g, net.edges[u][i].target, hops)
    ensures Reached(net, f, g, u, hops + 1)
  {
    forall v: nat | v < |f.act| && Differ(f, g, v)
      ensures Near(net, u, v, hops + 1) || Beyond(net, u, hops + 1, v)
    {
      if Near(net, net.edges[u][i].target, v, hops) {
        NearStep(net, u, i, v, hops);
      } else {
        BeyondStep(net, u, i, hops, v);
      }
    }
  }

  lemma {:induction false} SpreadFromReached(net: Net, f: Field, u: int, strength: real, depth: nat)
    requires f.Fits(net) && depth <= net.maxDepth
    ensures Reached(net, f, SpreadFrom(net, f, u, strength, depth).0, u, net.maxDepth - depth)
    decreases net.maxDepth - depth, 2, 0
  {
    if depth >= net.maxDepth || strength < net.cutoff || !net.InRange(u) {
    } else {
      var f1 := if depth == 0 && strength > f.act[u] then f.(act := f.act[u := strength]) else f;
      NearSelf(net, u, net.maxDepth - depth);
      assert Reached(net, f, f1, u, net.maxDepth - depth);
      SpreadEdgesReached(net, f1, u, strength, depth, 0);
      ReachedTrans(net, f, f1, SpreadEdges(net, f1, u, strength, depth, 0).0, u, net.maxDepth - depth);
    }
  }

  lemma {:induction false} SpreadEdgesReached(net: Net, f: Field, u: nat, strength: real, depth: nat, i: nat)
    requires f.Fits(net) && u < |net.edges| && depth < net.maxDepth && i <= net.Limit(u)
    ensures Reached(net, f, SpreadEdges(net, f, u, strength, depth, i).0, u, net.maxDepth - depth)
    decreases net.maxDepth - depth, 1, net.Limit(u) - i
  {
    if i < net.Limit(u) {
      var e := net.edges[u][i];
      var f1 := SpreadEdge(net, f, e, strength, depth).0;
      if Followable(net, e) {
        SpreadEdgeReached(net, f, e, strength, depth);
        ReachedStep(net, f, f1, u, i, net.maxDepth - depth - 1);
      } else {
        assert f1 == f;
      }
      SpreadEdgesReached(net, f1, u, strength, depth, i + 1);
      ReachedTrans(net, f, f1, SpreadEdges(net, f1, u, strength, depth, i + 1).0, u, net.maxDepth - depth);
    }
  }

  lemma {:induction false} SpreadEdgeReached(net: Net, f: Field, e: Edge, strength: real, depth: nat)
    requires f.Fits(net) && depth < net.maxDepth && Followable(net, e)
    ensures Reached(net, f, SpreadEdge(net, f, e, strength, depth).0, e.target, net.maxDepth - depth - 1)
    decreases net.maxDepth - depth, 0, 0
  {
    var v, prop, hops := e.target, Down(strength, e.weight), net.maxDepth - depth - 1;
    NearSelf(net, v, hops);
    var act := f.act[v] + prop;
    var f1 := f.(act := f.act[v := act]);
    if net.binding[v] && act > FIRE && !f.fired[v] {
      SpreadFromReached(net, Fire(f1, v), v, act, depth + 1);
      assert Reached(net, f, Fire(f1, v), v, hops);
      ReachedTrans(net, f, Fire(f1, v), SpreadFrom(net, Fire(f1, v), v, act, depth + 1).0, v, hops);
    } else if net.binding[v] && f.fired[v] {
      RaiseMembersReached(net, f1, v, act, 0, hops);
      assert Reached(net, f, f1, v, hops);
      ReachedTrans(net, f, f1, RaiseMembers(net, f1, v, act, 0), v, hops);
    } else if !net.binding[v] && prop > f.act[v] {
      var f2 := f.(act := f.act[v := prop]);
      SpreadFromReached(net, f2, v, prop, depth + 1);
      assert Reached(net, f, f2, v, hops);
      ReachedTrans(net, f, f2, SpreadFrom(net, f2, v, prop, depth + 1).0, v, hops);
    }
  }

  /** A member raised by b is one hop away, or beyond when no hop is left. */
  lemma MemberReached(net: Net, f: Field, b: nat, j: nat, act: real, hops: nat)
    requires f.Fits(net) && b < |net.edges| && net.binding[b] && j < net.Limit(b)
    ensures Reached(net, f, RaiseMember(net, f, net.edges[b][j], act), b, hops)
  {
    var t := net.edges[b][j].target;
    if net.InRange(t) && !net.binding[t] {
      if hops > 0 {
        NearSelf(net, t, 0);
        NearStep(net, b, j, t, 0);
        NearMore(net, b, t, 1, hops);
      } else {
        assert IsEdge(net, b, j, t);
        assert Route(net, b, [], b);
        assert Beyond(net, b, 0, t);
      }
    }
  }

  lemma {:induction false} RaiseMembersReached(net: Net, f: Field, b: nat, act: real, j: nat, hops: nat)
    requires f.Fits(net) && b < |net.edges| && net.binding[b] && j <= net.Limit(b)
    ensures Reached(net, f, RaiseMembers(net, f, b, act, j), b, hops)
    decreases net.Limit(b) - j
  {
    if j < net.Limit(b) {
      var f1 := RaiseMember(net, f, net.edges[b][j], act);
      MemberReached(net, f, b, j, act, hops);
      RaiseMembersReached(net, f1, b, act, j + 1, hops);
      ReachedTrans(net, f, f1, RaiseMembers(net, f1, b, act, j + 1), b, hops);
    }
  }

  /** Where the members of binding nodes at the bound are within it, every query
      stays within the bound, whatever the weights and whatever has fired. */
  lemma ContainedIsEnough(net: Net, u: int, f: Field, strength: real)
    requires f.Fits(net) && Contained(net, u)
    ensures Within(net, f, SpreadFrom(net, f, u, strength, 0).0, u, net.maxDepth)
  {
    SpreadFromReached(net, f, u, strength, 0);
  }

  // ----- Shortest walks as node lists -----

  predicate IsOpen(net: Net, a: int, i: nat, b: int)
    requires |net.binding| == |net.edges|
  {
    IsEdge(net, a, i, b) && Followable(net, net.edges[a][i])
  }

  ghost predicate Leads(net: Net, a: int, b: int)
    requires |net.binding| == |net.edges|
  {
    exists i: nat :: IsOpen(net, a, i, b)
  }

  ghost predicate Linked(net: Net, a: int, b: int) {
    exists i :: IsEdge(net, a, i, b)
  }

  lemma {:induction false} NodesOf(net: Net, u: int, p: seq<nat>, v: int) returns (q: seq<nat>)
    requires |net.binding| == |net.edges| && Route(net, u, p, v)
    ensures |q| == |p| + 1 && q[0] == u && q[|p|] == v
    ensures forall k :: 0 <= k < |p| ==> LeadsAt(net, q, k)
    ensures forall k :: 0 <= k < |q| ==> q[k] < |net.edges|
    decreases |p|
  {
    if p == [] {
      q := [u];
    } else {
      var t := net.edges[u][p[0]].target;
      var rest := NodesOf(net, t, p[1..], v);
      q := [u] + rest;
      assert IsOpen(net, u, p[0], t);
      forall k | 0 < k < |p|
        ensures LeadsAt(net, q, k)
      {
        assert LeadsAt(net, rest, k - 1);
      }
    }
  }

  lemma {:induction false} TrailConcat(net: Net, u: int, p: seq<nat>, v: int, r: seq<nat>, w: int)
    requires Trail(net, u, p, v) && Trail(net, v, r, w)
    ensures Trail(net, u, p + r, w)
    decreases |p|
  {
    if p == [] {
      assert p + r == r;
    } else {
      TrailConcat(net, net.edges[u][p[0]].target, p[1..], v, r, w);
      assert (p + r)[1..] == p[1..] + r;
    }
  }

  lemma NearTrans(net: Net, u: int, v: int, w: int, g: nat, h: nat)
    requires Near(net, u, v, g) && Near(net, v, w, h)
    ensures Near(net, u, w, g + h)
  {
    var p :| |p| <= g && Trail(net, u, p, v);
    var r :| |r| <= h && Trail(net, v, r, w);
    TrailConcat(net, u, p, v, r, w);
  }

  ghost predicate LinkedAt(net: Net, q: seq<nat>, k: nat)
    requires k + 1 < |q|
  {
    Linked(net, q[k], q[k + 1])
  }

  ghost predicate LeadsAt(net: Net, q: seq<nat>, k: nat)
    requires |net.binding| == |net.edges| && k + 1 < |q|
  {
    Leads(net, q[k], q[k + 1])
  }

  ghost predicate Joined(net: Net, q: seq<nat>) {
    && (forall k :: 0 <= k < |q| ==> q[k] < |net.edges|)
    && (forall k :: 0 <= k < |q| - 1 ==> LinkedAt(net, q, k))
  }

  lemma LinkedNear(net: Net, a: nat, b: nat)
    requires Linked(net, a, b) && b < |net.edges|
    ensures Near(net, a, b, 1)
  {
    var i :| IsEdge(net, a, i, b);
    NearSelf(net, b, 0);
    NearStep(net, a, i, b, 0);
  }

  lemma {:induction false} NearAlong(net: Net, q: seq<nat>, i: nat, j: nat)
    requires Joined(net, q) && i <= j < |q|
    ensures Near(net, q[i], q[j], j - i)
    decreases j - i
  {
    if i == j {
      NearSelf(net, q[i], 0);
    } else {
      NearAlong(net, q, i + 1, j);
      assert LinkedAt(net, q, i);
      LinkedNear(net, q[i], q[i + 1]);
      NearTrans(net, q[i], q[i + 1], q[j], 1, j - i - 1);
    }
  }

  /** No edge of the list skips a node of it, and no node occurs twice. */
  ghost predicate Straight(net: Net, q: seq<nat>) {
    && (forall i, j :: 0 <= i && i + 2 <= j < |q| ==> !Linked(net, q[i], q[j]))
    && (forall i, j :: 0 <= i < j < |q| ==> q[i] != q[j])
  }

  lemma NoShortcut(net: Net, q: seq<nat>, i: nat, j: nat)
    requires Joined(net, q) && i + 2 <= j < |q| && !Near(net, q[0], q[|q| - 1], |q| - 2)
    ensures !Linked(net, q[i], q[j])
  {
    if Linked(net, q[i], q[j]) {
      var last := |q| - 1;
      NearAlong(net, q, 0, i);
      LinkedNear(net, q[i], q[j]);
      NearAlong(net, q, j, last);
      NearTrans(net, q[0], q[i], q[j], i, 1);
      NearTrans(net, q[0], q[j], q[last], i + 1, last - j);
    }
  }

  lemma NoReturn(net: Net, q: seq<nat>, i: nat, j: nat)
    requires Joined(net, q) && i < j < |q| && !Near(net, q[0], q[|q| - 1], |q| - 2)
    ensures q[i] != q[j]
  {
    if q[i] == q[j] {
      var last := |q| - 1;
      NearAlong(net, q, 0, i);
      NearAlong(net, q, j, last);
      NearTrans(net, q[0], q[i], q[last], i, last - j);
    }
  }

  lemma ShortestIsStraight(net: Net, q: seq<nat>)
    requires Joined(net, q) && |q| >= 2 && !Near(net, q[0], q[|q| - 1], |q| - 2)
    ensures Straight(net, q)
  {
    forall i, j | 0 <= i && i + 2 <= j < |q|
      ensures !Linked(net, q[i], q[j])
    {
      NoShortcut(net, q, i, j);
    }
    forall i, j | 0 <= i < j < |q|
      ensures q[i] != q[j]
    {
      NoReturn(net, q, i, j);
    }
  }

  // ----- Without amplification the condition is necessary -----

  /** No edge amplifies, and no binding node feeds itself. */
  predicate Tame(net: Net)
    requires |net.binding| == |net.edges|
  {
    forall u, i :: 0 <= u < |net.edges| && 0 <= i < |net.edges[u]| ==>
      0.0 < net.edges[u][i].weight && DECAY * net.edges[u][i].weight <= 1.0 &&
      !(net.binding[u] && net.edges[u][i].target == u && net.edges[u][i].etype == Temporal)
  }

  /** A shortest walk to a binding node at the depth bound, and a member of it beyond. */
  ghost predicate IsPlan(net: Net, q: seq<nat>) {
    && |net.binding| == |net.edges| && net.maxDepth > 0 && |q| == net.maxDepth + 2
    && Joined(net, q) && Straight(net, q)
    && (forall k :: 0 <= k < net.maxDepth ==> LeadsAt(net, q, k))
    && net.binding[q[net.maxDepth]] && !net.binding[q[net.maxDepth + 1]]
  }

  /** The first edge from a to b, at position i or later, that a query can follow. */
  function FirstOpen(net: Net, a: nat, b: int, i: nat): (k: nat)
    requires |net.binding| == |net.edges| && a < |net.edges| && i <= net.Limit(a)
    ensures i <= k <= net.Limit(a) && (k < net.Limit(a) ==> IsOpen(net, a, k, b))
    ensures forall j :: i <= j < k ==> !IsOpen(net, a, j, b)
    decreases net.Limit(a) - i
  {
    if i == net.Limit(a) || IsOpen(net, a, i, b) then i else FirstOpen(net, a, b, i + 1)
  }

  function StepWeight(net: Net, q: seq<nat>, k: nat): (w: real)
    requires IsPlan(net, q) && k < net.maxDepth
    ensures exists i: nat :: IsOpen(net, q[k], i, q[k + 1]) && w == net.edges[q[k]][i].weight
  {
    assert LeadsAt(net, q, k);
    net.edges[q[k]][FirstOpen(net, q[k], q[k + 1], 0)].weight
  }

  lemma DownTame(s: real, w: real)
    requires s > 0.0 && 0.0 < w && DECAY * w <= 1.0
    ensures 0.0 < Down(s, w) <= s
  {
    var d := DECAY * w;
    assert Down(s, w) == s * d;
    assert s * d <= s * 1.0;
  }

  function Up(s: real, w: real): real
    requires w > 0.0
  {
    s / (DECAY * w)
  }

  lemma UpTame(s: real, t: real, w: real)
    requires s > 0.0 && 0.0 < w && DECAY * w <= 1.0 && t >= Up(s, w)
    ensures Up(s, w) >= s && Down(t, w) >= s
  {
    var d := DECAY * w;
    var u := Up(s, w);
    assert u * d == s;
    assert u > 0.0;
    assert u * d <= u * 1.0;
    assert Down(t, w) == t * d;
    assert t * d >= u * d;
  }

  function Base(net: Net): real {
    if net.cutoff > 2.0 then net.cutoff else 2.0
  }

  /** The strength with which the walk must leave q[k]. */
  ghost function Need(net: Net, q: seq<nat>, k: nat): (s: real)
    requires IsPlan(net, q) && Tame(net) && k <= net.maxDepth
    ensures s >= Base(net)
    decreases net.maxDepth - k
  {
    if k == net.maxDepth then Base(net)
    else
      var s, w := Need(net, q, k + 1), StepWeight(net, q, k);
      UpTame(s, Up(s, w), w);
      Up(s, w)
  }

  /** How many edges are looked at from q[k] on. */
  function Left(net: Net, q: seq<nat>, k: nat): nat
    requires IsPlan(net, q) && k <= net.maxDepth
    decreases net.maxDepth - k
  {
    if k == net.maxDepth then 0 else net.Limit(q[k]) + Left(net, q, k + 1)
  }

  function Debt(n: nat, top: real): (r: real)
    requires top > 0.0
    ensures r >= 0.0
  {
    if n == 0 then 0.0 else Debt(n - 1, top) + top
  }

  lemma {:induction false} DebtMono(m: nat, n: nat, top: real)
    requires top > 0.0 && m <= n
    ensures Debt(m, top) <= Debt(n, top)
  {
    if m < n { DebtMono(m, n - 1, top); }
  }

  // ----- A field in which nothing leads the query off the walk -----

  /** Nodes of the walk up to k are done: a query of strength s does not enter them again. */
  ghost predicate Behind(net: Net, f: Field, q: seq<nat>, k: nat, s: real)
    requires f.Fits(net) && IsPlan(net, q) && k < net.maxDepth
  {
    forall j :: 0 <= j <= k ==> if net.binding[q[j]] then f.fired[q[j]] else f.act[q[j]] >= s
  }

  /** Nodes of the walk after k are fresh, but the last binding node has fired. */
  ghost predicate Ahead(net: Net, f: Field, q: seq<nat>, k: nat)
    requires f.Fits(net) && IsPlan(net, q) && k < net.maxDepth
  {
    && (forall j :: k < j < net.maxDepth ==> f.act[q[j]] == 0.0 && (net.binding[q[j]] ==> !f.fired[q[j]]))
    && f.fired[q[net.maxDepth]] && f.act[q[net.maxDepth]] >= 0.0 && f.act[q[net.maxDepth + 1]] == 0.0
  }

  /** Nodes off the walk stay shut while n more edges bring them `top` at most. */
  ghost predicate Aside(net: Net, f: Field, q: seq<nat>, n: nat, top: real)
    requires f.Fits(net) && top > 0.0
  {
    forall v: nat :: v < |f.act| && v !in q ==>
      if net.binding[v] then !f.fired[v] && f.act[v] + Debt(n, top) <= 0.0 else f.act[v] >= top
  }

  ghost predicate Ready(net: Net, f: Field, q: seq<nat>, k: nat, s: real, n: nat, top: real) {
    && f.Fits(net) && IsPlan(net, q) && k < net.maxDepth && 0.0 < s <= top
    && Behind(net, f, q, k, s) && Ahead(net, f, q, k) && Aside(net, f, q, n, top)
  }

  lemma ReadyLess(net: Net, f: Field, q: seq<nat>, k: nat, s: real, n: nat, m: nat, top: real)
    requires Ready(net, f, q, k, s, n, top) && m <= n
    ensures Ready(net, f, q, k, s, m, top)
  {
    DebtMono(m, n, top);
  }

  /** Where an edge of q[k] can lead, if it leads to the walk at all. */
  lemma TargetOnWalk(net: Net, q: seq<nat>, k: nat, i: nat) returns (j: nat)
    requires IsPlan(net, q) && k <= net.maxDepth && i < net.Limit(q[k]) && net.edges[q[k]][i].target in q
    ensures j < |q| && j <= k + 1 && q[j] == net.edges[q[k]][i].target
  {
    var t := net.edges[q[k]][i].target;
    j :| 0 <= j < |q| && q[j] == t;
    assert IsEdge(net, q[k], i, q[j]);
    assert Linked(net, q[k], q[j]);
  }

  lemma MemberKeeps(net: Net, f: Field, q: seq<nat>, k: nat, s: real, n: nat, top: real, j: nat, i: nat, act: real)
    requires Ready(net, f, q, k, s, n, top) && j < k && i < net.Limit(q[j])
    ensures Ready(net, RaiseMember(net, f, net.edges[q[j]][i], act), q, k, s, n, top)
  {
    var t := net.edges[q[j]][i].target;
    if t in q { var l := TargetOnWalk(net, q, j, i); }
  }

  lemma {:induction false} MembersKeep(net: Net, f: Field, q: seq<nat>, k: nat, s: real, n: nat, top: real, j: nat,
                                       act: real, i: nat)
    requires Ready(net, f, q, k, s, n, top) && j < k && i <= net.Limit(q[j])
    ensures Ready(net, RaiseMembers(net, f, q[j], act, i), q, k, s, n, top)
    decreases net.Limit(q[j]) - i
  {
    if i < net.Limit(q[j]) {
      MemberKeeps(net, f, q, k, s, n, top, j, i, act);
      MembersKeep(net, RaiseMember(net, f, net.edges[q[j]][i], act), q, k, s, n, top, j, act, i + 1);
    }
  }

  lemma TameAt(net: Net, u: nat, i: nat)
    requires |net.binding| == |net.edges| && Tame(net) && u < |net.edges| && i < |net.edges[u]|
    ensures 0.0 < net.edges[u][i].weight && DECAY * net.edges[u][i].weight <= 1.0
    ensures net.binding[u] && net.edges[u][i].target == u ==> net.edges[u][i].etype != Temporal
  {
  }

  /** An edge that does not lead on along the walk changes nothing that matters. */
  lemma SideEdge(net: Net, f: Field, q: seq<nat>, k: nat, s: real, n: nat, top: real, i: nat)
    requires Ready(net, f, q, k, s, n + 1, top) && Tame(net)
    requires i < net.Limit(q[k]) && !IsOpen(net, q[k], i, q[k + 1])
    ensures Ready(net, SpreadEdge(net, f, net.edges[q[k]][i], s, k).0, q, k, s, n, top)
  {
    var e := net.edges[q[k]][i];
    TameAt(net, q[k], i);
    DownTame(s, e.weight);
    ReadyLess(net, f, q, k, s, n + 1, n, top);
    var prop := Down(s, e.weight);
    if net.InRange(e.target) && net.binding[e.target] && e.etype == Temporal {
      SideBinding(net, f, q, k, s, n, top, i, prop);
    } else if net.InRange(e.target) && !net.binding[e.target] {
      SideNode(net, f, q, k, s, n, top, i, prop);
    }
  }

  lemma SideNode(net: Net, f: Field, q: seq<nat>, k: nat, s: real, n: nat, top: real, i: nat, prop: real)
    requires Ready(net, f, q, k, s, n, top) && i < net.Limit(q[k]) && prop <= s
    requires var t := net.edges[q[k]][i].target; net.InRange(t) && !net.binding[t]
    requires !IsOpen(net, q[k], i, q[k + 1])
    ensures prop <= f.act[net.edges[q[k]][i].target]
  {
    var t := net.edges[q[k]][i].target;
    if t in q {
      var j := TargetOnWalk(net, q, k, i);
      assert j <= k;
    }
  }

  lemma SideBinding(net: Net, f: Field, q: seq<nat>, k: nat, s: real, n: nat, top: real, i: nat, prop: real)
    requires Ready(net, f, q, k, s, n + 1, top) && Tame(net) && i < net.Limit(q[k]) && 0.0 < prop <= s
    requires var e := net.edges[q[k]][i];
      net.InRange(e.target) && net.binding[e.target] && e.etype == Temporal && prop == Down(s, e.weight)
    requires !IsOpen(net, q[k], i, q[k + 1])
    ensures Ready(net, SpreadEdge(net, f, net.edges[q[k]][i], s, k).0, q, k, s, n, top)
  {
    var t := net.edges[q[k]][i].target;
    var f1 := Charged(f, t, prop);
    ChargeKeeps(net, f, q, k, s, n, top, i, prop);
    if t in q {
      var j := SideOnWalk(net, f, q, k, i);
      MembersKeep(net, f1, q, k, s, n, top, j, f1.act[t], 0);
    }
  }

  function Charged(f: Field, t: nat, prop: real): Field
    requires t < |f.act|
  {
    f.(act := f.act[t := f.act[t] + prop])
  }

  lemma SideOnWalk(net: Net, f: Field, q: seq<nat>, k: nat, i: nat) returns (j: nat)
    requires f.Fits(net) && IsPlan(net, q) && k < net.maxDepth && Tame(net) && i < net.Limit(q[k])
    requires var e := net.edges[q[k]][i]; e.target in q && net.binding[e.target] && e.etype == Temporal
    requires !IsOpen(net, q[k], i, q[k + 1])
    ensures j < k && q[j] == net.edges[q[k]][i].target
  {
    TameAt(net, q[k], i);
    j := TargetOnWalk(net, q, k, i);
  }

  lemma ChargeKeeps(net: Net, f: Field, q: seq<nat>, k: nat, s: real, n: nat, top: real, i: nat, prop: real)
    requires Ready(net, f, q, k, s, n + 1, top) && Tame(net) && i < net.Limit(q[k]) && 0.0 < prop <= s
    requires var e := net.edges[q[k]][i]; net.InRange(e.target) && net.binding[e.target] && e.etype == Temporal
    requires !IsOpen(net, q[k], i, q[k + 1])
    ensures Ready(net, Charged(f, net.edges[q[k]][i].target, prop), q, k, s, n, top)
    ensures net.edges[q[k]][i].target !in q ==> f.act[net.edges[q[k]][i].target] + prop <= 0.0
  {
    var t := net.edges[q[k]][i].target;
    ReadyLess(net, f, q, k, s, n + 1, n, top);
    if t in q {
      var j := SideOnWalk(net, f, q, k, i);
      assert forall l :: 0 <= l < |q| && l != j ==> q[l] != t;
    }
  }

  /** The field in which the node t is entered with what an edge brings it. */
  function Entered(net: Net, f: Field, t: nat, prop: real): (g: Field)
    requires f.Fits(net) && t < |net.edges|
    ensures g.Fits(net)
  {
    var f1 := f.(act := f.act[t := prop]);
    if net.binding[t] then Fire(f1, t) else f1
  }

  lemma EnterStep(net: Net, f: Field, e: Edge, s: real, k: nat)
    requires f.Fits(net) && Followable(net, e) && f.act[e.target] == 0.0 && (net.binding[e.target] ==> !f.fired[e.target])
    requires k + 1 < net.maxDepth && Down(s, e.weight) >= Base(net)
    ensures var prop := Down(s, e.weight);
      SpreadEdge(net, f, e, s, k).0 ==
        SpreadEdges(net, Entered(net, f, e.target, prop), e.target, prop, k + 1, 0).0
  {
    var prop := Down(s, e.weight);
    var g := Entered(net, f, e.target, prop);
    assert f.act[e.target] + prop == prop;
    assert SpreadEdge(net, f, e, s, k).0 == SpreadFrom(net, g, e.target, prop, k + 1).0;
  }

  lemma EnterReady(net: Net, f: Field, q: seq<nat>, k: nat, s: real, n: nat, top: real, prop: real)
    requires Ready(net, f, q, k, s, n, top) && k + 1 < net.maxDepth && 0.0 < prop <= s
    ensures Ready(net, Entered(net, f, q[k + 1], prop), q, k + 1, prop, n, top)
  {
    assert Behind(net, Entered(net, f, q[k + 1], prop), q, k + 1, prop);
  }

  /** The edge that leads on: the next node is entered, and the walk goes on from there. */
  lemma EnterNext(net: Net, f: Field, q: seq<nat>, k: nat, s: real, n: nat, top: real, i: nat, prop: real, m: nat)
    returns (g: Field)
    requires Ready(net, f, q, k, s, n, top) && k + 1 < net.maxDepth && m <= n && IsOpen(net, q[k], i, q[k + 1])
    requires Base(net) <= prop <= s && prop == Down(s, net.edges[q[k]][i].weight)
    ensures Ready(net, g, q, k + 1, prop, m, top)
    ensures SpreadEdge(net, f, net.edges[q[k]][i], s, k).0 == SpreadEdges(net, g, q[k + 1], prop, k + 1, 0).0
  {
    g := Entered(net, f, q[k + 1], prop);
    EnterStep(net, f, net.edges[q[k]][i], s, k);
    EnterReady(net, f, q, k, s, n, top, prop);
    ReadyLess(net, g, q, k + 1, prop, n, m, top);
  }

  lemma {:induction false} MembersRaise(net: Net, f: Field, b: nat, act: real, j: nat, i: nat)
    requires net.Ok() && f.Fits(net) && b < |net.edges| && j <= i < net.Limit(b) && act > 0.0 && net.edges[b][i].weight > 0.0
    requires var t := net.edges[b][i].target; net.InRange(t) && !net.binding[t] && f.act[t] >= 0.0
    ensures RaiseMembers(net, f, b, act, j).act[net.edges[b][i].target] > 0.0
    decreases net.Limit(b) - j
  {
    var f1 := RaiseMember(net, f, net.edges[b][j], act);
    if j < i {
      MembersRaise(net, f1, b, act, j + 1, i);
    } else {
      DownPositive(act, net.edges[b][i].weight);
      RaiseMembersGrows(net, f1, b, act, j + 1);
    }
  }

  lemma DownPositive(s: real, w: real)
    requires s > 0.0 && w > 0.0
    ensures Down(s, w) > 0.0
  {
    assert s * DECAY > 0.0;
  }

  /** The last edge of the walk: the binding node there passes its voltage on. */
  lemma PassOnBeyond(net: Net, f: Field, q: seq<nat>, s: real, n: nat, top: real, i: nat)
    requires var k := net.maxDepth - 1; k >= 0 && Ready(net, f, q, k, s, n, top) && IsOpen(net, q[k], i, q[k + 1])
    requires net.Ok() && Tame(net)
    ensures SpreadEdge(net, f, net.edges[q[net.maxDepth - 1]][i], s, net.maxDepth - 1).0.act[q[net.maxDepth + 1]] > 0.0
  {
    var d := net.maxDepth;
    var e, b, t := net.edges[q[d - 1]][i], q[d], q[d + 1];
    TameAt(net, q[d - 1], i);
    DownTame(s, e.weight);
    var act := f.act[b] + Down(s, e.weight);
    var f1 := f.(act := f.act[b := act]);
    assert LinkedAt(net, q, d);
    var j :| IsEdge(net, b, j, t);
    TameAt(net, b, j);
    MembersRaise(net, f1, b, act, 0, j);
  }

  /** From q[k] with enough strength, the query gets to the node beyond. */
  lemma {:induction false} Drive(net: Net, f: Field, q: seq<nat>, k: nat, s: real, n: nat, top: real, i: nat)
    requires net.Ok() && Tame(net) && IsPlan(net, q) && k < net.maxDepth && i <= net.Limit(q[k])
    requires Ready(net, f, q, k, s, n, top) && n == net.Limit(q[k]) - i + Left(net, q, k + 1)
    requires s >= Need(net, q, k) && FirstOpen(net, q[k], q[k + 1], 0) == FirstOpen(net, q[k], q[k + 1], i)
    ensures SpreadEdges(net, f, q[k], s, k, i).0.act[q[net.maxDepth + 1]] > 0.0
    decreases net.maxDepth - k, 2, net.Limit(q[k]) - i
  {
    assert LeadsAt(net, q, k);
    var g := SpreadEdge(net, f, net.edges[q[k]][i], s, k).0;
    if IsOpen(net, q[k], i, q[k + 1]) {
      DriveOn(net, f, q, k, s, n, top, i);
      SpreadEdgesGrow(net, g, q[k], s, k, i + 1);
    } else {
      SideEdge(net, f, q, k, s, n - 1, top, i);
      Drive(net, g, q, k, s, n - 1, top, i + 1);
    }
  }

  lemma NeedNext(net: Net, q: seq<nat>, k: nat, s: real, i: nat) returns (prop: real)
    requires IsPlan(net, q) && Tame(net) && k < net.maxDepth && s >= Need(net, q, k)
    requires IsOpen(net, q[k], i, q[k + 1]) && FirstOpen(net, q[k], q[k + 1], 0) == i
    ensures prop == Down(s, net.edges[q[k]][i].weight) && Need(net, q, k + 1) <= prop <= s && Base(net) <= prop
  {
    var w := net.edges[q[k]][i].weight;
    prop := Down(s, w);
    TameAt(net, q[k], i);
    UpTame(Need(net, q, k + 1), s, w);
    DownTame(s, w);
  }

  lemma {:induction false} DriveOn(net: Net, f: Field, q: seq<nat>, k: nat, s: real, n: nat, top: real, i: nat)
    requires net.Ok() && Tame(net) && IsPlan(net, q) && k < net.maxDepth && IsOpen(net, q[k], i, q[k + 1])
    requires Ready(net, f, q, k, s, n, top) && Left(net, q, k + 1) <= n
    requires s >= Need(net, q, k) && FirstOpen(net, q[k], q[k + 1], 0) == i
    ensures SpreadEdge(net, f, net.edges[q[k]][i], s, k).0.act[q[net.maxDepth + 1]] > 0.0
    decreases net.maxDepth - k, 1, 0
  {
    if k + 1 == net.maxDepth {
      PassOnBeyond(net, f, q, s, n, top, i);
    } else {
      var prop := NeedNext(net, q, k, s, i);
      DriveInto(net, f, q, k, s, n, top, i, prop);
    }
  }

  lemma {:induction false} DriveInto(net: Net, f: Field, q: seq<nat>, k: nat, s: real, n: nat, top: real, i: nat, prop: real)
    requires net.Ok() && Tame(net) && k + 1 < net.maxDepth
    requires Ready(net, f, q, k, s, n, top) && Left(net, q, k + 1) <= n && IsOpen(net, q[k], i, q[k + 1])
    requires Need(net, q, k + 1) <= prop <= s && Base(net) <= prop && prop == Down(s, net.edges[q[k]][i].weight)
    ensures SpreadEdge(net, f, net.edges[q[k]][i], s, k).0.act[q[net.maxDepth + 1]] > 0.0
    decreases net.maxDepth - k, 0, 0
  {
    var g := EnterNext(net, f, q, k, s, n, top, i, prop, Left(net, q, k + 1));
    DriveNext(net, g, q, k + 1, prop, top);
  }

  lemma {:induction false} DriveNext(net: Net, g: Field, q: seq<nat>, k: nat, s: real, top: real)
    requires net.Ok() && Tame(net) && IsPlan(net, q) && k < net.maxDepth
    requires Ready(net, g, q, k, s, Left(net, q, k), top) && s >= Need(net, q, k)
    ensures SpreadEdges(net, g, q[k], s, k, 0).0.act[q[net.maxDepth + 1]] > 0.0
    decreases net.maxDepth - k, 3, 0
  {
    Drive(net, g, q, k, s, Left(net, q, k), top, 0);
  }

  /** The field that opens the walk and nothing else. */
  function Witness(net: Net, q: seq<nat>, n: nat, top: real): (f: Field)
    requires |net.binding| == |net.edges| && |q| > 1 && top > 0.0
    ensures f.Fits(net)
  {
    Field(seq(|net.edges|, v requires 0 <= v < |net.edges| => Level(net, q, n, top, v)),
          seq(|net.edges|, v requires 0 <= v < |net.edges| => net.binding[v] && (v == q[0] || v == q[|q| - 2])), [])
  }

  function Level(net: Net, q: seq<nat>, n: nat, top: real, v: nat): real
    requires |net.binding| == |net.edges| && v < |net.edges| && |q| > 1 && top > 0.0
  {
    if v == q[0] then top
    else if v in q then 0.0
    else if net.binding[v] then 0.0 - Debt(n, top)
    else top
  }

  lemma WitnessReady(net: Net, q: seq<nat>, n: nat, top: real) returns (f: Field)
    requires IsPlan(net, q) && top > 0.0
    ensures Ready(net, f, q, 0, top, n, top) && f.act[q[0]] == top
  {
    f := Witness(net, q, n, top);
    assert forall j :: 0 < j < |q| ==> q[j] != q[0];
    assert forall j :: 0 <= j < net.maxDepth ==> q[j] != q[net.maxDepth];
  }

  lemma PlanBreaks(net: Net, q: seq<nat>) returns (f: Field, s: real)
    requires net.Ok() && Tame(net) && IsPlan(net, q)
    ensures f.Fits(net) && Differ(f, SpreadFrom(net, f, q[0], s, 0).0, q[net.maxDepth + 1])
  {
    s := Need(net, q, 0);
    f := WitnessReady(net, q, Left(net, q, 0), s);
    BeginStep(net, f, q[0], s);
    DriveNext(net, f, q, 0, s, s);
  }

  lemma BeginStep(net: Net, f: Field, u: nat, s: real)
    requires f.Fits(net) && u < |net.edges| && f.act[u] == s && s >= net.cutoff && net.maxDepth > 0
    ensures SpreadFrom(net, f, u, s, 0).0 == SpreadEdges(net, f, u, s, 0, 0).0
  {
  }

  lemma PlanExists(net: Net, u: int, v: nat) returns (q: seq<nat>)
    requires |net.binding| == |net.edges| && net.maxDepth > 0
    requires Beyond(net, u, net.maxDepth, v) && !Near(net, u, v, net.maxDepth)
    ensures IsPlan(net, q) && q[0] == u && q[net.maxDepth + 1] == v
  {
    var p, b :| |p| == net.maxDepth && Route(net, u, p, b) && PassesTo(net, b, v);
    var r := NodesOf(net, u, p, b);
    q := r + [v];
    forall k | 0 <= k < |q| - 1
      ensures LinkedAt(net, q, k)
    {
      if k < |p| { assert LeadsAt(net, r, k); }
    }
    ShortestIsStraight(net, q);
    forall k | 0 <= k < net.maxDepth
      ensures LeadsAt(net, q, k)
    {
      assert LeadsAt(net, r, k);
    }
  }

  /** In a graph without amplification, queries from u stay within the depth
      bound, whatever the field and the strength, if and only if the members of
      the binding nodes that can be entered at the bound are within it. */
  lemma BoundHoldsExactly(net: Net, u: int)
    requires net.Ok() && Tame(net)
    ensures Contained(net, u) <==>
      forall f: Field, s: real :: f.Fits(net) ==> Within(net, f, SpreadFrom(net, f, u, s, 0).0, u, net.maxDepth)
  {
    if Contained(net, u) {
      forall f: Field, s: real | f.Fits(net)
        ensures Within(net, f, SpreadFrom(net, f, u, s, 0).0, u, net.maxDepth)
      {
        ContainedIsEnough(net, u, f, s);
      }
    } else {
      var v: nat :| Beyond(net, u, net.maxDepth, v) && !Near(net, u, v, net.maxDepth);
      var q := PlanExists(net, u, v);
      var f, s := PlanBreaks(net, q);
      assert !Within(net, f, SpreadFrom(net, f, u, s, 0).0, u, net.maxDepth);
    }
  }

  // ----- A query can break the bound with nothing fired before it -----

  function Lossless(target: int): Edge {
    Edge(target, 10.0 / 7.0, 1, Temporal, Unknown)
  }

  /** Two ways from 0 to the binding node 3, whose member is node 4. */
  function Diamond(): Net {
    Net([[Lossless(1), Lossless(2)], [Lossless(3)], [Lossless(3)], [Lossless(4)], []],
        [false, false, false, true, false], 0.01, 2, 12)
  }

  lemma LosslessDown(s: real)
    ensures Down(s, 10.0 / 7.0) == s && Down(s, 20.0 / 7.0) == 2.0 * s
  {
  }

  /** Every edge leads at most one level up. */
  predicate Leveled(net: Net, level: seq<nat>) {
    |level| == |net.edges| &&
    forall a, i :: 0 <= a < |net.edges| && 0 <= i < |net.edges[a]| ==>
      net.InRange(net.edges[a][i].target) && level[net.edges[a][i].target] <= level[a] + 1
  }

  lemma {:induction false} TrailLevel(net: Net, level: seq<nat>, u: int, p: seq<nat>, v: int)
    requires Leveled(net, level) && Trail(net, u, p, v)
    ensures net.InRange(u) && net.InRange(v) && level[v] <= level[u] + |p|
    decreases |p|
  {
    if p != [] { TrailLevel(net, level, net.edges[u][p[0]].target, p[1..], v); }
  }

  lemma FarByLevel(net: Net, level: seq<nat>, u: nat, v: nat, hops: nat)
    requires Leveled(net, level) && u < |level| && v < |level| && level[v] > level[u] + hops
    ensures !Near(net, u, v, hops)
  {
    forall p | |p| <= hops && Trail(net, u, p, v)
      ensures false
    {
      TrailLevel(net, level, u, p, v);
    }
  }

  function After(acts: seq<real>, fired: bool): Field {
    Field(acts, [false, false, false, fired, false], if fired then [3] else [])
  }

  lemma DiamondFirst()
    ensures SpreadEdge(Diamond(), After([2.0, 0.0, 0.0, 0.0, 0.0], false), Lossless(1), 2.0, 0).0 ==
            After([2.0, 2.0, 0.0, 2.0, 0.0], true)
  {
    var net := Diamond();
    LosslessDown(2.0);
    var g, h := After([2.0, 2.0, 0.0, 0.0, 0.0], false), After([2.0, 2.0, 0.0, 2.0, 0.0], true);
    assert SpreadEdge(net, g, Lossless(3), 2.0, 1).0 == SpreadFrom(net, h, 3, 2.0, 2).0 == h;
    assert SpreadEdges(net, h, 1, 2.0, 1, 1).0 == h;
    assert SpreadEdges(net, g, 1, 2.0, 1, 0).0 == h;
    assert SpreadFrom(net, g, 1, 2.0, 1).0 == h;
  }

  lemma DiamondPasses()
    ensures SpreadEdge(Diamond(), After([2.0, 2.0, 2.0, 2.0, 0.0], true), Lossless(3), 2.0, 1).0 ==
            After([2.0, 2.0, 2.0, 4.0, 4.0], true)
  {
    var net := Diamond();
    LosslessDown(2.0);
    LosslessDown(4.0);
    var f, g := After([2.0, 2.0, 2.0, 4.0, 0.0], true), After([2.0, 2.0, 2.0, 4.0, 4.0], true);
    assert RaiseMember(net, f, Lossless(4), 4.0) == g;
    assert RaiseMembers(net, f, 3, 4.0, 0) == RaiseMembers(net, g, 3, 4.0, 1) == g;
  }

  lemma DiamondSecond()
    ensures SpreadEdge(Diamond(), After([2.0, 2.0, 0.0, 2.0, 0.0], true), Lossless(2), 2.0, 0).0 ==
            After([2.0, 2.0, 2.0, 4.0, 4.0], true)
  {
    var net := Diamond();
    LosslessDown(2.0);
    var g, h := After([2.0, 2.0, 2.0, 2.0, 0.0], true), After([2.0, 2.0, 2.0, 4.0, 4.0], true);
    DiamondPasses();
    assert SpreadEdges(net, h, 2, 2.0, 1, 1).0 == h;
    assert SpreadEdges(net, g, 2, 2.0, 1, 0).0 == h;
    assert SpreadFrom(net, g, 2, 2.0, 1).0 == h;
  }

  lemma DiamondEdges()
    ensures SpreadEdges(Diamond(), After([2.0, 0.0, 0.0, 0.0, 0.0], false), 0, 2.0, 0, 0).0 ==
            After([2.0, 2.0, 2.0, 4.0, 4.0], true)
  {
    var net, h := Diamond(), After([2.0, 2.0, 2.0, 4.0, 4.0], true);
    DiamondFirst();
    DiamondSecond();
    assert SpreadEdges(net, h, 0, 2.0, 0, 2).0 == h;
    assert SpreadEdges(net, After([2.0, 2.0, 0.0, 2.0, 0.0], true), 0, 2.0, 0, 1).0 == h;
  }

  lemma DiamondIsDeep()
    ensures !Near(Diamond(), 0, 4, 2)
  {
    FarByLevel(Diamond(), [0, 1, 1, 2, 3], 0, 4, 2);
  }

  /** The first way fires node 3 at the bound, the second finds it fired and
      raises node 4, three hops away, in a query with a bound of two. */
  lemma FiredInTheSameQuery()
    ensures var f := After([0.0, 0.0, 0.0, 0.0, 0.0], false);
      f.Fits(Diamond()) && Differ(f, SpreadFrom(Diamond(), f, 0, 2.0, 0).0, 4) && !Near(Diamond(), 0, 4, 2)
  {
    DiamondEdges();
    DiamondIsDeep();
  }

  // ----- Both halves of tameness are needed -----

  /** 0 -> 1 -> 2 -> 3 -> 4, where 3 binds; node 1 first feeds itself, twice as
      strong if it amplifies, or as a binding node. */
  function Feeding(weight: real, binds: bool): Net {
    Net([[Lossless(1)], [Edge(1, weight, 1, Temporal, Unknown), Lossless(2)], [Lossless(3)], [Lossless(4)], []],
        [false, binds, false, true, false], 0.01, 3, 12)
  }

  lemma FeedingIsNotContained(weight: real, binds: bool)
    ensures !Contained(Feeding(weight, binds), 0)
  {
    var net := Feeding(weight, binds);
    assert IsEdge(net, 3, 0, 4) && PassesTo(net, 3, 4);
    assert [0, 1, 0][1..] == [1, 0] && [1, 0][1..] == [0] && [0][1..] == [];
    assert Route(net, 3, [], 3) && Route(net, 2, [0], 3) && Route(net, 1, [1, 0], 3) && Route(net, 0, [0, 1, 0], 3);
    assert Beyond(net, 0, 3, 4);
    FarByLevel(net, [0, 1, 2, 3, 4], 0, 4, 3);
  }

  /** Node 4 is as it was. */
  predicate Untouched(f: Field, g: Field) {
    |f.act| == |g.act| == |f.fired| == |g.fired| == 5 && f.act[4] == g.act[4] && f.fired[4] == g.fired[4]
  }

  lemma UntouchedIsWithin(weight: real, binds: bool, f: Field, g: Field)
    requires Untouched(f, g)
    ensures Within(Feeding(weight, binds), f, g, 0, 3)
  {
    var net := Feeding(weight, binds);
    NearSelf(net, 3, 0);
    NearStep(net, 2, 0, 3, 0);
    NearStep(net, 1, 1, 3, 1);
    NearStep(net, 0, 0, 3, 2);
    NearSelf(net, 2, 1);
    NearStep(net, 1, 1, 2, 1);
    NearStep(net, 0, 0, 2, 2);
    NearSelf(net, 1, 2);
    NearStep(net, 0, 0, 1, 2);
    NearSelf(net, 0, 3);
  }

  /** A query from node 0 does what its one edge does. */
  lemma FirstEdgeOnly(weight: real, binds: bool, f: Field, s: real) returns (f1: Field)
    requires f.Fits(Feeding(weight, binds)) && s >= 0.01
    ensures f1.Fits(Feeding(weight, binds)) && Untouched(f, f1)
    ensures SpreadFrom(Feeding(weight, binds), f, 0, s, 0).0 == SpreadEdge(Feeding(weight, binds), f1, Lossless(1), s, 0).0
  {
    var net := Feeding(weight, binds);
    f1 := if s > f.act[0] then f.(act := f.act[0 := s]) else f;
    var h := SpreadEdge(net, f1, Lossless(1), s, 0).0;
    assert SpreadEdges(net, h, 0, s, 0, 1).0 == h;
    assert SpreadEdges(net, f1, 0, s, 0, 0).0 == h;
  }

  /** At the last level, node 1 raises itself and node 2 and goes no further. */
  lemma AmplifiedAgain(f: Field, s: real)
    requires f.Fits(Feeding(20.0 / 7.0, false)) && s >= 0.01 && f.act[1] == s
    ensures var g := SpreadFrom(Feeding(20.0 / 7.0, false), f, 1, s, 2).0;
      g.Fits(Feeding(20.0 / 7.0, false)) && Untouched(f, g) && g.act[2] >= s
  {
    var net := Feeding(20.0 / 7.0, false);
    LosslessDown(s);
    var g := f.(act := f.act[1 := 2.0 * s]);
    assert SpreadEdge(net, f, net.edges[1][0], s, 2).0 == SpreadFrom(net, g, 1, 2.0 * s, 3).0 == g;
    var h := if s > g.act[2] then g.(act := g.act[2 := s]) else g;
    assert SpreadEdge(net, g, net.edges[1][1], s, 2).0 == h;
    assert SpreadEdges(net, h, 1, s, 2, 2).0 == h;
    assert SpreadEdges(net, g, 1, s, 2, 1).0 == h;
  }

  lemma AmplifiedOnce(f: Field, s: real)
    requires f.Fits(Feeding(20.0 / 7.0, false)) && s >= 0.01 && f.act[1] == s
    ensures Untouched(f, SpreadFrom(Feeding(20.0 / 7.0, false), f, 1, s, 1).0)
  {
    var net := Feeding(20.0 / 7.0, false);
    LosslessDown(s);
    var g := f.(act := f.act[1 := 2.0 * s]);
    AmplifiedAgain(g, 2.0 * s);
    var h := SpreadFrom(net, g, 1, 2.0 * s, 2).0;
    assert SpreadEdge(net, f, net.edges[1][0], s, 1).0 == h;
    assert SpreadEdge(net, h, net.edges[1][1], s, 1).0 == h;
    assert SpreadEdges(net, h, 1, s, 1, 2).0 == h;
    assert SpreadEdges(net, h, 1, s, 1, 1).0 == h;
  }

  /** With an amplifying edge the bound can hold for every field and strength
      although the condition fails: node 2 is always raised one hop too late. */
  lemma AmplifiedStaysWithin(f: Field, s: real)
    requires f.Fits(Feeding(20.0 / 7.0, false))
    ensures Within(Feeding(20.0 / 7.0, false), f, SpreadFrom(Feeding(20.0 / 7.0, false), f, 0, s, 0).0, 0, 3)
    ensures !Contained(Feeding(20.0 / 7.0, false), 0)
  {
    var net := Feeding(20.0 / 7.0, false);
    FeedingIsNotContained(20.0 / 7.0, false);
    LosslessDown(s);
    var g := SpreadFrom(net, f, 0, s, 0).0;
    if s >= 0.01 {
      var f1 := FirstEdgeOnly(20.0 / 7.0, false, f, s);
      if s > f1.act[1] { AmplifiedOnce(f1.(act := f1.act[1 := s]), s); }
    }
    UntouchedIsWithin(20.0 / 7.0, false, f, g);
  }

  lemma MembersOfFeeding(f: Field, act: real)
    requires f.Fits(Feeding(10.0 / 7.0, true))
    ensures var g := RaiseMembers(Feeding(10.0 / 7.0, true), f, 1, act, 0);
      g.Fits(Feeding(10.0 / 7.0, true)) && Untouched(f, g) && g.act[2] >= act && g.fired == f.fired
  {
    var net := Feeding(10.0 / 7.0, true);
    LosslessDown(act);
    var g := RaiseMember(net, f, net.edges[1][1], act);
    assert RaiseMember(net, f, net.edges[1][0], act) == f;
    assert RaiseMembers(net, g, 1, act, 2) == g;
    assert RaiseMembers(net, f, 1, act, 1) == g;
  }

  lemma SelfFedOnce(f: Field, s: real)
    requires f.Fits(Feeding(10.0 / 7.0, true)) && s > FIRE && f.act[1] == s && f.fired[1]
    ensures Untouched(f, SpreadFrom(Feeding(10.0 / 7.0, true), f, 1, s, 1).0)
  {
    var net := Feeding(10.0 / 7.0, true);
    LosslessDown(s);
    var g := f.(act := f.act[1 := s + s]);
    MembersOfFeeding(g, s + s);
    var h := RaiseMembers(net, g, 1, s + s, 0);
    assert SpreadEdge(net, f, net.edges[1][0], s, 1).0 == h;
    assert SpreadEdge(net, h, net.edges[1][1], s, 1).0 == h;
    assert SpreadEdges(net, h, 1, s, 1, 2).0 == h;
    assert SpreadEdges(net, h, 1, s, 1, 1).0 == h;
  }

  lemma SelfFedEntered(f: Field, s: real)
    requires f.Fits(Feeding(10.0 / 7.0, true))
    ensures Untouched(f, SpreadEdge(Feeding(10.0 / 7.0, true), f, Lossless(1), s, 0).0)
  {
    LosslessDown(s);
    var act := f.act[1] + s;
    var g := f.(act := f.act[1 := act]);
    if act > FIRE && !f.fired[1] {
      SelfFedOnce(Fire(g, 1), act);
    } else if f.fired[1] {
      MembersOfFeeding(g, act);
    }
  }

  /** So it can with a binding node that feeds itself, without any amplifying edge. */
  lemma SelfFedStaysWithin(f: Field, s: real)
    requires f.Fits(Feeding(10.0 / 7.0, true))
    ensures Within(Feeding(10.0 / 7.0, true), f, SpreadFrom(Feeding(10.0 / 7.0, true), f, 0, s, 0).0, 0, 3)
    ensures !Contained(Feeding(10.0 / 7.0, true), 0)
  {
    var net := Feeding(10.0 / 7.0, true);
    FeedingIsNotContained(10.0 / 7.0, true);
    LosslessDown(s);
    var g := SpreadFrom(net, f, 0, s, 0).0;
    if s >= 0.01 {
      var f1 := FirstEdgeOnly(10.0 / 7.0, true, f, s);
      SelfFedEntered(f1, s);
    }
    UntouchedIsWithin(10.0 / 7.0, true, f, g);
  }
}
