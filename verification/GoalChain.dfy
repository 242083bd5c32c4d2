/** Check, then act: the motor chain that a goal step screens, and the chain
    that its execution loop queues. */
module GoalChain {
  import opened Graph
  import Motor

  type Action = string

  datatype Node = Node(edges: seq<Edge>, isMotor: bool, action: Action, activation: real)

  const MET := 0.05

  // ----- The chain -----

  /** The target of the first sequence edge, or -1. */
  function Successor(edges: seq<Edge>): int {
    if edges == [] then -1
    else if edges[0].etype == Sequence then edges[0].target
    else Successor(edges[1..])
  }

  /** It is the target of the first sequence edge, if there is one. */
  lemma {:induction false} SuccessorIsFirst(edges: seq<Edge>) returns (i: nat)
    ensures i <= |edges| && forall k :: 0 <= k < i ==> edges[k].etype != Sequence
    ensures if i < |edges| then edges[i].etype == Sequence && Successor(edges) == edges[i].target else Successor(edges) == -1
  {
    if edges == [] || edges[0].etype == Sequence {
      i := 0;
    } else {
      var j := SuccessorIsFirst(edges[1..]);
      i := j + 1;
      assert forall k :: 0 < k < i ==> edges[k] == edges[1..][k - 1];
    }
  }

  /** Sequence edges, which the walks follow unchecked, do not lead out of the arena. */
  ghost predicate InRange(g: seq<Node>) {
    forall u, e :: 0 <= u < |g| && 0 <= e < |g[u].edges| && g[u].edges[e].etype == Sequence ==>
      g[u].edges[e].target < |g|
  }

  /** Nor do the implementing edges of the concept, which the execution loop does not check. */
  ghost predicate Implementable(g: seq<Node>, concept: nat)
    requires concept < |g|
  {
    forall e :: 0 <= e < |g[concept].edges| && Binds(g[concept].edges[e]) ==> g[concept].edges[e].target < |g|
  }

  /** The motor nodes along sequence edges from cur, at most max of them. */
  function Walk(g: seq<Node>, cur: int, max: nat): (w: seq<nat>)
    ensures |w| <= max
    decreases max
  {
    if max == 0 || !(0 <= cur < |g|) || !g[cur].isMotor then []
    else [cur] + Walk(g, Successor(g[cur].edges), max - 1)
  }

  /** What one edge of the concept contributes. */
  function Contribution(g: seq<Node>, e: Edge, max: nat): (w: seq<nat>)
    ensures |w| <= max
  {
    if e.etype == ImplementedBy then Walk(g, e.target, max) else []
  }

  /** What the edges from position i on contribute. */
  function CollectFrom(g: seq<Node>, edges: seq<Edge>, i: nat, max: nat): (w: seq<nat>)
    requires i <= |edges|
    ensures |w| <= max
    decreases |edges| - i
  {
    if i == |edges| then []
    else
      var w := Contribution(g, edges[i], max);
      w + CollectFrom(g, edges, i + 1, max - |w|)
  }

  lemma Regroup(taken: seq<nat>, w: seq<nat>, rest: seq<nat>, whole: seq<nat>)
    requires taken + (w + rest) == whole
    ensures (taken + w) + rest == whole && |taken + w| == |taken| + |w| <= |whole|
  {
  }

  /** With `taken` taken, the edges from i on, with room for so many nodes, complete `whole`. */
  ghost predicate Onward(g: seq<Node>, edges: seq<Edge>, i: nat, taken: seq<nat>, room: nat, whole: seq<nat>) {
    i <= |edges| && taken + CollectFrom(g, edges, i, room) == whole
  }

  lemma TakeEdge(g: seq<Node>, edges: seq<Edge>, i: nat, taken: seq<nat>, room: nat, whole: seq<nat>)
    requires Onward(g, edges, i, taken, room, whole) && i < |edges|
    ensures var w := Contribution(g, edges[i], room);
      Onward(g, edges, i + 1, taken + w, room - |w|, whole) && |taken| + |w| <= |whole|
  {
    var w := Contribution(g, edges[i], room);
    Regroup(taken, w, CollectFrom(g, edges, i + 1, room - |w|), whole);
  }

  lemma AllTaken(g: seq<Node>, edges: seq<Edge>, i: nat, taken: seq<nat>, room: nat, whole: seq<nat>)
    requires Onward(g, edges, i, taken, room, whole) && (i == |edges| || room == 0)
    ensures taken == whole
  {
    if room == 0 { NothingLeft(g, edges, i); }
    assert taken + [] == taken;
  }

  ghost predicate MotorNodes(g: seq<Node>, w: seq<nat>) {
    forall i :: 0 <= i < |w| ==> w[i] < |g| && g[w[i]].isMotor
  }

  lemma {:induction false} WalkIsMotor(g: seq<Node>, cur: int, max: nat)
    ensures MotorNodes(g, Walk(g, cur, max))
    decreases max
  {
    if max == 0 || !(0 <= cur < |g|) || !g[cur].isMotor {
    } else {
      WalkIsMotor(g, Successor(g[cur].edges), max - 1);
    }
  }

  lemma MotorConcat(g: seq<Node>, w: seq<nat>, v: seq<nat>)
    requires MotorNodes(g, w) && MotorNodes(g, v)
    ensures MotorNodes(g, w + v)
  {
  }

  lemma {:induction false} CollectIsMotor(g: seq<Node>, edges: seq<Edge>, i: nat, max: nat)
    requires i <= |edges|
    ensures MotorNodes(g, CollectFrom(g, edges, i, max))
    decreases |edges| - i
  {
    if i < |edges| {
      var w := Contribution(g, edges[i], max);
      WalkIsMotor(g, edges[i].target, max);
      CollectIsMotor(g, edges, i + 1, max - |w|);
      MotorConcat(g, w, CollectFrom(g, edges, i + 1, max - |w|));
    }
  }

  /** The first max nodes of the chain of a concept. */
  function Chain(g: seq<Node>, concept: nat, max: nat): seq<nat>
    requires concept < |g|
  {
    CollectFrom(g, g[concept].edges, 0, max)
  }

  /** s is a prefix of t, and all of t unless it is as long as allowed. */
  predicate Extends(t: seq<nat>, s: seq<nat>, max: nat) {
    s <= t && (|s| < max ==> s == t)
  }

  lemma {:induction false} WalkMore(g: seq<Node>, cur: int, max: nat, more: nat)
    requires max <= more
    ensures Extends(Walk(g, cur, more), Walk(g, cur, max), max)
    decreases max
  {
    if max > 0 && 0 <= cur < |g| && g[cur].isMotor {
      WalkMore(g, Successor(g[cur].edges), max - 1, more - 1);
    }
  }

  lemma ContributionMore(g: seq<Node>, e: Edge, max: nat, more: nat)
    requires max <= more
    ensures Extends(Contribution(g, e, more), Contribution(g, e, max), max)
  {
    WalkMore(g, e.target, max, more);
  }

  lemma MoreStep(w: seq<nat>, v: seq<nat>, r: seq<nat>, r': seq<nat>, max: nat)
    requires |w| <= max && Extends(v, w, max)
    requires |r| <= max - |w| && (|w| < max ==> Extends(r', r, max - |w|))
    ensures Extends(v + r', w + r, max)
  {
  }

  /** A larger bound only adds to the chain, and nothing to one that was not full. */
  lemma {:induction false} CollectMore(g: seq<Node>, edges: seq<Edge>, i: nat, max: nat, more: nat)
    requires i <= |edges| && max <= more
    ensures Extends(CollectFrom(g, edges, i, more), CollectFrom(g, edges, i, max), max)
    decreases |edges| - i, 1
  {
    if i < |edges| {
      ContributionMore(g, edges[i], max, more);
      CollectMoreStep(g, edges, i, max, more, Contribution(g, edges[i], max), Contribution(g, edges[i], more));
    }
  }

  lemma {:induction false} CollectMoreStep(g: seq<Node>, edges: seq<Edge>, i: nat, max: nat, more: nat,
                                           w: seq<nat>, v: seq<nat>)
    requires i < |edges| && max <= more && |w| <= max && |v| <= more && Extends(v, w, max)
    ensures Extends(v + CollectFrom(g, edges, i + 1, more - |v|), w + CollectFrom(g, edges, i + 1, max - |w|), max)
    decreases |edges| - i, 0
  {
    if |w| < max { CollectMore(g, edges, i + 1, max - |w|, more - |v|); }
    MoreStep(w, v, CollectFrom(g, edges, i + 1, max - |w|), CollectFrom(g, edges, i + 1, more - |v|), max);
  }

  lemma NothingLeft(g: seq<Node>, edges: seq<Edge>, i: nat)
    requires i <= |edges|
    ensures CollectFrom(g, edges, i, 0) == []
  {
  }

  // ----- Screening -----

  predicate RequirementMet(g: seq<Node>, e: Edge) {
    e.etype == Requires && 0 <= e.target ==> e.target < |g| && g[e.target].activation >= MET
  }

  /** Every precondition of every node of the chain is active. */
  ghost predicate RequirementsMet(g: seq<Node>, chain: seq<nat>) {
    forall i, e :: 0 <= i < |chain| && chain[i] < |g| && 0 <= e < |g[chain[i]].edges| ==>
      RequirementMet(g, g[chain[i]].edges[e])
  }

  /** `ShadowBrain::is_safe` against the main graph. */
  method IsSafe(g: seq<Node>, chain: seq<nat>) returns (safe: bool)
    ensures safe <==> RequirementsMet(g, chain)
  {
    for i := 0 to |chain|
      invariant RequirementsMet(g, chain[..i])
    {
      var mid := chain[i];
      if mid < |g| {
        for e := 0 to |g[mid].edges|
          invariant forall k :: 0 <= k < e ==> RequirementMet(g, g[mid].edges[k])
        {
          var edge := g[mid].edges[e];
          if edge.etype == Requires && edge.target >= 0 {
            var act := if edge.target < |g| then g[edge.target].activation else 0.0;
            if act < MET {
              assert !RequirementMet(g, g[chain[i]].edges[e]);
              return false;
            }
          }
        }
      }
      assert chain[..i + 1] == chain[..i] + [mid];
    }
    assert chain[..|chain|] == chain;
    safe := true;
  }

  /** `collect_goal_motor_chain_flat`. */
  method CollectFlat(g: seq<Node>, concept: int, maxChain: nat) returns (chain: seq<nat>)
    requires InRange(g)
    ensures chain == if 0 <= concept < |g| then Chain(g, concept, maxChain) else []
  {
    chain := [];
    if concept < 0 || concept >= |g| { return; }
    var edges := g[concept].edges;
    ghost var whole := Chain(g, concept, maxChain);
    var i := 0;
    var room: nat := maxChain;
    assert chain + whole == whole;
    while i < |edges| && room > 0
      invariant Onward(g, edges, i, chain, room, whole)
      decreases |edges| - i
    {
      TakeEdge(g, edges, i, chain, room, whole);
      var w := CollectEdge(g, edges[i], room);
      chain, room := chain + w, room - |w|;
      i := i + 1;
    }
    AllTaken(g, edges, i, chain, room, whole);
  }

  method CollectEdge(g: seq<Node>, e: Edge, max: nat) returns (w: seq<nat>)
    requires InRange(g)
    ensures w == Contribution(g, e, max)
  {
    if e.etype == ImplementedBy && 0 <= e.target < |g| {
      w := WalkFlat(g, e.target, max);
    } else {
      w := [];
    }
  }

  /** The inner walk, with its bound but without a cycle guard. */
  method WalkFlat(g: seq<Node>, start: nat, max: nat) returns (w: seq<nat>)
    requires InRange(g) && start < |g|
    ensures w == Walk(g, start, max)
  {
    w := [];
    var current: int := start;
    while current >= 0 && |w| < max
      invariant current < |g| && |w| <= max
      invariant w + Walk(g, current, max - |w|) == Walk(g, start, max)
      decreases max - |w|
    {
      if !g[current].isMotor { break; }
      SuccessorInRange(g, current);
      ghost var next := Successor(g[current].edges);
      assert w + ([current] + Walk(g, next, max - |w| - 1)) == (w + [current]) + Walk(g, next, max - |w| - 1);
      w := w + [current];
      current := FindSuccessor(g[current].edges);
    }
    assert w + [] == w;
  }

  lemma SuccessorIn(edges: seq<Edge>) returns (e: nat)
    requires Successor(edges) != -1
    ensures e < |edges| && edges[e].etype == Sequence && edges[e].target == Successor(edges)
  {
    if edges[0].etype == Sequence { e := 0; } else { var k := SuccessorIn(edges[1..]); e := k + 1; }
  }

  lemma SuccessorInRange(g: seq<Node>, u: nat)
    requires InRange(g) && u < |g|
    ensures Successor(g[u].edges) < |g|
  {
    if Successor(g[u].edges) != -1 { var e := SuccessorIn(g[u].edges); }
  }

  method FindSuccessor(edges: seq<Edge>) returns (next: int)
    ensures next == Successor(edges)
  {
    for j := 0 to |edges|
      invariant Successor(edges[j..]) == Successor(edges)
    {
      assert edges[j..][1..] == edges[j + 1..];
      if edges[j].etype == Sequence { return edges[j].target; }
    }
    next := -1;
  }

  // ----- Acting -----

  function Actions(g: seq<Node>, chain: seq<nat>): (a: seq<Action>)
    ensures |a| == |chain|
  {
    seq(|chain|, i requires 0 <= i < |chain| => if chain[i] < |g| then g[chain[i]].action else "")
  }

  /** The chain of the concept is complete at `bound`: following it further adds nothing. */
  predicate EndsWithin(g: seq<Node>, concept: nat, bound: nat)
    requires concept < |g|
  {
    |Chain(g, concept, bound + 1)| <= bound
  }

  predicate Binds(e: Edge) {
    e.etype == ImplementedBy
  }

  /** One of the first i edges implements the concept. */
  predicate AnyBinds(edges: seq<Edge>, i: nat)
    requires i <= |edges|
  {
    i > 0 && (AnyBinds(edges, i - 1) || Binds(edges[i - 1]))
  }

  /** What a queue with that much room holds after all of s was pushed. */
  function Fitting(s: seq<Action>, room: nat): seq<Action> {
    if |s| <= room then s else s[..room]
  }

  lemma FittingMore(s: seq<Action>, a: Action, room: nat)
    ensures Fitting(s + [a], room) == if |Fitting(s, room)| < room then Fitting(s, room) + [a] else Fitting(s, room)
  {
  }

  ghost predicate Queued(g: seq<Node>, queue: Motor.MotorQueue<Action>, done: seq<nat>)
    reads queue, queue.buffer
  {
    queue.Valid() && queue.contents == Fitting(Actions(g, done), queue.buffer.Length - 1)
  }

  /** The execution loop: no bound and no cycle guard of its own. It queues the
      whole chain; what does not fit is dropped. */
  method Execute(g: seq<Node>, concept: nat, queue: Motor.MotorQueue<Action>, ghost bound: nat) returns (executed: bool)
    requires InRange(g) && concept < |g| && Implementable(g, concept) && EndsWithin(g, concept, bound)
    requires queue.Valid() && queue.contents == []
    modifies queue, queue.buffer
    ensures Queued(g, queue, Chain(g, concept, bound + 1))
    ensures executed == AnyBinds(g[concept].edges, |g[concept].edges|)
  {
    var edges := g[concept].edges;
    ghost var whole := Chain(g, concept, bound + 1);
    ghost var done: seq<nat> := [];
    ghost var room: nat := bound + 1;
    executed := false;
    assert done + whole == whole;
    for i := 0 to |edges|
      invariant Queued(g, queue, done)
      invariant Onward(g, edges, i, done, room, whole) && |done| + room == bound + 1
      invariant executed == AnyBinds(edges, i)
    {
      var followed;
      followed, done, room := ExecuteEdge(g, concept, i, queue, done, room, bound, whole);
      executed := executed || followed;
    }
    AllTaken(g, edges, |edges|, done, room, whole);
  }

  method ExecuteEdge(g: seq<Node>, concept: nat, i: nat, queue: Motor.MotorQueue<Action>, ghost done: seq<nat>,
                     ghost room: nat, ghost bound: nat, ghost whole: seq<nat>)
    returns (followed: bool, ghost done': seq<nat>, ghost room': nat)
    requires InRange(g) && concept < |g| && Implementable(g, concept) && i < |g[concept].edges|
    requires Onward(g, g[concept].edges, i, done, room, whole) && |done| + room == bound + 1 && |whole| <= bound
    requires Queued(g, queue, done)
    modifies queue, queue.buffer
    ensures Queued(g, queue, done')
    ensures Onward(g, g[concept].edges, i + 1, done', room', whole) && |done'| + room' == bound + 1
    ensures followed <==> Binds(g[concept].edges[i])
  {
    var e := g[concept].edges[i];
    TakeEdge(g, g[concept].edges, i, done, room, whole);
    ghost var w := Contribution(g, e, room);
    done', room' := done + w, room - |w|;
    if e.etype == ImplementedBy {
      assert Binds(g[concept].edges[i]);
      QueueWalk(g, e.target, queue, done, room);
      followed := true;
    } else {
      assert done + [] == done;
      followed := false;
    }
  }

  /** Queues the motor nodes along the sequence edges from start. */
  method QueueWalk(g: seq<Node>, start: int, queue: Motor.MotorQueue<Action>, ghost done: seq<nat>, ghost room: nat)
    requires InRange(g) && start < |g| && |Walk(g, start, room)| < room
    requires Queued(g, queue, done)
    modifies queue, queue.buffer
    ensures Queued(g, queue, done + Walk(g, start, room))
  {
    var current := start;
    ghost var w: seq<nat> := [];
    assert done + w == done;
    while current >= 0 && g[current].isMotor
      invariant current < |g| && |w| < room
      invariant w + Walk(g, current, room - |w|) == Walk(g, start, room)
      invariant Queued(g, queue, done + w)
      decreases room - |w|
    {
      ghost var next := Successor(g[current].edges);
      assert w + ([current] + Walk(g, next, room - |w| - 1)) == (w + [current]) + Walk(g, next, room - |w| - 1);
      assert |w| + 1 <= |Walk(g, start, room)|;
      QueueAction(g, queue, done + w, current);
      assert (done + w) + [current] == done + (w + [current]);
      w := w + [current];
      SuccessorInRange(g, current);
      current := FindSuccessor(g[current].edges);
    }
    assert w + [] == w;
  }

  /** The result of the push is ignored. */
  method QueueAction(g: seq<Node>, queue: Motor.MotorQueue<Action>, ghost done: seq<nat>, u: nat)
    requires u < |g| && Queued(g, queue, done)
    modifies queue, queue.buffer
    ensures Queued(g, queue, done + [u])
  {
    FittingMore(Actions(g, done), g[u].action, queue.buffer.Length - 1);
    assert Actions(g, done + [u]) == Actions(g, done) + [g[u].action];
    var ok := queue.Push(g[u].action);
  }

  /** The screened chain is blocked. */
  ghost predicate Blocked(g: seq<Node>, chain: seq<nat>, policyBlocks: seq<nat> -> bool) {
    chain != [] && (policyBlocks(chain) || !RequirementsMet(g, chain))
  }

  /** One step of a goal: collect, screen, and either veto or queue. The motor is
      idle, as the caller has checked. A veto needs nothing of the chain; for the
      loop to come to an end, the chain must end somewhere. */
  method PursueGoal(g: seq<Node>, concept: nat, maxChain: nat, policyBlocks: seq<nat> -> bool,
                    queue: Motor.MotorQueue<Action>, ghost bound: nat) returns (veto: bool, chain: seq<nat>)
    requires InRange(g) && concept < |g|
    requires Blocked(g, Chain(g, concept, maxChain), policyBlocks) ||
             (Implementable(g, concept) && EndsWithin(g, concept, bound))
    requires queue.Valid() && queue.contents == []
    modifies queue, queue.buffer
    ensures chain == Chain(g, concept, maxChain) && MotorNodes(g, chain)
    ensures veto <==> Blocked(g, chain, policyBlocks)
    ensures queue.Valid() && (veto ==> queue.contents == [])
    ensures !veto ==> Queued(g, queue, Chain(g, concept, bound + 1))
    ensures !veto && EndsWithin(g, concept, maxChain) && maxChain < queue.buffer.Length ==>
      queue.contents == Actions(g, chain)
    ensures queue.contents != [] && maxChain > 0 ==> !policyBlocks(chain) && RequirementsMet(g, chain)
  {
    chain := CollectFlat(g, concept, maxChain);
    CollectIsMotor(g, g[concept].edges, 0, maxChain);
    veto := Screen(g, chain, policyBlocks);
    if !veto {
      var executed := Execute(g, concept, queue, bound);
      if EndsWithin(g, concept, maxChain) { EndsSame(g, concept, bound, maxChain); }
      if maxChain > 0 && chain == [] { ScreenedIfAny(g, concept, bound, maxChain); }
    }
  }

  method Screen(g: seq<Node>, chain: seq<nat>, policyBlocks: seq<nat> -> bool) returns (veto: bool)
    ensures veto <==> Blocked(g, chain, policyBlocks)
  {
    veto := false;
    if |chain| > 0 {
      if policyBlocks(chain) {
        veto := true;
      } else {
        var safe := IsSafe(g, chain);
        veto := !safe;
      }
    }
  }

  lemma EndsSame(g: seq<Node>, concept: nat, bound: nat, max: nat)
    requires concept < |g| && EndsWithin(g, concept, bound) && EndsWithin(g, concept, max)
    ensures Chain(g, concept, bound + 1) == Chain(g, concept, max)
  {
    var edges := g[concept].edges;
    CollectMore(g, edges, 0, max, max + 1);
    if bound <= max { CollectMore(g, edges, 0, bound + 1, max + 1); } else { CollectMore(g, edges, 0, max + 1, bound + 1); }
  }

  /** Whatever there is to queue, some of it was screened. */
  lemma ScreenedIfAny(g: seq<Node>, concept: nat, bound: nat, max: nat)
    requires concept < |g| && max > 0 && Chain(g, concept, max) == []
    ensures Chain(g, concept, bound + 1) == []
  {
    var edges := g[concept].edges;
    if bound + 1 <= max { CollectMore(g, edges, 0, bound + 1, max); } else { CollectMore(g, edges, 0, max, bound + 1); }
  }

  // ----- When is the queued chain the screened chain? -----

  /** A screened chain shorter than the bound is complete. */
  lemma ShortIsComplete(g: seq<Node>, concept: nat, bound: nat)
    requires concept < |g| && |Chain(g, concept, bound)| < bound
    ensures EndsWithin(g, concept, bound)
  {
    CollectMore(g, g[concept].edges, 0, bound, bound + 1);
  }

  /** If the execution loop would stop at all, at n nodes, what it queues is what
      was screened exactly when n is at most the bound; and then the chain ends
      within the bound. */
  lemma QueuedIsScreenedExactly(g: seq<Node>, concept: nat, n: nat, bound: nat)
    requires concept < |g| && |Chain(g, concept, n + 1)| == n
    ensures Chain(g, concept, n + 1) == Chain(g, concept, bound) <==> n <= bound
    ensures EndsWithin(g, concept, bound) <==> n <= bound
  {
    var edges := g[concept].edges;
    if n <= bound {
      CollectMore(g, edges, 0, n + 1, bound + 1);
      CollectMore(g, edges, 0, bound, bound + 1);
    } else {
      CollectMore(g, edges, 0, bound + 1, n + 1);
    }
  }

  // ----- When does the execution loop end? -----

  predicate IsStop(g: seq<Node>, cur: int) {
    !(0 <= cur < |g|) || !g[cur].isMotor
  }

  /** Where the walk from cur is after d steps. */
  function Nth(g: seq<Node>, cur: int, d: nat): int
    decreases d
  {
    if d == 0 then cur else if IsStop(g, cur) then -1 else Nth(g, Successor(g[cur].edges), d - 1)
  }

  lemma {:induction false} WalkIsNth(g: seq<Node>, cur: int, n: nat)
    ensures forall d :: 0 <= d < |Walk(g, cur, n)| ==> Walk(g, cur, n)[d] == Nth(g, cur, d) && !IsStop(g, Nth(g, cur, d))
    ensures |Walk(g, cur, n)| < n ==> IsStop(g, Nth(g, cur, |Walk(g, cur, n)|))
    decreases n
  {
    if n > 0 && !IsStop(g, cur) {
      var next := Successor(g[cur].edges);
      WalkIsNth(g, next, n - 1);
      forall d | 0 <= d < |Walk(g, cur, n)|
        ensures Walk(g, cur, n)[d] == Nth(g, cur, d) && !IsStop(g, Nth(g, cur, d))
      {
        if d > 0 { assert Walk(g, cur, n)[d] == Walk(g, next, n - 1)[d - 1]; }
      }
    }
  }

  lemma {:induction false} NthAdd(g: seq<Node>, cur: int, d: nat, e: nat)
    requires forall i: nat :: i < d ==> !IsStop(g, Nth(g, cur, i))
    ensures Nth(g, cur, d + e) == Nth(g, Nth(g, cur, d), e)
    decreases d
  {
    if d > 0 {
      assert !IsStop(g, Nth(g, cur, 0));
      forall i: nat | i < d - 1
        ensures !IsStop(g, Nth(g, Successor(g[cur].edges), i))
      {
        assert Nth(g, cur, i + 1) == Nth(g, Successor(g[cur].edges), i);
      }
      NthAdd(g, Successor(g[cur].edges), d - 1, e);
    }
  }

  /** The walk from cur stops somewhere. */
  ghost predicate WalkEnds(g: seq<Node>, cur: int) {
    exists n: nat :: |Walk(g, cur, n)| < n
  }

  ghost predicate Repeats(w: seq<nat>) {
    exists i, j :: 0 <= i < j < |w| && w[i] == w[j]
  }

  /** A walk that comes back to a node goes on for ever. */
  lemma {:induction false} BackForEver(g: seq<Node>, cur: int, i: nat, j: nat, d: nat)
    requires i < j && Nth(g, cur, i) == Nth(g, cur, j)
    requires forall k: nat :: k < j ==> !IsStop(g, Nth(g, cur, k))
    ensures !IsStop(g, Nth(g, cur, d))
    decreases d
  {
    if d >= j {
      NthAdd(g, cur, i, d - j);
      NthAdd(g, cur, j, d - j);
      BackForEver(g, cur, i, j, d - (j - i));
    }
  }

  lemma RepeatNeverEnds(g: seq<Node>, cur: int, n: nat, m: nat)
    requires Repeats(Walk(g, cur, n))
    ensures |Walk(g, cur, m)| == m
  {
    WalkIsNth(g, cur, n);
    WalkIsNth(g, cur, m);
    var w := Walk(g, cur, n);
    var i, j :| 0 <= i < j < |w| && w[i] == w[j];
    BackForEver(g, cur, i, j, |Walk(g, cur, m)|);
  }

  function Below(n: nat): (s: set<nat>)
    ensures |s| == n && forall i: nat :: i in s <==> i < n
  {
    if n == 0 then {} else Below(n - 1) + {n - 1}
  }

  lemma {:induction false} TooLongRepeats(w: seq<nat>, ids: set<nat>)
    requires (forall i :: 0 <= i < |w| ==> w[i] in ids) && |w| > |ids|
    ensures Repeats(w)
  {
    var last := |w| - 1;
    if i :| 0 <= i < last && w[i] == w[last] {
    } else {
      TooLongRepeats(w[..last], ids - {w[last]});
      var i, j :| 0 <= i < j < last && w[..last][i] == w[..last][j];
      assert w[i] == w[j];
    }
  }

  /** From any start the walk ends within as many nodes as there are, or it never
      ends; and it never ends exactly when it comes to some motor node again. */
  lemma WalkEndsExactly(g: seq<Node>, cur: int)
    ensures WalkEnds(g, cur) <==> |Walk(g, cur, |g| + 1)| <= |g|
    ensures !WalkEnds(g, cur) <==> Repeats(Walk(g, cur, |g| + 1))
  {
    var w := Walk(g, cur, |g| + 1);
    WalkIsMotor(g, cur, |g| + 1);
    if |w| == |g| + 1 {
      TooLongRepeats(w, Below(|g|));
    } else {
      assert |Walk(g, cur, |g| + 1)| < |g| + 1;
    }
    if Repeats(w) {
      forall n: nat
        ensures |Walk(g, cur, n)| == n
      {
        RepeatNeverEnds(g, cur, |g| + 1, n);
      }
    }
  }

  /** How many nodes the edges from i on contribute, if all their walks end. */
  function Total(g: seq<Node>, edges: seq<Edge>, i: nat): nat
    requires i <= |edges|
    decreases |edges| - i
  {
    if i == |edges| then 0 else |Contribution(g, edges[i], |g| + 1)| + Total(g, edges, i + 1)
  }

  ghost predicate AllEnd(g: seq<Node>, edges: seq<Edge>, i: nat) {
    forall e :: i <= e < |edges| && Binds(edges[e]) ==> WalkEnds(g, edges[e].target)
  }

  lemma ContributionWhole(g: seq<Node>, e: Edge, max: nat)
    requires (Binds(e) ==> WalkEnds(g, e.target)) && max > |Contribution(g, e, |g| + 1)|
    ensures Contribution(g, e, max) == Contribution(g, e, |g| + 1)
  {
    WalkEndsExactly(g, e.target);
    if max <= |g| + 1 { ContributionMore(g, e, max, |g| + 1); } else { ContributionMore(g, e, |g| + 1, max); }
  }

  lemma {:induction false} CollectEnds(g: seq<Node>, edges: seq<Edge>, i: nat, max: nat)
    requires i <= |edges| && AllEnd(g, edges, i) && max > Total(g, edges, i)
    ensures |CollectFrom(g, edges, i, max)| == Total(g, edges, i)
    decreases |edges| - i
  {
    if i < |edges| {
      ContributionWhole(g, edges[i], max);
      var n := |Contribution(g, edges[i], max)|;
      AllEndNext(g, edges, i);
      CollectEnds(g, edges, i + 1, max - n);
    }
  }

  lemma AllEndNext(g: seq<Node>, edges: seq<Edge>, i: nat)
    requires AllEnd(g, edges, i) && i < |edges|
    ensures AllEnd(g, edges, i + 1)
  {
  }

  /** The edge contributes as much as is allowed, whatever that is. */
  ghost predicate Fills(g: seq<Node>, e: Edge) {
    forall max: nat :: |Contribution(g, e, max)| == max
  }

  lemma EndlessFills(g: seq<Node>, e: Edge)
    requires Binds(e) && !WalkEnds(g, e.target)
    ensures Fills(g, e)
  {
    forall max: nat
      ensures |Contribution(g, e, max)| == max
    {
      assert !(|Walk(g, e.target, max)| < max);
    }
  }

  /** How much the edges from i on contribute. */
  function Taken(g: seq<Node>, edges: seq<Edge>, i: nat, max: nat): nat
    requires i <= |edges|
  {
    |CollectFrom(g, edges, i, max)|
  }

  lemma TakenSplit(g: seq<Node>, edges: seq<Edge>, i: nat, max: nat) returns (n: nat)
    requires i < |edges|
    ensures n == |Contribution(g, edges[i], max)| <= max
    ensures Taken(g, edges, i, max) == n + Taken(g, edges, i + 1, max - n)
    ensures Taken(g, edges, i + 1, max - n) <= max - n
  {
    n := |Contribution(g, edges[i], max)|;
  }

  lemma {:induction false} CollectFills(g: seq<Node>, edges: seq<Edge>, i: nat, max: nat, e: nat)
    requires i <= e < |edges| && Fills(g, edges[e])
    ensures Taken(g, edges, i, max) == max
    decreases |edges| - i
  {
    var n := TakenSplit(g, edges, i, max);
    if i < e { CollectFills(g, edges, i + 1, max - n, e); }
  }

  /** The walks of the implementing edges from i on, one after the other and to the end. */
  function Whole(g: seq<Node>, edges: seq<Edge>, i: nat): seq<nat>
    requires i <= |edges|
    decreases |edges| - i
  {
    if i == |edges| then []
    else (if edges[i].etype == ImplementedBy then Walk(g, edges[i].target, |g| + 1) else []) + Whole(g, edges, i + 1)
  }

  lemma {:induction false} CollectWhole(g: seq<Node>, edges: seq<Edge>, i: nat, max: nat)
    requires i <= |edges| && AllEnd(g, edges, i) && max > |Whole(g, edges, i)|
    ensures CollectFrom(g, edges, i, max) == Whole(g, edges, i)
    decreases |edges| - i
  {
    if i < |edges| {
      var w := Contribution(g, edges[i], |g| + 1);
      assert Whole(g, edges, i) == w + Whole(g, edges, i + 1);
      ContributionWhole(g, edges[i], max);
      AllEndNext(g, edges, i);
      CollectWhole(g, edges, i + 1, max - |w|);
    }
  }

  /** Where the walks end, the chain is the beginning of all of them put together:
      as much as the bound allows. */
  lemma ChainIsPrefix(g: seq<Node>, concept: nat, max: nat)
    requires concept < |g| && AllEnd(g, g[concept].edges, 0)
    ensures var whole := Whole(g, g[concept].edges, 0);
      Chain(g, concept, max) == if max < |whole| then whole[..max] else whole
  {
    var edges := g[concept].edges;
    var more := |Whole(g, edges, 0)| + max + 1;
    CollectWhole(g, edges, 0, more);
    CollectMore(g, edges, 0, max, more);
  }

  /** The execution loop comes to an end exactly when the walk of every
      implementing edge does. */
  lemma ChainEndsExactly(g: seq<Node>, concept: nat)
    requires concept < |g|
    ensures (exists bound: nat :: EndsWithin(g, concept, bound)) <==> AllEnd(g, g[concept].edges, 0)
  {
    var edges := g[concept].edges;
    if AllEnd(g, edges, 0) {
      CollectEnds(g, edges, 0, Total(g, edges, 0) + 1);
      assert EndsWithin(g, concept, Total(g, edges, 0));
    } else {
      var e :| 0 <= e < |edges| && Binds(edges[e]) && !WalkEnds(g, edges[e].target);
      forall bound: nat
        ensures !EndsWithin(g, concept, bound)
      {
        EndlessFills(g, edges[e]);
        CollectFills(g, edges, 0, bound + 1, e);
        assert |Chain(g, concept, bound + 1)| == Taken(g, edges, 0, bound + 1);
      }
    }
  }

  // ----- A chain that is longer than what is screened -----

  function To(target: int, etype: EdgeType): Edge {
    Edge(target, 1.0, 1, etype, Unknown)
  }

  /** A concept, node 0, implemented by the motor nodes 1, 2, ..., n + 1 in sequence. */
  function Line(n: nat): seq<Node> {
    seq(n + 2, u =>
      if u == 0 then Node([To(1, ImplementedBy)], false, "", 1.0)
      else Node(if u <= n then [To(u + 1, Sequence)] else [], true, "act", 1.0))
  }

  lemma {:induction false} LineWalk(n: nat, u: nat, max: nat)
    requires 1 <= u <= n + 1
    ensures |Walk(Line(n), u, max)| == if max <= n + 2 - u then max else n + 2 - u
    decreases max
  {
    if max > 0 && u <= n {
      assert Successor(Line(n)[u].edges) == u + 1;
      LineWalk(n, u + 1, max - 1);
    } else if max > 0 {
      assert Successor(Line(n)[u].edges) == -1;
    }
  }

  /** For every bound there is a graph, sound in every other way, of which the
      loop queues one node more than was screened. */
  lemma LongChain(bound: nat)
    ensures InRange(Line(bound)) && Implementable(Line(bound), 0) && EndsWithin(Line(bound), 0, bound + 1)
    ensures |Chain(Line(bound), 0, bound)| == bound && |Chain(Line(bound), 0, bound + 2)| == bound + 1
    ensures !EndsWithin(Line(bound), 0, bound)
  {
    var g := Line(bound);
    forall max: nat
      ensures |Chain(g, 0, max)| == if max <= bound + 1 then max else bound + 1
    {
      LineWalk(bound, 1, max);
      assert CollectFrom(g, g[0].edges, 1, max - |Contribution(g, g[0].edges[0], max)|) == [];
    }
  }
}
