/** Breadth-first planning over the arena: `plan_path`, and `plan_path_typed`
    when an edge type to follow is given. */
module PlanPath {
  import opened Graph

  // ----- Paths -----

  predicate Follows(e: Edge, follow: Option<EdgeType>, n: nat) {
    (follow.Some? ==> e.etype == follow.value) && 0 <= e.target < n
  }

  ghost predicate Linked(g: seq<seq<Edge>>, follow: Option<EdgeType>, u: int, v: int) {
    0 <= u < |g| && exists e :: 0 <= e < |g[u]| && Follows(g[u][e], follow, |g|) && g[u][e].target == v
  }

  /** p leads from start to v along edges that may be followed. */
  ghost predicate IsPath(g: seq<seq<Edge>>, follow: Option<EdgeType>, start: int, v: int, p: seq<int>) {
    && p != [] && p[0] == start && p[|p| - 1] == v
    && forall k :: 0 < k < |p| ==> Linked(g, follow, p[k - 1], p[k])
  }

  ghost predicate IsShortest(g: seq<seq<Edge>>, follow: Option<EdgeType>, start: int, v: int, p: seq<int>) {
    && IsPath(g, follow, start, v, p)
    && forall p' :: IsPath(g, follow, start, v, p') ==> |p| <= |p'|
  }

  ghost predicate Reachable(g: seq<seq<Edge>>, follow: Option<EdgeType>, start: int, v: int) {
    exists p :: IsPath(g, follow, start, v, p)
  }

  // ----- The search state -----

  /** The search: the queue with the position of its front, the marks, the
      parents, and for every queued node the path along which it was found. */
  datatype Search = Search(
    g: seq<seq<Edge>>, follow: Option<EdgeType>, start: int,
    queue: seq<int>, visited: seq<bool>, parent: seq<int>, paths: seq<seq<int>>)
  {
    ghost predicate Sized() {
      && |visited| == |parent| == |g|
      && |paths| == |queue| && queue != []
      && (forall i :: 0 <= i < |queue| ==> 0 <= queue[i] < |g| && visited[queue[i]])
      && (forall v :: 0 <= v < |g| && visited[v] ==> v in queue)
      && (forall i, j :: 0 <= i < j < |queue| ==> queue[i] != queue[j])
    }

    /** Tracing parents from the end of p runs back along p to the start. */
    ghost predicate Traced(p: seq<int>)
      requires |visited| == |parent| == |g|
    {
      && (forall k :: 0 <= k < |p| ==> 0 <= p[k] < |g| && visited[p[k]])
      && (forall k :: 0 < k < |p| ==> p[k] != start && parent[p[k]] == p[k - 1])
    }

    ghost predicate PathsOk()
      requires Sized()
    {
      && paths[0] == [start] && queue[0] == start
      && (forall i :: 0 <= i < |paths| ==> IsPath(g, follow, start, queue[i], paths[i]) && Traced(paths[i]))
      && (forall i, j :: 0 <= i <= j < |paths| ==> |paths[i]| <= |paths[j]|)
    }

    /** v was found, by a path at most one edge longer than that of queue[i]. */
    ghost predicate Found(v: int, i: nat)
      requires |paths| == |queue| && i < |paths|
    {
      exists j :: 0 <= j < |queue| && queue[j] == v && |paths[j]| <= |paths[i]| + 1
    }

    /** All successors of queue[i] along its first m edges have been found. */
    ghost predicate Expanded(i: nat, m: nat)
      requires Sized() && i < |queue|
    {
      forall e :: 0 <= e < m && e < |g[queue[i]]| && Follows(g[queue[i]][e], follow, |g|) ==>
        Found(g[queue[i]][e].target, i)
    }

    /** Between two expansions: everything before `front` is fully expanded. */
    ghost predicate Inv(front: nat) {
      && Sized() && PathsOk() && front <= |queue|
      && (forall i :: 0 <= i < front ==> Expanded(i, |g[queue[i]]|))
      && (front < |queue| ==> |paths[|paths| - 1]| <= |paths[front]| + 1)
    }

    /** While queue[cur] is expanded, its first m edges done. */
    ghost predicate Expanding(cur: nat, m: nat) {
      && Sized() && PathsOk() && cur < |queue|
      && (forall i :: 0 <= i < cur ==> Expanded(i, |g[queue[i]]|))
      && Expanded(cur, m)
      && |paths[|paths| - 1]| <= |paths[cur]| + 1
    }

    /** A new node, found from queue[cur]. */
    function Add(cur: nat, v: int): Search
      requires cur < |queue| == |paths| && 0 <= v < |visited| == |parent|
    {
      Search(g, follow, start, queue + [v], visited[v := true], parent[v := queue[cur]], paths + [paths[cur] + [v]])
    }
  }

  function Begin(g: seq<seq<Edge>>, follow: Option<EdgeType>, start: int, visited: seq<bool>, parent: seq<int>): Search
  {
    Search(g, follow, start, [start], visited, parent, [[start]])
  }

  lemma BeginInv(s: Search)
    requires s == Begin(s.g, s.follow, s.start, s.visited, s.parent)
    requires |s.visited| == |s.parent| == |s.g| && 0 <= s.start < |s.g|
    requires forall v :: 0 <= v < |s.g| ==> (s.visited[v] <==> v == s.start)
    ensures s.Inv(0)
  {
  }

  lemma AddSized(s: Search, cur: nat, v: int)
    requires s.Sized() && cur < |s.queue| && 0 <= v < |s.g| && !s.visited[v]
    ensures s.Add(cur, v).Sized()
  {
  }

  lemma NewPath(s: Search, cur: nat, v: int)
    requires s.Sized() && s.PathsOk() && cur < |s.queue| && 0 <= v < |s.g| && !s.visited[v]
    requires Linked(s.g, s.follow, s.queue[cur], v)
    ensures IsPath(s.g, s.follow, s.start, v, s.paths[cur] + [v]) && s.Add(cur, v).Traced(s.paths[cur] + [v])
  {
    var p, s' := s.paths[cur], s.Add(cur, v);
    assert IsPath(s.g, s.follow, s.start, s.queue[cur], p) && s.Traced(p);
    assert s.visited[s.queue[0]] && v != s.start;
    var p' := p + [v];
    forall k | 0 < k < |p'|
      ensures Linked(s.g, s.follow, p'[k - 1], p'[k]) && p'[k] != s.start && s'.parent[p'[k]] == p'[k - 1]
    {
      if k < |p| { assert p'[k] == p[k] && p'[k - 1] == p[k - 1] && p[k] != v; }
    }
  }

  lemma OldPath(s: Search, cur: nat, v: int, i: nat)
    requires s.Sized() && s.PathsOk() && cur < |s.queue| && 0 <= v < |s.g| && !s.visited[v] && i < |s.paths|
    ensures var s' := s.Add(cur, v);
      IsPath(s'.g, s'.follow, s'.start, s'.queue[i], s'.paths[i]) && s'.Traced(s'.paths[i])
  {
    assert IsPath(s.g, s.follow, s.start, s.queue[i], s.paths[i]) && s.Traced(s.paths[i]);
  }

  lemma AddLengths(paths: seq<seq<int>>, q: seq<int>, n: nat)
    requires paths != [] && (forall i, j :: 0 <= i <= j < |paths| ==> |paths[i]| <= |paths[j]|)
    requires n < |paths| && |q| == |paths[n]| + 1 && |paths[|paths| - 1]| <= |q|
    ensures var all := paths + [q]; forall i, j :: 0 <= i <= j < |all| ==> |all[i]| <= |all[j]|
  {
    assert forall i :: 0 <= i < |paths| ==> |paths[i]| <= |paths[|paths| - 1]|;
  }

  lemma EachPath(s: Search, cur: nat, v: int, i: nat)
    requires s.Sized() && s.PathsOk() && cur < |s.queue| && 0 <= v < |s.g| && !s.visited[v] && i <= |s.paths|
    requires Linked(s.g, s.follow, s.queue[cur], v)
    ensures var s' := s.Add(cur, v);
      IsPath(s'.g, s'.follow, s'.start, s'.queue[i], s'.paths[i]) && s'.Traced(s'.paths[i])
  {
    if i < |s.paths| { OldPath(s, cur, v, i); } else { NewPath(s, cur, v); }
  }

  lemma AddPaths(s: Search, cur: nat, v: int)
    requires s.Sized() && s.PathsOk() && cur < |s.queue| && 0 <= v < |s.g| && !s.visited[v]
    requires Linked(s.g, s.follow, s.queue[cur], v)
    requires |s.paths[|s.paths| - 1]| <= |s.paths[cur]| + 1
    ensures s.Add(cur, v).Sized() && s.Add(cur, v).PathsOk()
  {
    var s' := s.Add(cur, v);
    AddSized(s, cur, v);
    AddLengths(s.paths, s.paths[cur] + [v], cur);
    forall i: nat | i < |s'.paths|
      ensures IsPath(s'.g, s'.follow, s'.start, s'.queue[i], s'.paths[i]) && s'.Traced(s'.paths[i])
    {
      EachPath(s, cur, v, i);
    }
  }

  lemma FoundKept(s: Search, s': Search, v: int, i: nat)
    requires |s.paths| == |s.queue| && |s'.paths| == |s'.queue| && i < |s.queue| && s.Found(v, i)
    requires s.queue <= s'.queue && s.paths <= s'.paths
    ensures s'.Found(v, i)
  {
    var j :| 0 <= j < |s.queue| && s.queue[j] == v && |s.paths[j]| <= |s.paths[i]| + 1;
    assert s'.queue[j] == v && s'.paths[j] == s.paths[j];
  }

  lemma ExpandedKept(s: Search, cur: nat, v: int, i: nat, m: nat)
    requires s.Sized() && cur < |s.queue| && 0 <= v < |s.g| && !s.visited[v] && i < |s.queue| && s.Expanded(i, m)
    ensures s.Add(cur, v).Sized() && s.Add(cur, v).Expanded(i, m)
  {
    AddSized(s, cur, v);
    var s' := s.Add(cur, v);
    forall e | 0 <= e < m && e < |s.g[s.queue[i]]| && Follows(s.g[s.queue[i]][e], s.follow, |s.g|)
      ensures s'.Found(s.g[s.queue[i]][e].target, i)
    {
      FoundKept(s, s', s.g[s.queue[i]][e].target, i);
    }
  }

  /** An edge that leads to a new node queues it. */
  lemma AddKeeps(s: Search, cur: nat, m: nat)
    requires s.Expanding(cur, m) && m < |s.g[s.queue[cur]]|
    requires Follows(s.g[s.queue[cur]][m], s.follow, |s.g|) && !s.visited[s.g[s.queue[cur]][m].target]
    ensures s.Add(cur, s.g[s.queue[cur]][m].target).Expanding(cur, m + 1)
  {
    var v := s.g[s.queue[cur]][m].target;
    var s' := s.Add(cur, v);
    AddPaths(s, cur, v);
    forall i | 0 <= i < cur
      ensures s'.Expanded(i, |s'.g[s'.queue[i]]|)
    {
      ExpandedKept(s, cur, v, i, |s.g[s.queue[i]]|);
    }
    ExpandedKept(s, cur, v, cur, m);
    assert s'.Found(v, cur) by {
      assert s'.queue[|s.queue|] == v;
    }
  }

  /** An edge that leads nowhere, or to a known node, changes nothing. */
  lemma SkipKeeps(s: Search, cur: nat, m: nat)
    requires s.Expanding(cur, m) && m < |s.g[s.queue[cur]]|
    requires var e := s.g[s.queue[cur]][m]; Follows(e, s.follow, |s.g|) ==> s.visited[e.target]
    ensures s.Expanding(cur, m + 1)
  {
    var e := s.g[s.queue[cur]][m];
    if Follows(e, s.follow, |s.g|) {
      var j :| 0 <= j < |s.queue| && s.queue[j] == e.target;
      assert |s.paths[j]| <= |s.paths[|s.paths| - 1]|;
      assert s.Found(e.target, cur);
    }
  }

  lemma NextFront(s: Search, cur: nat)
    requires s.Sized() && cur < |s.queue| && s.Expanding(cur, |s.g[s.queue[cur]]|)
    ensures s.Inv(cur + 1)
  {
  }

  // ----- Why the search is right -----

  /** Whatever has a path shorter than the front's level, or as long, has been found. */
  lemma {:induction false} NearIsFound(s: Search, cur: nat, v: int, p: seq<int>) returns (j: nat)
    requires s.Sized() && s.PathsOk() && cur < |s.queue|
    requires forall i :: 0 <= i < cur ==> s.Expanded(i, |s.g[s.queue[i]]|)
    requires IsPath(s.g, s.follow, s.start, v, p) && |p| <= |s.paths[cur]|
    ensures j < |s.queue| && s.queue[j] == v && |s.paths[j]| <= |p|
    decreases |p|
  {
    if |p| == 1 {
      j := 0;
    } else {
      var u := p[|p| - 2];
      var q := p[..|p| - 1];
      assert IsPath(s.g, s.follow, s.start, u, q);
      var i := NearIsFound(s, cur, u, q);
      assert i < cur;
      assert Linked(s.g, s.follow, u, v);
      var e :| 0 <= e < |s.g[u]| && Follows(s.g[u][e], s.follow, |s.g|) && s.g[u][e].target == v;
      assert s.Found(v, i);
      j :| 0 <= j < |s.queue| && s.queue[j] == v && |s.paths[j]| <= |s.paths[i]| + 1;
    }
  }

  /** The first time the goal turns up, the path along which it does is shortest. */
  lemma FirstIsShortest(s: Search, cur: nat, m: nat, goal: int)
    requires s.Expanding(cur, m) && 0 <= goal < |s.g| && !s.visited[goal]
    requires Linked(s.g, s.follow, s.queue[cur], goal)
    ensures IsShortest(s.g, s.follow, s.start, goal, s.paths[cur] + [goal])
  {
    var path := s.paths[cur] + [goal];
    assert IsPath(s.g, s.follow, s.start, s.queue[cur], s.paths[cur]);
    forall p | IsPath(s.g, s.follow, s.start, goal, p)
      ensures |path| <= |p|
    {
      if |p| < |path| {
        var j := NearIsFound(s, cur, goal, p);
        assert false;
      }
    }
  }

  lemma {:induction false} AllReachedFound(s: Search, v: int, p: seq<int>)
    requires s.Inv(|s.queue|) && IsPath(s.g, s.follow, s.start, v, p)
    ensures v in s.queue
    decreases |p|
  {
    if |p| == 1 {
    } else {
      var u, q := p[|p| - 2], p[..|p| - 1];
      assert IsPath(s.g, s.follow, s.start, u, q);
      AllReachedFound(s, u, q);
      var i :| 0 <= i < |s.queue| && s.queue[i] == u;
      assert Linked(s.g, s.follow, u, v);
      var e :| 0 <= e < |s.g[u]| && Follows(s.g[u][e], s.follow, |s.g|) && s.g[u][e].target == v;
      assert s.Found(v, i);
    }
  }

  /** A shortest path to the goal that the parents let one trace back. */
  ghost predicate Tracks(s: Search, goal: int, p: seq<int>) {
    && IsShortest(s.g, s.follow, s.start, goal, p)
    && |s.parent| == |s.g|
    && (forall k :: 0 <= k < |p| ==> 0 <= p[k] < |s.g|)
    && (forall k :: 0 < k < |p| ==> p[k] != s.start && s.parent[p[k]] == p[k - 1])
  }

  /** What the m-th edge of queue[cur] does when it leads to an unvisited node. */
  lemma EdgeAdds(s: Search, cur: nat, m: nat, goal: int, s': Search)
    requires s.Expanding(cur, m) && m < |s.g[s.queue[cur]]| && goal !in s.queue
    requires Follows(s.g[s.queue[cur]][m], s.follow, |s.g|) && !s.visited[s.g[s.queue[cur]][m].target]
    requires s' == s.Add(cur, s.g[s.queue[cur]][m].target)
    ensures s'.Expanding(cur, m + 1) && |s'.queue| <= |s.g|
    ensures s.g[s.queue[cur]][m].target == goal ==> Tracks(s', goal, s.paths[cur] + [goal])
    ensures s.g[s.queue[cur]][m].target != goal ==> goal !in s'.queue
  {
    var v := s.g[s.queue[cur]][m].target;
    AddKeeps(s, cur, m);
    QueueFits(s'.queue, |s.g|);
    if v == goal {
      assert Linked(s.g, s.follow, s.queue[cur], v);
      FirstIsShortest(s, cur, m, goal);
      assert s'.paths[|s.paths|] == s.paths[cur] + [goal];
    }
  }

  lemma Exhausted(s: Search, v: int)
    requires s.Inv(|s.queue|) && v !in s.queue
    ensures !Reachable(s.g, s.follow, s.start, v)
  {
    forall p | IsPath(s.g, s.follow, s.start, v, p)
      ensures false
    {
      AllReachedFound(s, v, p);
    }
  }

  /** Different nodes of the arena fill at most the whole queue. */
  lemma {:induction false} QueueFits(queue: seq<int>, n: nat)
    requires forall i :: 0 <= i < |queue| ==> 0 <= queue[i] < n
    requires forall i, j :: 0 <= i < j < |queue| ==> queue[i] != queue[j]
    ensures |queue| <= n
  {
    if |queue| == 0 {
      return;
    }
    assert 0 <= queue[0] < n;
    if n - 1 in queue {
      var k :| 0 <= k < |queue| && queue[k] == n - 1;
      QueueFits(queue[..k] + queue[k + 1..], n - 1);
    } else {
      QueueFits(queue[1..], n - 1);
    }
  }

  // ----- The planner -----

  /** `return min(d, max_len)` nodes: the last ones of path p, which has d edges. */
  function Length(p: seq<int>, maxLen: int): nat
    requires p != []
  {
    if maxLen <= 0 then 0 else if |p| - 1 < maxLen then |p| - 1 else maxLen
  }

  /** What the planner leaves in the output: the last nodes of a shortest path, as
      many as asked for, or nothing when there is no way to go or nowhere to go. */
  ghost predicate Planned(g: seq<seq<Edge>>, follow: Option<EdgeType>, start: int, goal: int, maxLen: int, out: seq<int>) {
    if start != goal && Reachable(g, follow, start, goal)
    then exists p :: IsShortest(g, follow, start, goal, p) &&
                     |out| == Length(p, maxLen) && out == p[|p| - |out|..]
    else out == []
  }

  lemma TracksPlanned(s: Search, goal: int, p: seq<int>, maxLen: int, out: seq<int>)
    requires Tracks(s, goal, p) && s.start != goal && |out| == Length(p, maxLen) && out == p[|p| - |out|..]
    ensures Planned(s.g, s.follow, s.start, goal, maxLen, out)
  {
    assert IsPath(s.g, s.follow, s.start, goal, p);
  }

  /** What a plan is worth to its caller, in numbers: it is the end of a shortest
      path, as a whole or, if that is longer, its last maxLen nodes; each node is
      a successor of the one before; and a plan that is not cut off begins with a
      successor of the start. */
  lemma PlanIsRight(g: seq<seq<Edge>>, follow: Option<EdgeType>, start: int, goal: int, maxLen: int, out: seq<int>)
    requires Planned(g, follow, start, goal, maxLen, out)
    ensures start == goal || maxLen <= 0 || !Reachable(g, follow, start, goal) <==> out == []
    ensures out != [] ==>
      && |out| <= maxLen && out[|out| - 1] == goal
      && (exists p :: IsShortest(g, follow, start, goal, p) && |out| < |p| && out == p[|p| - |out|..] &&
                      (|out| == |p| - 1 || |out| == maxLen < |p| - 1))
      && (forall k :: 0 < k < |out| ==> Linked(g, follow, out[k - 1], out[k]))
      && (|out| < maxLen ==> Linked(g, follow, start, out[0]))
  {
    if start != goal && Reachable(g, follow, start, goal) {
      var p :| IsShortest(g, follow, start, goal, p) && |out| == Length(p, maxLen) && out == p[|p| - |out|..];
      assert |p| > 1;
      forall k | 0 < k < |out|
        ensures Linked(g, follow, out[k - 1], out[k])
      {
        assert out[k - 1] == p[|p| - |out| + k - 1] && out[k] == p[|p| - |out| + k];
      }
      if 0 < |out| < maxLen { assert Linked(g, follow, p[0], p[1]); }
    }
  }

  class Planner {
    const bfsParent: array<int>
    const bfsVisited: array<bool>
    const bfsQueue: array<int>

    constructor (capacity: nat)
      ensures bfsParent.Length == bfsVisited.Length == bfsQueue.Length == capacity
      ensures bfsParent != bfsQueue && fresh(bfsParent) && fresh(bfsVisited) && fresh(bfsQueue)
    {
      bfsParent := new int[capacity];
      bfsVisited := new bool[capacity];
      bfsQueue := new int[capacity];
    }

    ghost predicate Apart(outPath: array<int>) {
      && bfsParent.Length == bfsVisited.Length == bfsQueue.Length && bfsParent != bfsQueue
      && outPath != bfsParent && outPath != bfsQueue
    }

    /** The search state that the scratch arrays stand for. */
    ghost predicate Represents(s: Search, qback: nat)
      reads bfsParent, bfsVisited, bfsQueue
    {
      && |s.g| <= bfsParent.Length && |s.g| <= bfsVisited.Length && qback <= bfsQueue.Length
      && s.queue == bfsQueue[..qback] && s.visited == bfsVisited[..|s.g|] && s.parent == bfsParent[..|s.g|]
    }

    method PlanPath(g: seq<seq<Edge>>, start: int, goal: int, follow: Option<EdgeType>,
                    outPath: array<int>, maxLen: int) returns (plen: nat)
      requires 0 <= start < |g| <= bfsQueue.Length && Apart(outPath) && maxLen <= outPath.Length
      modifies bfsParent, bfsVisited, bfsQueue, outPath
      ensures plen <= outPath.Length && Planned(g, follow, start, goal, maxLen, outPath[..plen])
      ensures outPath[plen..] == old(outPath[plen..])
    {
      if start == goal {
        assert outPath[..0] == [];
        return 0;
      }
      ghost var s := Reset(g, start, follow);
      var qfront, qback := 0, 1;
      while qfront < qback
        invariant s.g == g && s.follow == follow && s.start == start
        invariant qfront <= qback && Represents(s, qback) && s.Inv(qfront) && goal !in s.queue
        invariant outPath[..] == old(outPath[..])
        decreases |g| - qfront
      {
        var found: bool;
        ghost var path;
        found, qback, s, path := Expand(g, goal, follow, qfront, qback, s);
        if found {
          plen := Report(start, goal, outPath, maxLen, path, s);
          return;
        }
        qfront := qfront + 1;
      }
      Exhausted(s, goal);
      assert outPath[..0] == [];
      return 0;
    }

    method Report(start: int, goal: int, outPath: array<int>, maxLen: int,
                  ghost p: seq<int>, ghost s: Search) returns (plen: nat)
      requires Tracks(s, goal, p) && s.start == start != goal && Apart(outPath) && maxLen <= outPath.Length
      requires |s.g| <= bfsParent.Length && s.parent == bfsParent[..|s.g|]
      modifies outPath
      ensures plen <= outPath.Length && Planned(s.g, s.follow, start, goal, maxLen, outPath[..plen])
      ensures outPath[plen..] == old(outPath[plen..])
    {
      plen := TracePath(start, goal, outPath, maxLen, p, s.parent);
      TracksPlanned(s, goal, p, maxLen, outPath[..plen]);
    }

    /** Clears the scratch arrays and queues the start. */
    method Reset(g: seq<seq<Edge>>, start: int, follow: Option<EdgeType>) returns (ghost s: Search)
      requires 0 <= start < |g| <= bfsQueue.Length
      requires bfsParent.Length == bfsVisited.Length == bfsQueue.Length && bfsParent != bfsQueue
      modifies bfsParent, bfsVisited, bfsQueue
      ensures s == Begin(g, follow, start, s.visited, s.parent) && Represents(s, 1) && s.Inv(0)
    {
      for i := 0 to |g|
        invariant forall v :: 0 <= v < i ==> bfsParent[v] == -1 && !bfsVisited[v]
      {
        bfsParent[i] := -1;
        bfsVisited[i] := false;
      }
      bfsQueue[0] := start;
      bfsVisited[start] := true;
      s := Begin(g, follow, start, bfsVisited[..|g|], bfsParent[..|g|]);
      BeginInv(s);
    }

    /** Marks a new node, records its parent and, unless it is the goal, queues it. */
    method Record(v: int, cur: int, i: nat, qback: nat, goal: int, ghost s: Search, ghost s': Search)
      requires bfsParent.Length == bfsVisited.Length == bfsQueue.Length && bfsParent != bfsQueue
      requires Represents(s, qback) && qback < bfsQueue.Length
      requires |s.g| == |s.visited| == |s.parent| && |s.paths| == |s.queue|
      requires i < qback && 0 <= v < |s.g| && cur == s.queue[i] && s' == s.Add(i, v)
      modifies bfsParent, bfsVisited, bfsQueue
      ensures s'.parent == bfsParent[..|s.g|]
      ensures v != goal ==> Represents(s', qback + 1)
    {
      bfsVisited[v] := true;
      bfsParent[v] := cur;
      if v != goal {
        bfsQueue[qback] := v;
      }
    }

    /** Looks at one edge of the node at queue position i. */
    method TryEdge(g: seq<seq<Edge>>, goal: int, follow: Option<EdgeType>, i: nat, cur: int, e: nat, qback0: nat, ghost s0: Search)
      returns (found: bool, qback: nat, ghost s: Search, ghost path: seq<int>)
      requires i < qback0 && |g| <= bfsQueue.Length
      requires bfsParent.Length == bfsVisited.Length == bfsQueue.Length && bfsParent != bfsQueue
      requires s0.g == g && s0.follow == follow && Represents(s0, qback0) && goal !in s0.queue
      requires s0.Expanding(i, e) && s0.queue[i] == cur && e < |g[cur]|
      modifies bfsParent, bfsVisited, bfsQueue
      ensures s.g == g && s.follow == follow && s.start == s0.start
      ensures found ==> Tracks(s, goal, path) && s.parent == bfsParent[..|g|]
      ensures !found ==>
        && qback0 <= qback && Represents(s, qback) && goal !in s.queue
        && s.Expanding(i, e + 1) && s.queue[i] == cur
    {
      s, qback, path := s0, qback0, [];
      var tgt := g[cur][e].target;
      if (follow.Some? && g[cur][e].etype != follow.value) || tgt < 0 || tgt >= |g| || bfsVisited[tgt] {
        SkipKeeps(s, i, e);
        return false, qback, s, path;
      }
      s, path := Discover(tgt, goal, i, cur, e, qback, s0);
      found := tgt == goal;
      if !found { qback := qback + 1; }
    }

    /** Edge e of the node at queue position i leads to a new node. */
    method Discover(tgt: int, goal: int, i: nat, cur: int, e: nat, qback: nat, ghost s0: Search)
      returns (ghost s: Search, ghost path: seq<int>)
      requires i < qback && |s0.g| <= bfsQueue.Length
      requires bfsParent.Length == bfsVisited.Length == bfsQueue.Length && bfsParent != bfsQueue
      requires Represents(s0, qback) && goal !in s0.queue
      requires s0.Expanding(i, e) && s0.queue[i] == cur && e < |s0.g[cur]| && tgt == s0.g[cur][e].target
      requires Follows(s0.g[cur][e], s0.follow, |s0.g|) && !s0.visited[tgt]
      modifies bfsParent, bfsVisited, bfsQueue
      ensures s.g == s0.g && s.follow == s0.follow && s.start == s0.start
      ensures tgt == goal ==> Tracks(s, goal, path) && s.parent == bfsParent[..|s0.g|]
      ensures tgt != goal ==>
        && Represents(s, qback + 1) && goal !in s.queue
        && s.Expanding(i, e + 1) && s.queue[i] == cur
    {
      s := s0.Add(i, tgt);
      EdgeAdds(s0, i, e, goal, s);
      assert |s.queue| == qback + 1;
      Record(tgt, cur, i, qback, goal, s0, s);
      path := s0.paths[i] + [tgt];
    }

    /** Queues the unvisited successors of the node at queue position i, unless
        the goal is among them. */
    method Expand(g: seq<seq<Edge>>, goal: int, follow: Option<EdgeType>, i: nat, qback0: nat, ghost s0: Search)
      returns (found: bool, qback: nat, ghost s: Search, ghost path: seq<int>)
      requires i < qback0 && |g| <= bfsQueue.Length
      requires bfsParent.Length == bfsVisited.Length == bfsQueue.Length && bfsParent != bfsQueue
      requires s0.g == g && s0.follow == follow && Represents(s0, qback0) && s0.Inv(i) && goal !in s0.queue
      modifies bfsParent, bfsVisited, bfsQueue
      ensures s.g == g && s.follow == follow && s.start == s0.start
      ensures found ==> Tracks(s, goal, path) && s.parent == bfsParent[..|g|]
      ensures !found ==>
        && qback0 <= qback && Represents(s, qback) && goal !in s.queue && s.Inv(i + 1) && i < |g|
    {
      s, qback, path := s0, qback0, [];
      var cur := bfsQueue[i];
      assert s.queue[i] == cur;
      QueueFits(s.queue, |g|);
      for e := 0 to |g[cur]|
        invariant s.g == g && s.follow == follow && s.start == s0.start
        invariant qback0 <= qback && Represents(s, qback) && s.Expanding(i, e) && goal !in s.queue
        invariant s.queue[i] == cur
      {
        found, qback, s, path := TryEdge(g, goal, follow, i, cur, e, qback, s);
        if found { return; }
      }
      NextFront(s, i);
      found := false;
    }

    /** Follows the parents back from the goal, then turns the result around. */
    method TracePath(start: int, goal: int, outPath: array<int>, maxLen: int,
                     ghost p: seq<int>, ghost parent: seq<int>) returns (plen: nat)
      requires p != [] && p[0] == start && p[|p| - 1] == goal
      requires |parent| <= bfsParent.Length && bfsParent[..|parent|] == parent && outPath != bfsParent
      requires forall k :: 0 <= k < |p| ==> 0 <= p[k] < |parent|
      requires forall k :: 0 < k < |p| ==> p[k] != start && parent[p[k]] == p[k - 1]
      requires maxLen <= outPath.Length
      modifies outPath
      ensures maxLen <= 0 ==> plen == 0
      ensures maxLen > 0 ==> plen <= maxLen && (plen == |p| - 1 || plen == maxLen < |p| - 1)
      ensures plen < |p| && plen <= outPath.Length && outPath[..plen] == p[|p| - plen..]
      ensures outPath[plen..] == old(outPath[plen..])
    {
      var trace := goal;
      plen := 0;
      while trace != start && plen < maxLen
        invariant plen < |p| && trace == p[|p| - 1 - plen] && (plen <= maxLen || plen == 0)
        invariant forall k :: 0 <= k < plen ==> outPath[k] == p[|p| - 1 - k]
        invariant forall k :: plen <= k < outPath.Length ==> outPath[k] == old(outPath[k])
        decreases |p| - plen
      {
        outPath[plen] := trace;
        plen := plen + 1;
        trace := bfsParent[trace];
      }
      ghost var traced := outPath[..plen];
      TurnAround(outPath, plen);
      assert forall k :: 0 <= k < plen ==> outPath[..plen][k] == traced[plen - 1 - k];
    }

    /** Reverses the first plen entries in place. */
    static method TurnAround(outPath: array<int>, plen: nat)
      requires plen <= outPath.Length
      modifies outPath
      ensures forall k :: 0 <= k < plen ==> outPath[k] == old(outPath[plen - 1 - k])
      ensures outPath[plen..] == old(outPath[plen..])
    {
      for i := 0 to plen / 2
        invariant forall k :: 0 <= k < i || plen - i <= k < plen ==> outPath[k] == old(outPath[plen - 1 - k])
        invariant forall k :: i <= k < plen - i || plen <= k < outPath.Length ==> outPath[k] == old(outPath[k])
      {
        var tmp := outPath[i];
        outPath[i] := outPath[plen - 1 - i];
        outPath[plen - 1 - i] := tmp;
      }
    }
  }
}
