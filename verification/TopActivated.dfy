/** Streaming top-k selection: the most activated nodes, in order. */
module TopActivated {

  datatype Node = Node(alive: bool, activation: real)

  predicate Eligible(nodes: seq<Node>, i: nat, cutoff: real) {
    i < |nodes| && nodes[i].alive && nodes[i].activation > cutoff
  }

  /** i comes before j in the stable descending sort by activation. */
  predicate Before(nodes: seq<Node>, i: nat, j: nat) {
    i < |nodes| && j < |nodes| &&
    (nodes[i].activation > nodes[j].activation || (nodes[i].activation == nodes[j].activation && i < j))
  }

  /** Of the first n nodes: the eligible ones, in order, cut off at max. */
  ghost predicate Ranking(nodes: seq<Node>, ids: seq<nat>, n: nat, max: nat, cutoff: real) {
    && |ids| <= max && Chosen(nodes, ids, n, cutoff) && InOrder(nodes, ids)
    && (forall i: nat :: i < n && Eligible(nodes, i, cutoff) ==> i in ids || (|ids| == max && After(nodes, ids, i)))
  }

  ghost predicate Chosen(nodes: seq<Node>, ids: seq<nat>, n: nat, cutoff: real) {
    forall k :: 0 <= k < |ids| ==> ids[k] < n && Eligible(nodes, ids[k], cutoff)
  }

  ghost predicate InOrder(nodes: seq<Node>, ids: seq<nat>) {
    forall k, l :: 0 <= k < l < |ids| ==> Before(nodes, ids[k], ids[l])
  }

  ghost predicate After(nodes: seq<Node>, ids: seq<nat>, i: nat) {
    forall k :: 0 <= k < |ids| ==> Before(nodes, ids[k], i)
  }

  // ----- There is only one ranking -----

  lemma BeforeIsStrictOrder(nodes: seq<Node>, i: nat, j: nat, k: nat)
    ensures !Before(nodes, i, i)
    ensures Before(nodes, i, j) && Before(nodes, j, k) ==> Before(nodes, i, k)
    ensures i < |nodes| && j < |nodes| && i != j ==> (Before(nodes, i, j) <==> !Before(nodes, j, i))
  {
  }

  /** Where two rankings agree before place k, neither has a better node at k. */
  lemma NotBetter(nodes: seq<Node>, a: seq<nat>, b: seq<nat>, n: nat, max: nat, cutoff: real, k: nat)
    requires Ranking(nodes, a, n, max, cutoff) && Ranking(nodes, b, n, max, cutoff)
    requires k <= |a| && k < |b| && a[..k] == b[..k]
    ensures k < |a| && !Before(nodes, b[k], a[k])
  {
    assert Eligible(nodes, b[k], cutoff);
    forall m: nat | m < k
      ensures a[m] != b[k]
    {
      assert b[m] == b[..k][m] == a[..k][m];
    }
  }

  lemma {:induction false} RankingsAgree(nodes: seq<Node>, a: seq<nat>, b: seq<nat>, n: nat, max: nat, cutoff: real, k: nat)
    requires Ranking(nodes, a, n, max, cutoff) && Ranking(nodes, b, n, max, cutoff)
    requires k <= |b|
    ensures k <= |a| && a[..k] == b[..k]
  {
    if k > 0 {
      RankingsAgree(nodes, a, b, n, max, cutoff, k - 1);
      NotBetter(nodes, a, b, n, max, cutoff, k - 1);
      NotBetter(nodes, b, a, n, max, cutoff, k - 1);
      assert a[..k] == a[..k - 1] + [a[k - 1]] && b[..k] == b[..k - 1] + [b[k - 1]];
    }
  }

  lemma RankingIsUnique(nodes: seq<Node>, a: seq<nat>, b: seq<nat>, n: nat, max: nat, cutoff: real)
    requires Ranking(nodes, a, n, max, cutoff) && Ranking(nodes, b, n, max, cutoff)
    ensures a == b
  {
    RankingsAgree(nodes, a, b, n, max, cutoff, |b|);
    RankingsAgree(nodes, b, a, n, max, cutoff, |a|);
    assert a[..|a|] == a && b[..|b|] == b;
  }

  /** A shorter list is a prefix of a longer one. */
  lemma ShorterIsPrefix(nodes: seq<Node>, ids: seq<nat>, n: nat, max: nat, cutoff: real, less: nat)
    requires Ranking(nodes, ids, n, max, cutoff) && less <= |ids|
    ensures Ranking(nodes, ids[..less], n, less, cutoff)
  {
    forall i: nat | i < n && Eligible(nodes, i, cutoff)
      ensures i in ids[..less] || After(nodes, ids[..less], i)
    {
      if i in ids {
        var m :| 0 <= m < |ids| && ids[m] == i;
        if m < less { assert ids[..less][m] == i; }
      }
    }
  }

  // ----- The streaming insertion -----

  /** s with x at place pos, no longer than max. */
  function Placed<T>(s: seq<T>, x: T, pos: nat, max: nat): (r: seq<T>)
    requires pos <= |s| <= max
    ensures |r| == if |s| < max then |s| + 1 else max
  {
    var longer := s[..pos] + [x] + s[pos..];
    if |longer| <= max then longer else longer[..max]
  }

  /** pos is the first place whose node is less activated than node i. */
  ghost predicate IsPlace(nodes: seq<Node>, ids: seq<nat>, i: nat, pos: nat) {
    && pos <= |ids| && i < |nodes|
    && (forall k :: 0 <= k < pos ==> Before(nodes, ids[k], i))
    && (forall k :: pos <= k < |ids| ==> Before(nodes, i, ids[k]))
  }

  lemma PlacedAt<T>(s: seq<T>, x: T, pos: nat, max: nat, k: nat)
    requires pos <= |s| <= max && k < |Placed(s, x, pos, max)|
    ensures Placed(s, x, pos, max)[k] == if k < pos then s[k] else if k == pos then x else s[k - 1]
  {
  }

  lemma PlacedInOrder(nodes: seq<Node>, ids: seq<nat>, i: nat, pos: nat, max: nat)
    requires InOrder(nodes, ids) && IsPlace(nodes, ids, i, pos) && |ids| <= max
    ensures InOrder(nodes, Placed(ids, i, pos, max))
  {
    var r := Placed(ids, i, pos, max);
    forall k, l | 0 <= k < l < |r|
      ensures Before(nodes, r[k], r[l])
    {
      PlacedAt(ids, i, pos, max, k);
      PlacedAt(ids, i, pos, max, l);
    }
  }

  /** Whoever is not placed comes after everybody who is. */
  lemma PlacedOthers(nodes: seq<Node>, ids: seq<nat>, i: nat, pos: nat, max: nat, j: nat)
    requires InOrder(nodes, ids) && IsPlace(nodes, ids, i, pos) && |ids| <= max
    requires j == i || j in ids || (|ids| == max && After(nodes, ids, j))
    requires j < |nodes|
    ensures var r := Placed(ids, i, pos, max); j in r || (|r| == max && After(nodes, r, j))
  {
    var r := Placed(ids, i, pos, max);
    if j in ids {
      var m :| 0 <= m < |ids| && ids[m] == j;
      var at := if m < pos then m else m + 1;
      if at < |r| {
        PlacedAt(ids, i, pos, max, at);
      } else {
        PlacedInOrderLast(nodes, ids, i, pos, max);
      }
    } else if j == i {
      if pos < |r| { PlacedAt(ids, i, pos, max, pos); }
    } else {
      AfterPlaced(nodes, ids, i, pos, max, j);
    }
  }

  lemma PlacedInOrderLast(nodes: seq<Node>, ids: seq<nat>, i: nat, pos: nat, max: nat)
    requires InOrder(nodes, ids) && IsPlace(nodes, ids, i, pos) && |ids| == max && pos < max
    ensures After(nodes, Placed(ids, i, pos, max), ids[max - 1])
  {
    var r := Placed(ids, i, pos, max);
    forall k | 0 <= k < |r|
      ensures Before(nodes, r[k], ids[max - 1])
    {
      PlacedAt(ids, i, pos, max, k);
    }
  }

  lemma AfterPlaced(nodes: seq<Node>, ids: seq<nat>, i: nat, pos: nat, max: nat, j: nat)
    requires IsPlace(nodes, ids, i, pos) && |ids| == max && After(nodes, ids, j)
    ensures After(nodes, Placed(ids, i, pos, max), j)
  {
    var r := Placed(ids, i, pos, max);
    forall k | 0 <= k < |r|
      ensures Before(nodes, r[k], j)
    {
      PlacedAt(ids, i, pos, max, k);
      if k == pos { BeforeIsStrictOrder(nodes, i, ids[max - 1], j); }
    }
  }

  lemma RankingGrows(nodes: seq<Node>, ids: seq<nat>, i: nat, pos: nat, max: nat, cutoff: real)
    requires Ranking(nodes, ids, i, max, cutoff) && Eligible(nodes, i, cutoff) && IsPlace(nodes, ids, i, pos)
    ensures Ranking(nodes, Placed(ids, i, pos, max), i + 1, max, cutoff)
  {
    var r := Placed(ids, i, pos, max);
    PlacedInOrder(nodes, ids, i, pos, max);
    forall k | 0 <= k < |r|
      ensures r[k] < i + 1 && Eligible(nodes, r[k], cutoff)
    {
      PlacedAt(ids, i, pos, max, k);
    }
    forall j: nat | j < i + 1 && Eligible(nodes, j, cutoff)
      ensures j in r || (|r| == max && After(nodes, r, j))
    {
      PlacedOthers(nodes, ids, i, pos, max, j);
    }
  }

  // ----- The two output arrays -----

  ghost predicate Holds(nodes: seq<Node>, ids: seq<nat>, vals: seq<real>) {
    |vals| == |ids| && forall k :: 0 <= k < |ids| ==> ids[k] < |nodes| && vals[k] == nodes[ids[k]].activation
  }

  /** The first of the places whose value act exceeds. */
  method FindPlace(vals: array<real>, count: nat, act: real) returns (pos: nat)
    requires count <= vals.Length
    ensures pos <= count
    ensures forall k :: 0 <= k < pos ==> vals[k] >= act
    ensures pos < count ==> vals[pos] < act
  {
    pos := 0;
    while pos < count && act <= vals[pos]
      invariant pos <= count
      invariant forall k :: 0 <= k < pos ==> vals[k] >= act
    {
      pos := pos + 1;
    }
  }

  lemma FoundPlace(nodes: seq<Node>, ids: seq<nat>, vals: seq<real>, i: nat, pos: nat)
    requires Holds(nodes, ids, vals) && InOrder(nodes, ids) && i < |nodes| && pos <= |ids|
    requires forall k :: 0 <= k < |ids| ==> ids[k] < i
    requires forall k :: 0 <= k < pos ==> vals[k] >= nodes[i].activation
    requires pos < |ids| ==> vals[pos] < nodes[i].activation
    ensures IsPlace(nodes, ids, i, pos)
  {
    forall k | pos <= k < |ids|
      ensures Before(nodes, i, ids[k])
    {
      if pos < k { assert Before(nodes, ids[pos], ids[k]); }
    }
  }

  /** Makes room at pos and writes there; what falls off the end is lost. */
  method InsertAt<T>(a: array<T>, count: nat, pos: nat, max: nat, x: T)
    requires pos <= count <= max <= a.Length && pos < max
    modifies a
    ensures a[..if count < max then count + 1 else max] == Placed(old(a[..count]), x, pos, max)
  {
    var j := if count < max - 1 then count else max - 1;
    ghost var top := j;
    while j > pos
      invariant pos <= j <= top < max
      invariant forall k :: 0 <= k <= j && k <= count && k < max ==> a[k] == old(a[k])
      invariant forall k :: j < k <= top ==> a[k] == old(a[k - 1])
    {
      a[j] := a[j - 1];
      j := j - 1;
    }
    a[pos] := x;
    ghost var r := Placed(old(a[..count]), x, pos, max);
    forall k: nat | k < |r|
      ensures a[k] == r[k]
    {
      PlacedAt(old(a[..count]), x, pos, max, k);
    }
    assert a[..|r|] == r;
  }

  method GetTopActivated(nodes: seq<Node>, outIds: array<nat>, outVals: array<real>, max: nat, cutoff: real)
    returns (count: nat)
    requires max <= outIds.Length && max <= outVals.Length && outIds != outVals as object
    modifies outIds, outVals
    ensures count <= max && Ranking(nodes, outIds[..count], |nodes|, max, cutoff)
    ensures Holds(nodes, outIds[..count], outVals[..count])
  {
    count := 0;
    var i: nat := 0;
    while i < |nodes|
      invariant i <= |nodes| && count <= max
      invariant Ranking(nodes, outIds[..count], i, max, cutoff)
      invariant Holds(nodes, outIds[..count], outVals[..count])
    {
      if nodes[i].alive && nodes[i].activation > cutoff {
        count := Consider(nodes, outIds, outVals, max, cutoff, i, count);
      }
      i := i + 1;
    }
  }

  lemma HoldsPlaced(nodes: seq<Node>, ids: seq<nat>, vals: seq<real>, i: nat, pos: nat, max: nat)
    requires Holds(nodes, ids, vals) && i < |nodes| && pos <= |ids| <= max
    ensures Holds(nodes, Placed(ids, i, pos, max), Placed(vals, nodes[i].activation, pos, max))
  {
    forall k | 0 <= k < |Placed(ids, i, pos, max)|
      ensures Placed(ids, i, pos, max)[k] < |nodes|
      ensures Placed(vals, nodes[i].activation, pos, max)[k] == nodes[Placed(ids, i, pos, max)[k]].activation
    {
      PlacedAt(ids, i, pos, max, k);
      PlacedAt(vals, nodes[i].activation, pos, max, k);
    }
  }

  method Consider(nodes: seq<Node>, outIds: array<nat>, outVals: array<real>, max: nat, cutoff: real, i: nat,
                  count0: nat) returns (count: nat)
    requires max <= outIds.Length && max <= outVals.Length && outIds != outVals as object
    requires count0 <= max && Eligible(nodes, i, cutoff)
    requires Ranking(nodes, outIds[..count0], i, max, cutoff)
    requires Holds(nodes, outIds[..count0], outVals[..count0])
    modifies outIds, outVals
    ensures count0 <= count <= max && Ranking(nodes, outIds[..count], i + 1, max, cutoff)
    ensures Holds(nodes, outIds[..count], outVals[..count])
  {
    count := count0;
    var act := nodes[i].activation;
    var pos := FindPlace(outVals, count, act);
    ghost var ids, vals := outIds[..count], outVals[..count];
    FoundPlace(nodes, ids, vals, i, pos);
    RankingGrows(nodes, ids, i, pos, max, cutoff);
    HoldsPlaced(nodes, ids, vals, i, pos, max);
    if pos < max {
      InsertAt(outIds, count, pos, max, i);
      InsertAt(outVals, count, pos, max, act);
      if count < max { count := count + 1; }
    } else {
      assert Placed(ids, i, pos, max) == ids;
    }
  }
}
