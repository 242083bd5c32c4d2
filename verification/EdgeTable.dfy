/** The bounded, sorted, self-reinforcing edge table of a node: `add_edge`,
    `prune`, the in-place sort behind them, and the weight change of STDP. */
module EdgeTable {
  import opened Graph

  // ----- Stable descending sort -----

  /** Puts e after every entry that weighs at least as much. */
  function Insert(s: seq<Edge>, e: Edge): (t: seq<Edge>)
    ensures |t| == |s| + 1
  {
    if s == [] || s[|s| - 1].weight >= e.weight then s + [e]
    else Insert(s[..|s| - 1], e) + [s[|s| - 1]]
  }

  function Sort(s: seq<Edge>): (t: seq<Edge>)
    ensures |t| == |s|
  {
    if s == [] then [] else Insert(Sort(s[..|s| - 1]), s[|s| - 1])
  }

  ghost predicate Sorted(s: seq<Edge>) {
    forall i, j :: 0 <= i < j < |s| ==> s[i].weight >= s[j].weight
  }

  /** The entries of weight w, in order. */
  function OfWeight(s: seq<Edge>, w: real): seq<Edge> {
    if s == [] then []
    else OfWeight(s[..|s| - 1], w) + if s[|s| - 1].weight == w then [s[|s| - 1]] else []
  }

  lemma {:induction false} InsertSorted(s: seq<Edge>, e: Edge)
    requires Sorted(s)
    ensures Sorted(Insert(s, e))
    ensures forall x :: x in Insert(s, e) <==> x in s || x == e
  {
    if s == [] || s[|s| - 1].weight >= e.weight {
    } else {
      var s', l := s[..|s| - 1], s[|s| - 1];
      InsertSorted(s', e);
      var t := Insert(s', e);
      assert s == s' + [l] && Insert(s, e) == t + [l];
      forall i | 0 <= i < |t|
        ensures t[i].weight >= l.weight
      {
        assert t[i] in t;
      }
    }
  }

  lemma {:induction false} SortSorted(s: seq<Edge>)
    ensures Sorted(Sort(s))
    ensures forall x :: x in Sort(s) <==> x in s
  {
    if s != [] {
      SortSorted(s[..|s| - 1]);
      InsertSorted(Sort(s[..|s| - 1]), s[|s| - 1]);
      assert s == s[..|s| - 1] + [s[|s| - 1]];
    }
  }

  lemma OfWeightSnoc(s: seq<Edge>, e: Edge, w: real)
    ensures OfWeight(s + [e], w) == OfWeight(s, w) + if e.weight == w then [e] else []
  {
    assert (s + [e])[..|s|] == s;
  }

  /** Entries of different weight can be appended in either order. */
  lemma OfWeightAround(before: seq<Edge>, inserted: seq<Edge>, l: Edge, e: Edge, w: real)
    requires l.weight != e.weight && OfWeight(inserted, w) == before + if e.weight == w then [e] else []
    ensures OfWeight(inserted + [l], w) ==
      (before + if l.weight == w then [l] else []) + if e.weight == w then [e] else []
  {
    OfWeightSnoc(inserted, l, w);
    assert before + [] == before;
  }

  lemma {:induction false} InsertStable(s: seq<Edge>, e: Edge, w: real)
    requires Sorted(s)
    ensures OfWeight(Insert(s, e), w) == OfWeight(s, w) + if e.weight == w then [e] else []
  {
    if s == [] || s[|s| - 1].weight >= e.weight {
      OfWeightSnoc(s, e, w);
    } else {
      var s', l := s[..|s| - 1], s[|s| - 1];
      InsertStable(s', e, w);
      OfWeightAround(OfWeight(s', w), Insert(s', e), l, e, w);
    }
  }

  /** The sort keeps, for every weight, the entries of that weight in their
      order: it is stable, and it loses and invents nothing. */
  lemma {:induction false} SortStable(s: seq<Edge>, w: real)
    ensures OfWeight(Sort(s), w) == OfWeight(s, w)
  {
    if s != [] {
      SortStable(s[..|s| - 1], w);
      SortSorted(s[..|s| - 1]);
      InsertStable(Sort(s[..|s| - 1]), s[|s| - 1], w);
    }
  }

  lemma {:induction false} SortOfSorted(s: seq<Edge>)
    requires Sorted(s)
    ensures Sort(s) == s
  {
    if s != [] {
      SortOfSorted(s[..|s| - 1]);
      assert s == s[..|s| - 1] + [s[|s| - 1]];
    }
  }

  // ----- What one call does to the table -----

  predicate SameKey(e: Edge, target: int, etype: EdgeType) {
    e.target == target && e.etype == etype
  }

  /** The position of the entry for (target, etype), or the length of the table. */
  function Find(s: seq<Edge>, target: int, etype: EdgeType): (i: nat)
    ensures i <= |s|
    ensures i < |s| ==> SameKey(s[i], target, etype)
    ensures forall k :: 0 <= k < i ==> !SameKey(s[k], target, etype)
  {
    if s == [] || SameKey(s[0], target, etype) then 0 else 1 + Find(s[1..], target, etype)
  }

  function Min(x: real, y: real): real {
    if x <= y then x else y
  }

  function Reinforced(e: Edge, strength: real, prov: Provenance): Edge {
    e.(weight := Min(e.weight + strength * 0.5, 5.0), coOccur := e.coOccur + 1,
       provenance := if prov != Unknown then prov else e.provenance)
  }

  /** The table before the final sort of `add_edge`: the entry for the key is
      reinforced, or the new entry takes a free slot, or the last slot if stronger. */
  function Placed(s: seq<Edge>, cap: nat, e: Edge): seq<Edge>
    requires 0 < cap
  {
    var i := Find(s, e.target, e.etype);
    if i < |s| then s[i := Reinforced(s[i], e.weight, e.provenance)]
    else if |s| < cap then s + [e]
    else if e.weight > s[|s| - 1].weight then s[|s| - 1 := e]
    else s
  }

  /** The table after one `add_edge`, for a table of at most cap entries. */
  function Added(s: seq<Edge>, cap: nat, e: Edge): seq<Edge>
    requires 0 < cap
  {
    Sort(Placed(s, cap, e))
  }

  lemma FindUnique(s: seq<Edge>, target: int, etype: EdgeType, i: nat)
    requires i <= |s| && (i < |s| ==> SameKey(s[i], target, etype))
    requires forall k :: 0 <= k < i ==> !SameKey(s[k], target, etype)
    ensures Find(s, target, etype) == i
  {
  }

  const EDGE_PRUNE := 0.05

  function Pruned(s: seq<Edge>): (t: seq<Edge>)
    ensures |t| <= |s|
  {
    if s == [] then []
    else Pruned(s[..|s| - 1]) + if s[|s| - 1].weight >= EDGE_PRUNE then [s[|s| - 1]] else []
  }

  // ----- What runs of calls keep -----

  ghost predicate UniqueKeys(s: seq<Edge>) {
    forall i, j :: 0 <= i < j < |s| ==> !SameKey(s[j], s[i].target, s[i].etype)
  }

  ghost predicate Bounded(s: seq<Edge>, top: real) {
    forall i :: 0 <= i < |s| ==> s[i].weight <= top
  }

  lemma {:induction false} InsertUnique(s: seq<Edge>, e: Edge)
    requires UniqueKeys(s) && forall k :: 0 <= k < |s| ==> !SameKey(s[k], e.target, e.etype)
    ensures UniqueKeys(Insert(s, e))
    ensures forall x :: x in Insert(s, e) <==> x in s || x == e
  {
    if s == [] || s[|s| - 1].weight >= e.weight {
    } else {
      var s', l := s[..|s| - 1], s[|s| - 1];
      InsertUnique(s', e);
      assert s == s' + [l] && Insert(s, e) == Insert(s', e) + [l];
      forall i | 0 <= i < |s|
        ensures !SameKey(l, Insert(s', e)[i].target, Insert(s', e)[i].etype)
      {
        assert Insert(s', e)[i] in Insert(s', e);
      }
    }
  }

  lemma {:induction false} SortUnique(s: seq<Edge>)
    requires UniqueKeys(s)
    ensures UniqueKeys(Sort(s))
  {
    if s != [] {
      var s', l := s[..|s| - 1], s[|s| - 1];
      SortUnique(s');
      SortSorted(s');
      forall k | 0 <= k < |Sort(s')|
        ensures !SameKey(Sort(s')[k], l.target, l.etype)
      {
        assert Sort(s')[k] in s';
      }
      InsertUnique(Sort(s'), l);
    }
  }

  lemma PlacedKeeps(s: seq<Edge>, cap: nat, e: Edge, top: real)
    requires 0 < cap && |s| <= cap && UniqueKeys(s) && Bounded(s, top) && 5.0 <= top && e.weight <= top
    ensures var t := Placed(s, cap, e); |t| <= cap && UniqueKeys(t) && Bounded(t, top)
  {
  }

  /** Whatever the order of the table was, one `add_edge` leaves it sorted, and
      keys stay unique, the count within the capacity and weights within the
      larger of 5 and the strongest insertion. */
  lemma AddedKeeps(s: seq<Edge>, cap: nat, e: Edge, top: real)
    requires 0 < cap && |s| <= cap && UniqueKeys(s) && Bounded(s, top) && 5.0 <= top && e.weight <= top
    ensures var t := Added(s, cap, e);
      |t| <= cap && Sorted(t) && UniqueKeys(t) && Bounded(t, top)
  {
    PlacedKeeps(s, cap, e, top);
    var u := Placed(s, cap, e);
    SortSorted(u);
    SortUnique(u);
    forall k | 0 <= k < |u|
      ensures Sort(u)[k].weight <= top
    {
      assert Sort(u)[k] in u;
    }
  }

  /** The positions of the entries that are strong enough. */
  function StrongPositions(s: seq<Edge>): seq<nat> {
    if s == [] then []
    else StrongPositions(s[..|s| - 1]) + if s[|s| - 1].weight >= EDGE_PRUNE then [|s| - 1] else []
  }

  ghost predicate Increasing(p: seq<nat>) {
    forall j, k :: 0 <= j < k < |p| ==> p[j] < p[k]
  }

  /** Every kept entry comes from its own position in s, in the order of the
      positions, and these are all the positions with a strong entry. */
  ghost predicate TakenAt(s: seq<Edge>, t: seq<Edge>, p: seq<nat>) {
    && |t| == |p| && Increasing(p)
    && (forall k :: 0 <= k < |p| ==> p[k] < |s| && t[k] == s[p[k]])
    && (forall i: nat :: i in p <==> i < |s| && s[i].weight >= EDGE_PRUNE)
  }

  lemma TakeStrong(s: seq<Edge>, t: seq<Edge>, p: seq<nat>, e: Edge)
    requires TakenAt(s, t, p) && e.weight >= EDGE_PRUNE
    ensures TakenAt(s + [e], t + [e], p + [|s|])
  {
    var q := p + [|s|];
    forall j, k | 0 <= j < k < |q|
      ensures q[j] < q[k]
    {
      assert p[j] < |s|;
    }
    forall i: nat
      ensures i in q <==> i < |s + [e]| && (s + [e])[i].weight >= EDGE_PRUNE
    {
      assert i in q <==> i in p || i == |s|;
    }
  }

  lemma SkipWeak(s: seq<Edge>, t: seq<Edge>, p: seq<nat>, e: Edge)
    requires TakenAt(s, t, p) && e.weight < EDGE_PRUNE
    ensures TakenAt(s + [e], t, p)
  {
  }

  /** Pruning keeps the entries that are strong enough, in their order, whatever the table. */
  lemma {:induction false} PrunedKeepsOrder(s: seq<Edge>)
    ensures TakenAt(s, Pruned(s), StrongPositions(s))
  {
    if s != [] {
      var s', e := s[..|s| - 1], s[|s| - 1];
      PrunedKeepsOrder(s');
      assert s == s' + [e];
      if e.weight >= EDGE_PRUNE {
        TakeStrong(s', Pruned(s'), StrongPositions(s'), e);
      } else {
        SkipWeak(s', Pruned(s'), StrongPositions(s'), e);
        assert Pruned(s') + [] == Pruned(s') && StrongPositions(s') + [] == StrongPositions(s');
      }
    }
  }

  lemma TakenKeeps(s: seq<Edge>, t: seq<Edge>, p: seq<nat>, top: real)
    requires TakenAt(s, t, p) && UniqueKeys(s) && Bounded(s, top)
    ensures UniqueKeys(t) && Bounded(t, top) && (Sorted(s) ==> Sorted(t))
  {
  }

  lemma TakenMembers(s: seq<Edge>, t: seq<Edge>, p: seq<nat>, x: Edge)
    requires TakenAt(s, t, p)
    ensures x in t <==> x in s && x.weight >= EDGE_PRUNE
  {
    forall k | 0 <= k < |p|
      ensures s[p[k]].weight >= EDGE_PRUNE
    {
      assert p[k] in p;
    }
  }

  /** Pruning keeps exactly the entries that are strong enough. */
  lemma PrunedKeeps(s: seq<Edge>, top: real)
    requires UniqueKeys(s) && Bounded(s, top)
    ensures UniqueKeys(Pruned(s)) && Bounded(Pruned(s), top)
    ensures Sorted(s) ==> Sorted(Pruned(s))
    ensures forall x :: x in Pruned(s) <==> x in s && x.weight >= EDGE_PRUNE
  {
    PrunedKeepsOrder(s);
    TakenKeeps(s, Pruned(s), StrongPositions(s), top);
    forall x
      ensures x in Pruned(s) <==> x in s && x.weight >= EDGE_PRUNE
    {
      TakenMembers(s, Pruned(s), StrongPositions(s), x);
    }
  }

  // ----- What an insertion means for its own entry and for the others -----

  /** The entry of an edge that is inserted again: half the strength more, but no
      more than 5, one sighting more, and the provenance if that is known. */
  predicate IsReinforced(was: Edge, e: Edge, now: Edge) {
    && now.target == was.target && now.etype == was.etype
    && now.coOccur == was.coOccur + 1
    && (was.weight + e.weight / 2.0 <= 5.0 ==> now.weight == was.weight + e.weight / 2.0)
    && (was.weight + e.weight / 2.0 >= 5.0 ==> now.weight == 5.0)
    && now.provenance == if e.provenance == Unknown then was.provenance else e.provenance
  }

  /** Inserting an edge again reinforces its entry and leaves the others alone. */
  lemma RepeatReinforces(s: seq<Edge>, cap: nat, e: Edge, i: nat) returns (now: Edge)
    requires 0 < cap && UniqueKeys(s) && i < |s| && SameKey(s[i], e.target, e.etype)
    ensures IsReinforced(s[i], e, now)
    ensures forall x :: x in Added(s, cap, e) <==> x == now || (exists k :: 0 <= k < |s| && k != i && s[k] == x)
  {
    FindUnique(s, e.target, e.etype, i);
    var t := Placed(s, cap, e);
    now := t[i];
    SortSorted(t);
    forall x
      ensures x in t <==> x == now || (exists k :: 0 <= k < |s| && k != i && s[k] == x)
    {
      if x in t {
        var k :| 0 <= k < |t| && t[k] == x;
        assert k != i ==> s[k] == x;
      }
      if k :| 0 <= k < |s| && k != i && s[k] == x { assert t[k] == x; }
    }
  }

  /** A new edge takes a free slot; in a full table it replaces the last entry, the
      weakest, if it is stronger, and else is dropped. */
  lemma NewIsPlaced(s: seq<Edge>, cap: nat, e: Edge)
    requires 0 < cap && |s| <= cap && forall k :: 0 <= k < |s| ==> !SameKey(s[k], e.target, e.etype)
    ensures var t := Added(s, cap, e);
      && (|s| < cap ==> forall x :: x in t <==> x in s || x == e)
      && (|s| == cap && e.weight <= s[cap - 1].weight ==> forall x :: x in t <==> x in s)
      && (|s| == cap && e.weight > s[cap - 1].weight ==> forall x :: x in t <==> x in s[..cap - 1] || x == e)
  {
    FindUnique(s, e.target, e.etype, |s|);
    var t := Placed(s, cap, e);
    SortSorted(t);
    if |s| == cap && e.weight > s[cap - 1].weight { assert t == s[..cap - 1] + [e]; }
  }

  function Times(e: Edge, n: nat): (ins: seq<Edge>)
    ensures |ins| == n && forall i :: 0 <= i < n ==> ins[i] == e
  {
    seq(n, _ => e)
  }

  lemma AddedAlone(x: Edge, cap: nat, e: Edge)
    requires 0 < cap && SameKey(x, e.target, e.etype)
    ensures Added([x], cap, e) == [Reinforced(x, e.weight, e.provenance)]
  {
    FindUnique([x], e.target, e.etype, 0);
    assert [x][0 := Reinforced(x, e.weight, e.provenance)] == [Reinforced(x, e.weight, e.provenance)];
    SortOfSorted([Reinforced(x, e.weight, e.provenance)]);
  }

  lemma AddedLast(e: Edge, n: nat, cap: nat)
    requires 0 < cap
    ensures AddAll(Times(e, n + 1), cap) == Added(AddAll(Times(e, n), cap), cap, e)
  {
    assert Times(e, n + 1)[..n] == Times(e, n);
  }

  /** The weight after n more sightings. */
  function WeightAfter(w: real, n: nat): real {
    if n == 0 then w else Min(w + n as real * (w / 2.0), 5.0)
  }

  lemma OneSighting(w: real, n: nat)
    requires 0.0 <= w && 0 < n
    ensures Min(WeightAfter(w, n - 1) + w * 0.5, 5.0) == WeightAfter(w, n)
  {
    assert (n - 1) as real * (w / 2.0) + w / 2.0 == n as real * (w / 2.0);
  }

  /** The entry of an edge that has been seen n more times: the strength and n
      halves of it, cut off at 5. */
  function Seen(e: Edge, n: nat): Edge {
    e.(weight := WeightAfter(e.weight, n), coOccur := e.coOccur + n)
  }

  lemma SeenOnce(s: seq<Edge>, cap: nat, e: Edge)
    requires 0 < cap && s == []
    ensures Added(s, cap, e) == [e]
  {
    FindUnique(s, e.target, e.etype, 0);
    assert s + [e] == [e];
    SortOfSorted([e]);
  }

  lemma NoneAdded(e: Edge, cap: nat)
    requires 0 < cap
    ensures AddAll(Times(e, 0), cap) == []
  {
  }

  lemma SeenMore(e: Edge, n: nat)
    requires 0.0 <= e.weight && 0 < n
    ensures Reinforced(Seen(e, n - 1), e.weight, e.provenance) == Seen(e, n)
  {
    OneSighting(e.weight, n);
  }

  /** An edge inserted n + 1 times into a fresh node has that one entry. */
  lemma {:induction false} SeenAgain(e: Edge, n: nat, cap: nat)
    requires 0 < cap && 0.0 <= e.weight
    ensures AddAll(Times(e, n + 1), cap) == [Seen(e, n)]
  {
    AddedLast(e, n, cap);
    if n == 0 {
      NoneAdded(e, cap);
      SeenOnce(AddAll(Times(e, 0), cap), cap, e);
    } else {
      SeenAgain(e, n - 1, cap);
      AddedAlone(Seen(e, n - 1), cap, e);
      SeenMore(e, n);
    }
  }

  // ----- Runs without repeated keys: the heaviest entries win -----

  /** The table after adding each entry of `ins` in turn to a fresh node. */
  function AddAll(ins: seq<Edge>, cap: nat): seq<Edge>
    requires 0 < cap
  {
    if ins == [] then [] else Added(AddAll(ins[..|ins| - 1], cap), cap, ins[|ins| - 1])
  }

  function Take(s: seq<Edge>, n: nat): seq<Edge> {
    if |s| <= n then s else s[..n]
  }

  lemma BeforeLast(s: seq<Edge>, l: Edge, k: nat)
    requires k <= |s|
    ensures (s + [l])[..k] == s[..k] && (s + [l])[k..] == s[k..] + [l]
  {
  }

  lemma InsertBefore(s: seq<Edge>, l: Edge, e: Edge, k: nat)
    requires k <= |s| && l.weight < e.weight && Insert(s, e) == s[..k] + [e] + s[k..]
    ensures Insert(s + [l], e) == (s + [l])[..k] + [e] + (s + [l])[k..]
  {
    BeforeLast(s, l, k);
    assert (s + [l])[..|s|] == s;
    assert (s[..k] + [e] + s[k..]) + [l] == s[..k] + [e] + (s[k..] + [l]);
  }

  lemma {:induction false} InsertAt(s: seq<Edge>, e: Edge) returns (k: nat)
    requires Sorted(s)
    ensures k <= |s| && Insert(s, e) == s[..k] + [e] + s[k..]
    ensures forall i :: 0 <= i < k ==> s[i].weight >= e.weight
    ensures forall i :: k <= i < |s| ==> s[i].weight < e.weight
  {
    if s == [] || s[|s| - 1].weight >= e.weight {
      k := |s|;
    } else {
      var s', l := s[..|s| - 1], s[|s| - 1];
      k := InsertAt(s', e);
      assert s == s' + [l];
      InsertBefore(s', l, e, k);
    }
  }

  lemma PlaceUnique(s: seq<Edge>, n: nat, t: seq<Edge>, e: Edge, k: nat, l: nat)
    requires n < |s| && t == s[..n] && k <= |s| && l <= n && s[n].weight < e.weight
    requires forall i :: 0 <= i < k ==> s[i].weight >= e.weight
    requires forall i :: k <= i < |s| ==> s[i].weight < e.weight
    requires forall i :: 0 <= i < l ==> t[i].weight >= e.weight
    requires forall i :: l <= i < n ==> t[i].weight < e.weight
    ensures k == l
  {
    var p, q := s[n], if k < n then t[k] else s[n];
    assert k <= n;
    assert k < n ==> t[k] == s[k];
    assert l < n ==> t[l] == s[l];
  }

  lemma InsertUnder(s: seq<Edge>, e: Edge, cap: nat)
    requires 0 < cap < |s| + 1 && Sorted(s)
    ensures e.weight > s[cap - 1].weight ==> Take(Insert(s, e), cap) == Insert(s[..cap - 1], e)
    ensures e.weight <= s[cap - 1].weight ==> Take(Insert(s, e), cap) == s[..cap]
  {
    var k := InsertAt(s, e);
    if e.weight > s[cap - 1].weight {
      var l := InsertAt(s[..cap - 1], e);
      PlaceUnique(s, cap - 1, s[..cap - 1], e, k, l);
      assert s[..cap - 1][..k] == s[..k];
      assert (s[..k] + [e] + s[k..])[..cap] == s[..k] + [e] + s[k..cap - 1];
    } else {
      assert k >= cap;
    }
  }

  lemma StepFits(s: seq<Edge>, e: Edge, cap: nat)
    requires |s| < cap && Sorted(s) && Find(s, e.target, e.etype) == |s|
    ensures Added(s, cap, e) == Insert(s, e)
  {
    SortOfLast(s, e);
  }

  lemma SortOfLast(s: seq<Edge>, e: Edge)
    requires Sorted(s)
    ensures Sort(s + [e]) == Insert(s, e)
  {
    SortOfSorted(s);
    assert (s + [e])[..|s|] == s;
  }

  lemma PlacedFull(t: seq<Edge>, e: Edge)
    requires t != [] && Find(t, e.target, e.etype) == |t|
    ensures Placed(t, |t|, e) == if e.weight > t[|t| - 1].weight then t[..|t| - 1] + [e] else t
  {
  }

  lemma StepFull(s: seq<Edge>, e: Edge, cap: nat)
    requires 0 < cap <= |s| && Sorted(s) && Find(s[..cap], e.target, e.etype) == cap
    ensures Added(s[..cap], cap, e) == Take(Insert(s, e), cap)
  {
    InsertUnder(s, e, cap);
    PlacedFull(s[..cap], e);
    var t := s[..cap - 1];
    assert s[..cap][..cap - 1] == t;
    if e.weight > s[cap - 1].weight {
      SortOfLast(t, e);
    } else {
      SortOfSorted(s[..cap]);
    }
  }

  lemma StepWins(s: seq<Edge>, e: Edge, cap: nat)
    requires 0 < cap && Sorted(s) && forall k :: 0 <= k < |s| ==> !SameKey(s[k], e.target, e.etype)
    ensures Added(Take(s, cap), cap, e) == Take(Insert(s, e), cap)
  {
    var t := Take(s, cap);
    FindUnique(t, e.target, e.etype, |t|);
    if |s| < cap {
      StepFits(s, e, cap);
    } else {
      assert t == s[..cap];
      StepFull(s, e, cap);
    }
  }

  /** On a fresh node, insertions with pairwise different keys leave the first
      cap entries of the stable descending sort of everything inserted. */
  lemma {:induction false} HeaviestWin(ins: seq<Edge>, cap: nat)
    requires 0 < cap && UniqueKeys(ins)
    ensures AddAll(ins, cap) == Take(Sort(ins), cap)
  {
    if ins != [] {
      var ins', e := ins[..|ins| - 1], ins[|ins| - 1];
      HeaviestWin(ins', cap);
      SortSorted(ins');
      forall k | 0 <= k < |Sort(ins')|
        ensures !SameKey(Sort(ins')[k], e.target, e.etype)
      {
        assert Sort(ins')[k] in ins';
      }
      StepWins(Sort(ins'), e, cap);
    }
  }

  // ----- STDP -----

  /** The clamped weight change of `apply_stdp` on the first edge to the target. */
  function Clamped(w: real): real {
    if w < 0.0 then 0.0 else Min(w, 5.0)
  }

  function FindTarget(s: seq<Edge>, target: int): (i: nat)
    ensures i <= |s|
    ensures i < |s| ==> s[i].target == target
    ensures forall k :: 0 <= k < i ==> s[k].target != target
  {
    if s == [] || s[0].target == target then 0 else 1 + FindTarget(s[1..], target)
  }

  function Potentiated(s: seq<Edge>, target: int, dw: real): seq<Edge> {
    var i := FindTarget(s, target);
    if i == |s| then s else s[i := s[i].(weight := Clamped(s[i].weight + dw))]
  }

  /** STDP does not sort again. It leaves a sorted table sorted exactly when the
      new weight still fits between its neighbours. */
  lemma StdpSortedExactly(s: seq<Edge>, target: int, dw: real)
    requires Sorted(s)
    ensures Sorted(Potentiated(s, target, dw)) <==>
      var i := FindTarget(s, target);
      i == |s| ||
      (var w := Clamped(s[i].weight + dw);
       (i > 0 ==> s[i - 1].weight >= w) && (i + 1 < |s| ==> w >= s[i + 1].weight))
  {
    var i, t := FindTarget(s, target), Potentiated(s, target, dw);
    if i < |s| {
      var w := Clamped(s[i].weight + dw);
      assert t[i].weight == w;
      assert i > 0 ==> t[i - 1] == s[i - 1];
      assert i + 1 < |s| ==> t[i + 1] == s[i + 1];
      if (i > 0 ==> s[i - 1].weight >= w) && (i + 1 < |s| ==> w >= s[i + 1].weight) {
        forall j, k | 0 <= j < k < |t|
          ensures t[j].weight >= t[k].weight
        {
          if k == i {
            assert j < i - 1 ==> s[j].weight >= s[i - 1].weight;
          } else if j == i {
            assert i + 1 < k ==> s[i + 1].weight >= s[k].weight;
          }
        }
      }
    }
  }

  /** The first edge to the target takes the change, within 0 and 5; nothing else changes. */
  lemma StdpMeans(s: seq<Edge>, target: int, dw: real, i: nat)
    requires i < |s| && s[i].target == target && forall k :: 0 <= k < i ==> s[k].target != target
    ensures var t := Potentiated(s, target, dw);
      && |t| == |s| && (forall k :: 0 <= k < |s| && k != i ==> t[k] == s[k]) && t[i] == s[i].(weight := t[i].weight)
      && 0.0 <= t[i].weight <= 5.0
      && (0.0 <= s[i].weight + dw <= 5.0 ==> t[i].weight == s[i].weight + dw)
      && (s[i].weight + dw <= 0.0 ==> t[i].weight == 0.0) && (s[i].weight + dw >= 5.0 ==> t[i].weight == 5.0)
  {
    assert FindTarget(s, target) == i;
  }

  /** A table that `apply_stdp` leaves out of order: two edges, the weaker of which is strengthened. */
  lemma StdpBreaksOrder()
    ensures var strong, weak := Edge(1, 1.0, 1, Temporal, Unknown), Edge(2, 0.9, 1, Temporal, Unknown);
      Sorted([strong, weak]) && UniqueKeys([strong, weak]) &&
      Potentiated([strong, weak], 2, 0.2) == [strong, weak.(weight := 1.1)] &&
      !Sorted(Potentiated([strong, weak], 2, 0.2))
  {
    var strong, weak := Edge(1, 1.0, 1, Temporal, Unknown), Edge(2, 0.9, 1, Temporal, Unknown);
    var s := [strong, weak];
    assert s[1..][0] == weak;
    assert FindTarget(s, 2) == 1;
    var t := Potentiated(s, 2, 0.2);
    assert t == [strong, weak.(weight := 1.1)];
    assert t[0].weight < t[1].weight;
  }

  lemma StdpKeeps(s: seq<Edge>, target: int, dw: real, top: real)
    requires UniqueKeys(s) && Bounded(s, top) && 5.0 <= top
    ensures UniqueKeys(Potentiated(s, target, dw)) && Bounded(Potentiated(s, target, dw), top)
    ensures |Potentiated(s, target, dw)| == |s|
  {
  }

  // ----- Any run of calls -----

  datatype Call = Add(e: Edge) | Prune | Stdp(target: int, dw: real)

  function After(calls: seq<Call>, cap: nat): seq<Edge>
    requires 0 < cap
  {
    if calls == [] then []
    else
      var s := After(calls[..|calls| - 1], cap);
      match calls[|calls| - 1]
      case Add(e) => Added(s, cap, e)
      case Prune => Pruned(s)
      case Stdp(target, dw) => Potentiated(s, target, dw)
  }

  /** No STDP call since the last `add_edge`. */
  predicate Settled(calls: seq<Call>) {
    calls == [] || calls[|calls| - 1].Add? || (calls[|calls| - 1].Prune? && Settled(calls[..|calls| - 1]))
  }

  /** After any calls on a fresh node the keys are unique, the count is within
      the capacity, no weight exceeds the larger of 5 and the strongest
      insertion, and the table is sorted unless STDP came after the last add. */
  lemma {:induction false} RunKeeps(calls: seq<Call>, cap: nat, top: real)
    requires 0 < cap && 5.0 <= top
    requires forall i :: 0 <= i < |calls| && calls[i].Add? ==> calls[i].e.weight <= top
    ensures var s := After(calls, cap);
      |s| <= cap && UniqueKeys(s) && Bounded(s, top) && (Settled(calls) ==> Sorted(s))
  {
    if calls != [] {
      var before, last := calls[..|calls| - 1], calls[|calls| - 1];
      RunKeeps(before, cap, top);
      var s := After(before, cap);
      match last
      case Add(e) => AddedKeeps(s, cap, e, top);
      case Prune => PrunedKeeps(s, top);
      case Stdp(target, dw) => StdpKeeps(s, target, dw, top);
    }
  }

  // ----- The table in place -----

  /** Where e goes among the first i entries. */
  lemma PlaceAmong(s: seq<Edge>, i: nat, e: Edge) returns (k: nat)
    requires i <= |s| && Sorted(s[..i])
    ensures k <= i && Insert(s[..i], e) == s[..k] + [e] + s[k..i]
    ensures forall p :: k <= p < i ==> s[p].weight < e.weight
    ensures forall p :: 0 <= p < k ==> s[p].weight >= e.weight
  {
    var t := s[..i];
    k := InsertAt(t, e);
    assert t[..k] == s[..k] && t[k..] == s[k..i];
    assert forall p :: 0 <= p < i ==> t[p] == s[p];
  }

  /** t is s with the entries from k to i moved up by one and e at k. */
  lemma Shifted(s: seq<Edge>, t: seq<Edge>, i: nat, k: nat, e: Edge)
    requires k <= i < |s| == |t| && t[k] == e
    requires forall p :: 0 <= p < k || i < p < |s| ==> t[p] == s[p]
    requires forall p :: k < p <= i ==> t[p] == s[p - 1]
    ensures t[..i + 1] == s[..k] + [e] + s[k..i] && t[i + 1..] == s[i + 1..]
  {
  }

  /** One edge array of a node with its count. */
  class Table {
    const edges: array<Edge>
    var edgeCount: nat

    ghost predicate Valid()
      reads this, edges
    {
      0 < edges.Length && edgeCount <= edges.Length
    }

    ghost function Entries(): seq<Edge>
      requires Valid()
      reads this, edges
    {
      edges[..edgeCount]
    }

    constructor (maxFanout: nat, blank: Edge)
      requires 0 < maxFanout
      ensures Valid() && fresh(edges) && edges.Length == maxFanout && Entries() == []
    {
      edges := new Edge[maxFanout](_ => blank);
      edgeCount := 0;
    }

    /** `_sort_edges`: insertion sort of the first ec entries. */
    method SortEdges(ec: nat)
      requires ec <= edges.Length
      modifies edges
      ensures edges[..ec] == Sort(old(edges[..ec])) && edges[ec..] == old(edges[ec..])
    {
      ghost var s := edges[..];
      if ec == 0 { return; }
      assert edges[..1] == Sort(s[..1]) by {
        assert s[..1][..0] == [];
      }
      for i := 1 to ec
        invariant edges[..i] == Sort(s[..i]) && edges[i..] == s[i..]
      {
        SortSorted(s[..i]);
        InsertKey(i);
        assert s[..i + 1][..i] == s[..i] && edges[i + 1..] == s[i + 1..];
      }
      assert edges[ec..] == s[ec..];
    }

    /** The inner loop: moves edges[i] to its place among the sorted entries before it. */
    method InsertKey(i: nat)
      requires i < edges.Length && Sorted(edges[..i])
      modifies edges
      ensures edges[..i + 1] == Insert(old(edges[..i]), old(edges[i])) && edges[i + 1..] == old(edges[i + 1..])
    {
      ghost var s := edges[..];
      var key := edges[i];
      ghost var k := PlaceAmong(s, i, key);
      var j: int := i - 1;
      while j >= 0 && edges[j].weight < key.weight
        invariant k - 1 <= j < i
        invariant forall p :: 0 <= p <= j || i < p < edges.Length ==> edges[p] == s[p]
        invariant forall p :: j + 1 < p <= i ==> edges[p] == s[p - 1]
        decreases j
      {
        edges[j + 1] := edges[j];
        j := j - 1;
      }
      edges[j + 1] := key;
      Shifted(s, edges[..], i, k, key);
    }

    method AddEdge(target: int, strength: real, etype: EdgeType, prov: Provenance)
      requires Valid()
      modifies this, edges
      ensures Valid()
      ensures Entries() == Added(old(Entries()), edges.Length, Edge(target, strength, 1, etype, prov))
    {
      var ec := edgeCount;
      ghost var s := edges[..ec];
      for i := 0 to ec
        invariant edges[..ec] == s && edgeCount == ec
        invariant forall k :: 0 <= k < i ==> !SameKey(s[k], target, etype)
      {
        if edges[i].target == target && edges[i].etype == etype {
          FindUnique(s, target, etype, i);
          edges[i] := Reinforced(edges[i], strength, prov);
          assert edges[..ec] == s[i := Reinforced(s[i], strength, prov)];
          SortEdges(ec);
          return;
        }
      }
      FindUnique(s, target, etype, ec);
      AddNew(Edge(target, strength, 1, etype, prov));
    }

    /** The part of `add_edge` after an unsuccessful search. */
    method AddNew(e: Edge)
      requires Valid() && Find(Entries(), e.target, e.etype) == edgeCount
      modifies this, edges
      ensures Valid() && Entries() == Added(old(Entries()), edges.Length, e)
    {
      var ec := edgeCount;
      ghost var s := edges[..ec];
      if ec < edges.Length {
        edges[ec] := e;
        edgeCount := ec + 1;
        ec := ec + 1;
        assert edges[..ec] == s + [e];
      } else if e.weight > edges[ec - 1].weight {
        edges[ec - 1] := e;
        assert edges[..ec] == s[ec - 1 := e];
      }
      SortEdges(ec);
    }

    method Prune()
      requires Valid()
      modifies this, edges
      ensures Valid() && Entries() == Pruned(old(Entries()))
    {
      var ec, nc := edgeCount, 0;
      ghost var s := edges[..ec];
      for i := 0 to ec
        invariant nc <= i && edges[..nc] == Pruned(s[..i]) && edges[i..ec] == s[i..]
      {
        assert s[..i + 1][..i] == s[..i] && edges[i] == edges[i..ec][0] == s[i];
        ghost var rest := edges[i + 1..ec];
        assert rest == edges[i..ec][1..] == s[i + 1..];
        if edges[i].weight >= EDGE_PRUNE {
          edges[nc] := edges[i];
          nc := nc + 1;
        }
        assert edges[i + 1..ec] == rest;
      }
      assert s[..ec] == s;
      edgeCount := nc;
    }

    /** `apply_stdp` on this node's table, for the weight change dw. */
    method ApplyStdp(target: int, dw: real)
      requires Valid()
      modifies edges
      ensures Valid() && Entries() == Potentiated(old(Entries()), target, dw)
    {
      ghost var s := edges[..edgeCount];
      for i := 0 to edgeCount
        invariant edges[..edgeCount] == s
        invariant forall k :: 0 <= k < i ==> s[k].target != target
      {
        if edges[i].target == target {
          edges[i] := edges[i].(weight := Clamped(edges[i].weight + dw));
          assert i == FindTarget(s, target);
          assert edges[..edgeCount] == s[i := s[i].(weight := Clamped(s[i].weight + dw))];
          return;
        }
      }
    }
  }
}
