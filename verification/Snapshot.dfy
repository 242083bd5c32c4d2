/** The short-term memory snapshot: a bounded min-heap that keeps the most
    activated nodes, and the ring that remembers the last ones. */
module Snapshot {
  import opened RingSlots
  import TopActivated

  datatype Entry = Entry(v: real, id: int)

  // ----- The largest entries -----

  function Volts(s: seq<Entry>): (r: seq<real>)
    ensures |r| == |s| && forall i :: 0 <= i < |s| ==> r[i] == s[i].v
  {
    seq(|s|, i requires 0 <= i < |s| => s[i].v)
  }

  /** The live nodes below n whose activation is at least `floor`. */
  function Candidates(nodes: seq<TopActivated.Node>, n: nat, floor: real): seq<Entry>
    requires n <= |nodes|
  {
    if n == 0 then []
    else Candidates(nodes, n - 1, floor) +
         if nodes[n - 1].alive && nodes[n - 1].activation >= floor then [Entry(nodes[n - 1].activation, n - 1)] else []
  }

  ghost predicate Above(kept: seq<Entry>, dropped: seq<Entry>) {
    forall i, j :: 0 <= i < |kept| && 0 <= j < |dropped| ==> kept[i].v >= dropped[j].v
  }

  /** kept is a choice of max largest entries of `all`, and dropped is the rest. */
  ghost predicate IsTop(kept: seq<Entry>, dropped: seq<Entry>, all: seq<Entry>, max: nat) {
    && multiset(kept + dropped) == multiset(all)
    && |kept| <= max && (|kept| < max ==> dropped == [])
    && Above(kept, dropped)
  }

  lemma Swapped(s: seq<Entry>, t: seq<Entry>, i: nat, j: nat)
    requires i < |s| && j < |s| && t == s[i := s[j]][j := s[i]]
    ensures multiset(t) == multiset(s)
  {
  }

  function Without<T>(s: seq<T>, m: nat): seq<T>
    requires m < |s|
  {
    s[..m] + s[m + 1..]
  }

  lemma WithoutOne<T>(s: seq<T>, m: nat)
    requires m < |s|
    ensures multiset(s) == multiset(Without(s, m)) + multiset{s[m]}
  {
    assert s == s[..m] + [s[m]] + s[m + 1..];
  }

  lemma VoltsWithout(s: seq<Entry>, m: nat)
    requires m < |s|
    ensures multiset(Volts(s)) == multiset(Volts(Without(s, m))) + multiset{s[m].v}
  {
    WithoutOne(Volts(s), m);
    assert Volts(Without(s, m)) == Without(Volts(s), m);
  }

  lemma {:induction false} VoltsOfSame(s: seq<Entry>, t: seq<Entry>)
    requires multiset(s) == multiset(t)
    ensures multiset(Volts(s)) == multiset(Volts(t))
    decreases |s|
  {
    if s == [] {
      assert |multiset(t)| == 0;
    } else {
      assert s[0] in multiset(t);
      var m :| 0 <= m < |t| && t[m] == s[0];
      WithoutOne(s, 0);
      WithoutOne(t, m);
      assert multiset(Without(s, 0)) == multiset(s) - multiset{s[0]};
      assert multiset(Without(t, m)) == multiset(t) - multiset{s[0]};
      VoltsOfSame(Without(s, 0), Without(t, m));
      VoltsWithout(s, 0);
      VoltsWithout(t, m);
    }
  }

  ghost predicate Separated(a: multiset<real>, all: multiset<real>) {
    a <= all && forall x, y :: x in a && y in all - a ==> x >= y
  }

  lemma SmallerMultiset<T(!new)>(a: multiset<T>, b: multiset<T>)
    requires |a| == |b| && forall z :: b[z] <= a[z]
    ensures a == b
  {
    assert b <= a;
    assert |a - b| == |a| - |b|;
    assert a == b + (a - b);
  }

  lemma SomeMore<T(!new)>(a: multiset<T>, b: multiset<T>, x: T) returns (y: T)
    requires |a| == |b| && a[x] > b[x]
    ensures b[y] > a[y]
  {
    if forall z :: b[z] <= a[z] {
      SmallerMultiset(a, b);
      assert false;
    }
    y :| b[y] > a[y];
  }

  lemma InRest(a: multiset<real>, all: multiset<real>, x: real)
    requires a <= all
    ensures (all - a)[x] == all[x] - a[x] && a[x] <= all[x]
  {
  }

  lemma NotMore(a: multiset<real>, b: multiset<real>, all: multiset<real>, x: real)
    requires Separated(a, all) && Separated(b, all) && |a| == |b|
    ensures a[x] <= b[x]
  {
    if a[x] > b[x] {
      var y := SomeMore(a, b, x);
      InRest(a, all, y);
      InRest(b, all, x);
      assert false;
    }
  }

  lemma TopVoltsUnique(a: multiset<real>, b: multiset<real>, all: multiset<real>)
    requires Separated(a, all) && Separated(b, all) && |a| == |b|
    ensures a == b
  {
    forall x: real
      ensures a[x] == b[x]
    {
      NotMore(a, b, all, x);
      NotMore(b, a, all, x);
    }
  }

  lemma VoltsSplit(kept: seq<Entry>, dropped: seq<Entry>, all: seq<Entry>)
    requires multiset(kept + dropped) == multiset(all)
    ensures multiset(Volts(all)) == multiset(Volts(kept)) + multiset(Volts(dropped))
    ensures |kept| + |dropped| == |all|
  {
    VoltsOfSame(kept + dropped, all);
    assert Volts(kept + dropped) == Volts(kept) + Volts(dropped);
    assert |multiset(kept + dropped)| == |multiset(all)|;
  }

  lemma VoltsAbove(kept: seq<Entry>, dropped: seq<Entry>, x: real, y: real)
    requires Above(kept, dropped) && x in multiset(Volts(kept)) && y in multiset(Volts(dropped))
    ensures x >= y
  {
    var i :| 0 <= i < |kept| && Volts(kept)[i] == x;
    var j :| 0 <= j < |dropped| && Volts(dropped)[j] == y;
  }

  lemma VoltsSeparated(kept: seq<Entry>, dropped: seq<Entry>, all: seq<Entry>, max: nat)
    requires IsTop(kept, dropped, all, max)
    ensures Separated(multiset(Volts(kept)), multiset(Volts(all)))
    ensures |kept| == if |all| < max then |all| else max
  {
    VoltsSplit(kept, dropped, all);
    var k, d := multiset(Volts(kept)), multiset(Volts(dropped));
    assert multiset(Volts(all)) - k == d;
    forall x, y | x in k && y in d
      ensures x >= y
    {
      VoltsAbove(kept, dropped, x, y);
    }
  }

  /** However ties are broken, the voltages chosen are the same. */
  lemma SameVoltages(kept: seq<Entry>, dropped: seq<Entry>, kept': seq<Entry>, dropped': seq<Entry>,
                     all: seq<Entry>, max: nat)
    requires IsTop(kept, dropped, all, max) && IsTop(kept', dropped', all, max)
    ensures multiset(Volts(kept)) == multiset(Volts(kept'))
  {
    VoltsSeparated(kept, dropped, all, max);
    VoltsSeparated(kept', dropped', all, max);
    assert |multiset(Volts(kept))| == |kept| && |multiset(Volts(kept'))| == |kept'|;
    TopVoltsUnique(multiset(Volts(kept)), multiset(Volts(kept')), multiset(Volts(all)));
  }

  /** They are the voltages at the front of the sorted candidates. */
  lemma LargestOfSorted(kept: seq<Entry>, dropped: seq<Entry>, all: seq<Entry>, max: nat, sorted: seq<Entry>)
    requires IsTop(kept, dropped, all, max)
    requires multiset(sorted) == multiset(all)
    requires forall i, j :: 0 <= i < j < |sorted| ==> sorted[i].v >= sorted[j].v
    ensures var n := if |sorted| < max then |sorted| else max;
      multiset(Volts(kept)) == multiset(Volts(sorted)[..n])
  {
    var n := if |sorted| < max then |sorted| else max;
    assert sorted[..n] + sorted[n..] == sorted;
    SameVoltages(kept, dropped, sorted[..n], sorted[n..], all, max);
    assert Volts(sorted[..n]) == Volts(sorted)[..n];
  }

  // ----- The heap -----

  function Parent(j: nat): nat
    requires 0 < j
  {
    (j - 1) / 2
  }

  /** Every entry but the one at k is at least its parent. */
  ghost predicate HeapBut(s: seq<Entry>, k: nat) {
    forall j :: 1 <= j < |s| && j != k ==> s[Parent(j)].v <= s[j].v
  }

  ghost predicate Heap(s: seq<Entry>) {
    HeapBut(s, 0)
  }

  lemma {:induction false} RootIsLeast(s: seq<Entry>, j: nat)
    requires Heap(s) && j < |s|
    ensures s[0].v <= s[j].v
  {
    if j > 0 { RootIsLeast(s, Parent(j)); }
  }

  /** The children of k are at least k's parent. */
  ghost predicate Spans(s: seq<Entry>, k: nat) {
    0 < k < |s| ==> forall j :: 1 <= j < |s| && Parent(j) == k ==> s[Parent(k)].v <= s[j].v
  }

  lemma SwapUp(s: seq<Entry>, k: nat)
    requires 0 < k < |s| && HeapBut(s, k) && Spans(s, k) && s[k].v < s[Parent(k)].v
    ensures var t := s[k := s[Parent(k)]][Parent(k) := s[k]];
      HeapBut(t, Parent(k)) && Spans(t, Parent(k))
  {
  }

  method SiftUp(best: array<Entry>, bsz: nat)
    requires 0 < bsz <= best.Length && Heap(best[..bsz - 1])
    modifies best
    ensures Heap(best[..bsz]) && multiset(best[..bsz]) == multiset(old(best[..bsz]))
  {
    var k: nat := bsz - 1;
    assert forall j :: 1 <= j < bsz - 1 ==> best[..bsz - 1][Parent(j)].v <= best[..bsz - 1][j].v;
    while k > 0 && best[k].v < best[Parent(k)].v
      invariant k < bsz
      invariant HeapBut(best[..bsz], k) && Spans(best[..bsz], k)
      invariant multiset(best[..bsz]) == multiset(old(best[..bsz]))
    {
      ghost var s := best[..bsz];
      SwapUp(s, k);
      best[k], best[Parent(k)] := best[Parent(k)], best[k];
      assert best[..bsz] == s[k := s[Parent(k)]][Parent(k) := s[k]];
      Swapped(s, best[..bsz], k, Parent(k));
      k := Parent(k);
    }
  }

  /** Every entry whose parent is not k is at least its parent. */
  ghost predicate HeapBelow(s: seq<Entry>, k: nat) {
    forall j :: 1 <= j < |s| && Parent(j) != k ==> s[Parent(j)].v <= s[j].v
  }

  lemma SwapDown(s: seq<Entry>, k: nat, m: nat)
    requires HeapBelow(s, k) && Spans(s, k) && k < m < |s| && Parent(m) == k && s[m].v < s[k].v
    requires forall j :: 1 <= j < |s| && Parent(j) == k ==> s[m].v <= s[j].v
    ensures var t := s[k := s[m]][m := s[k]];
      HeapBelow(t, m) && Spans(t, m)
  {
  }

  lemma Settled(s: seq<Entry>, k: nat)
    requires HeapBelow(s, k)
    requires forall j :: 1 <= j < |s| && Parent(j) == k ==> s[k].v <= s[j].v
    ensures Heap(s)
  {
  }

  /** The least of k and its children. */
  method LeastOf(best: array<Entry>, bsz: nat, k: nat) returns (mn: nat)
    requires bsz <= best.Length && (k < bsz || bsz == 0)
    ensures mn == k || (k < mn < bsz && Parent(mn) == k && best[mn].v < best[k].v)
    ensures forall j :: 1 <= j < bsz && Parent(j) == k ==> best[mn].v <= best[j].v
  {
    var l, r := 2 * k + 1, 2 * k + 2;
    mn := k;
    if l < bsz && best[l].v < best[mn].v { mn := l; }
    if r < bsz && best[r].v < best[mn].v { mn := r; }
  }

  method SiftDown(best: array<Entry>, bsz: nat)
    requires bsz <= best.Length && HeapBelow(best[..bsz], 0)
    modifies best
    ensures Heap(best[..bsz]) && multiset(best[..bsz]) == multiset(old(best[..bsz]))
  {
    var k: nat := 0;
    while true
      invariant bsz == 0 || k < bsz
      invariant HeapBelow(best[..bsz], k) && Spans(best[..bsz], k)
      invariant multiset(best[..bsz]) == multiset(old(best[..bsz]))
      decreases bsz - k
    {
      var mn := LeastOf(best, bsz, k);
      ghost var s := best[..bsz];
      if mn == k {
        Settled(s, k);
        break;
      }
      SwapDown(s, k, mn);
      best[k], best[mn] := best[mn], best[k];
      assert best[..bsz] == s[k := s[mn]][mn := s[k]];
      Swapped(s, best[..bsz], k, mn);
      k := mn;
    }
  }

  // ----- Taking the snapshot -----

  /** After scanning n nodes, the heap holds a top choice of the candidates seen. */
  ghost predicate Scanned(nodes: seq<TopActivated.Node>, n: nat, floor: real, kept: seq<Entry>, dropped: seq<Entry>, max: nat) {
    n <= |nodes| && Heap(kept) && IsTop(kept, dropped, Candidates(nodes, n, floor), max)
  }

  lemma NothingScanned(nodes: seq<TopActivated.Node>, floor: real, max: nat)
    ensures Scanned(nodes, 0, floor, [], [], max)
  {
  }

  lemma Permuted(kept: seq<Entry>, kept': seq<Entry>, dropped: seq<Entry>, all: seq<Entry>, max: nat)
    requires IsTop(kept, dropped, all, max) && multiset(kept') == multiset(kept)
    ensures IsTop(kept', dropped, all, max)
  {
    assert |multiset(kept)| == |kept| && |multiset(kept')| == |kept'|;
    forall i, j | 0 <= i < |kept'| && 0 <= j < |dropped|
      ensures kept'[i].v >= dropped[j].v
    {
      assert kept'[i] in multiset(kept');
      var m :| 0 <= m < |kept| && kept[m] == kept'[i];
    }
  }

  lemma TopWithRoom(kept: seq<Entry>, dropped: seq<Entry>, all: seq<Entry>, max: nat, e: Entry)
    requires IsTop(kept, dropped, all, max) && |kept| < max
    ensures IsTop(kept + [e], dropped, all + [e], max)
  {
    assert kept + [e] + dropped == kept + [e];
    assert kept + dropped == kept;
  }

  lemma TopKeepsOut(kept: seq<Entry>, dropped: seq<Entry>, all: seq<Entry>, max: nat, e: Entry)
    requires IsTop(kept, dropped, all, max) && |kept| == max
    requires forall i :: 0 <= i < |kept| ==> kept[i].v >= e.v
    ensures IsTop(kept, dropped + [e], all + [e], max)
  {
    assert kept + (dropped + [e]) == (kept + dropped) + [e];
  }

  lemma TopReplaces(kept: seq<Entry>, dropped: seq<Entry>, all: seq<Entry>, max: nat, e: Entry)
    requires IsTop(kept, dropped, all, max) && |kept| == max > 0
    requires (forall i :: 0 <= i < |kept| ==> kept[i].v >= kept[0].v) && e.v > kept[0].v
    ensures IsTop(kept[0 := e], dropped + [kept[0]], all + [e], max)
  {
    var kept', dropped' := kept[0 := e], dropped + [kept[0]];
    assert multiset(kept') == multiset(kept) - multiset{kept[0]} + multiset{e};
    assert multiset(kept' + dropped') == multiset(kept + dropped) + multiset{e};
  }

  /** Offers node i to the heap of bsz entries. */
  method Consider(nodes: seq<TopActivated.Node>, i: nat, floor: real, max: nat, best: array<Entry>, bsz0: nat,
                  ghost dropped: seq<Entry>) returns (bsz: nat, ghost dropped': seq<Entry>)
    requires i < |nodes| && bsz0 <= max <= best.Length && 0 < best.Length
    requires Scanned(nodes, i, floor, best[..bsz0], dropped, max)
    modifies best
    ensures bsz <= max && Scanned(nodes, i + 1, floor, best[..bsz], dropped', max)
  {
    bsz, dropped' := bsz0, dropped;
    if !nodes[i].alive { return; }
    var v := nodes[i].activation;
    if v < floor { return; }
    var e := Entry(v, i);
    if bsz < max {
      bsz := Append(best, bsz, e, max, dropped, Candidates(nodes, i, floor));
    } else {
      dropped' := Offer(best, bsz, e, dropped, Candidates(nodes, i, floor));
    }
  }

  method Append(best: array<Entry>, bsz0: nat, e: Entry, max: nat, ghost dropped: seq<Entry>, ghost all: seq<Entry>)
    returns (bsz: nat)
    requires bsz0 < max <= best.Length && Heap(best[..bsz0]) && IsTop(best[..bsz0], dropped, all, max)
    modifies best
    ensures bsz == bsz0 + 1 && Heap(best[..bsz]) && IsTop(best[..bsz], dropped, all + [e], max)
  {
    bsz := bsz0;
    ghost var kept := best[..bsz];
    TopWithRoom(kept, dropped, all, max, e);
    best[bsz] := e;
    bsz := bsz + 1;
    assert best[..bsz - 1] == kept && best[..bsz] == kept + [e];
    SiftUp(best, bsz);
    Permuted(kept + [e], best[..bsz], dropped, all + [e], max);
  }

  /** A full heap lets e in only by dropping its least entry. */
  method Offer(best: array<Entry>, bsz: nat, e: Entry, ghost dropped: seq<Entry>, ghost all: seq<Entry>)
    returns (ghost dropped': seq<Entry>)
    requires bsz <= best.Length && 0 < best.Length
    requires Heap(best[..bsz]) && IsTop(best[..bsz], dropped, all, bsz)
    modifies best
    ensures Heap(best[..bsz]) && IsTop(best[..bsz], dropped', all + [e], bsz)
  {
    ghost var kept := best[..bsz];
    forall j | 0 <= j < |kept| ensures kept[0].v <= kept[j].v { RootIsLeast(kept, j); }
    dropped' := dropped + [if bsz > 0 && e.v > kept[0].v then kept[0] else e];
    if bsz > 0 && e.v > kept[0].v {
      TopReplaces(kept, dropped, all, bsz, e);
    } else {
      TopKeepsOut(kept, dropped, all, bsz, e);
    }
    if e.v > best[0].v {
      best[0] := e;
      ghost var replaced := best[..bsz];
      assert replaced == if bsz > 0 then kept[0 := e] else kept;
      SiftDown(best, bsz);
      Permuted(replaced, best[..bsz], dropped', all + [e], bsz);
    }
  }

  method Collect(nodes: seq<TopActivated.Node>, scan: nat, topN: nat, floor: real, best: array<Entry>)
    returns (bsz: nat, ghost dropped: seq<Entry>)
    requires topN <= best.Length && 0 < best.Length
    modifies best
    ensures bsz <= topN
    ensures Scanned(nodes, if |nodes| < scan then |nodes| else scan, floor, best[..bsz], dropped, topN)
  {
    bsz, dropped := 0, [];
    NothingScanned(nodes, floor, topN);
    for i := 0 to if |nodes| < scan then |nodes| else scan
      invariant bsz <= topN && Scanned(nodes, i, floor, best[..bsz], dropped, topN)
    {
      bsz, dropped := Consider(nodes, i, floor, topN, best, bsz, dropped);
    }
  }

  function Ids(s: seq<Entry>): (r: seq<int>)
    ensures |r| == |s| && forall i :: 0 <= i < |s| ==> r[i] == s[i].id
  {
    seq(|s|, i requires 0 <= i < |s| => s[i].id)
  }

  /** The ring of the last node ids that were active enough to be remembered. */
  class ShortTermMemory {
    const buffer: array<int>
    var write: nat
    ghost var history: seq<int>  // every id ever written

    ghost predicate Valid()
      reads this, buffer
    {
      && 0 < buffer.Length && write == Slot(|history|, buffer.Length)
      && (forall p: nat :: p < |history| && |history| <= p + buffer.Length ==>
            buffer[Slot(p, buffer.Length)] == history[p])
      && (forall s :: |history| <= s < buffer.Length ==> buffer[s] == -1)
    }

    constructor (size: nat)
      requires 0 < size
      ensures Valid() && fresh(buffer) && buffer.Length == size && history == []
    {
      buffer := new int[size](_ => -1);
      write, history := 0, [];
    }

    method Remember(id: int)
      requires Valid()
      modifies this, buffer
      ensures Valid() && history == old(history) + [id]
    {
      var n := buffer.Length;
      buffer[write] := id;
      SlotNext(|history|, n);
      forall p: nat | p < |history| && |history| + 1 <= p + n
        ensures Slot(p, n) != Slot(|history|, n)
      {
        Apart(p, |history|, n);
      }
      history := history + [id];
      write := if write + 1 == n then 0 else write + 1;
    }

    /** Remembers the ids of the topN most activated of the first `scan` nodes. */
    method Take(nodes: seq<TopActivated.Node>, scan: nat, topN: nat, floor: real)
      returns (ghost kept: seq<Entry>, ghost dropped: seq<Entry>)
      requires Valid() && topN <= buffer.Length
      modifies this, buffer
      ensures Valid() && history == old(history) + Ids(kept)
      ensures IsTop(kept, dropped, Candidates(nodes, if |nodes| < scan then |nodes| else scan, floor), topN)
    {
      var best := new Entry[buffer.Length](_ => Entry(0.0, 0));
      var bsz;
      bsz, dropped := Collect(nodes, scan, topN, floor, best);
      kept := best[..bsz];
      RememberAll(best, bsz);
    }

    method RememberAll(best: array<Entry>, bsz: nat)
      requires Valid() && bsz <= best.Length
      modifies this, buffer
      ensures Valid() && history == old(history) + Ids(best[..bsz])
    {
      ghost var ids := Ids(best[..bsz]);
      var k := 0;
      while k < bsz
        invariant k <= bsz && Valid()
        invariant history == old(history) + ids[..k]
      {
        Remember(best[k].id);
        assert ids[..k + 1] == ids[..k] + [best[k].id];
        k := k + 1;
      }
      assert ids[..bsz] == ids;
    }
  }
}
