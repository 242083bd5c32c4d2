/** The queue of spike events as one thread sees it when no other is at work. */
module SpikeQueue {
  import MpmcQueue
  import opened RingSlots

  class Queue {
    const seqs: array<nat>
    const data: array<MpmcQueue.SpikeEvent>
    var enqueuePos: nat
    var dequeuePos: nat
    ghost var contents: seq<MpmcQueue.SpikeEvent>  // oldest first

    /** Every cell's number says which ticket it waits for. */
    ghost predicate Valid()
      reads this, seqs, data
    {
      && 2 <= seqs.Length == data.Length && enqueuePos == dequeuePos + |contents| && |contents| <= seqs.Length
      && (forall p: nat :: dequeuePos <= p < enqueuePos ==> Holds(p))
      && (forall p: nat :: enqueuePos <= p < dequeuePos + seqs.Length ==> seqs[Slot(p, seqs.Length)] == p)
    }

    ghost predicate Holds(p: nat)
      requires 2 <= seqs.Length == data.Length && dequeuePos <= p < dequeuePos + |contents|
      reads this, seqs, data
    {
      && seqs[Slot(p, seqs.Length)] == p + 1
      && data[Slot(p, seqs.Length)] == contents[p - dequeuePos]
    }

    constructor (capacity: nat, blank: MpmcQueue.SpikeEvent)
      requires 2 <= capacity
      ensures Valid() && fresh(seqs) && fresh(data) && seqs.Length == capacity && contents == []
    {
      seqs := new nat[capacity](i => i);
      data := new MpmcQueue.SpikeEvent[capacity](_ => blank);
      enqueuePos, dequeuePos, contents := 0, 0, [];
    }

    /** Refuses the event exactly when the queue is at capacity. */
    method TryPush(ev: MpmcQueue.SpikeEvent) returns (ok: bool)
      requires Valid()
      modifies this, seqs, data
      ensures Valid() && ok == (|old(contents)| < seqs.Length)
      ensures contents == if ok then old(contents) + [ev] else old(contents)
    {
      var pos, n := enqueuePos, seqs.Length;
      var at := Slot(pos, n);
      if pos == dequeuePos + n {
        assert Holds(dequeuePos);
        SlotOfNextLap(dequeuePos, n);
      }
      if seqs[at] < pos { return false; }
      forall p: nat | dequeuePos <= p < dequeuePos + n && p != pos
        ensures Slot(p, n) != at
      {
        Apart(p, pos, n);
      }
      enqueuePos := pos + 1;
      data[at] := ev;
      seqs[at] := pos + 1;
      contents := contents + [ev];
      forall p: nat | dequeuePos <= p < pos
        ensures Holds(p)
      {
        assert old(Holds(p));
      }
      assert Holds(pos);
      ok := true;
    }

    method TryPop(blank: MpmcQueue.SpikeEvent) returns (ok: bool, ev: MpmcQueue.SpikeEvent)
      requires Valid()
      modifies this, seqs
      ensures Valid() && ok == (old(contents) != [])
      ensures ok ==> [ev] + contents == old(contents)
      ensures !ok ==> contents == []
    {
      var pos, n := dequeuePos, seqs.Length;
      var at := Slot(pos, n);
      assert pos < enqueuePos ==> Holds(pos);
      if seqs[at] < pos + 1 { return false, blank; }
      forall p: nat | pos < p < pos + n
        ensures Slot(p, n) != at
      {
        Apart(p, pos, n);
      }
      SlotOfNextLap(pos, n);
      dequeuePos := pos + 1;
      ev := data[at];
      seqs[at] := pos + n;
      contents := contents[1..];
      forall p: nat | pos < p < enqueuePos
        ensures Holds(p)
      {
        assert old(Holds(p));
      }
      ok := true;
    }
  }

  lemma SlotOfNextLap(p: nat, n: nat)
    requires 0 < n
    ensures Slot(p + n, n) == Slot(p, n)
  {
  }
}
