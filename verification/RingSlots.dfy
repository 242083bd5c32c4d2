/** Positions in a ring of n slots. */
module RingSlots {

  /** The ring slot of ticket p: `pos & mask`, for a ring of n slots. */
  function Slot(p: nat, n: nat): (i: nat)
    requires 0 < n
    ensures i < n
  {
    if p < n then p else Slot(p - n, n)
  }

  lemma {:induction false} SlotIsRemainder(p: nat, n: nat) returns (laps: nat)
    requires 0 < n
    ensures p == laps * n + Slot(p, n)
  {
    if p < n {
      laps := 0;
    } else {
      var l := SlotIsRemainder(p - n, n);
      laps := l + 1;
    }
  }

  /** Masking a ticket with n - 1, or taking it modulo n. */
  lemma SlotIsModulo(p: nat, n: nat)
    requires 0 < n
    ensures Slot(p, n) == p % n
  {
    var laps := SlotIsRemainder(p, n);
    var d, r := p / n - laps, Slot(p, n) - p % n;
    assert p == (p / n) * n + p % n;
    assert d * n == r;
    SmallMultiple(d, n);
  }

  lemma SmallMultiple(d: int, n: nat)
    requires 0 < n && 0 - n < d * n < n
    ensures d == 0
  {
  }

  lemma {:induction false} SlotsDiffer(p: nat, q: nat, n: nat)
    requires 0 < n && p < q < p + n
    ensures Slot(p, n) != Slot(q, n)
  {
    if p >= n { SlotsDiffer(p - n, q - n, n); }
  }

  /** Tickets closer than a lap, but different, never share a slot. */
  lemma Apart(p: nat, q: nat, n: nat)
    requires 0 < n && p != q && p < q + n && q < p + n
    ensures Slot(p, n) != Slot(q, n)
  {
    if p < q { SlotsDiffer(p, q, n); } else { SlotsDiffer(q, p, n); }
  }

  /** The ticket on p's slot in the lap that starts at `low`. */
  function Lap(p: nat, low: int, n: nat): (r: nat)
    requires 0 < n && p < low + n
    ensures low <= r < low + n && p <= r && Slot(r, n) == Slot(p, n)
    ensures r == p || p + n <= r
    decreases low - p
  {
    if low <= p then p else Lap(p + n, low, n)
  }

  /** The next position, with the wrap-around spelled out. */
  lemma {:induction false} SlotNext(p: nat, n: nat)
    requires 0 < n
    ensures Slot(p + 1, n) == if Slot(p, n) + 1 == n then 0 else Slot(p, n) + 1
  {
    if p >= n { SlotNext(p - n, n); }
  }
}
