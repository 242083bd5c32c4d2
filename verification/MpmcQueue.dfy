/** The bounded queue of spike events shared by any number of producers and
    consumers, as a machine whose steps are the single loads, compare-and-swaps,
    writes and stores of `try_push` and `try_pop`. */
module MpmcQueue {
  import opened RingSlots

  datatype SpikeEvent = SpikeEvent(src: int, voltage: real, hop: nat, deadline: nat)

  // ----- The machine -----

  /** Where a thread is. The position it works on is its local `pos`. */
  datatype Pc =
    | Idle
    | PushLoad(ev: SpikeEvent)               // about to load enqueue_pos
    | PushRead(ev: SpikeEvent, pos: nat)     // about to load the cell's seq
    | PushCas(ev: SpikeEvent, pos: nat)      // saw seq == pos
    | PushWrite(ev: SpikeEvent, pos: nat)    // owns ticket pos, about to write the event
    | PushPublish(ev: SpikeEvent, pos: nat)  // about to store seq := pos + 1
    | PopLoad
    | PopRead(pos: nat)
    | PopCas(pos: nat)                       // saw seq == pos + 1
    | PopTake(pos: nat)                      // owns ticket pos, about to read the event
    | PopRelease(pos: nat, ev: SpikeEvent)   // about to store seq := pos + capacity

  /** Shared memory, the threads, and the history that the properties speak of:
      `accepted[p]` is the event of ticket p, `unpublished` and `unreleased` map
      the tickets that producers and consumers have claimed and not finished to
      their owners, and `delivered` holds what each consumer ticket has read. */
  datatype State = State(
    n: nat, seqs: seq<nat>, data: seq<SpikeEvent>, enq: nat, deq: nat,
    threads: map<nat, Pc>,
    accepted: seq<SpikeEvent>, unpublished: map<nat, nat>, unreleased: map<nat, nat>, delivered: map<nat, SpikeEvent>)
  {
    predicate Sized() {
      2 <= n && |seqs| == |data| == n
    }

    function SeqAt(p: nat): nat
      requires Sized()
    {
      seqs[Slot(p, n)]
    }

    function DataAt(p: nat): SpikeEvent
      requires Sized()
    {
      data[Slot(p, n)]
    }

    function Goto(t: nat, pc: Pc): State {
      this.(threads := threads[t := pc])
    }
  }

  ghost predicate Init(s: State) {
    && s.Sized()
    && (forall i :: 0 <= i < s.n ==> s.seqs[i] == i)
    && s.enq == s.deq == 0
    && (forall t :: t in s.threads ==> s.threads[t] == Idle)
    && s.accepted == [] && s.unpublished == map[] && s.unreleased == map[] && s.delivered == map[]
  }

  ghost predicate PushStep(s: State, t: nat, s': State)
    requires s.Sized() && t in s.threads
  {
    match s.threads[t]
    case PushLoad(ev) =>
      s' == s.Goto(t, PushRead(ev, s.enq))
    case PushRead(ev, pos) =>
      if s.SeqAt(pos) == pos then s' == s.Goto(t, PushCas(ev, pos))
      else if s.SeqAt(pos) < pos then s' == s.Goto(t, Idle)   // full
      else s' == s.Goto(t, PushLoad(ev))
    case PushCas(ev, pos) =>
      // a weak compare-and-swap may also fail spuriously; a failure reloads pos
      || s' == s.Goto(t, PushRead(ev, s.enq))
      || (s.enq == pos && s' == s.Goto(t, PushWrite(ev, pos)).(
            enq := pos + 1, accepted := s.accepted + [ev], unpublished := s.unpublished[pos := t]))
    case PushWrite(ev, pos) =>
      s' == s.Goto(t, PushPublish(ev, pos)).(data := s.data[Slot(pos, s.n) := ev])
    case PushPublish(ev, pos) =>
      s' == s.Goto(t, Idle).(
        seqs := s.seqs[Slot(pos, s.n) := pos + 1], unpublished := s.unpublished - {pos})
    case _ => false
  }

  ghost predicate PopStep(s: State, t: nat, s': State)
    requires s.Sized() && t in s.threads
  {
    match s.threads[t]
    case PopLoad =>
      s' == s.Goto(t, PopRead(s.deq))
    case PopRead(pos) =>
      if s.SeqAt(pos) == pos + 1 then s' == s.Goto(t, PopCas(pos))
      else if s.SeqAt(pos) < pos + 1 then s' == s.Goto(t, Idle)   // empty
      else s' == s.Goto(t, PopLoad)
    case PopCas(pos) =>
      || s' == s.Goto(t, PopRead(s.deq))
      || (s.deq == pos && s' == s.Goto(t, PopTake(pos)).(
            deq := pos + 1, unreleased := s.unreleased[pos := t]))
    case PopTake(pos) =>
      s' == s.Goto(t, PopRelease(pos, s.DataAt(pos))).(delivered := s.delivered[pos := s.DataAt(pos)])
    case PopRelease(pos, _) =>
      s' == s.Goto(t, Idle).(
        seqs := s.seqs[Slot(pos, s.n) := pos + s.n], unreleased := s.unreleased - {pos})
    case _ => false
  }

  ghost predicate CallStep(s: State, t: nat, s': State)
    requires t in s.threads
  {
    && s.threads[t] == Idle
    && (s' == s.Goto(t, PopLoad) || exists ev :: s' == s.Goto(t, PushLoad(ev)))
  }

  /** Thread t takes one step. */
  ghost predicate ThreadStep(s: State, t: nat, s': State) {
    s.Sized() && t in s.threads && (PushStep(s, t, s') || PopStep(s, t, s') || CallStep(s, t, s'))
  }

  // ----- The invariant -----

  /** Ticket p has been published and is still in its cell. */
  predicate Published(s: State, p: nat) {
    p < s.enq && p !in s.unpublished
  }

  /** The cell of ticket p has been emptied for the next lap. */
  predicate Released(s: State, p: nat) {
    p < s.deq && p !in s.unreleased
  }

  /** Nothing of the previous lap is left in the cell of ticket p. */
  predicate Cleared(s: State, p: nat) {
    p < s.n || Released(s, p - s.n)
  }

  /** What the cell of ticket p holds, as far as the counters and histories determine it. */
  ghost predicate TicketOk(s: State, p: nat)
    requires s.Sized() && |s.accepted| == s.enq
  {
    && (p in s.unpublished ==> s.deq <= p < s.enq && s.SeqAt(p) == p)
    && (p in s.unreleased ==>
          p < s.deq <= s.enq <= p + s.n && s.SeqAt(p) == p + 1 && s.DataAt(p) == s.accepted[p])
    && (s.deq <= p < s.enq && p !in s.unpublished ==>
          s.SeqAt(p) == p + 1 && s.DataAt(p) == s.accepted[p])
    && (s.enq <= p < s.enq + s.n && Cleared(s, p) ==> s.SeqAt(p) == p)
  }

  ghost predicate Tickets(s: State)
    requires s.Sized() && |s.accepted| == s.enq
  {
    forall p: nat :: TicketOk(s, p)
  }

  ghost predicate Deliveries(s: State)
    requires |s.accepted| == s.enq
  {
    && (forall p :: p in s.delivered ==> p < s.deq <= s.enq && s.delivered[p] == s.accepted[p])
    && (forall p: nat :: p < s.deq && p !in s.unreleased ==> p in s.delivered)
  }

  predicate Owns(owner: map<nat, nat>, p: nat, t: nat) {
    p in owner && owner[p] == t
  }

  ghost predicate ThreadOk(s: State, t: nat, pc: Pc)
    requires s.Sized() && |s.accepted| == s.enq
  {
    match pc
    case PushRead(_, pos) => pos <= s.enq
    case PushCas(_, pos) => pos <= s.enq && (pos == s.enq ==> s.SeqAt(pos) == pos)
    case PushWrite(ev, pos) => Owns(s.unpublished, pos, t) && pos < s.enq && ev == s.accepted[pos]
    case PushPublish(ev, pos) => Owns(s.unpublished, pos, t) && pos < s.enq && ev == s.accepted[pos] == s.DataAt(pos)
    case PopRead(pos) => pos <= s.deq
    case PopCas(pos) => pos <= s.deq && (pos == s.deq ==> s.SeqAt(pos) == pos + 1)
    case PopTake(pos) => Owns(s.unreleased, pos, t) && pos !in s.delivered
    case PopRelease(pos, ev) => Owns(s.unreleased, pos, t) && pos in s.delivered && s.delivered[pos] == ev
    case _ => true
  }

  predicate Producing(pc: Pc) {
    pc.PushWrite? || pc.PushPublish?
  }

  predicate Consuming(pc: Pc) {
    pc.PopTake? || pc.PopRelease?
  }

  /** Every unfinished ticket is in the hands of its recorded owner. */
  ghost predicate Owners(s: State) {
    && (forall p :: p in s.unpublished ==>
          var t := s.unpublished[p]; t in s.threads && Producing(s.threads[t]) && s.threads[t].pos == p)
    && (forall p :: p in s.unreleased ==>
          var t := s.unreleased[p]; t in s.threads && Consuming(s.threads[t]) && s.threads[t].pos == p)
  }

  ghost predicate Inv(s: State) {
    && s.Sized()
    && |s.accepted| == s.enq
    && s.deq <= s.enq <= s.deq + s.n
    && Tickets(s)
    && Deliveries(s)
    && (forall t :: t in s.threads ==> ThreadOk(s, t, s.threads[t]))
    && Owners(s)
  }

  lemma InitInv(s: State)
    requires Init(s)
    ensures Inv(s)
  {
    forall p: nat | s.enq <= p < s.enq + s.n
      ensures s.SeqAt(p) == p
    {
    }
  }

  // ----- Every step keeps the invariant -----

  /** Tickets depend on the cells, the counters and the claims only. */
  lemma SameTickets(s: State, s': State)
    requires s.Sized() && |s.accepted| == s.enq && Tickets(s)
    requires s' == s.(threads := s'.threads, delivered := s'.delivered)
    ensures Tickets(s')
  {
    forall p: nat ensures TicketOk(s', p) {
      assert TicketOk(s, p);
    }
  }

  /** A step that only moves thread t to a program point where it owns no ticket. */
  lemma GotoKeeps(s: State, t: nat, pc: Pc)
    requires Inv(s) && t in s.threads && ThreadOk(s, t, pc) && !Producing(pc) && !Consuming(pc)
    requires !Producing(s.threads[t]) && !Consuming(s.threads[t])
    ensures Inv(s.Goto(t, pc))
  {
    var s' := s.Goto(t, pc);
    SameTickets(s, s');
    forall u | u in s'.threads
      ensures ThreadOk(s', u, s'.threads[u])
    {
      assert u == t || ThreadOk(s, u, s.threads[u]);
    }
  }

  /** The cell a producer is about to claim is idle: no ticket of the previous lap lives in it. */
  lemma IdleCell(s: State, pos: nat)
    requires Inv(s) && pos == s.enq && s.SeqAt(pos) == pos
    ensures Cleared(s, pos)
  {
    if pos >= s.n {
      assert TicketOk(s, pos - s.n);
    }
  }

  lemma PushClaimTickets(s: State, t: nat, ev: SpikeEvent, pos: nat, s': State)
    requires Inv(s) && s.enq == pos && s.SeqAt(pos) == pos
    requires s' == s.(threads := s'.threads,
            enq := pos + 1, accepted := s.accepted + [ev], unpublished := s.unpublished[pos := t])
    ensures Tickets(s') && s'.enq <= s'.deq + s'.n
  {
    IdleCell(s, pos);
    forall p: nat ensures TicketOk(s', p) {
      assert TicketOk(s, p);
      if p == pos + s.n { assert !Cleared(s', p); }
    }
  }

  lemma PushClaimKeeps(s: State, t: nat, ev: SpikeEvent, pos: nat, s': State)
    requires Inv(s) && t in s.threads && s.threads[t] == PushCas(ev, pos) && s.enq == pos
    requires s' == s.Goto(t, PushWrite(ev, pos)).(
            enq := pos + 1, accepted := s.accepted + [ev], unpublished := s.unpublished[pos := t])
    ensures Inv(s')
  {
    assert ThreadOk(s, t, s.threads[t]);
    PushClaimTickets(s, t, ev, pos, s');
    forall u | u in s'.threads
      ensures ThreadOk(s', u, s'.threads[u])
    {
      assert u == t || ThreadOk(s, u, s.threads[u]);
    }
  }

  lemma WriteTickets(s: State, pos: nat, ev: SpikeEvent, s': State)
    requires Inv(s) && pos in s.unpublished && pos < s.enq
    requires s' == s.(data := s.data[Slot(pos, s.n) := ev], threads := s'.threads)
    ensures Tickets(s')
  {
    assert TicketOk(s, pos);
    forall p: nat ensures TicketOk(s', p) {
      assert TicketOk(s, p);
      if p < s.enq && s.enq <= p + s.n && p != pos { Apart(p, pos, s.n); }
    }
  }

  lemma PushWriteKeeps(s: State, t: nat, ev: SpikeEvent, pos: nat, s': State)
    requires Inv(s) && t in s.threads && s.threads[t] == PushWrite(ev, pos)
    requires s' == s.Goto(t, PushPublish(ev, pos)).(data := s.data[Slot(pos, s.n) := ev])
    ensures Inv(s')
  {
    assert ThreadOk(s, t, s.threads[t]) && TicketOk(s, pos);
    WriteTickets(s, pos, ev, s');
    forall u | u in s'.threads
      ensures ThreadOk(s', u, s'.threads[u])
    {
      assert u == t || ThreadOk(s, u, s.threads[u]);
      if u != t && s.threads[u].PushPublish? {
        assert TicketOk(s, s.threads[u].pos);
        Apart(s.threads[u].pos, pos, s.n);
      }
    }
  }

  lemma PublishTickets(s: State, pos: nat, s': State)
    requires Inv(s) && pos in s.unpublished && pos < s.enq && s.DataAt(pos) == s.accepted[pos]
    requires s' == s.(seqs := s.seqs[Slot(pos, s.n) := pos + 1], threads := s'.threads,
                      unpublished := s.unpublished - {pos})
    ensures Tickets(s')
  {
    assert TicketOk(s, pos);
    forall p: nat ensures TicketOk(s', p) {
      assert TicketOk(s, p);
      if p != pos && s.enq <= p + s.n && p < pos + s.n { Apart(p, pos, s.n); }
    }
  }

  lemma PublishKeeps(s: State, t: nat, ev: SpikeEvent, pos: nat, s': State)
    requires Inv(s) && t in s.threads && s.threads[t] == PushPublish(ev, pos)
    requires s' == s.Goto(t, Idle).(
      seqs := s.seqs[Slot(pos, s.n) := pos + 1], unpublished := s.unpublished - {pos})
    ensures Inv(s')
  {
    assert ThreadOk(s, t, s.threads[t]);
    PublishTickets(s, pos, s');
    PublishThreads(s, t, ev, pos, s');
  }

  lemma PublishThread(s: State, pos: nat, t: nat, s': State, u: nat, pc: Pc)
    requires s.Sized() && |s.accepted| == s.enq && ThreadOk(s, u, pc) && u != t
    requires Owns(s.unpublished, pos, t) && s.deq <= pos < s.enq && s.SeqAt(pos) == pos
    requires s' == s.(seqs := s.seqs[Slot(pos, s.n) := pos + 1], threads := s'.threads,
                      unpublished := s.unpublished - {pos})
    ensures ThreadOk(s', u, pc)
  {
    if pos > 0 { SlotsDiffer(pos - 1, pos, s.n); }
  }

  lemma PublishThreads(s: State, t: nat, ev: SpikeEvent, pos: nat, s': State)
    requires Inv(s) && t in s.threads && s.threads[t] == PushPublish(ev, pos)
    requires s' == s.Goto(t, Idle).(
      seqs := s.seqs[Slot(pos, s.n) := pos + 1], unpublished := s.unpublished - {pos})
    ensures forall u :: u in s'.threads ==> ThreadOk(s', u, s'.threads[u])
  {
    assert ThreadOk(s, t, s.threads[t]) && TicketOk(s, pos);
    forall u | u in s'.threads
      ensures ThreadOk(s', u, s'.threads[u])
    {
      if u != t { PublishThread(s, pos, t, s', u, s.threads[u]); }
    }
  }

  lemma PopClaimTicket(s: State, t: nat, pos: nat, s': State, p: nat)
    requires s.Sized() && |s.accepted| == s.enq && TicketOk(s, p) && TicketOk(s, pos)
    requires s.deq == pos && Published(s, pos) && s.enq <= pos + s.n
    requires s' == s.(threads := s'.threads, deq := pos + 1, unreleased := s.unreleased[pos := t])
    ensures TicketOk(s', p)
  {
  }

  lemma PopClaimThread(s: State, t: nat, pos: nat, s': State, u: nat, pc: Pc)
    requires s.Sized() && |s.accepted| == s.enq && ThreadOk(s, u, pc) && pos !in s.unreleased
    requires s' == s.(threads := s'.threads, deq := pos + 1, unreleased := s.unreleased[pos := t])
    requires s.deq == pos
    ensures ThreadOk(s', u, pc)
  {
  }

  /** The oldest ticket has neither been claimed by a consumer nor delivered. */
  lemma OldestIsNew(s: State)
    requires s.Sized() && |s.accepted| == s.enq && Tickets(s) && Deliveries(s)
    ensures s.deq !in s.delivered && s.deq !in s.unreleased
  {
    assert TicketOk(s, s.deq);
  }

  lemma PopClaimKeeps(s: State, t: nat, pos: nat, s': State)
    requires Inv(s) && t in s.threads && s.threads[t] == PopCas(pos) && s.deq == pos
    requires s' == s.Goto(t, PopTake(pos)).(deq := pos + 1, unreleased := s.unreleased[pos := t])
    ensures Inv(s')
  {
    assert ThreadOk(s, t, s.threads[t]);
    PublishedCell(s, pos);
    OldestIsNew(s);
    forall p: nat ensures TicketOk(s', p) {
      assert TicketOk(s, p) && TicketOk(s, pos);
      PopClaimTicket(s, t, pos, s', p);
    }
    forall u | u in s'.threads
      ensures ThreadOk(s', u, s'.threads[u])
    {
      if u != t { PopClaimThread(s, t, pos, s', u, s.threads[u]); }
    }
  }

  /** A cell whose seq is pos + 1, for the next ticket to be consumed, is published. */
  lemma PublishedCell(s: State, pos: nat)
    requires Inv(s) && pos == s.deq && s.SeqAt(pos) == pos + 1
    ensures Published(s, pos)
  {
    assert TicketOk(s, pos);
    if pos >= s.n {
      assert TicketOk(s, pos - s.n);
    }
  }

  lemma PopTakeThread(s: State, t: nat, pos: nat, s': State, u: nat, pc: Pc)
    requires s.Sized() && |s.accepted| == s.enq && ThreadOk(s, u, pc) && u != t && Owns(s.unreleased, pos, t)
    requires s' == s.(threads := s'.threads, delivered := s.delivered[pos := s.DataAt(pos)])
    ensures ThreadOk(s', u, pc)
  {
  }

  lemma PopTakeKeeps(s: State, t: nat, pos: nat, s': State)
    requires Inv(s) && t in s.threads && s.threads[t] == PopTake(pos)
    requires s' == s.Goto(t, PopRelease(pos, s.DataAt(pos))).(delivered := s.delivered[pos := s.DataAt(pos)])
    ensures Inv(s')
  {
    assert ThreadOk(s, t, s.threads[t]) && TicketOk(s, pos);
    SameTickets(s, s');
    forall u | u in s'.threads
      ensures ThreadOk(s', u, s'.threads[u])
    {
      if u != t { PopTakeThread(s, t, pos, s', u, s.threads[u]); }
    }
  }

  lemma ReleaseTicket(s: State, pos: nat, s': State, p: nat)
    requires s.Sized() && |s.accepted| == s.enq && s.deq <= s.enq <= s.deq + s.n
    requires TicketOk(s, p) && TicketOk(s, pos) && pos in s.unreleased
    requires s' == s.(seqs := s.seqs[Slot(pos, s.n) := pos + s.n], threads := s'.threads,
                      unreleased := s.unreleased - {pos})
    ensures TicketOk(s', p)
  {
    assert Slot(pos + s.n, s.n) == Slot(pos, s.n);
    if p == pos || p == pos + s.n {
    } else if p < pos + s.n && pos < p + s.n {
      Apart(p, pos, s.n);
    } else if p > pos + s.n && p < s.enq + s.n {
      Apart(p, pos + s.n, s.n);
    }
  }

  lemma ReleaseTickets(s: State, pos: nat, s': State)
    requires Inv(s) && pos in s.unreleased
    requires s' == s.(seqs := s.seqs[Slot(pos, s.n) := pos + s.n], threads := s'.threads,
                      unreleased := s.unreleased - {pos})
    ensures Tickets(s')
  {
    forall p: nat ensures TicketOk(s', p) {
      assert TicketOk(s, p) && TicketOk(s, pos);
      ReleaseTicket(s, pos, s', p);
    }
  }

  lemma PopReleaseKeeps(s: State, t: nat, pos: nat, ev: SpikeEvent, s': State)
    requires Inv(s) && t in s.threads && s.threads[t] == PopRelease(pos, ev)
    requires s' == s.Goto(t, Idle).(
      seqs := s.seqs[Slot(pos, s.n) := pos + s.n], unreleased := s.unreleased - {pos})
    ensures Inv(s')
  {
    assert ThreadOk(s, t, s.threads[t]);
    ReleaseTickets(s, pos, s');
    SlotsDiffer(pos, pos + 1, s.n);
    forall u | u in s'.threads
      ensures ThreadOk(s', u, s'.threads[u])
    {
      assert u == t || ThreadOk(s, u, s.threads[u]);
      assert TicketOk(s, pos);
    }
  }

  lemma PushReadKeeps(s: State, t: nat, s': State)
    requires Inv(s) && t in s.threads && s.threads[t].PushRead? && PushStep(s, t, s')
    ensures Inv(s')
  {
    assert ThreadOk(s, t, s.threads[t]);
    var PushRead(ev, pos) := s.threads[t];
    var pc := if s.SeqAt(pos) == pos then PushCas(ev, pos)
              else if s.SeqAt(pos) < pos then Idle else PushLoad(ev);
    GotoKeeps(s, t, pc);
  }

  lemma PushStepKeeps(s: State, t: nat, s': State)
    requires Inv(s) && t in s.threads && PushStep(s, t, s')
    ensures Inv(s')
  {
    match s.threads[t]
    case PushLoad(ev) => GotoKeeps(s, t, PushRead(ev, s.enq));
    case PushRead(ev, pos) => PushReadKeeps(s, t, s');
    case PushCas(ev, pos) =>
      if s' == s.Goto(t, PushRead(ev, s.enq)) { GotoKeeps(s, t, PushRead(ev, s.enq)); }
      else { PushClaimKeeps(s, t, ev, pos, s'); }
    case PushWrite(ev, pos) => PushWriteKeeps(s, t, ev, pos, s');
    case PushPublish(ev, pos) => PublishKeeps(s, t, ev, pos, s');
  }

  lemma PopReadKeeps(s: State, t: nat, s': State)
    requires Inv(s) && t in s.threads && s.threads[t].PopRead? && PopStep(s, t, s')
    ensures Inv(s')
  {
    assert ThreadOk(s, t, s.threads[t]);
    var PopRead(pos) := s.threads[t];
    var pc := if s.SeqAt(pos) == pos + 1 then PopCas(pos)
              else if s.SeqAt(pos) < pos + 1 then Idle else PopLoad;
    GotoKeeps(s, t, pc);
  }

  lemma PopStepKeeps(s: State, t: nat, s': State)
    requires Inv(s) && t in s.threads && PopStep(s, t, s')
    ensures Inv(s')
  {
    match s.threads[t]
    case PopLoad => GotoKeeps(s, t, PopRead(s.deq));
    case PopRead(pos) => PopReadKeeps(s, t, s');
    case PopCas(pos) =>
      if s' == s.Goto(t, PopRead(s.deq)) { GotoKeeps(s, t, PopRead(s.deq)); }
      else { PopClaimKeeps(s, t, pos, s'); }
    case PopTake(pos) => PopTakeKeeps(s, t, pos, s');
    case PopRelease(pos, ev) => PopReleaseKeeps(s, t, pos, ev, s');
  }

  lemma ThreadStepKeeps(s: State, t: nat, s': State)
    requires Inv(s) && ThreadStep(s, t, s')
    ensures Inv(s')
  {
    if PushStep(s, t, s') {
      PushStepKeeps(s, t, s');
    } else if PopStep(s, t, s') {
      PopStepKeeps(s, t, s');
    } else if s' == s.Goto(t, PopLoad) {
      GotoKeeps(s, t, PopLoad);
    } else {
      var ev :| s' == s.Goto(t, PushLoad(ev));
      GotoKeeps(s, t, PushLoad(ev));
    }
  }

  /** A run: steps of arbitrary threads, one after the other. */
  datatype Run = Start(last: State) | Then(before: Run, t: nat, last: State)

  ghost predicate IsRun(r: Run) {
    match r
    case Start(s) => Init(s)
    case Then(before, t, s) => IsRun(before) && ThreadStep(before.last, t, s)
  }

  lemma {:induction false} RunInv(r: Run)
    requires IsRun(r)
    ensures Inv(r.last)
  {
    match r
    case Start(s) => InitInv(s);
    case Then(before, t, s) =>
      RunInv(before);
      ThreadStepKeeps(before.last, t, s);
  }

  // ----- What every reachable state guarantees -----

  /** No ticket has two owners on the same side. */
  lemma TicketsExclusive(r: Run, t: nat, u: nat)
    requires IsRun(r)
    requires var s := r.last; t in s.threads && u in s.threads && t != u
    ensures var s := r.last;
      && (Producing(s.threads[t]) && Producing(s.threads[u]) ==> s.threads[t].pos != s.threads[u].pos)
      && (Consuming(s.threads[t]) && Consuming(s.threads[u]) ==> s.threads[t].pos != s.threads[u].pos)
  {
    RunInv(r);
    var s := r.last;
    assert ThreadOk(s, t, s.threads[t]) && ThreadOk(s, u, s.threads[u]);
  }

  /** A position read in the past: its cell has moved on. */
  lemma StaleCell(s: State, pos: nat)
    requires Inv(s) && pos < s.enq
    ensures s.SeqAt(pos) >= pos
    ensures pos < s.deq || Published(s, pos) ==> s.SeqAt(pos) > pos
  {
    var r := Lap(pos, s.enq - s.n, s.n);
    assert Slot(r + s.n, s.n) == Slot(r, s.n);
    assert TicketOk(s, r) && TicketOk(s, r + s.n);
  }

  /** Where an accepted event is while it is not delivered: with its producer, or
      in its cell, not read by its consumer. */
  ghost predicate Held(s: State, p: nat)
    requires s.Sized() && p < |s.accepted|
  {
    || (exists t :: t in s.threads && Producing(s.threads[t]) && s.threads[t].pos == p && s.threads[t].ev == s.accepted[p])
    || (s.SeqAt(p) == p + 1 && s.DataAt(p) == s.accepted[p] && !Releasing(s, p))
  }

  /** A consumer has read ticket p and is about to release the cell. */
  ghost predicate Releasing(s: State, p: nat) {
    exists t :: t in s.threads && s.threads[t].PopRelease? && s.threads[t].pos == p
  }

  lemma UndeliveredIsHeld(s: State, p: nat)
    requires Inv(s) && p < s.enq && p !in s.delivered
    ensures Held(s, p)
  {
    assert TicketOk(s, p);
    if p in s.unpublished {
      assert ThreadOk(s, s.unpublished[p], s.threads[s.unpublished[p]]);
    }
    forall t | t in s.threads && s.threads[t].PopRelease?
      ensures s.threads[t].pos != p
    {
      assert ThreadOk(s, t, s.threads[t]);
      assert s.threads[t].pos in s.delivered;
    }
  }

  /** The cell of a released ticket has gone on to a later lap. */
  lemma ReleasedCell(s: State, p: nat)
    requires Inv(s) && Released(s, p)
    ensures s.SeqAt(p) != p + 1
  {
    var r := Lap(p, s.enq - s.n, s.n);
    assert Slot(r + s.n, s.n) == Slot(r, s.n);
    assert TicketOk(s, r + s.n);
    if r > p { StaleCell(s, r); }
  }

  lemma DeliveredIsNotHeld(s: State, p: nat)
    requires Inv(s) && p in s.delivered
    ensures p < s.enq && !Held(s, p)
  {
    assert TicketOk(s, p);
    forall t | t in s.threads && Producing(s.threads[t])
      ensures s.threads[t].pos != p
    {
      assert ThreadOk(s, t, s.threads[t]);
      assert s.threads[t].pos in s.unpublished;
    }
    if p in s.unreleased {
      var t := s.unreleased[p];
      assert ThreadOk(s, t, s.threads[t]);
    } else {
      ReleasedCell(s, p);
    }
  }

  /** What the consumer of ticket p receives is the event that the producer of
      ticket p pushed; an accepted event is delivered or still held, and never
      both; and a consumer about to read its ticket is the first to do so. */
  lemma NothingLostOrDuplicated(r: Run)
    requires IsRun(r)
    ensures var s := r.last;
      && s.Sized() && |s.accepted| == s.enq
      && (forall p :: p in s.delivered ==> p < s.enq && s.delivered[p] == s.accepted[p])
      && (forall t :: t in s.threads && s.threads[t].PopRelease? ==>
            s.threads[t].pos < s.enq && s.threads[t].ev == s.accepted[s.threads[t].pos])
      && (forall t :: t in s.threads && s.threads[t].PopTake? ==> s.threads[t].pos !in s.delivered)
      && (forall p: nat :: p < s.enq ==> (p in s.delivered <==> !Held(s, p)))
  {
    RunInv(r);
    var s := r.last;
    forall p: nat | p < s.enq
      ensures p in s.delivered <==> !Held(s, p)
    {
      if p in s.delivered { DeliveredIsNotHeld(s, p); } else { UndeliveredIsHeld(s, p); }
    }
    forall t | t in s.threads && (s.threads[t].PopRelease? || s.threads[t].PopTake?)
      ensures s.threads[t].PopTake? ==> s.threads[t].pos !in s.delivered
      ensures s.threads[t].PopRelease? ==>
        s.threads[t].pos < s.enq && s.threads[t].ev == s.accepted[s.threads[t].pos]
    {
      assert ThreadOk(s, t, s.threads[t]);
    }
  }

  // ----- Each ticket once, over the whole run -----

  /** Thread t claims ticket p for an event. */
  predicate ClaimsPush(s: State, t: nat, s': State, p: nat) {
    && t in s.threads && t in s'.threads && s.threads[t].PushCas?
    && s'.threads[t].PushWrite? && s'.threads[t].pos == p
  }

  /** Thread t claims ticket p for itself. */
  predicate ClaimsPop(s: State, t: nat, s': State, p: nat) {
    && t in s.threads && t in s'.threads && s.threads[t].PopCas?
    && s'.threads[t].PopTake? && s'.threads[t].pos == p
  }

  /** Thread t reads the event of ticket p. */
  predicate Delivers(s: State, t: nat, s': State, p: nat) {
    && t in s.threads && t in s'.threads && s.threads[t].PopTake?
    && s'.threads[t].PopRelease? && s'.threads[t].pos == p
  }

  function Bit(b: bool): nat {
    if b then 1 else 0
  }

  /** How often ticket p has been claimed by producers in the run. */
  function PushClaims(r: Run, p: nat): nat {
    if r.Start? then 0 else PushClaims(r.before, p) + Bit(ClaimsPush(r.before.last, r.t, r.last, p))
  }

  /** How often ticket p has been claimed by consumers in the run. */
  function PopClaims(r: Run, p: nat): nat {
    if r.Start? then 0 else PopClaims(r.before, p) + Bit(ClaimsPop(r.before.last, r.t, r.last, p))
  }

  /** How often the event of ticket p has been read in the run. */
  function DeliveryCount(r: Run, p: nat): nat {
    if r.Start? then 0 else DeliveryCount(r.before, p) + Bit(Delivers(r.before.last, r.t, r.last, p))
  }

  /** A producer claims the next ticket, and no other step moves enqueue_pos. */
  lemma PushClaimStep(s: State, t: nat, s': State, p: nat)
    requires ThreadStep(s, t, s')
    ensures ClaimsPush(s, t, s', p) <==> s.enq == p && s'.enq == p + 1
    ensures s'.enq == s.enq || s'.enq == s.enq + 1
  {
  }

  /** A consumer claims the next ticket, and no other step moves dequeue_pos. */
  lemma PopClaimStep(s: State, t: nat, s': State, p: nat)
    requires ThreadStep(s, t, s')
    ensures ClaimsPop(s, t, s', p) <==> s.deq == p && s'.deq == p + 1
    ensures s'.deq == s.deq || s'.deq == s.deq + 1
  {
  }

  /** An event is read by a consumer that finds its ticket undelivered. */
  lemma DeliveryStep(s: State, t: nat, s': State, p: nat)
    requires Inv(s) && ThreadStep(s, t, s')
    ensures Delivers(s, t, s', p) <==> p !in s.delivered && p in s'.delivered
    ensures p in s.delivered ==> p in s'.delivered
  {
    assert ThreadOk(s, t, s.threads[t]);
    DeliveredBy(s, t, s');
  }

  /** Only the read of a consumer delivers, and it delivers its own ticket. */
  lemma DeliveredBy(s: State, t: nat, s': State)
    requires ThreadStep(s, t, s')
    ensures if s.threads[t].PopTake? && t in s'.threads && s'.threads[t].PopRelease?
            then s'.delivered.Keys == s.delivered.Keys + {s.threads[t].pos} && s'.threads[t].pos == s.threads[t].pos
            else s'.delivered == s.delivered
  {
    if PushStep(s, t, s') { PushDelivers(s, t, s'); } else if PopStep(s, t, s') { PopDelivers(s, t, s'); }
  }

  lemma PushDelivers(s: State, t: nat, s': State)
    requires s.Sized() && t in s.threads && PushStep(s, t, s')
    ensures s'.delivered == s.delivered && !s.threads[t].PopTake?
  {
  }

  lemma PopDelivers(s: State, t: nat, s': State)
    requires s.Sized() && t in s.threads && PopStep(s, t, s')
    ensures if s.threads[t].PopTake?
            then s'.delivered.Keys == s.delivered.Keys + {s.threads[t].pos} && t in s'.threads &&
                 s'.threads[t].PopRelease? && s'.threads[t].pos == s.threads[t].pos
            else s'.delivered == s.delivered
  {
  }

  /** In every run each ticket is claimed once by a producer and once by a
      consumer, if enqueue_pos and dequeue_pos have passed it, and its event is
      read once at most. */
  lemma {:induction false} EachTicketOnce(r: Run, p: nat)
    requires IsRun(r)
    ensures PushClaims(r, p) == Bit(p < r.last.enq) && PopClaims(r, p) == Bit(p < r.last.deq)
    ensures DeliveryCount(r, p) == Bit(p in r.last.delivered)
  {
    match r
    case Start(_) =>
    case Then(before, t, s) =>
      EachTicketOnce(before, p);
      RunInv(before);
      PushClaimStep(before.last, t, s, p);
      PopClaimStep(before.last, t, s, p);
      DeliveryStep(before.last, t, s, p);
  }

  // ----- What a call makes of the number in its cell -----

  /** A push at position pos finds the cell still taken one lap earlier. */
  predicate IsFull(s: State, pos: nat) {
    pos == s.enq && pos >= s.n && !Released(s, pos - s.n)
  }

  /** A push at position pos may try to claim it: it is current and the cell is
      cleared, or another producer has just claimed it and not yet published. */
  predicate IsFree(s: State, pos: nat) {
    (pos == s.enq && Cleared(s, pos)) || pos in s.unpublished
  }

  lemma PushSees(s: State, pos: nat)
    requires Inv(s) && pos <= s.enq
    ensures s.SeqAt(pos) < pos <==> IsFull(s, pos)
    ensures s.SeqAt(pos) == pos <==> IsFree(s, pos)
  {
    assert TicketOk(s, pos);
    if pos < s.enq {
      StaleCell(s, pos);
    } else {
      if pos >= s.n { assert TicketOk(s, pos - s.n); }
    }
  }

  /** A pop at position pos finds nothing published there. */
  predicate IsEmpty(s: State, pos: nat) {
    pos == s.deq && !Published(s, pos)
  }

  /** A pop at position pos may try to claim it: it is current and published, or
      another consumer has just claimed it and not yet released it. */
  predicate IsReady(s: State, pos: nat) {
    (pos == s.deq && Published(s, pos)) || pos in s.unreleased
  }

  lemma PopSees(s: State, pos: nat)
    requires Inv(s) && pos <= s.deq
    ensures s.SeqAt(pos) < pos + 1 <==> IsEmpty(s, pos)
    ensures s.SeqAt(pos) == pos + 1 <==> IsReady(s, pos)
  {
    assert TicketOk(s, pos);
    if pos < s.deq {
      StaleCell(s, pos);
      if Released(s, pos) { ReleasedCell(s, pos); }
    } else {
      if pos < s.enq { StaleCell(s, pos); }
      if pos >= s.n { assert TicketOk(s, pos - s.n); }
    }
  }

  /** The position that a thread works on is not beyond the counter of its side. */
  lemma Reading(s: State, t: nat)
    requires Inv(s) && t in s.threads
    ensures s.threads[t].PushRead? ==> s.threads[t].pos <= s.enq
    ensures s.threads[t].PopRead? ==> s.threads[t].pos <= s.deq
  {
    assert ThreadOk(s, t, s.threads[t]);
  }

  lemma PushReadStep(s: State, t: nat, s': State)
    requires ThreadStep(s, t, s') && s.threads[t].PushRead?
    ensures var PushRead(ev, pos) := s.threads[t];
      s' == s.Goto(t, if s.SeqAt(pos) < pos then Idle else if s.SeqAt(pos) == pos then PushCas(ev, pos) else PushLoad(ev))
  {
  }

  lemma PopReadStep(s: State, t: nat, s': State)
    requires ThreadStep(s, t, s') && s.threads[t].PopRead?
    ensures var pos := s.threads[t].pos;
      s' == s.Goto(t, if s.SeqAt(pos) < pos + 1 then Idle else if s.SeqAt(pos) == pos + 1 then PopCas(pos) else PopLoad)
  {
  }

  /** In every run, a push that has looked at its cell returns false exactly when
      its position is current and the ticket one lap earlier is not yet released;
      it goes on to claim the position exactly when the cell is free for it; and
      otherwise, being out of date, it starts again. It changes nothing else. */
  lemma PushOutcome(r: Run)
    requires IsRun(r) && r.Then? && r.t in r.before.last.threads && r.before.last.threads[r.t].PushRead?
    ensures var s := r.before.last;
      var PushRead(ev, pos) := s.threads[r.t];
      r.last == s.Goto(r.t, if IsFull(s, pos) then Idle else if IsFree(s, pos) then PushCas(ev, pos) else PushLoad(ev))
  {
    var s := r.before.last;
    RunInv(r.before);
    Reading(s, r.t);
    PushSees(s, s.threads[r.t].pos);
    PushReadStep(s, r.t, r.last);
  }

  /** In every run, a pop that has looked at its cell returns false exactly when
      its position is current and nothing is published there; it goes on to claim
      the position exactly when an event is ready; and otherwise it starts again. */
  lemma PopOutcome(r: Run)
    requires IsRun(r) && r.Then? && r.t in r.before.last.threads && r.before.last.threads[r.t].PopRead?
    ensures var s := r.before.last;
      var pos := s.threads[r.t].pos;
      r.last == s.Goto(r.t, if IsEmpty(s, pos) then Idle else if IsReady(s, pos) then PopCas(pos) else PopLoad)
  {
    var s := r.before.last;
    RunInv(r.before);
    Reading(s, r.t);
    PopSees(s, s.threads[r.t].pos);
    PopReadStep(s, r.t, r.last);
  }

  /** The comparison by which a push reports full holds exactly when its position
      is current and the ticket one lap earlier is taken and not yet released. */
  lemma FullExactly(r: Run, t: nat)
    requires IsRun(r) && t in r.last.threads && r.last.threads[t].PushRead?
    ensures var s := r.last;
      var pos := s.threads[t].pos;
      && s.Sized()
      && (s.SeqAt(pos) < pos <==> pos == s.enq && pos >= s.n && !Released(s, pos - s.n))
  {
    RunInv(r);
    Reading(r.last, t);
    PushSees(r.last, r.last.threads[t].pos);
  }

  /** The comparison by which a pop reports empty holds exactly when its position
      is current and no event has been published there. */
  lemma EmptyExactly(r: Run, t: nat)
    requires IsRun(r) && t in r.last.threads && r.last.threads[t].PopRead?
    ensures var s := r.last;
      var pos := s.threads[t].pos;
      && s.Sized()
      && (s.SeqAt(pos) < pos + 1 <==> pos == s.deq && !Published(s, pos))
  {
    RunInv(r);
    Reading(r.last, t);
    PopSees(r.last, r.last.threads[t].pos);
  }

  // ----- A call that is left alone -----

  /** r' goes on from r by steps of thread t only. */
  ghost predicate Alone(r: Run, t: nat, r': Run)
    decreases r'
  {
    r' == r || (r'.Then? && r'.t == t && Alone(r, t, r'.before))
  }

  lemma AloneStep(r0: Run, t: nat, r: Run, s: State) returns (r': Run)
    requires IsRun(r) && Alone(r0, t, r) && ThreadStep(r.last, t, s)
    ensures IsRun(r') && Alone(r0, t, r') && r'.last == s
  {
    r' := Then(r, t, s);
  }

  /** Thread t is at pc, in a run that goes on from r0 by its steps only. */
  ghost predicate At(r0: Run, t: nat, r: Run, pc: Pc) {
    IsRun(r) && Alone(r0, t, r) && r.last.Sized() && t in r.last.threads && r.last.threads[t] == pc
  }

  lemma Advance(r0: Run, t: nat, r: Run, pc: Pc, s: State, pc': Pc) returns (r': Run)
    requires At(r0, t, r, pc) && ThreadStep(r.last, t, s) && t in s.threads && s.threads[t] == pc'
    ensures At(r0, t, r', pc') && r'.last == s
  {
    r' := AloneStep(r0, t, r, s);
    RunInv(r');
  }

  lemma Calls(r: Run, t: nat, pc: Pc) returns (r': Run)
    requires IsRun(r) && t in r.last.threads && r.last.threads[t] == Idle && (pc == PopLoad || pc.PushLoad?)
    ensures At(r, t, r', pc) && r'.last == r.last.Goto(t, pc)
  {
    RunInv(r);
    r' := Advance(r, t, r, Idle, r.last.Goto(t, pc), pc);
  }

  lemma GotoTwice(s: State, t: nat, pc: Pc, pc': Pc)
    ensures s.Goto(t, pc).Goto(t, pc') == s.Goto(t, pc')
    ensures t in s.threads && s.threads[t] == pc' ==> s.Goto(t, pc') == s
  {
    assert s.threads[t := pc][t := pc'] == s.threads[t := pc'];
    assert t in s.threads && s.threads[t] == pc' ==> s.threads[t := pc'] == s.threads;
  }

  /** The call and the load of the position. */
  lemma SoloPushLoad(r: Run, t: nat, ev: SpikeEvent) returns (r': Run)
    requires IsRun(r) && t in r.last.threads && r.last.threads[t] == Idle
    ensures At(r, t, r', PushRead(ev, r.last.enq)) && r'.last == r.last.Goto(t, PushRead(ev, r.last.enq))
  {
    r' := Calls(r, t, PushLoad(ev));
    GotoTwice(r.last, t, PushLoad(ev), PushRead(ev, r.last.enq));
    r' := Advance(r, t, r', PushLoad(ev), r.last.Goto(t, PushRead(ev, r.last.enq)), PushRead(ev, r.last.enq));
  }

  lemma SoloPopLoad(r: Run, t: nat) returns (r': Run)
    requires IsRun(r) && t in r.last.threads && r.last.threads[t] == Idle
    ensures At(r, t, r', PopRead(r.last.deq)) && r'.last == r.last.Goto(t, PopRead(r.last.deq))
  {
    r' := Calls(r, t, PopLoad);
    GotoTwice(r.last, t, PopLoad, PopRead(r.last.deq));
    r' := Advance(r, t, r', PopLoad, r.last.Goto(t, PopRead(r.last.deq)), PopRead(r.last.deq));
  }

  lemma SoloPushRead(r0: Run, t: nat, r: Run, ev: SpikeEvent, pos: nat) returns (r': Run)
    requires At(r0, t, r, PushRead(ev, pos)) && (IsFull(r.last, pos) || IsFree(r.last, pos))
    ensures var pc := if IsFull(r.last, pos) then Idle else PushCas(ev, pos);
      At(r0, t, r', pc) && r'.last == r.last.Goto(t, pc)
  {
    RunInv(r);
    Reading(r.last, t);
    PushSees(r.last, pos);
    var pc := if IsFull(r.last, pos) then Idle else PushCas(ev, pos);
    r' := Advance(r0, t, r, PushRead(ev, pos), r.last.Goto(t, pc), pc);
  }

  lemma SoloPushClaim(r0: Run, t: nat, r: Run, ev: SpikeEvent, pos: nat) returns (r': Run)
    requires At(r0, t, r, PushCas(ev, pos)) && r.last.enq == pos
    ensures At(r0, t, r', PushWrite(ev, pos)) && r'.last.enq == pos + 1 && r'.last.accepted == r.last.accepted + [ev]
  {
    var s := r.last;
    var s' := s.Goto(t, PushWrite(ev, pos)).(
      enq := pos + 1, accepted := s.accepted + [ev], unpublished := s.unpublished[pos := t]);
    r' := Advance(r0, t, r, PushCas(ev, pos), s', PushWrite(ev, pos));
  }

  lemma SoloPushWrite(r0: Run, t: nat, r: Run, ev: SpikeEvent, pos: nat) returns (r': Run)
    requires At(r0, t, r, PushWrite(ev, pos))
    ensures At(r0, t, r', PushPublish(ev, pos)) && r'.last.enq == r.last.enq && r'.last.accepted == r.last.accepted
  {
    var s := r.last;
    var s' := s.Goto(t, PushPublish(ev, pos)).(data := s.data[Slot(pos, s.n) := ev]);
    r' := Advance(r0, t, r, PushWrite(ev, pos), s', PushPublish(ev, pos));
  }

  lemma SoloPushPublish(r0: Run, t: nat, r: Run, ev: SpikeEvent, pos: nat) returns (r': Run)
    requires At(r0, t, r, PushPublish(ev, pos))
    ensures At(r0, t, r', Idle) && r'.last.enq == r.last.enq && r'.last.accepted == r.last.accepted
    ensures pos !in r'.last.unpublished
  {
    var s := r.last;
    var s' := s.Goto(t, Idle).(seqs := s.seqs[Slot(pos, s.n) := pos + 1], unpublished := s.unpublished - {pos});
    r' := Advance(r0, t, r, PushPublish(ev, pos), s', Idle);
  }

  /** From every reachable state, a push that is left alone can go through: its
      event is accepted and published, or, when the queue is full, nothing changes. */
  lemma SoloPush(r: Run, t: nat, ev: SpikeEvent) returns (r': Run)
    requires IsRun(r) && t in r.last.threads && r.last.threads[t] == Idle
    ensures At(r, t, r', Idle)
    ensures if IsFull(r.last, r.last.enq) then r'.last == r.last
      else r'.last.accepted == r.last.accepted + [ev] && Published(r'.last, r.last.enq)
  {
    var pos := r.last.enq;
    r' := SoloPushLoad(r, t, ev);
    r' := SoloPushRead(r, t, r', ev, pos);
    if IsFull(r.last, pos) {
      GotoTwice(r.last, t, PushRead(ev, pos), Idle);
    } else {
      r' := SoloPushClaim(r, t, r', ev, pos);
      r' := SoloPushWrite(r, t, r', ev, pos);
      r' := SoloPushPublish(r, t, r', ev, pos);
    }
  }

  lemma SoloPopRead(r0: Run, t: nat, r: Run, pos: nat) returns (r': Run)
    requires At(r0, t, r, PopRead(pos)) && (IsEmpty(r.last, pos) || IsReady(r.last, pos))
    ensures var pc := if IsEmpty(r.last, pos) then Idle else PopCas(pos);
      At(r0, t, r', pc) && r'.last == r.last.Goto(t, pc)
  {
    RunInv(r);
    Reading(r.last, t);
    PopSees(r.last, pos);
    var pc := if IsEmpty(r.last, pos) then Idle else PopCas(pos);
    r' := Advance(r0, t, r, PopRead(pos), r.last.Goto(t, pc), pc);
  }

  lemma SoloPopClaim(r0: Run, t: nat, r: Run, pos: nat) returns (r': Run)
    requires At(r0, t, r, PopCas(pos)) && r.last.deq == pos
    ensures At(r0, t, r', PopTake(pos)) && r'.last.deq == pos + 1
    ensures r'.last.accepted == r.last.accepted && r'.last.delivered == r.last.delivered
  {
    var s := r.last;
    var s' := s.Goto(t, PopTake(pos)).(deq := pos + 1, unreleased := s.unreleased[pos := t]);
    r' := Advance(r0, t, r, PopCas(pos), s', PopTake(pos));
  }

  lemma SoloPopTake(r0: Run, t: nat, r: Run, pos: nat) returns (r': Run, ev: SpikeEvent)
    requires At(r0, t, r, PopTake(pos))
    ensures At(r0, t, r', PopRelease(pos, ev)) && r'.last.deq == r.last.deq
    ensures pos < |r.last.accepted| && ev == r.last.accepted[pos] && r'.last.delivered == r.last.delivered[pos := ev]
  {
    var s := r.last;
    RunInv(r);
    assert ThreadOk(s, t, s.threads[t]) && TicketOk(s, pos);
    ev := s.DataAt(pos);
    var s' := s.Goto(t, PopRelease(pos, ev)).(delivered := s.delivered[pos := ev]);
    r' := Advance(r0, t, r, PopTake(pos), s', PopRelease(pos, ev));
  }

  lemma ReleaseStep(s: State, t: nat, pos: nat, ev: SpikeEvent) returns (s': State)
    requires s.Sized() && t in s.threads && s.threads[t] == PopRelease(pos, ev)
    ensures ThreadStep(s, t, s') && t in s'.threads && s'.threads[t] == Idle && pos !in s'.unreleased
    ensures s'.deq == s.deq && s'.delivered == s.delivered
  {
    s' := s.Goto(t, Idle).(seqs := s.seqs[Slot(pos, s.n) := pos + s.n], unreleased := s.unreleased - {pos});
    assert PopStep(s, t, s');
  }

  lemma SoloPopRelease(r0: Run, t: nat, r: Run, pos: nat, ev: SpikeEvent) returns (r': Run)
    requires At(r0, t, r, PopRelease(pos, ev))
    ensures At(r0, t, r', Idle) && r'.last.deq == r.last.deq && r'.last.delivered == r.last.delivered
    ensures pos !in r'.last.unreleased
  {
    var s' := ReleaseStep(r.last, t, pos, ev);
    r' := Advance(r0, t, r, PopRelease(pos, ev), s', Idle);
  }

  /** From every reachable state, a pop that is left alone can go through: it
      takes the oldest event and clears its cell, or, when nothing is published
      there, nothing changes. */
  lemma SoloPop(r: Run, t: nat) returns (r': Run)
    requires IsRun(r) && t in r.last.threads && r.last.threads[t] == Idle
    ensures At(r, t, r', Idle)
    ensures if IsEmpty(r.last, r.last.deq) then r'.last == r.last
      else r.last.deq < |r.last.accepted| && Released(r'.last, r.last.deq) &&
           r'.last.delivered == r.last.delivered[r.last.deq := r.last.accepted[r.last.deq]]
  {
    var pos := r.last.deq;
    r' := SoloPopLoad(r, t);
    r' := SoloPopRead(r, t, r', pos);
    if IsEmpty(r.last, pos) {
      GotoTwice(r.last, t, PopRead(pos), Idle);
    } else {
      r' := SoloPopClaim(r, t, r', pos);
      var ev;
      r', ev := SoloPopTake(r, t, r', pos);
      r' := SoloPopRelease(r, t, r', pos, ev);
    }
  }
}
