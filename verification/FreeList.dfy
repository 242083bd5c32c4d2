/** Lock-free neurogenesis: the tagged free stack and the arena claim of
    `spawn` and `kill`, as a machine whose steps are the single loads, stores
    and compare-and-swaps of the two operations. */
module FreeList {

  /** The packed word `free_head`: the empty sentinel, or a tag and a node id. */
  datatype Head = Empty | Top(tag: nat, id: nat)
  {
    /** The id a push links to; -1 for the empty stack. */
    function Link(): int {
      if Empty? then -1 else id
    }

    /** The word a push of k installs. The sentinel has all bits set, so its
        tag wraps: the first push after an emptying restarts the tag at 0. */
    function Pushed(k: nat): Head {
      if Empty? then Top(0, k) else Top(tag + 1, k)
    }

    /** The word a pop installs when it has read `next` as the link of the top:
        popping the last node stores the sentinel, and with it loses the tag. */
    function Popped(next: int): Head
      requires Top?
    {
      if next < 0 then Empty else Top(tag + 1, next)
    }
  }

  /** Where a thread is. `era` is the number of emptyings that had happened when
      the thread loaded the head; the program has no such variable. */
  datatype Pc =
    | Idle
    | SpawnStart                                        // about to load free_head
    | SpawnNext(tag: nat, id: nat, era: nat)            // about to load free_next[id]
    | SpawnCas(tag: nat, id: nat, next: int, era: nat)  // about to swap the head
    | SpawnInit(own: nat)                               // popped `own`, about to return it
    | SpawnClaim                                        // about to fetch_add node_count
    | SpawnFresh(own: nat)                              // claimed `own` from the arena
    | SpawnUndo                                         // overshot, about to fetch_sub
    | KillStart(own: nat)                               // about to load free_head
    | KillLink(own: nat, head: Head)                    // about to store free_next[own]
    | KillCas(own: nat, head: Head)                     // about to swap the head

  predicate Owning(pc: Pc) {
    pc.SpawnInit? || pc.SpawnFresh? || pc.KillStart? || pc.KillLink? || pc.KillCas?
  }

  /** Shared memory, the threads, and the history: the ids in use (`live`), the
      ids in the hands of a running operation (`held`, with the thread), the ids
      ever claimed from the arena (those below `claimed`), the threads that
      still have to undo an overshoot, the free chain from the top, and the
      number of emptyings so far. */
  datatype State = State(
    next: seq<int>, head: Head, nodeCount: nat, threads: map<nat, Pc>,
    live: set<nat>, held: map<nat, nat>, claimed: nat, undoing: set<nat>, chain: seq<nat>, era: nat)
  {
    function Goto(t: nat, pc: Pc): State {
      this.(threads := threads[t := pc])
    }

    /** The program point a spawn reaches by loading the head. */
    function AfterLoad(): Pc {
      if head.Empty? then SpawnClaim else SpawnNext(head.tag, head.id, era)
    }
  }

  /** After `init`: the first nodes are in use, the free stack is empty. */
  ghost predicate Init(s: State, initial: nat) {
    && initial <= |s.next| && s.nodeCount == s.claimed == initial
    && s.head == Empty && s.chain == [] && s.era == 0
    && (forall i: nat :: i in s.live <==> i < initial)
    && s.held == map[] && s.undoing == {}
    && forall t :: t in s.threads ==> s.threads[t] == Idle
  }

  /** A pop swaps the head; the successor is what the thread read earlier. */
  function PopSwap(s: State, t: nat): State
    requires t in s.threads && s.threads[t].SpawnCas? && s.head.Top?
    requires s.chain != []
  {
    var pc := s.threads[t];
    s.Goto(t, SpawnInit(pc.id)).(
      head := s.head.Popped(pc.next), held := s.held[pc.id := t], chain := s.chain[1..],
      era := if pc.next < 0 then s.era + 1 else s.era)
  }

  function PushSwap(s: State, t: nat): State
    requires t in s.threads && s.threads[t].KillCas?
  {
    var k := s.threads[t].own;
    s.Goto(t, Idle).(head := s.head.Pushed(k), held := s.held - {k}, chain := [k] + s.chain)
  }

  ghost predicate SpawnStep(s: State, t: nat, s': State)
    requires t in s.threads
  {
    match s.threads[t]
    case SpawnStart =>
      s' == s.Goto(t, s.AfterLoad())
    case SpawnNext(tag, id, era) =>
      id < |s.next| && s' == s.Goto(t, SpawnCas(tag, id, s.next[id], era))
    case SpawnCas(tag, id, next, era) =>
      // a weak compare-and-swap may also fail spuriously; a failure reloads the head
      || s' == s.Goto(t, s.AfterLoad())
      || (s.head == Top(tag, id) && s.chain != [] && s' == PopSwap(s, t))
    case SpawnInit(id) =>
      s' == s.Goto(t, Idle).(held := s.held - {id}, live := s.live + {id})
    case SpawnClaim =>
      if s.nodeCount >= |s.next|
      then s' == s.Goto(t, SpawnUndo).(nodeCount := s.nodeCount + 1, undoing := s.undoing + {t})
      else s' == s.Goto(t, SpawnFresh(s.nodeCount)).(
             nodeCount := s.nodeCount + 1, claimed := s.claimed + 1, held := s.held[s.nodeCount := t])
    case SpawnFresh(id) =>
      id < |s.next| &&
      s' == s.Goto(t, Idle).(next := s.next[id := -1], held := s.held - {id}, live := s.live + {id})
    case SpawnUndo =>
      s.nodeCount > 0 && s' == s.Goto(t, Idle).(nodeCount := s.nodeCount - 1, undoing := s.undoing - {t})
    case _ => false
  }

  ghost predicate KillStep(s: State, t: nat, s': State)
    requires t in s.threads
  {
    match s.threads[t]
    case KillStart(k) =>
      s' == s.Goto(t, KillLink(k, s.head))
    case KillLink(k, head) =>
      k < |s.next| && s' == s.Goto(t, KillCas(k, head)).(next := s.next[k := head.Link()])
    case KillCas(k, head) =>
      || s' == s.Goto(t, KillLink(k, s.head))
      || (s.head == head && s' == PushSwap(s, t))
    case _ => false
  }

  /** An idle thread calls `spawn`, or kills a node that is in use, which it
      thereby gives up: no id is killed twice. */
  ghost predicate CallStep(s: State, t: nat, s': State)
    requires t in s.threads
  {
    && s.threads[t] == Idle
    && (|| s' == s.Goto(t, SpawnStart)
        || exists k :: k in s.live && s' == s.Goto(t, KillStart(k)).(live := s.live - {k}, held := s.held[k := t]))
  }

  ghost predicate ThreadStep(s: State, t: nat, s': State) {
    t in s.threads && (SpawnStep(s, t, s') || KillStep(s, t, s') || CallStep(s, t, s'))
  }

  // ----- The invariant -----

  /** The links from the head visit exactly the nodes of the chain, each once. */
  ghost predicate ChainOk(s: State) {
    && (s.chain == [] <==> s.head.Empty?)
    && (s.chain != [] ==> s.head.id == s.chain[0])
    && (forall i :: 0 <= i < |s.chain| ==> s.chain[i] < |s.next|)
    && (forall i :: 0 <= i < |s.chain| - 1 ==> s.next[s.chain[i]] == s.chain[i + 1])
    && (s.chain != [] ==> s.next[s.chain[|s.chain| - 1]] < 0)
    && (forall i, j :: 0 <= i < j < |s.chain| ==> s.chain[i] != s.chain[j])
  }

  /** Free, used and held ids are disjoint and come from the claimed part of the arena. */
  ghost predicate Partition(s: State) {
    && s.claimed <= |s.next|
    && (forall i :: i in s.chain ==> i !in s.live && i !in s.held && i < s.claimed)
    && (forall i :: i in s.live ==> i !in s.held && i < s.claimed)
    && (forall i :: i in s.held ==> i < s.claimed)
  }

  ghost predicate CountOk(s: State) {
    && s.nodeCount == s.claimed + |s.undoing|
    && (s.undoing != {} ==> s.claimed == |s.next|)
    && (forall t :: t in s.undoing ==> t in s.threads && s.threads[t] == SpawnUndo)
  }

  /** What a thread that read Top(tag, id) in `era` may rely on. */
  ghost predicate Loaded(s: State, tag: nat, id: nat, era: nat) {
    && id < |s.next|
    && era <= s.era
    && (era == s.era ==> s.head.Top? && (tag < s.head.tag || s.head == Top(tag, id)))
  }

  ghost predicate ThreadOk(s: State, t: nat, pc: Pc) {
    && (Owning(pc) ==> pc.own in s.held && s.held[pc.own] == t && pc.own < |s.next|)
    && match pc
       case SpawnNext(tag, id, era) => Loaded(s, tag, id, era)
       case SpawnCas(tag, id, next, era) =>
         && Loaded(s, tag, id, era)
         && (era == s.era && s.head == Top(tag, id) ==> next == s.next[id])
       case SpawnUndo => t in s.undoing
       case KillCas(k, head) => s.next[k] == head.Link()
       case _ => true
  }

  ghost predicate Inv(s: State) {
    && ChainOk(s)
    && Partition(s)
    && CountOk(s)
    && forall t :: t in s.threads ==> ThreadOk(s, t, s.threads[t])
  }

  lemma InitInv(s: State, initial: nat)
    requires Init(s, initial)
    ensures Inv(s)
  {
  }

  // ----- Every step keeps the invariant, a pop under a condition -----

  /** Thread t's swap takes the head although the stack was emptied between its
      load and its swap. */
  ghost predicate StalePop(s: State, t: nat, s': State) {
    && t in s.threads && s.threads[t].SpawnCas? && s.head.Top? && s.chain != []
    && s' == PopSwap(s, t)
    && s.threads[t].era != s.era
  }

  /** Thread t's swap takes the head. */
  ghost predicate Pops(s: State, t: nat, s': State) {
    && t in s.threads && s.threads[t].SpawnCas? && s.chain != []
    && s.head == Top(s.threads[t].tag, s.threads[t].id) && s.threads[t].id < |s.next|
    && s' == PopSwap(s, t)
  }

  /** The link that thread t has read still is the link of its node, as far as
      the head it would install can tell. */
  ghost predicate LinkCurrent(s: State, t: nat)
    requires t in s.threads && s.threads[t].SpawnCas? && s.threads[t].id < |s.next| && s.head.Top?
  {
    s.head.Popped(s.threads[t].next) == s.head.Popped(s.next[s.threads[t].id])
  }

  lemma GotoKeeps(s: State, t: nat, pc: Pc)
    requires Inv(s) && t in s.threads && ThreadOk(s, t, pc) && s.threads[t] != SpawnUndo
    ensures Inv(s.Goto(t, pc))
  {
    var s' := s.Goto(t, pc);
    forall u | u in s'.threads
      ensures ThreadOk(s', u, s'.threads[u])
    {
      assert u == t || ThreadOk(s, u, s.threads[u]);
    }
  }

  /** Taking the head leaves a proper stack exactly when the link is current. */
  lemma PopSwapChain(s: State, t: nat)
    requires ChainOk(s) && t in s.threads && s.threads[t].SpawnCas? && s.chain != []
    requires s.head == Top(s.threads[t].tag, s.threads[t].id)
    ensures ChainOk(PopSwap(s, t)) <==> LinkCurrent(s, t)
  {
    var s' := PopSwap(s, t);
    var link := s.next[s.chain[0]];
    if |s.chain| == 1 {
      assert s'.chain == [];
    } else {
      assert link == s.chain[1] == s'.chain[0];
      assert forall i :: 0 <= i < |s'.chain| ==> s'.chain[i] == s.chain[i + 1];
      assert s'.chain[|s'.chain| - 1] == s.chain[|s.chain| - 1];
    }
  }

  lemma PopSwapKeeps(s: State, t: nat)
    requires Inv(s) && t in s.threads && s.threads[t].SpawnCas? && s.chain != []
    requires s.head == Top(s.threads[t].tag, s.threads[t].id) && LinkCurrent(s, t)
    ensures Inv(PopSwap(s, t))
  {
    var s' := PopSwap(s, t);
    assert ThreadOk(s, t, s.threads[t]);
    PopSwapChain(s, t);
    assert forall i :: i in s'.chain ==> i in s.chain && i != s.chain[0];
    forall u | u in s'.threads
      ensures ThreadOk(s', u, s'.threads[u])
    {
      assert u == t || ThreadOk(s, u, s.threads[u]);
    }
  }

  /** In a reachable state, a pop keeps the invariant if and only if the link it
      has read is current. */
  lemma PopKeepsExactly(s: State, t: nat)
    requires Inv(s) && t in s.threads && s.threads[t].SpawnCas?
    requires s.head == Top(s.threads[t].tag, s.threads[t].id)
    ensures s.chain != [] && s.threads[t].id < |s.next|
    ensures Inv(PopSwap(s, t)) <==> LinkCurrent(s, t)
  {
    PopSwapChain(s, t);
    if LinkCurrent(s, t) { PopSwapKeeps(s, t); }
  }

  lemma PushSwapKeeps(s: State, t: nat)
    requires Inv(s) && t in s.threads && s.threads[t].KillCas? && s.head == s.threads[t].head
    ensures Inv(PushSwap(s, t))
  {
    var s' := PushSwap(s, t);
    assert ThreadOk(s, t, s.threads[t]);
    assert s'.chain[1..] == s.chain;
    forall u | u in s'.threads
      ensures ThreadOk(s', u, s'.threads[u])
    {
      assert u == t || ThreadOk(s, u, s.threads[u]);
    }
  }

  lemma ClaimKeeps(s: State, t: nat, s': State)
    requires Inv(s) && t in s.threads && s.threads[t] == SpawnClaim && SpawnStep(s, t, s')
    ensures Inv(s')
  {
    ClaimCounts(s, t, s');
    forall u | u in s'.threads
      ensures ThreadOk(s', u, s'.threads[u])
    {
      assert u == t || ThreadOk(s, u, s.threads[u]);
    }
  }

  lemma ClaimCounts(s: State, t: nat, s': State)
    requires Partition(s) && CountOk(s) && t in s.threads && s.threads[t] == SpawnClaim && SpawnStep(s, t, s')
    ensures CountOk(s') && s.claimed <= s'.claimed <= |s'.next| && (s'.threads[t].SpawnFresh? ==> s.nodeCount == s.claimed)
  {
    assert t !in s.undoing;
  }

  lemma UndoKeeps(s: State, t: nat, s': State)
    requires Inv(s) && t in s.threads && s.threads[t] == SpawnUndo && SpawnStep(s, t, s')
    ensures Inv(s')
  {
    assert ThreadOk(s, t, s.threads[t]);
    forall u | u in s'.threads
      ensures ThreadOk(s', u, s'.threads[u])
    {
      assert u == t || ThreadOk(s, u, s.threads[u]);
    }
  }

  /** Writing the link of a node outside the chain leaves the chain alone. */
  lemma OutsideWrite(s: State, k: nat, link: int, s': State)
    requires ChainOk(s) && k < |s.next| && k !in s.chain
    requires s'.next == s.next[k := link] && s'.head == s.head && s'.chain == s.chain
    ensures ChainOk(s')
  {
    assert forall i :: 0 <= i < |s.chain| ==> s.chain[i] in s.chain;
  }

  /** A spawn returns: the id was in no one else's hands, not free and not in use. */
  lemma ReturnKeeps(s: State, t: nat, s': State)
    requires Inv(s) && t in s.threads && (s.threads[t].SpawnInit? || s.threads[t].SpawnFresh?) && SpawnStep(s, t, s')
    ensures Inv(s')
  {
    var k := s.threads[t].own;
    assert ThreadOk(s, t, s.threads[t]);
    if s.threads[t].SpawnFresh? { OutsideWrite(s, k, -1, s'); }
    ReturnThreads(s, t, s');
  }

  lemma ReturnThreads(s: State, t: nat, s': State)
    requires Inv(s) && t in s.threads && (s.threads[t].SpawnInit? || s.threads[t].SpawnFresh?) && SpawnStep(s, t, s')
    ensures forall u :: u in s'.threads ==> ThreadOk(s', u, s'.threads[u])
  {
    assert ThreadOk(s, t, s.threads[t]);
    assert s.head.Top? ==> s.head.id in s.chain;
    forall u | u in s'.threads
      ensures ThreadOk(s', u, s'.threads[u])
    {
      assert u == t || ThreadOk(s, u, s.threads[u]);
    }
  }

  lemma LinkKeeps(s: State, t: nat, s': State)
    requires Inv(s) && t in s.threads && s.threads[t].KillLink? && KillStep(s, t, s')
    ensures Inv(s')
  {
    var k := s.threads[t].own;
    assert ThreadOk(s, t, s.threads[t]);
    OutsideWrite(s, k, s.threads[t].head.Link(), s');
    assert s.head.Top? ==> s.head.id in s.chain;
    forall u | u in s'.threads
      ensures ThreadOk(s', u, s'.threads[u])
    {
      assert u == t || ThreadOk(s, u, s.threads[u]);
    }
  }

  lemma KillCallKeeps(s: State, t: nat, k: nat, s': State)
    requires Inv(s) && t in s.threads && s.threads[t] == Idle && k in s.live
    requires s' == s.Goto(t, KillStart(k)).(live := s.live - {k}, held := s.held[k := t])
    ensures Inv(s')
  {
    forall u | u in s'.threads
      ensures ThreadOk(s', u, s'.threads[u])
    {
      assert u == t || ThreadOk(s, u, s.threads[u]);
    }
  }

  /** Within one era the tag works: an unchanged head means an unchanged link. */
  lemma TagProtects(s: State, t: nat)
    requires Inv(s) && t in s.threads && s.threads[t].SpawnCas?
    requires s.head == Top(s.threads[t].tag, s.threads[t].id) && s.threads[t].era == s.era
    ensures s.threads[t].id < |s.next| && LinkCurrent(s, t)
  {
    assert ThreadOk(s, t, s.threads[t]);
  }

  lemma SpawnStepKeeps(s: State, t: nat, s': State)
    requires Inv(s) && t in s.threads && SpawnStep(s, t, s') && (Pops(s, t, s') ==> LinkCurrent(s, t))
    ensures Inv(s')
  {
    assert ThreadOk(s, t, s.threads[t]);
    match s.threads[t]
    case SpawnStart => GotoKeeps(s, t, s.AfterLoad());
    case SpawnNext(tag, id, era) => GotoKeeps(s, t, SpawnCas(tag, id, s.next[id], era));
    case SpawnCas(tag, id, next, era) =>
      if s' == s.Goto(t, s.AfterLoad()) {
        GotoKeeps(s, t, s.AfterLoad());
      } else {
        PopSwapKeeps(s, t);
      }
    case SpawnInit(id) => ReturnKeeps(s, t, s');
    case SpawnClaim => ClaimKeeps(s, t, s');
    case SpawnFresh(id) => ReturnKeeps(s, t, s');
    case SpawnUndo => UndoKeeps(s, t, s');
  }

  lemma KillStepKeeps(s: State, t: nat, s': State)
    requires Inv(s) && t in s.threads && KillStep(s, t, s')
    ensures Inv(s')
  {
    assert ThreadOk(s, t, s.threads[t]);
    match s.threads[t]
    case KillStart(k) => GotoKeeps(s, t, KillLink(k, s.head));
    case KillLink(k, head) => LinkKeeps(s, t, s');
    case KillCas(k, head) =>
      if s' == s.Goto(t, KillLink(k, s.head)) {
        GotoKeeps(s, t, KillLink(k, s.head));
      } else {
        PushSwapKeeps(s, t);
      }
  }

  lemma ThreadStepKeeps(s: State, t: nat, s': State)
    requires Inv(s) && ThreadStep(s, t, s') && (Pops(s, t, s') ==> LinkCurrent(s, t))
    ensures Inv(s')
  {
    if SpawnStep(s, t, s') {
      SpawnStepKeeps(s, t, s');
    } else if KillStep(s, t, s') {
      KillStepKeeps(s, t, s');
    } else if s' == s.Goto(t, SpawnStart) {
      GotoKeeps(s, t, SpawnStart);
    } else {
      var k :| k in s.live && s' == s.Goto(t, KillStart(k)).(live := s.live - {k}, held := s.held[k := t]);
      KillCallKeeps(s, t, k, s');
    }
  }

  // ----- Whole runs -----

  /** A run: the state it starts from, then one step of some thread at a time. */
  datatype Run = Start(last: State) | Then(before: Run, t: nat, last: State)

  ghost predicate IsRun(r: Run, initial: nat) {
    match r
    case Start(s) => Init(s, initial)
    case Then(before, t, s) => IsRun(before, initial) && ThreadStep(before.last, t, s)
  }

  /** No successful pop of the run has a load-to-swap window that spans an emptying. */
  ghost predicate TagsHold(r: Run) {
    r.Then? ==> TagsHold(r.before) && !StalePop(r.before.last, r.t, r.last)
  }

  lemma {:induction false} RunInv(r: Run, initial: nat)
    requires IsRun(r, initial) && TagsHold(r)
    ensures Inv(r.last)
  {
    match r
    case Start(s) => InitInv(s, initial);
    case Then(before, t, s) =>
      RunInv(before, initial);
      if Pops(before.last, t, s) { TagProtects(before.last, t); }
      ThreadStepKeeps(before.last, t, s);
  }

  ghost predicate LinksCurrent(r: Run) {
    r.Then? ==>
      LinksCurrent(r.before) && (Pops(r.before.last, r.t, r.last) ==> LinkCurrent(r.before.last, r.t))
  }

  ghost predicate AlwaysInv(r: Run) {
    Inv(r.last) && (r.Then? ==> AlwaysInv(r.before))
  }

  /** The invariant holds throughout a run if and only if every successful pop
      installs the link its node has at that moment. */
  lemma {:induction false} RunInvExactly(r: Run, initial: nat)
    requires IsRun(r, initial)
    ensures AlwaysInv(r) <==> LinksCurrent(r)
  {
    match r
    case Start(s) => InitInv(s, initial);
    case Then(before, t, s) =>
      RunInvExactly(before, initial);
      if AlwaysInv(before) {
        if Pops(before.last, t, s) { PopKeepsExactly(before.last, t); }
        if Pops(before.last, t, s) ==> LinkCurrent(before.last, t) { ThreadStepKeeps(before.last, t, s); }
      }
  }

  /** k links from the top of the free stack; -1 past its end. */
  function Walk(next: seq<int>, from: int, k: nat): int
    decreases k
  {
    if k == 0 || !(0 <= from < |next|) then from else Walk(next, next[from], k - 1)
  }

  lemma {:induction false} WalkIsChain(s: State, i: nat, k: nat)
    requires ChainOk(s) && i + k <= |s.chain| && i < |s.chain|
    ensures i + k < |s.chain| ==> Walk(s.next, s.chain[i], k) == s.chain[i + k]
    ensures i + k == |s.chain| ==> Walk(s.next, s.chain[i], k) < 0
    decreases k
  {
    if k == 0 {
    } else if i + 1 < |s.chain| {
      WalkIsChain(s, i + 1, k - 1);
    } else {
      assert Walk(s.next, s.chain[i], 1) == Walk(s.next, s.next[s.chain[i]], 0);
    }
  }

  /** After any clean run: following the links from the head ends, and visits
      pairwise different nodes that are neither in use nor in the hands of an
      operation; an id about to be returned by a spawn is not in use, not free,
      and inside the arena, even while `node_count` is past the capacity. */
  lemma FreeListSafe(r: Run, initial: nat, s: State)
    requires IsRun(r, initial) && TagsHold(r) && s == r.last
    ensures s.head.Top? ==>
      && Walk(s.next, s.head.id, |s.chain|) < 0
      && (forall k :: 0 <= k < |s.chain| ==>
            var id := Walk(s.next, s.head.id, k);
            && 0 <= id < |s.next| && id !in s.live && id !in s.held)
      && (forall j, k :: 0 <= j < k < |s.chain| ==> Walk(s.next, s.head.id, j) != Walk(s.next, s.head.id, k))
    ensures forall t :: t in s.threads && (s.threads[t].SpawnInit? || s.threads[t].SpawnFresh?) ==>
      var id := s.threads[t].own; id < |s.next| && id !in s.live && id !in s.chain
    ensures forall t, u :: t in s.threads && u in s.threads && t != u && Owning(s.threads[t]) && Owning(s.threads[u]) ==>
      s.threads[t].own != s.threads[u].own
    ensures s.nodeCount - |s.undoing| <= |s.next|
  {
    RunInv(r, initial);
    if s.head.Top? {
      forall k | 0 <= k <= |s.chain|
        ensures k < |s.chain| ==> Walk(s.next, s.head.id, k) == s.chain[k] && s.chain[k] in s.chain
        ensures k == |s.chain| ==> Walk(s.next, s.head.id, k) < 0
      {
        WalkIsChain(s, 0, k);
      }
    }
    forall t | t in s.threads && Owning(s.threads[t])
      ensures s.threads[t].own in s.held && s.held[s.threads[t].own] == t
    {
      assert ThreadOk(s, t, s.threads[t]);
    }
  }

  // ----- No node is lost -----

  /** Every id claimed is free, in use or in the hands of the operation that is recorded for it. */
  ghost predicate Covered(s: State) {
    && (forall i: nat :: i < s.claimed ==> i in s.chain || i in s.live || i in s.held)
    && (forall i :: i in s.held ==>
          var t := s.held[i]; t in s.threads && Owning(s.threads[t]) && s.threads[t].own == i)
  }

  lemma PopSwapCovers(s: State, t: nat)
    requires Inv(s) && Covered(s) && t in s.threads && s.threads[t].SpawnCas? && s.chain != []
    requires s.head == Top(s.threads[t].tag, s.threads[t].id)
    ensures Covered(PopSwap(s, t))
  {
    assert s.chain == [s.chain[0]] + s.chain[1..];
  }

  lemma SpawnStepCovers(s: State, t: nat, s': State)
    requires Inv(s) && Covered(s) && t in s.threads && SpawnStep(s, t, s')
    ensures Covered(s')
  {
    assert ThreadOk(s, t, s.threads[t]);
    if s.threads[t].SpawnCas? && s' != s.Goto(t, s.AfterLoad()) { PopSwapCovers(s, t); }
  }

  lemma KillStepCovers(s: State, t: nat, s': State)
    requires Inv(s) && Covered(s) && t in s.threads && (KillStep(s, t, s') || CallStep(s, t, s'))
    ensures Covered(s')
  {
    assert ThreadOk(s, t, s.threads[t]);
  }

  lemma {:induction false} RunCovers(r: Run, initial: nat)
    requires IsRun(r, initial) && TagsHold(r)
    ensures Covered(r.last)
  {
    match r
    case Start(s) =>
    case Then(before, t, s) =>
      RunCovers(before, initial);
      RunInv(before, initial);
      if SpawnStep(before.last, t, s) { SpawnStepCovers(before.last, t, s); } else { KillStepCovers(before.last, t, s); }
  }

  /** After any clean run every id below node_count, less the overshoots to be
      undone, is in exactly one place: on the free stack, in use, or in the hands
      of one operation. */
  lemma NothingLeaks(r: Run, initial: nat, i: nat)
    requires IsRun(r, initial) && TagsHold(r) && i < r.last.nodeCount - |r.last.undoing|
    ensures var s := r.last;
      && (i in s.chain || i in s.live || i in s.held)
      && (i in s.chain ==> i !in s.live && i !in s.held) && (i in s.live ==> i !in s.held)
      && (i in s.held ==>
            s.held[i] in s.threads && Owning(s.threads[s.held[i]]) && s.threads[s.held[i]].own == i)
  {
    RunInv(r, initial);
    RunCovers(r, initial);
  }

  // ----- When a spawn leaves the free stack -----

  predicate Spawning(pc: Pc) {
    pc.SpawnStart? || pc.SpawnNext? || pc.SpawnCas? || pc.SpawnInit? || pc.SpawnClaim? || pc.SpawnFresh? || pc.SpawnUndo?
  }

  /** Thread t, about to take a step from pc to pc', loads the head. */
  predicate LoadsHead(pc: Pc, pc': Pc) {
    pc.SpawnStart? || (pc.SpawnCas? && !pc'.SpawnInit?)
  }

  /** What thread t found when it last loaded the head in its present call was Empty. */
  ghost predicate SawEmpty(r: Run, t: nat) {
    && r.Then? && t in r.before.last.threads && t in r.last.threads
    && if r.t != t then SawEmpty(r.before, t)
       else
         && Spawning(r.before.last.threads[t])
         && if LoadsHead(r.before.last.threads[t], r.last.threads[t]) then r.before.last.head.Empty?
            else SawEmpty(r.before, t)
  }

  /** When thread t claimed from the arena in its present call, node_count had
      reached the capacity; before that it had found the stack empty. */
  ghost predicate SawFull(r: Run, t: nat) {
    && r.Then? && t in r.before.last.threads && t in r.last.threads
    && if r.t != t then SawFull(r.before, t)
       else
         && r.before.last.threads[t].SpawnClaim?
         && r.before.last.nodeCount >= |r.before.last.next| && SawEmpty(r.before, t)
  }

  predicate FromArena(pc: Pc) {
    pc.SpawnClaim? || pc.SpawnFresh? || pc.SpawnUndo?
  }

  /** The other threads stay where they are. */
  lemma OthersStay(s: State, t: nat, s': State)
    requires ThreadStep(s, t, s')
    ensures t in s.threads && t in s'.threads && s'.threads == s.threads[t := s'.threads[t]]
  {
  }

  lemma ClaimEntered(s: State, t: nat, s': State)
    requires ThreadStep(s, t, s') && t in s'.threads
    ensures FromArena(s'.threads[t]) ==>
      Spawning(s.threads[t]) &&
      if LoadsHead(s.threads[t], s'.threads[t]) then s.head.Empty? else s.threads[t].SpawnClaim?
    ensures s'.threads[t].SpawnUndo? ==> s.threads[t].SpawnClaim? && s.nodeCount >= |s.next|
    ensures Spawning(s.threads[t]) && s'.threads[t] == Idle ==> Owning(s.threads[t]) || s.threads[t].SpawnUndo?
  {
  }

  /** In every run, a spawn that turns to the arena found the free stack empty
      when it last loaded the head. */
  lemma {:induction false} ArenaOnlyWhenEmpty(r: Run, initial: nat, t: nat)
    requires IsRun(r, initial) && t in r.last.threads && FromArena(r.last.threads[t])
    ensures SawEmpty(r, t)
  {
    if r.Then? {
      OthersStay(r.before.last, r.t, r.last);
      ClaimEntered(r.before.last, r.t, r.last);
      if r.t != t || !LoadsHead(r.before.last.threads[t], r.last.threads[t]) {
        ArenaOnlyWhenEmpty(r.before, initial, t);
      }
    }
  }

  lemma {:induction false} UndoSawFull(r: Run, initial: nat, t: nat)
    requires IsRun(r, initial) && t in r.last.threads && r.last.threads[t].SpawnUndo?
    ensures SawFull(r, t)
  {
    if r.Then? {
      OthersStay(r.before.last, r.t, r.last);
      ClaimEntered(r.before.last, r.t, r.last);
      if r.t != t {
        UndoSawFull(r.before, initial, t);
      } else {
        ArenaOnlyWhenEmpty(r.before, initial, t);
      }
    }
  }

  /** In every run, a spawn that ends without a node, which returns -1, found the
      free stack empty when it last loaded the head, and after that node_count at
      or above the capacity. */
  lemma FailsOnlyWhenFull(r: Run, initial: nat)
    requires IsRun(r, initial) && r.Then? && r.t in r.before.last.threads && r.t in r.last.threads
    requires Spawning(r.before.last.threads[r.t]) && !Owning(r.before.last.threads[r.t])
    requires r.last.threads[r.t] == Idle
    ensures SawFull(r.before, r.t)
  {
    ClaimEntered(r.before.last, r.t, r.last);
    UndoSawFull(r.before, initial, r.t);
  }

  // ----- Calls that are left alone, and a run in which the lost tag does harm -----

  /** A kill by thread t that no other thread interrupts. */
  function KillAlone(s: State, t: nat, k: nat): State
    requires k < |s.next|
  {
    s.Goto(t, Idle).(
      next := s.next[k := s.head.Link()], head := s.head.Pushed(k), live := s.live - {k},
      held := s.held - {k}, chain := [k] + s.chain)
  }

  lemma KillAloneRun(r: Run, initial: nat, t: nat, k: nat) returns (r': Run)
    requires IsRun(r, initial) && t in r.last.threads && r.last.threads[t] == Idle
    requires k in r.last.live && k < |r.last.next|
    ensures IsRun(r', initial) && r'.last == KillAlone(r.last, t, k)
  {
    var s := r.last;
    var s1 := s.Goto(t, KillStart(k)).(live := s.live - {k}, held := s.held[k := t]);
    var s2 := s1.Goto(t, KillLink(k, s.head));
    var s3 := s2.Goto(t, KillCas(k, s.head)).(next := s.next[k := s.head.Link()]);
    var s4 := PushSwap(s3, t);
    assert CallStep(s, t, s1);
    assert KillStep(s1, t, s2);
    assert KillStep(s2, t, s3);
    assert KillStep(s3, t, s4);
    assert s.held[k := t] - {k} == s.held - {k};
    var r2 := Then(Then(r, t, s1), t, s2);
    assert IsRun(r2, initial);
    r' := Then(Then(r2, t, s3), t, s4);
  }

  /** The first three steps of a spawn: everything up to the swap. */
  function SpawnLoaded(s: State, t: nat): State
    requires s.head.Top? && s.head.id < |s.next|
  {
    s.Goto(t, SpawnCas(s.head.tag, s.head.id, s.next[s.head.id], s.era))
  }

  lemma SpawnLoadedRun(r: Run, initial: nat, t: nat) returns (r': Run)
    requires IsRun(r, initial) && t in r.last.threads && r.last.threads[t] == Idle
    requires r.last.head.Top? && r.last.head.id < |r.last.next|
    ensures IsRun(r', initial) && r'.last == SpawnLoaded(r.last, t)
  {
    var s := r.last;
    var s1 := s.Goto(t, SpawnStart);
    var s2 := s1.Goto(t, SpawnNext(s.head.tag, s.head.id, s.era));
    var s3 := s2.Goto(t, SpawnCas(s.head.tag, s.head.id, s.next[s.head.id], s.era));
    assert CallStep(s, t, s1);
    assert SpawnStep(s1, t, s2);
    assert SpawnStep(s2, t, s3);
    r' := Then(Then(Then(r, t, s1), t, s2), t, s3);
  }

  /** A spawn from the free stack that no other thread interrupts. */
  function SpawnAlone(s: State, t: nat): State
    requires s.head.Top? && s.head.id < |s.next| && s.chain != []
  {
    var next := s.next[s.head.id];
    s.Goto(t, Idle).(
      head := s.head.Popped(next), live := s.live + {s.head.id}, held := s.held - {s.head.id},
      chain := s.chain[1..], era := if next < 0 then s.era + 1 else s.era)
  }

  lemma SpawnAloneRun(r: Run, initial: nat, t: nat) returns (r': Run)
    requires IsRun(r, initial) && t in r.last.threads && r.last.threads[t] == Idle
    requires r.last.head.Top? && r.last.head.id < |r.last.next| && r.last.chain != []
    ensures IsRun(r', initial) && r'.last == SpawnAlone(r.last, t)
  {
    var s := r.last;
    var id := s.head.id;
    var r3 := SpawnLoadedRun(r, initial, t);
    var s3 := r3.last;
    var s4 := PopSwap(s3, t);
    var s5 := s4.Goto(t, Idle).(held := s4.held - {id}, live := s4.live + {id});
    assert SpawnStep(s3, t, s4);
    assert SpawnStep(s4, t, s5);
    assert s.held[id := t] - {id} == s.held - {id};
    r' := Then(Then(r3, t, s4), t, s5);
  }

  /** A spawn that no other thread interrupts while the stack is empty. */
  function GrowAlone(s: State, t: nat): State
    requires s.nodeCount < |s.next|
  {
    var id := s.nodeCount;
    s.Goto(t, Idle).(
      next := s.next[id := -1], nodeCount := id + 1, claimed := s.claimed + 1, live := s.live + {id},
      held := s.held - {id})
  }

  lemma GrowAloneRun(r: Run, initial: nat, t: nat) returns (r': Run)
    requires IsRun(r, initial) && t in r.last.threads && r.last.threads[t] == Idle
    requires r.last.head.Empty? && r.last.nodeCount < |r.last.next|
    ensures IsRun(r', initial) && r'.last == GrowAlone(r.last, t)
  {
    var s := r.last;
    var id := s.nodeCount;
    var s1 := s.Goto(t, SpawnStart);
    var s2 := s1.Goto(t, SpawnClaim);
    var s3 := s2.Goto(t, SpawnFresh(id)).(nodeCount := id + 1, claimed := s.claimed + 1, held := s.held[id := t]);
    var s4 := s3.Goto(t, Idle).(next := s.next[id := -1], held := s3.held - {id}, live := s.live + {id});
    assert CallStep(s, t, s1);
    assert SpawnStep(s1, t, s2);
    assert SpawnStep(s2, t, s3);
    assert SpawnStep(s3, t, s4);
    assert s.held[id := t] - {id} == s.held - {id};
    var r2 := Then(Then(r, t, s1), t, s2);
    assert IsRun(r2, initial);
    r' := Then(Then(r2, t, s3), t, s4);
  }

  ghost predicate Shape(s: State, next: seq<int>, head: Head, chain: seq<nat>) {
    s.next == next && s.head == head && s.chain == chain && s.threads.Keys == {1, 2} && s.threads[2] == Idle
  }

  const STALE := SpawnCas(1, 0, 1, 0)

  /** Thread 1 has read the head (tag 1, node 0) and its link, node 1. */
  lemma LostTagLoad(s0: State) returns (r: Run)
    requires Init(s0, 3) && s0.next == [-1, -1, -1] && s0.threads == map[1 := Idle, 2 := Idle]
    ensures IsRun(r, 3) && Shape(r.last, [1, -1, -1], Top(1, 0), [0, 1])
    ensures 2 in r.last.live && r.last.threads[1] == STALE
  {
    r := KillAloneRun(Start(s0), 3, 2, 1);
    assert Shape(r.last, [-1, -1, -1], Top(0, 1), [1]) && 0 in r.last.live && 2 in r.last.live;
    r := KillAloneRun(r, 3, 2, 0);
    assert Shape(r.last, [1, -1, -1], Top(1, 0), [0, 1]) && 2 in r.last.live;
    r := SpawnLoadedRun(r, 3, 1);
  }

  /** Thread 2 takes both free nodes. */
  lemma LostTagEmpty(r0: Run) returns (r: Run)
    requires IsRun(r0, 3) && Shape(r0.last, [1, -1, -1], Top(1, 0), [0, 1])
    requires 2 in r0.last.live && r0.last.threads[1] == STALE
    ensures IsRun(r, 3) && Shape(r.last, [1, -1, -1], Empty, [])
    ensures 0 in r.last.live && 1 in r.last.live && 2 in r.last.live && r.last.threads[1] == STALE
  {
    r := SpawnAloneRun(r0, 3, 2);
    assert Shape(r.last, [1, -1, -1], Top(2, 1), [1]) && 0 in r.last.live;
    r := SpawnAloneRun(r, 3, 2);
  }

  /** Without the side condition the free list is not safe. Thread 1 reads the
      head (tag 1, node 0) and its link, node 1. Thread 2 takes both nodes, which
      empties the stack and loses the tag, then frees nodes 2 and 0, which brings
      back the head (tag 1, node 0). Thread 1's swap succeeds and makes node 1
      the top of the free stack, while node 1 is in use. */
  lemma LostTagRun(s0: State) returns (r: Run)
    requires Init(s0, 3) && s0.next == [-1, -1, -1] && s0.threads == map[1 := Idle, 2 := Idle]
    ensures IsRun(r, 3) && r.last.head.Top? && r.last.head.id in r.last.live
  {
    r := LostTagLoad(s0);
    r := LostTagEmpty(r);
    r := KillAloneRun(r, 3, 2, 2);
    assert Shape(r.last, [1, -1, -1], Top(0, 2), [2]) && 0 in r.last.live && 1 in r.last.live;
    r := KillAloneRun(r, 3, 2, 0);
    assert Shape(r.last, [2, -1, -1], Top(1, 0), [0, 2]) && 1 in r.last.live;
    var h := PopSwap(r.last, 1);
    assert SpawnStep(r.last, 1, h);
    r := Then(r, 1, h);
  }

  // ----- The operations without interference -----

  function Ids(n: nat): (s: set<nat>)
    ensures forall i: nat :: i in s <==> i < n
  {
    if n == 0 then {} else Ids(n - 1) + {n - 1}
  }

  /** No operation is running: the free chain and the nodes in use. */
  ghost predicate Sound(next: seq<int>, head: Head, nodeCount: nat, live: set<nat>, chain: seq<nat>) {
    var s := State(next, head, nodeCount, map[], live, map[], nodeCount, {}, chain, 0);
    ChainOk(s) && Partition(s)
  }

  lemma SoundPop(next: seq<int>, head: Head, nodeCount: nat, live: set<nat>, chain: seq<nat>)
    requires Sound(next, head, nodeCount, live, chain) && head.Top?
    ensures chain != [] && head.id == chain[0] < |next| && head.id !in live
    ensures Sound(next, head.Popped(next[head.id]), nodeCount, live + {head.id}, chain[1..])
  {
    assert chain[0] in chain;
    if |chain| == 1 {
      assert chain[1..] == [];
    } else {
      assert next[chain[0]] == chain[1];
      assert chain[1..][|chain| - 2] == chain[|chain| - 1];
    }
    forall i | i in chain[1..]
      ensures i in chain && i != head.id
    {
    }
  }

  lemma SoundClaim(next: seq<int>, head: Head, nodeCount: nat, live: set<nat>)
    requires Sound(next, head, nodeCount, live, []) && nodeCount < |next|
    ensures nodeCount !in live && Sound(next[nodeCount := -1], head, nodeCount + 1, live + {nodeCount}, [])
  {
  }

  /** The arena and its free stack when spawn and kill are not interleaved:
      safe without any condition on tags. */
  class Arena {
    var next: array<int>
    var head: Head
    var nodeCount: nat
    ghost var chain: seq<nat>  // the free nodes, from the top
    ghost var live: set<nat>   // the nodes in use

    ghost predicate Valid()
      reads this, next
    {
      Sound(next[..], head, nodeCount, live, chain)
    }

    constructor (capacity: nat, initial: nat)
      ensures Valid() && fresh(next) && next.Length == capacity
      ensures chain == [] && live == Ids(nodeCount)
      ensures nodeCount == if initial < capacity then initial else capacity
    {
      next := new int[capacity](_ => -1);
      head := Empty;
      nodeCount := if initial < capacity then initial else capacity;
      chain := [];
      live := Ids(if initial < capacity then initial else capacity);
    }

    /** Reuses the most recently killed node, else claims the next slot of the
        arena, else fails. */
    method Spawn() returns (id: int)
      requires Valid()
      modifies this, next
      ensures Valid() && next == old(next)
      ensures old(chain) != [] ==>
        id == old(chain)[0] && chain == old(chain)[1..] && nodeCount == old(nodeCount)
      ensures old(chain) == [] && old(nodeCount) < next.Length ==>
        id == old(nodeCount) && chain == [] && nodeCount == old(nodeCount) + 1
      ensures old(chain) == [] && old(nodeCount) == next.Length ==>
        id == -1 && chain == [] && nodeCount == old(nodeCount)
      ensures id >= 0 ==> id !in old(live) && live == old(live) + {id as nat}
      ensures id < 0 ==> live == old(live)
    {
      if head.Top? {
        SoundPop(next[..], head, nodeCount, live, chain);
        id := head.id;
        head := head.Popped(next[id]);
        chain := chain[1..];
      } else {
        id := nodeCount;
        nodeCount := nodeCount + 1;
        if id >= next.Length {
          nodeCount := nodeCount - 1;
          return -1;
        }
        SoundClaim(next[..], head, nodeCount - 1, live);
        next[id] := -1;
      }
      live := live + {id as nat};
    }

    /** Puts a node in use on the free stack. */
    method Kill(id: nat)
      requires Valid() && id in live
      modifies this, next
      ensures Valid() && next == old(next)
      ensures chain == [id] + old(chain) && live == old(live) - {id} && nodeCount == old(nodeCount)
    {
      assert forall i :: 0 <= i < |chain| ==> chain[i] in chain && chain[i] != id;
      next[id] := head.Link();
      head := head.Pushed(id);
      chain := [id] + chain;
      live := live - {id};
    }
  }
}
