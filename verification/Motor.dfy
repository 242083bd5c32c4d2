/** The motor cortex: one producer, the motor thread and aborts, as a machine
    whose steps are the single loads, stores and writes of `push`, `pop`,
    `queue_string`, `queue_action` and `motor_loop`. */
module Motor {
  import opened RingSlots

  /** A queued command. `call` and `part` say which producer call it came from. */
  datatype Command = Command(text: string, epoch: nat, call: nat, part: nat)

  /** One producer call: the actions it queues, whether it waits when the ring is
      full, and the epoch it loaded. */
  datatype Call = Call(parts: seq<string>, blocking: bool, epoch: nat)

  datatype Producer =
    | PIdle
    | PEpoch(parts: seq<string>, blocking: bool)  // about to load the epoch
    | PPush(i: nat)                               // about to compare next(tail) with head
    | PWrite(i: nat)                              // saw room, about to write the slot
    | PStore(i: nat)                              // about to store tail
    | PFull(i: nat)                               // push failed, about to load thread_running

  datatype Loop =
    | MTop                    // about to load thread_running
    | MPop                    // about to compare head with tail
    | MRead                   // saw a command, about to read the slot
    | MStore(cmd: Command)    // about to store head
    | MEpoch(cmd: Command)    // about to compare epochs
    | MKill(cmd: Command)     // about to check the kill switch
    | MRun(cmd: Command)      // about to dispatch
    | MAbort(cmd: Command)    // about to increment the epoch
    | MDone

  /** Shared memory, the two threads, and the history: all calls, all commands
      pushed, how many were popped, the positions in `pushed` that were
      dispatched, the epoch under which each of them passed the check, where each
      part of a call was pushed, and the parts (call, part) that were given up on. */
  datatype State = State(
    n: nat, buffer: seq<Command>, head: nat, tail: nat, epoch: nat, killed: bool, running: bool,
    producer: Producer, motor: Loop,
    calls: seq<Call>, pushed: seq<Command>, popped: nat, executed: seq<nat>,
    passed: map<nat, nat>, at: map<(nat, nat), nat>, skipped: set<(nat, nat)>)
  {
    function Next(i: nat): nat {
      if i + 1 == n then 0 else i + 1
    }
  }

  ghost predicate Init(s: State) {
    && 2 <= s.n && |s.buffer| == s.n && s.head == s.tail == 0 && s.running
    && s.producer == PIdle && s.motor == MTop
    && s.calls == [] && s.pushed == [] && s.popped == 0 && s.executed == [] && s.passed == map[] && s.at == map[] && s.skipped == {}
  }

  function CommandOf(s: State, i: nat): Command
    requires s.calls != [] && i < |s.calls[|s.calls| - 1].parts|
  {
    var c := |s.calls| - 1;
    Command(s.calls[c].parts[i], s.calls[c].epoch, c, i)
  }

  predicate Pushing(p: Producer) {
    p.PPush? || p.PWrite? || p.PStore? || p.PFull?
  }

  ghost predicate ProducerStep(s: State, s': State)
    requires Sane(s)
  {
    match s.producer
    case PIdle => exists parts, blocking :: s' == s.(producer := PEpoch(parts, blocking))
    case PEpoch(parts, blocking) =>
      s' == s.(producer := PPush(0), calls := s.calls + [Call(parts, blocking, s.epoch)])
    case PPush(i) =>
      var call := s.calls[|s.calls| - 1];
      if i == |call.parts| then s' == s.(producer := PIdle)
      else if s.Next(s.tail) == s.head then s' == s.(producer := if call.blocking then PFull(i) else PIdle)
      else s' == s.(producer := PWrite(i))
    case PWrite(i) =>
      s' == s.(producer := PStore(i), buffer := s.buffer[s.tail := CommandOf(s, i)])
    case PStore(i) =>
      s' == s.(producer := PPush(i + 1), tail := s.Next(s.tail), pushed := s.pushed + [CommandOf(s, i)],
               at := s.at[(|s.calls| - 1, i) := |s.pushed|])
    case PFull(i) =>
      if s.running then s' == s.(producer := PPush(i))
      else s' == s.(producer := PPush(i + 1), skipped := s.skipped + {(|s.calls| - 1, i)})  // gives up on part i
  }

  ghost predicate MotorStep(s: State, s': State)
    requires Sane(s)
  {
    match s.motor
    case MTop => s' == s.(motor := if s.running then MPop else MDone)
    case MPop => s' == s.(motor := if s.head == s.tail then MTop else MRead)
    case MRead => s' == s.(motor := MStore(s.buffer[s.head]))
    case MStore(cmd) => s' == s.(motor := MEpoch(cmd), head := s.Next(s.head), popped := s.popped + 1)
    case MEpoch(cmd) =>
      if cmd.epoch != s.epoch then s' == s.(motor := MTop)
      else s.popped > 0 && s' == s.(motor := MKill(cmd), passed := s.passed[s.popped - 1 := s.epoch])
    case MKill(cmd) =>
      // the escape key is held, or it is not
      || s' == s.(motor := MAbort(cmd), killed := true, epoch := if s.killed then s.epoch else s.epoch + 1)
      || s' == s.(motor := if s.killed then MAbort(cmd) else MRun(cmd))
    case MAbort(cmd) => s' == s.(motor := MTop, epoch := s.epoch + 1)
    case MRun(cmd) => s.popped > 0 && s' == s.(motor := MTop, executed := s.executed + [s.popped - 1])
    case MDone => false
  }

  /** An abort, the kill latch being set or reset, or a shutdown, at any time. */
  ghost predicate OtherStep(s: State, s': State) {
    || s' == s.(epoch := s.epoch + 1)
    || s' == s.(epoch := s.epoch + 1, killed := true)
    || s' == s.(killed := false)
    || s' == s.(running := false)
  }

  ghost predicate Step(s: State, s': State)
    requires Sane(s)
  {
    ProducerStep(s, s') || MotorStep(s, s') || OtherStep(s, s')
  }

  predicate InHand(m: Loop) {
    m.MEpoch? || m.MKill? || m.MRun? || m.MAbort?
  }

  // ----- The invariant -----

  /** What the steps need to be defined. */
  ghost predicate Sane(s: State) {
    && 2 <= s.n && |s.buffer| == s.n && s.head < s.n && s.tail < s.n
    && (Pushing(s.producer) ==> s.calls != [] && s.producer.i <= |s.calls[|s.calls| - 1].parts|)
    && (s.producer.PWrite? || s.producer.PStore? || s.producer.PFull? ==>
          s.producer.i < |s.calls[|s.calls| - 1].parts|)
  }

  /** The ring is a first-in first-out queue holding pushed[popped..], of capacity n - 1. */
  ghost predicate RingOk(s: State)
    requires Sane(s)
  {
    && s.popped <= |s.pushed| < s.popped + s.n
    && s.head == Slot(s.popped, s.n) && s.tail == Slot(|s.pushed|, s.n)
    && (forall j :: s.popped <= j < |s.pushed| ==> s.buffer[Slot(j, s.n)] == s.pushed[j])
    && (s.producer.PWrite? || s.producer.PStore? ==> |s.pushed| + 1 < s.popped + s.n)
    && (s.producer.PStore? ==> s.buffer[s.tail] == CommandOf(s, s.producer.i))
    && (s.motor.MRead? || s.motor.MStore? ==> s.popped < |s.pushed|)
    && (s.motor.MStore? ==> s.motor.cmd == s.pushed[s.popped])
    && (InHand(s.motor) ==> 0 < s.popped && s.motor.cmd == s.pushed[s.popped - 1])
  }

  /** Commands carry the texts and epochs of their calls; parts go in order. */
  ghost predicate CallsOk(s: State) {
    && (forall c :: 0 <= c < |s.calls| ==> s.calls[c].epoch <= s.epoch)
    && (forall j :: 0 <= j < |s.pushed| ==>
          var m := s.pushed[j];
          m.call < |s.calls| && m.part < |s.calls[m.call].parts| &&
          m.text == s.calls[m.call].parts[m.part] && m.epoch == s.calls[m.call].epoch &&
          (m.call, m.part) in s.at && s.at[(m.call, m.part)] == j)
    && (forall k :: k in s.at ==>
          s.at[k] < |s.pushed| && s.pushed[s.at[k]].call == k.0 && s.pushed[s.at[k]].part == k.1)
    && (forall j :: 0 <= j < |s.pushed| && s.pushed[j].call == |s.calls| - 1 ==>
          Pushing(s.producer) ==> s.pushed[j].part < s.producer.i)
  }

  /** Before a part its predecessor was pushed or given up on; no part is both. */
  ghost predicate PartsOk(s: State) {
    && (forall j :: 0 <= j < |s.pushed| && s.pushed[j].part > 0 ==> PredecessorOk(s, j))
    && (Pushing(s.producer) && s.producer.i > 0 ==>
          |s.calls| > 0 && ((|s.calls| - 1, s.producer.i - 1) in s.skipped || (|s.calls| - 1, s.producer.i - 1) in s.at))
    && (forall k :: k in s.skipped ==> SkippedOk(s, k))
  }

  ghost predicate PredecessorOk(s: State, j: nat)
    requires j < |s.pushed| && s.pushed[j].part > 0
  {
    var k := (s.pushed[j].call, s.pushed[j].part - 1);
    k in s.skipped || (k in s.at && s.at[k] < j)
  }

  ghost predicate SkippedOk(s: State, k: (nat, nat)) {
    k.0 < |s.calls| && k !in s.at && (Pushing(s.producer) && k.0 == |s.calls| - 1 ==> k.1 < s.producer.i)
  }

  /** How many parts of call c the producer is through with. */
  function Progress(s: State, c: nat): nat
    requires c < |s.calls|
  {
    if c == |s.calls| - 1 && Pushing(s.producer) then s.producer.i else |s.calls[c].parts|
  }

  /** A call that waits for room has pushed, or given up on, all it is through with. */
  ghost predicate ProgressOk(s: State) {
    forall c: nat, k: nat :: c < |s.calls| && s.calls[c].blocking && k < Progress(s, c) ==>
      (c, k) in s.at || (c, k) in s.skipped
  }

  /** Position j was popped and passed over: its epoch is over. */
  ghost predicate Over(s: State, j: nat)
    requires j < |s.pushed|
  {
    s.pushed[j].epoch < s.epoch
  }

  ghost predicate EarlierRan(s: State, j: nat)
    requires j < |s.pushed|
  {
    forall i :: 0 <= i < j && s.pushed[i].call == s.pushed[j].call ==> i in s.executed
  }

  ghost predicate ExecutionOk(s: State)
    requires s.popped <= |s.pushed|
  {
    && (forall x, y :: 0 <= x < y < |s.executed| ==> s.executed[x] < s.executed[y])
    && (forall x :: 0 <= x < |s.executed| ==> s.executed[x] < s.popped && s.executed[x] in s.passed)
    && (InHand(s.motor) ==> forall x :: 0 <= x < |s.executed| ==> s.executed[x] < s.popped - 1)
    && (forall j :: 0 <= j < s.popped && j !in s.executed && !(InHand(s.motor) && j == s.popped - 1) ==> Over(s, j))
    && (s.motor.MKill? || s.motor.MRun? ==> 0 < s.popped && EarlierRan(s, s.popped - 1) && s.popped - 1 in s.passed)
    && (forall x :: 0 <= x < |s.executed| ==> EarlierRan(s, s.executed[x]))
    && (forall j :: j in s.passed ==> j < s.popped && s.passed[j] == s.pushed[j].epoch)
  }

  ghost predicate Inv(s: State) {
    Sane(s) && RingOk(s) && CallsOk(s) && PartsOk(s) && ProgressOk(s) && ExecutionOk(s)
  }

  lemma InitInv(s: State)
    requires Init(s)
    ensures Inv(s)
  {
  }

  // ----- Every step keeps the invariant -----

  lemma RoomSeen(s: State)
    requires Sane(s) && RingOk(s)
    ensures s.Next(s.tail) == s.head <==> |s.pushed| + 1 == s.popped + s.n
    ensures s.head == s.tail <==> s.popped == |s.pushed|
    ensures s.Next(s.tail) == Slot(|s.pushed| + 1, s.n) && s.Next(s.head) == Slot(s.popped + 1, s.n)
  {
    SlotNext(|s.pushed|, s.n);
    SlotNext(s.popped, s.n);
    if |s.pushed| + 1 < s.popped + s.n { Apart(s.popped, |s.pushed| + 1, s.n); }
    if s.popped < |s.pushed| { Apart(s.popped, |s.pushed|, s.n); }
    assert Slot(s.popped + s.n, s.n) == Slot(s.popped, s.n);
  }

  // Each part of the invariant depends on few fields.

  lemma KeepsCalls(s: State, s': State)
    requires CallsOk(s) && s.epoch <= s'.epoch
    requires s'.calls == s.calls && s'.pushed == s.pushed && s'.at == s.at
    requires Pushing(s'.producer) ==> Pushing(s.producer) && s.producer.i <= s'.producer.i
    ensures CallsOk(s')
  {
  }

  lemma KeepsParts(s: State, s': State)
    requires PartsOk(s) && s'.skipped == s.skipped && s'.pushed == s.pushed && s'.at == s.at
    requires |s.calls| <= |s'.calls|
    requires Pushing(s'.producer) && s'.producer.i > 0 ==>
      && |s'.calls| > 0
      && ((|s'.calls| - 1, s'.producer.i - 1) in s'.skipped || (|s'.calls| - 1, s'.producer.i - 1) in s'.at)
    requires Pushing(s'.producer) && |s'.calls| == |s.calls| ==> Pushing(s.producer) && s.producer.i <= s'.producer.i
    ensures PartsOk(s')
  {
    forall j | 0 <= j < |s'.pushed| && s'.pushed[j].part > 0
      ensures PredecessorOk(s', j)
    {
      assert PredecessorOk(s, j);
    }
    forall k | k in s'.skipped
      ensures SkippedOk(s', k)
    {
      assert SkippedOk(s, k);
    }
  }

  lemma KeepsProgress(s: State, s': State)
    requires ProgressOk(s) && s'.calls == s.calls && s'.at == s.at && s'.skipped == s.skipped
    requires Pushing(s'.producer) && s.calls != [] ==> Pushing(s.producer) && s'.producer.i <= s.producer.i
    requires !Pushing(s'.producer) && Pushing(s.producer) && s.calls != [] && s.calls[|s.calls| - 1].blocking ==>
      s.producer.i == |s.calls[|s.calls| - 1].parts|
    ensures ProgressOk(s')
  {
  }

  lemma KeepsExecution(s: State, s': State)
    requires s.popped <= |s.pushed| && ExecutionOk(s) && s.epoch <= s'.epoch
    requires s'.pushed == s.pushed && s'.popped == s.popped && s'.executed == s.executed && s'.passed == s.passed
    requires s'.motor == s.motor
    ensures ExecutionOk(s')
  {
  }

  lemma KeepsRing(s: State, s': State)
    requires Sane(s) && RingOk(s) && Sane(s')
    requires s'.n == s.n && s'.buffer == s.buffer && s'.head == s.head && s'.tail == s.tail
    requires s'.pushed == s.pushed && s'.popped == s.popped && s'.motor == s.motor
    requires s'.producer.PWrite? ==> |s.pushed| + 1 < s.popped + s.n
    requires s'.producer.PStore? ==> s'.producer == s.producer && s'.calls == s.calls
    ensures RingOk(s')
  {
  }

  /** The producer moves on without touching shared memory. */
  lemma ProducerMoves(s: State, p: Producer)
    requires Inv(s)
    requires Pushing(p) ==> Pushing(s.producer) && p.i == s.producer.i
    requires p.PWrite? || p.PFull? ==> p.i < |s.calls[|s.calls| - 1].parts|
    requires p.PWrite? ==> |s.pushed| + 1 < s.popped + s.n
    requires !p.PStore?
    requires !Pushing(p) && Pushing(s.producer) && s.calls[|s.calls| - 1].blocking ==>
      s.producer.i == |s.calls[|s.calls| - 1].parts|
    ensures Inv(s.(producer := p))
  {
    var s' := s.(producer := p);
    KeepsRing(s, s');
    KeepsCalls(s, s');
    KeepsParts(s, s');
    KeepsProgress(s, s');
    KeepsExecution(s, s');
  }

  lemma CallCalls(s: State, call: Call, s': State)
    requires CallsOk(s) && call.epoch == s.epoch && s' == s.(producer := PPush(0), calls := s.calls + [call])
    ensures CallsOk(s')
  {
    assert forall j :: 0 <= j < |s.pushed| ==> s.pushed[j].call < |s.calls|;
  }

  lemma CallKeeps(s: State, call: Call, s': State)
    requires Inv(s) && !Pushing(s.producer) && call.epoch == s.epoch && s' == s.(producer := PPush(0), calls := s.calls + [call])
    ensures Inv(s')
  {
    KeepsRing(s, s');
    CallCalls(s, call, s');
    KeepsParts(s, s');
    assert ProgressOk(s');
    KeepsExecution(s, s');
  }

  lemma WriteRing(s: State, i: nat, s': State)
    requires Sane(s) && RingOk(s) && s.producer == PWrite(i)
    requires s' == s.(producer := PStore(i), buffer := s.buffer[s.tail := CommandOf(s, i)])
    ensures Sane(s') && RingOk(s')
  {
    forall j | s.popped <= j < |s.pushed|
      ensures s'.buffer[Slot(j, s.n)] == s.pushed[j]
    {
      Apart(j, |s.pushed|, s.n);
    }
    assert s.popped < |s.pushed| ==> s'.buffer[s.head] == s.pushed[s.popped];
  }

  lemma WriteKeeps(s: State, i: nat, s': State)
    requires Inv(s) && s.producer == PWrite(i)
    requires s' == s.(producer := PStore(i), buffer := s.buffer[s.tail := CommandOf(s, i)])
    ensures Inv(s')
  {
    WriteRing(s, i, s');
    KeepsCalls(s, s');
    KeepsParts(s, s');
    KeepsProgress(s, s');
    KeepsExecution(s, s');
  }

  function Stored(s: State, i: nat): State
    requires Sane(s) && s.producer == PStore(i)
  {
    s.(producer := PPush(i + 1), tail := s.Next(s.tail), pushed := s.pushed + [CommandOf(s, i)],
       at := s.at[(|s.calls| - 1, i) := |s.pushed|])
  }

  lemma StoreRing(s: State, i: nat)
    requires Sane(s) && RingOk(s) && s.producer == PStore(i)
    ensures Sane(Stored(s, i)) && RingOk(Stored(s, i))
  {
    RoomSeen(s);
  }

  lemma StoreCalls(s: State, i: nat)
    requires Sane(s) && CallsOk(s) && s.producer == PStore(i)
    ensures CallsOk(Stored(s, i))
  {
    StoreAt(s, i);
    NotPushedYet(s);
  }

  lemma StoreAt(s: State, i: nat)
    requires Sane(s) && CallsOk(s) && s.producer == PStore(i)
    ensures var s' := Stored(s, i);
      forall k :: k in s'.at ==>
        s'.at[k] < |s'.pushed| && s'.pushed[s'.at[k]].call == k.0 && s'.pushed[s'.at[k]].part == k.1
  {
  }

  /** The part that the producer is at has not been pushed. */
  lemma NotPushedYet(s: State)
    requires CallsOk(s) && s.calls != [] && Pushing(s.producer)
    ensures (|s.calls| - 1, s.producer.i) !in s.at
  {
  }

  lemma StoreParts(s: State, i: nat)
    requires Sane(s) && CallsOk(s) && PartsOk(s) && s.producer == PStore(i)
    ensures PartsOk(Stored(s, i))
  {
    var s', c := Stored(s, i), |s.calls| - 1;
    forall j | 0 <= j < |s'.pushed| && s'.pushed[j].part > 0
      ensures PredecessorOk(s', j)
    {
      if j < |s.pushed| {
        assert PredecessorOk(s, j);
        assert (c, i) !in s.at;
      }
    }
    forall k | k in s'.skipped
      ensures SkippedOk(s', k)
    {
      assert SkippedOk(s, k);
    }
  }

  lemma StoreProgress(s: State, i: nat)
    requires Sane(s) && ProgressOk(s) && s.producer == PStore(i)
    ensures ProgressOk(Stored(s, i))
  {
  }

  lemma StoreExecution(s: State, i: nat)
    requires Sane(s) && s.popped <= |s.pushed| && ExecutionOk(s) && s.producer == PStore(i)
    ensures ExecutionOk(Stored(s, i))
  {
  }

  lemma StoreKeeps(s: State, i: nat)
    requires Inv(s) && s.producer == PStore(i)
    ensures Inv(Stored(s, i))
  {
    StoreRing(s, i);
    StoreCalls(s, i);
    StoreParts(s, i);
    StoreProgress(s, i);
    StoreExecution(s, i);
  }

  lemma SkipParts(s: State, i: nat, s': State)
    requires Sane(s) && CallsOk(s) && PartsOk(s) && s.producer == PFull(i)
    requires s' == s.(producer := PPush(i + 1), skipped := s.skipped + {(|s.calls| - 1, i)})
    ensures PartsOk(s')
  {
    forall j | 0 <= j < |s'.pushed| && s'.pushed[j].part > 0
      ensures PredecessorOk(s', j)
    {
      assert PredecessorOk(s, j);
    }
    forall k | k in s'.skipped
      ensures SkippedOk(s', k)
    {
      if k in s.skipped { assert SkippedOk(s, k); } else { NotPushedYet(s); }
    }
  }

  lemma SkipProgress(s: State, i: nat, s': State)
    requires Sane(s) && ProgressOk(s) && s.producer == PFull(i)
    requires s' == s.(producer := PPush(i + 1), skipped := s.skipped + {(|s.calls| - 1, i)})
    ensures ProgressOk(s')
  {
  }

  lemma SkipKeeps(s: State, i: nat, s': State)
    requires Inv(s) && s.producer == PFull(i)
    requires s' == s.(producer := PPush(i + 1), skipped := s.skipped + {(|s.calls| - 1, i)})
    ensures Inv(s')
  {
    KeepsRing(s, s');
    KeepsCalls(s, s');
    SkipParts(s, i, s');
    SkipProgress(s, i, s');
    KeepsExecution(s, s');
  }

  lemma IdleKeeps(s: State, s': State)
    requires Inv(s) && s.producer.PIdle? && ProducerStep(s, s')
    ensures Inv(s')
  {
    var parts, blocking :| s' == s.(producer := PEpoch(parts, blocking));
    ProducerMoves(s, PEpoch(parts, blocking));
  }

  lemma PushShape(s: State, s': State)
    requires Sane(s) && RingOk(s) && s.producer.PPush? && ProducerStep(s, s')
    ensures s' == s.(producer := s'.producer) && !s'.producer.PStore?
    ensures Pushing(s'.producer) ==>
      s'.producer.i == s.producer.i && s.producer.i < |s.calls[|s.calls| - 1].parts|
    ensures s'.producer.PWrite? ==> |s.pushed| + 1 < s.popped + s.n
    ensures s'.producer == PIdle ==>
      s.producer.i == |s.calls[|s.calls| - 1].parts| || !s.calls[|s.calls| - 1].blocking
    ensures Pushing(s'.producer) || s'.producer == PIdle
  {
    RoomSeen(s);
  }

  lemma PushKeeps(s: State, s': State)
    requires Inv(s) && s.producer.PPush? && ProducerStep(s, s')
    ensures Inv(s')
  {
    PushShape(s, s');
    ProducerMoves(s, s'.producer);
  }

  lemma FullKeeps(s: State, s': State)
    requires Inv(s) && s.producer.PFull? && ProducerStep(s, s')
    ensures Inv(s')
  {
    if s.running { ProducerMoves(s, PPush(s.producer.i)); } else { SkipKeeps(s, s.producer.i, s'); }
  }

  lemma ProducerKeeps(s: State, s': State)
    requires Inv(s) && ProducerStep(s, s')
    ensures Inv(s')
  {
    match s.producer
    case PIdle => IdleKeeps(s, s');
    case PEpoch(parts, blocking) => CallKeeps(s, Call(parts, blocking, s.epoch), s');
    case PPush(i) => PushKeeps(s, s');
    case PWrite(i) => WriteKeeps(s, i, s');
    case PStore(i) => StoreKeeps(s, i);
    case PFull(i) => FullKeeps(s, s');
  }

  // ----- The motor thread and the others

  /** What a step that leaves producer and calls alone keeps. */
  lemma KeepsProducer(s: State, s': State)
    requires CallsOk(s) && PartsOk(s) && ProgressOk(s) && s.epoch <= s'.epoch
    requires s'.producer == s.producer && s'.calls == s.calls && s'.pushed == s.pushed && s'.at == s.at
    requires s'.skipped == s.skipped
    ensures CallsOk(s') && PartsOk(s') && ProgressOk(s')
  {
    KeepsCalls(s, s');
    KeepsParts(s, s');
  }

  /** The motor moves on without touching the ring. */
  lemma MotorRing(s: State, s': State)
    requires Sane(s) && RingOk(s)
    requires s' == s.(motor := s'.motor, epoch := s'.epoch, killed := s'.killed, executed := s'.executed, passed := s'.passed)
    requires s'.motor.MRead? ==> s.popped < |s.pushed|
    requires s'.motor.MStore? ==> s.motor.MRead? && s'.motor.cmd == s.buffer[s.head]
    requires InHand(s'.motor) ==> InHand(s.motor) && s'.motor.cmd == s.motor.cmd
    ensures Sane(s') && RingOk(s')
  {
  }

  lemma IdleExecution(s: State, s': State)
    requires s.popped <= |s.pushed| && ExecutionOk(s) && !InHand(s.motor) && !InHand(s'.motor)
    requires s' == s.(motor := s'.motor)
    ensures ExecutionOk(s')
  {
  }

  /** A step of the motor before it has popped, or after it is done with a command. */
  lemma MotorIdles(s: State, m: Loop)
    requires Inv(s) && !InHand(m) && !InHand(s.motor)
    requires m.MRead? ==> s.popped < |s.pushed|
    requires m.MStore? ==> s.motor.MRead? && m.cmd == s.buffer[s.head]
    ensures Inv(s.(motor := m))
  {
    var s' := s.(motor := m);
    MotorRing(s, s');
    KeepsProducer(s, s');
    IdleExecution(s, s');
  }

  lemma PopRing(s: State, cmd: Command, s': State)
    requires Sane(s) && RingOk(s) && s.motor == MStore(cmd)
    requires s' == s.(motor := MEpoch(cmd), head := s.Next(s.head), popped := s.popped + 1)
    ensures Sane(s') && RingOk(s')
  {
    RoomSeen(s);
  }

  lemma PopExecution(s: State, s': State)
    requires s.popped < |s.pushed| && ExecutionOk(s) && s.motor.MStore? && s'.motor.MEpoch?
    requires s' == s.(motor := s'.motor, head := s'.head, popped := s.popped + 1)
    ensures ExecutionOk(s')
  {
  }

  lemma PopKeeps(s: State, cmd: Command, s': State)
    requires Inv(s) && s.motor == MStore(cmd)
    requires s' == s.(motor := MEpoch(cmd), head := s.Next(s.head), popped := s.popped + 1)
    ensures Inv(s')
  {
    PopRing(s, cmd, s');
    KeepsProducer(s, s');
    PopExecution(s, s');
  }

  /** The motor is done with the command in its hand, whose epoch is over. */
  lemma DropExecution(s: State, s': State)
    requires 0 < s.popped <= |s.pushed| && ExecutionOk(s) && InHand(s.motor) && s'.motor == MTop && s.epoch <= s'.epoch
    requires s' == s.(motor := MTop, epoch := s'.epoch) && s.pushed[s.popped - 1].epoch < s'.epoch
    ensures ExecutionOk(s')
  {
  }

  /** A command whose epoch is over is discarded. */
  lemma DiscardKeeps(s: State, cmd: Command, s': State)
    requires Inv(s) && s.motor == MEpoch(cmd) && cmd.epoch != s.epoch && s' == s.(motor := MTop)
    ensures Inv(s')
  {
    MotorRing(s, s');
    KeepsProducer(s, s');
    assert s.pushed[s.popped - 1] == cmd && s.calls[cmd.call].epoch <= s.epoch;
    DropExecution(s, s');
  }

  /** When a command passes the epoch check, everything its call queued before it has run. */
  lemma EarlierHaveRun(s: State, cmd: Command)
    requires 0 < s.popped <= |s.pushed| && CallsOk(s) && ExecutionOk(s) && s.motor == MEpoch(cmd)
    requires cmd == s.pushed[s.popped - 1] && cmd.epoch == s.epoch
    ensures EarlierRan(s, s.popped - 1)
  {
    forall i | 0 <= i < s.popped - 1 && s.pushed[i].call == cmd.call
      ensures i in s.executed
    {
      assert s.pushed[i].epoch == s.calls[cmd.call].epoch == cmd.epoch;
      assert !Over(s, i);
    }
  }

  lemma PassExecution(s: State, cmd: Command, s': State)
    requires 0 < s.popped <= |s.pushed| && ExecutionOk(s) && s.motor == MEpoch(cmd)
    requires cmd == s.pushed[s.popped - 1] && cmd.epoch == s.epoch && EarlierRan(s, s.popped - 1)
    requires s' == s.(motor := MKill(cmd), passed := s.passed[s.popped - 1 := s.epoch])
    ensures ExecutionOk(s')
  {
    forall x | 0 <= x < |s'.executed|
      ensures EarlierRan(s', s'.executed[x])
    {
      assert EarlierRan(s, s.executed[x]);
    }
  }

  lemma PassKeeps(s: State, cmd: Command, s': State)
    requires Inv(s) && s.motor == MEpoch(cmd) && cmd.epoch == s.epoch
    requires s' == s.(motor := MKill(cmd), passed := s.passed[s.popped - 1 := s.epoch])
    ensures Inv(s')
  {
    MotorRing(s, s');
    KeepsProducer(s, s');
    EarlierHaveRun(s, cmd);
    PassExecution(s, cmd, s');
  }

  lemma KillExecution(s: State, s': State)
    requires 0 < s.popped <= |s.pushed| && ExecutionOk(s) && s.motor.MKill? && s.epoch <= s'.epoch
    requires s'.motor.MAbort? || s'.motor.MRun?
    requires s' == s.(motor := s'.motor, killed := s'.killed, epoch := s'.epoch)
    ensures ExecutionOk(s')
  {
    forall x | 0 <= x < |s'.executed|
      ensures EarlierRan(s', s'.executed[x])
    {
      assert EarlierRan(s, s.executed[x]);
    }
  }

  lemma KillShape(s: State, s': State)
    requires Sane(s) && s.motor.MKill? && MotorStep(s, s')
    ensures s' == s.(motor := s'.motor, killed := s'.killed, epoch := s'.epoch) && s.epoch <= s'.epoch
    ensures s'.motor == MAbort(s.motor.cmd) || (s'.motor == MRun(s.motor.cmd) && !s.killed && s'.epoch == s.epoch)
  {
  }

  lemma KillKeeps(s: State, s': State)
    requires Inv(s) && s.motor.MKill? && MotorStep(s, s')
    ensures Inv(s')
  {
    KillShape(s, s');
    MotorRing(s, s');
    KeepsProducer(s, s');
    KillExecution(s, s');
  }

  lemma AbortKeeps(s: State, cmd: Command, s': State)
    requires Inv(s) && s.motor == MAbort(cmd) && s' == s.(motor := MTop, epoch := s.epoch + 1)
    ensures Inv(s')
  {
    MotorRing(s, s');
    KeepsProducer(s, s');
    assert s.pushed[s.popped - 1] == cmd && s.calls[cmd.call].epoch <= s.epoch;
    DropExecution(s, s');
  }

  lemma RunExecution(s: State, cmd: Command, s': State)
    requires s.popped <= |s.pushed| && ExecutionOk(s) && s.motor == MRun(cmd)
    requires s' == s.(motor := MTop, executed := s.executed + [s.popped - 1])
    ensures ExecutionOk(s')
  {
    assert forall j :: j in s.executed ==> j in s'.executed;
    assert s'.executed[|s.executed|] == s.popped - 1;
    forall x | 0 <= x < |s'.executed|
      ensures EarlierRan(s', s'.executed[x])
    {
      EarlierLater(s, s', s'.executed[x]);
    }
  }

  lemma EarlierLater(s: State, s': State, j: nat)
    requires j < |s.pushed| && EarlierRan(s, j) && s'.pushed == s.pushed
    requires forall i :: i in s.executed ==> i in s'.executed
    ensures EarlierRan(s', j)
  {
  }

  lemma RunKeeps(s: State, cmd: Command, s': State)
    requires Inv(s) && s.motor == MRun(cmd) && s' == s.(motor := MTop, executed := s.executed + [s.popped - 1])
    ensures Inv(s')
  {
    MotorRing(s, s');
    KeepsProducer(s, s');
    RunExecution(s, cmd, s');
  }

  lemma BeforePopKeeps(s: State, s': State)
    requires Inv(s) && (s.motor.MTop? || s.motor.MPop? || s.motor.MRead?) && MotorStep(s, s')
    ensures Inv(s')
  {
    BeforePopShape(s, s');
    MotorIdles(s, s'.motor);
  }

  lemma BeforePopShape(s: State, s': State)
    requires Sane(s) && RingOk(s) && (s.motor.MTop? || s.motor.MPop? || s.motor.MRead?) && MotorStep(s, s')
    ensures s' == s.(motor := s'.motor) && !InHand(s'.motor)
    ensures s'.motor.MRead? ==> s.popped < |s.pushed|
    ensures s'.motor.MStore? ==> s.motor.MRead? && s'.motor.cmd == s.buffer[s.head]
  {
    RoomSeen(s);
  }

  lemma MotorKeeps(s: State, s': State)
    requires Inv(s) && MotorStep(s, s')
    ensures Inv(s')
  {
    match s.motor
    case MStore(cmd) => PopKeeps(s, cmd, s');
    case MEpoch(cmd) => if cmd.epoch != s.epoch { DiscardKeeps(s, cmd, s'); } else { PassKeeps(s, cmd, s'); }
    case MKill(cmd) => KillKeeps(s, s');
    case MAbort(cmd) => AbortKeeps(s, cmd, s');
    case MRun(cmd) => RunKeeps(s, cmd, s');
    case _ => BeforePopKeeps(s, s');
  }

  lemma OtherKeeps(s: State, s': State)
    requires Inv(s) && s' == s.(epoch := s'.epoch, killed := s'.killed, running := s'.running) && s.epoch <= s'.epoch
    ensures Inv(s')
  {
    KeepsRing(s, s');
    KeepsProducer(s, s');
    KeepsExecution(s, s');
  }

  lemma OtherShape(s: State, s': State)
    requires OtherStep(s, s')
    ensures s' == s.(epoch := s'.epoch, killed := s'.killed, running := s'.running) && s.epoch <= s'.epoch
    ensures s'.running ==> s.running
  {
  }

  lemma StepKeeps(s: State, s': State)
    requires Inv(s) && Step(s, s')
    ensures Inv(s')
  {
    if ProducerStep(s, s') { ProducerKeeps(s, s'); }
    else if MotorStep(s, s') { MotorKeeps(s, s'); }
    else { OtherShape(s, s'); OtherKeeps(s, s'); }
  }

  /** A run, one step at a time. */
  datatype Run = Start(last: State) | Then(before: Run, last: State)

  ghost predicate IsRun(r: Run) {
    match r
    case Start(s) => Init(s)
    case Then(before, s) => IsRun(before) && Sane(before.last) && Step(before.last, s)
  }

  lemma {:induction false} RunInv(r: Run)
    requires IsRun(r)
    ensures Inv(r.last)
  {
    match r
    case Start(s) => InitInv(s);
    case Then(before, s) =>
      RunInv(before);
      StepKeeps(before.last, s);
  }

  // ----- What every reachable state guarantees -----

  /** The ring holds, in order, the commands pushed and not yet popped, at most
      n - 1 of them; dispatched commands were popped, in order, each once; and a
      command passed its check under the very epoch its call had loaded. Since the
      epoch only grows, no abort lies between the two. */
  lemma QueueAndEpochs(r: Run)
    requires IsRun(r)
    ensures var s := r.last;
      && Sane(s) && s.popped <= |s.pushed| <= s.popped + s.n - 1
      && (forall j :: s.popped <= j < |s.pushed| ==> s.buffer[Slot(j, s.n)] == s.pushed[j])
      && (forall x, y :: 0 <= x < y < |s.executed| ==> s.executed[x] < s.executed[y])
      && (forall x :: 0 <= x < |s.executed| ==>
            var j := s.executed[x];
            j < s.popped && j in s.passed && s.pushed[j].call < |s.calls| &&
            s.passed[j] == s.pushed[j].epoch == s.calls[s.pushed[j].call].epoch)
  {
    RunInv(r);
  }

  // ----- What a producer's call has queued when it returns -----

  lemma OnlyProducerQueues(s: State, s': State)
    requires Sane(s) && (MotorStep(s, s') || OtherStep(s, s'))
    ensures s'.producer == s.producer && s'.calls == s.calls && s'.at == s.at && s'.skipped == s.skipped
  {
    if MotorStep(s, s') && s.motor.MKill? { KillShape(s, s'); }
  }

  /** Part k of call c has been pushed or given up on. */
  predicate Settled(s: State, c: nat, k: nat) {
    (c, k) in s.at || (c, k) in s.skipped
  }

  ghost predicate SettledUpTo(s: State, c: nat, n: nat) {
    forall k: nat :: k < n ==> Settled(s, c, k)
  }

  /** Only calls that wait give up on parts. */
  ghost predicate SkipsWait(s: State) {
    && (forall k :: k in s.skipped ==> k.0 < |s.calls| && s.calls[k.0].blocking)
    && (s.producer.PFull? ==> s.calls != [] && s.calls[|s.calls| - 1].blocking)
  }

  /** The producer is through with nothing that it has neither pushed nor given up on. */
  ghost predicate Accounted(s: State) {
    Pushing(s.producer) && s.calls != [] ==> SettledUpTo(s, |s.calls| - 1, s.producer.i)
  }

  lemma ProducerSkipsWait(s: State, s': State)
    requires Sane(s) && SkipsWait(s) && ProducerStep(s, s')
    ensures SkipsWait(s')
  {
  }

  lemma ProducerAccounts(s: State, s': State)
    requires Sane(s) && Accounted(s) && ProducerStep(s, s')
    ensures Accounted(s')
  {
    if Pushing(s.producer) && Pushing(s'.producer) {
      var c := |s'.calls| - 1;
      forall k: nat | k < s'.producer.i
        ensures Settled(s', c, k)
      {
        assert k < s.producer.i ==> Settled(s, c, k);
      }
    }
  }

  lemma {:induction false} RunAccounts(r: Run)
    requires IsRun(r)
    ensures SkipsWait(r.last) && Accounted(r.last)
  {
    match r
    case Start(_) =>
    case Then(before, s) =>
      RunAccounts(before);
      if ProducerStep(before.last, s) {
        ProducerSkipsWait(before.last, s);
        ProducerAccounts(before.last, s);
      } else {
        OnlyProducerQueues(before.last, s);
        SameAccounts(before.last, s);
      }
  }

  lemma SameAccounts(s: State, s': State)
    requires SkipsWait(s) && Accounted(s)
    requires s'.producer == s.producer && s'.calls == s.calls && s'.at == s.at && s'.skipped == s.skipped
    ensures SkipsWait(s') && Accounted(s')
  {
    if Pushing(s.producer) && s.calls != [] {
      var c := |s.calls| - 1;
      forall k: nat | k < s.producer.i
        ensures Settled(s', c, k)
      {
        assert Settled(s, c, k);
      }
    }
  }

  /** The ring holds as many commands as it can, SIZE - 1. */
  predicate RingFull(s: State) {
    |s.pushed| - s.popped == s.n - 1
  }

  /** A step that moves the producer is one of its own. */
  lemma ProducerMoved(r: Run)
    requires IsRun(r) && r.Then? && r.last.producer != r.before.last.producer
    ensures Sane(r.before.last) && ProducerStep(r.before.last, r.last)
  {
    if MotorStep(r.before.last, r.last) || OtherStep(r.before.last, r.last) { OnlyProducerQueues(r.before.last, r.last); }
  }

  lemma Compares(s: State, s': State)
    requires Sane(s) && s.producer.PPush? && ProducerStep(s, s')
    ensures var (call, i) := (s.calls[|s.calls| - 1], s.producer.i);
      s' == s.(producer :=
        if i == |call.parts| then PIdle
        else if s.Next(s.tail) != s.head then PWrite(i)
        else if call.blocking then PFull(i) else PIdle)
  {
  }

  /** In every run, a push that has compared the counters fails exactly when the
      ring is full: a call that waits then looks whether the motor is running,
      and any other returns. Else it goes on to write. It changes nothing else. */
  lemma PushOutcome(r: Run)
    requires IsRun(r) && r.Then? && r.before.last.producer.PPush? && r.last.producer != r.before.last.producer
    ensures var s := r.before.last;
      s.calls != [] &&
      var (call, i) := (s.calls[|s.calls| - 1], s.producer.i);
      i < |call.parts| ==>
        r.last == s.(producer := if !RingFull(s) then PWrite(i) else if call.blocking then PFull(i) else PIdle)
  {
    ProducerMoved(r);
    RunRoom(r.before);
    Compares(r.before.last, r.last);
  }

  lemma RunRoom(r: Run)
    requires IsRun(r)
    ensures var s := r.last; Sane(s) && (s.Next(s.tail) == s.head <==> RingFull(s)) && (s.head == s.tail <==> s.popped == |s.pushed|)
  {
    RunInv(r);
    RoomSeen(r.last);
  }

  /** The part a producer is at has not been pushed. */
  lemma CurrentIsNew(r: Run)
    requires IsRun(r) && Pushing(r.last.producer)
    ensures r.last.calls != [] && (|r.last.calls| - 1, r.last.producer.i) !in r.last.at
  {
    RunInv(r);
  }

  /** Where the producer is when it returns: behind the last part, or at a part
      for which there is no room and for which it does not wait. */
  ghost predicate ReturnsAt(s: State) {
    && Pushing(s.producer) && s.calls != [] && SkipsWait(s)
    && var (c, i) := (|s.calls| - 1, s.producer.i);
       && SettledUpTo(s, c, i) && (c, i) !in s.at && i <= |s.calls[c].parts|
       && (i < |s.calls[c].parts| ==> RingFull(s) && !s.calls[c].blocking)
  }

  lemma Returns(s: State, s': State)
    requires Sane(s) && Pushing(s.producer) && ProducerStep(s, s') && s'.producer == PIdle
    requires SkipsWait(s) && Accounted(s) && s.calls != [] && (|s.calls| - 1, s.producer.i) !in s.at
    requires s.Next(s.tail) == s.head ==> RingFull(s)
    ensures ReturnsAt(s)
  {
  }

  lemma ReturnPoint(r: Run)
    requires IsRun(r) && r.Then? && Pushing(r.before.last.producer) && r.last.producer == PIdle
    ensures ReturnsAt(r.before.last)
  {
    ProducerMoved(r);
    RunRoom(r.before);
    RunAccounts(r.before);
    CurrentIsNew(r.before);
    Returns(r.before.last, r.last);
  }

  /** In every run, when a call returns, every part of it has been pushed or, by a
      call that waits, given up on; or the call does not wait and the ring is full
      at that moment. */
  lemma CallEnds(r: Run)
    requires IsRun(r) && r.Then? && Pushing(r.before.last.producer) && r.last.producer == PIdle
    ensures var s := r.before.last;
      s.calls != [] &&
      var (c, call) := (|s.calls| - 1, s.calls[|s.calls| - 1]);
      SettledUpTo(s, c, |call.parts|) || (!call.blocking && RingFull(s))
  {
    ReturnPoint(r);
  }

  /** Some part of call c has not been pushed. */
  ghost predicate LeavesOut(s: State, c: nat)
    requires c < |s.calls|
  {
    exists k: nat :: k < |s.calls[c].parts| && (c, k) !in s.at
  }

  lemma LeavesOutNext(s: State, c: nat, n: nat)
    requires c < |s.calls| && n <= |s.calls[c].parts| && (c, n) !in s.at
    requires forall k: nat :: k < n ==> (c, k) in s.at
    ensures LeavesOut(s, c) <==> n < |s.calls[c].parts|
  {
  }

  lemma UnwaitingNeverSkips(s: State, c: nat)
    requires SkipsWait(s) && c < |s.calls| && !s.calls[c].blocking
    ensures forall k: nat :: (c, k) !in s.skipped
  {
  }

  lemma UnwaitingPushed(s: State, c: nat, n: nat)
    requires SettledUpTo(s, c, n) && forall k: nat :: (c, k) !in s.skipped
    ensures forall k: nat :: k < n ==> (c, k) in s.at
  {
    forall k: nat | k < n
      ensures (c, k) in s.at
    {
      assert Settled(s, c, k);
    }
  }

  /** A call that gives up on nothing, and has pushed its parts up to the one the
      producer is at. */
  ghost predicate PushedInFull(s: State, c: nat)
    requires Pushing(s.producer) && c < |s.calls|
  {
    && (forall k: nat :: (c, k) !in s.skipped)
    && (forall k: nat :: k < s.producer.i ==> (c, k) in s.at)
  }

  /** A call that does not wait gives up on nothing, has pushed its parts up to the
      one the producer is at, and leaves out a part exactly when the ring is full
      with that part still to push. */
  ghost predicate EndsUnwaiting(s: State)
    requires Pushing(s.producer) && s.calls != []
  {
    var c := |s.calls| - 1;
    !s.calls[c].blocking ==>
      PushedInFull(s, c) && (LeavesOut(s, c) <==> s.producer.i < |s.calls[c].parts| && RingFull(s))
  }

  lemma UnwaitingLeaves(s: State)
    requires ReturnsAt(s)
    ensures EndsUnwaiting(s)
  {
    var c := |s.calls| - 1;
    if !s.calls[c].blocking {
      UnwaitingNeverSkips(s, c);
      UnwaitingPushed(s, c, s.producer.i);
      LeavesOutNext(s, c, s.producer.i);
    }
  }

  lemma UnwaitingCallEnds(r: Run)
    requires IsRun(r) && r.Then? && Pushing(r.before.last.producer) && r.last.producer == PIdle
    ensures r.before.last.calls != [] && EndsUnwaiting(r.before.last)
  {
    ReturnPoint(r);
    UnwaitingLeaves(r.before.last);
  }

  // ----- What the motor makes of what it sees -----

  /** A step that moves the motor is one of its own. */
  lemma MotorMoved(r: Run)
    requires IsRun(r) && r.Then? && r.last.motor != r.before.last.motor
    ensures Sane(r.before.last) && MotorStep(r.before.last, r.last)
  {
    if ProducerStep(r.before.last, r.last) { ProducerShape(r.before.last, r.last); }
  }

  /** The command that was popped last. */
  function Newest(s: State): Command
    requires 0 < s.popped <= |s.pushed|
  {
    s.pushed[s.popped - 1]
  }

  lemma InHandIsNewest(r: Run)
    requires IsRun(r) && InHand(r.last.motor)
    ensures 0 < r.last.popped <= |r.last.pushed| && r.last.motor.cmd == Newest(r.last)
  {
    RunInv(r);
  }

  /** In every run, the motor takes a command exactly when one waits, and ends
      exactly when it has been shut down. */
  lemma LoopOutcome(r: Run)
    requires IsRun(r) && r.Then? && r.last.motor != r.before.last.motor
    ensures var (s, m) := (r.before.last, r.last.motor);
      && (s.motor.MTop? ==> m == if s.running then MPop else MDone)
      && (s.motor.MPop? ==> m == if s.popped < |s.pushed| then MRead else MTop)
  {
    MotorMoved(r);
    RunRoom(r.before);
    QueueAndEpochs(r.before);
  }

  lemma Checks(s: State, s': State)
    requires Sane(s) && MotorStep(s, s') && (s.motor.MEpoch? || s.motor.MKill?)
    ensures s.motor.MEpoch? ==> s'.motor == if s.motor.cmd.epoch == s.epoch then MKill(s.motor.cmd) else MTop
    ensures s.motor.MKill? && s.killed ==> s'.motor == MAbort(s.motor.cmd)
    ensures s.motor.MKill? && !s.killed ==>
      s'.motor == MRun(s.motor.cmd) || (s'.motor == MAbort(s.motor.cmd) && s'.killed && s'.epoch == s.epoch + 1)
  {
  }

  /** In every run, the command popped last goes on to the kill switch exactly when
      its epoch is current; it is aborted if the latch is set, or is set by this
      very check, which also ends the epoch; and else it is dispatched. */
  lemma CheckOutcome(r: Run)
    requires IsRun(r) && r.Then? && r.last.motor != r.before.last.motor
    requires r.before.last.motor.MEpoch? || r.before.last.motor.MKill?
    ensures var (s, s') := (r.before.last, r.last);
      0 < s.popped <= |s.pushed| &&
      var cmd := Newest(s);
      && (s.motor.MEpoch? ==> s'.motor == if cmd.epoch == s.epoch then MKill(cmd) else MTop)
      && (s.motor.MKill? && s.killed ==> s'.motor == MAbort(cmd))
      && (s.motor.MKill? && !s.killed ==>
            s'.motor == MRun(cmd) || (s'.motor == MAbort(cmd) && s'.killed && s'.epoch == s.epoch + 1))
  {
    MotorMoved(r);
    InHandIsNewest(r.before);
    Checks(r.before.last, r.last);
  }

  // ----- What is checked before a dispatch -----

  /** The motor compares the epochs of position j, and they agree. */
  predicate EpochMatches(s: State, j: nat) {
    s.motor.MEpoch? && s.popped == j + 1 <= |s.pushed| && s.motor.cmd == s.pushed[j] && s.motor.cmd.epoch == s.epoch
  }

  /** The motor checks the kill latch for position j, and the latch is clear. */
  predicate LatchClear(s: State, j: nat) {
    s.motor.MKill? && s.popped == j + 1 <= |s.pushed| && s.motor.cmd == s.pushed[j] && !s.killed
  }

  /** At some moment of the run the epochs of position j agreed. */
  predicate EpochMatched(r: Run, j: nat) {
    EpochMatches(r.last, j) || (r.Then? && EpochMatched(r.before, j))
  }

  /** At some moment of the run the latch was clear for position j, and before
      that its epochs had agreed. */
  predicate Checked(r: Run, j: nat) {
    (LatchClear(r.last, j) && EpochMatched(r, j)) || (r.Then? && Checked(r.before, j))
  }

  /** The producer leaves the motor and its record alone; it gives up on a part
      only after a push failed and when the motor is shut down. */
  lemma ProducerShape(s: State, s': State)
    requires Sane(s) && ProducerStep(s, s')
    ensures s'.executed == s.executed && s'.motor == s.motor && s'.popped == s.popped && s'.running == s.running
    ensures s'.skipped != s.skipped ==> s.producer.PFull? && !s.running
  {
  }

  lemma MotorShape(s: State, s': State)
    requires Sane(s) && MotorStep(s, s')
    ensures s'.skipped == s.skipped && s'.running == s.running
  {
  }

  /** The way of the motor to a dispatch: epoch check, latch check, dispatch. */
  lemma DispatchGate(s: State, s': State)
    requires Sane(s) && MotorStep(s, s')
    ensures s'.motor.MKill? ==> s.motor.MEpoch? && s.motor.cmd.epoch == s.epoch && s'.popped == s.popped
    ensures s'.motor.MRun? ==> s.motor.MKill? && !s.killed && s'.popped == s.popped
    ensures s'.executed == s.executed ||
            (s.motor.MRun? && s.popped > 0 && s'.executed == s.executed + [s.popped - 1])
  {
    if s.motor.MKill? { KillShape(s, s'); }
  }

  /** What of the checks is behind the command in the motor's hand and behind the dispatched ones. */
  ghost predicate CheckedSoFar(r: Run) {
    && (r.last.motor.MKill? ==> r.last.popped > 0 && EpochMatched(r, r.last.popped - 1))
    && (r.last.motor.MRun? ==> r.last.popped > 0 && Checked(r, r.last.popped - 1))
    && (forall x :: 0 <= x < |r.last.executed| ==> Checked(r, r.last.executed[x]))
  }

  lemma HandChecks(r: Run)
    requires Sane(r.last) && RingOk(r.last) && (r.last.motor.MKill? ==> r.last.popped > 0 && EpochMatched(r, r.last.popped - 1))
    ensures var s := r.last;
      && (s.motor.MEpoch? && s.motor.cmd.epoch == s.epoch ==> s.popped > 0 && EpochMatched(r, s.popped - 1))
      && (s.motor.MKill? && !s.killed ==> s.popped > 0 && Checked(r, s.popped - 1))
  {
    var s := r.last;
    if s.motor.MEpoch? && s.motor.cmd.epoch == s.epoch { assert EpochMatches(s, s.popped - 1); }
    if s.motor.MKill? && !s.killed { assert LatchClear(s, s.popped - 1); }
  }

  lemma CheckedLater(r: Run, s': State, j: nat)
    ensures Checked(r, j) ==> Checked(Then(r, s'), j)
    ensures EpochMatched(r, j) ==> EpochMatched(Then(r, s'), j)
  {
  }

  /** What the motor's way to a dispatch means for the checks. */
  lemma MotorChecks(r: Run, s': State)
    requires Sane(r.last) && RingOk(r.last) && CheckedSoFar(r)
    requires s'.motor.MKill? ==> r.last.motor.MEpoch? && r.last.motor.cmd.epoch == r.last.epoch && s'.popped == r.last.popped
    requires s'.motor.MRun? ==> r.last.motor.MKill? && !r.last.killed && s'.popped == r.last.popped
    requires s'.executed == r.last.executed ||
             (r.last.motor.MRun? && r.last.popped > 0 && s'.executed == r.last.executed + [r.last.popped - 1])
    ensures CheckedSoFar(Then(r, s'))
  {
    HandChecks(r);
    if s'.motor.MKill? || s'.motor.MRun? { CheckedLater(r, s', s'.popped - 1); }
    forall x | 0 <= x < |s'.executed|
      ensures Checked(Then(r, s'), s'.executed[x])
    {
      if x < |r.last.executed| { assert Checked(r, r.last.executed[x]); }
      CheckedLater(r, s', s'.executed[x]);
    }
  }

  lemma ElsewhereChecks(r: Run, s': State)
    requires CheckedSoFar(r)
    requires s'.executed == r.last.executed && s'.motor == r.last.motor && s'.popped == r.last.popped
    ensures CheckedSoFar(Then(r, s'))
  {
    forall x | 0 <= x < |s'.executed|
      ensures Checked(Then(r, s'), s'.executed[x])
    {
      assert Checked(r, r.last.executed[x]);
      CheckedLater(r, s', s'.executed[x]);
    }
    if s'.motor.MKill? || s'.motor.MRun? { CheckedLater(r, s', s'.popped - 1); }
  }

  lemma StepChecks(r: Run, s': State)
    requires Inv(r.last) && CheckedSoFar(r) && Step(r.last, s')
    ensures CheckedSoFar(Then(r, s'))
  {
    if MotorStep(r.last, s') {
      DispatchGate(r.last, s');
      MotorChecks(r, s');
    } else {
      if ProducerStep(r.last, s') { ProducerShape(r.last, s'); } else { OtherShape(r.last, s'); }
      ElsewhereChecks(r, s');
    }
  }

  lemma {:induction false} RunChecks(r: Run)
    requires IsRun(r)
    ensures CheckedSoFar(r)
  {
    match r
    case Start(_) =>
    case Then(before, s) =>
      RunInv(before);
      RunChecks(before);
      StepChecks(before, s);
  }

  /** In every run, each dispatched command had its epoch compared and found
      current, and after that its thread found the kill latch clear. */
  lemma DispatchedWasChecked(r: Run, x: nat)
    requires IsRun(r) && x < |r.last.executed|
    ensures Checked(r, r.last.executed[x])
  {
    RunChecks(r);
  }

  // ----- One call -----

  predicate ExecutedInRange(s: State) {
    forall x :: 0 <= x < |s.executed| ==> s.executed[x] < |s.pushed|
  }

  /** The x-th dispatch is one of call c. */
  predicate Of(s: State, x: nat, c: nat)
    requires x < |s.executed| && ExecutedInRange(s)
  {
    s.pushed[s.executed[x]].call == c
  }

  function PartAt(s: State, x: nat): nat
    requires x < |s.executed| && ExecutedInRange(s)
  {
    s.pushed[s.executed[x]].part
  }

  /** How many of the first x dispatches belong to call c. */
  function Ran(s: State, x: nat, c: nat): nat
    requires x <= |s.executed| && ExecutedInRange(s)
  {
    if x == 0 then 0 else Ran(s, x - 1, c) + if Of(s, x - 1, c) then 1 else 0
  }

  /** The texts that the first x dispatches typed for call c. */
  function Typed(s: State, x: nat, c: nat): string
    requires x <= |s.executed| && ExecutedInRange(s)
  {
    if x == 0 then []
    else Typed(s, x - 1, c) + if Of(s, x - 1, c) then s.pushed[s.executed[x - 1]].text else []
  }

  function Join(parts: seq<string>, k: nat): string
    requires k <= |parts|
  {
    if k == 0 then [] else Join(parts, k - 1) + parts[k - 1]
  }

  /** Part k of call c has been dispatched. */
  ghost predicate Dispatched(s: State, c: nat, k: nat)
    requires ExecutedInRange(s)
  {
    exists x :: 0 <= x < |s.executed| && Of(s, x, c) && PartAt(s, x) == k
  }

  /** The dispatched parts of call c are its first ones, without a gap. */
  ghost predicate InitialSegment(s: State, c: nat)
    requires ExecutedInRange(s)
  {
    forall j: nat, k: nat :: j < k && Dispatched(s, c, k) ==> Dispatched(s, c, j)
  }

  /** No part was dispatched after one that was given up on. */
  ghost predicate NoneAfterGap(s: State, c: nat)
    requires ExecutedInRange(s)
  {
    forall j: nat, k: nat :: j < k && (c, j) in s.skipped ==> !Dispatched(s, c, k)
  }

  lemma InRangeOf(s: State)
    requires s.popped <= |s.pushed| && ExecutionOk(s)
    ensures ExecutedInRange(s)
  {
  }

  /** A part given up on is never dispatched. */
  lemma SkippedNotDispatched(s: State, c: nat, j: nat)
    requires CallsOk(s) && PartsOk(s) && ExecutedInRange(s) && (c, j) in s.skipped
    ensures !Dispatched(s, c, j)
  {
    assert SkippedOk(s, (c, j));
  }

  /** Unless it was given up on, the predecessor of a dispatched part was dispatched before it. */
  lemma PredecessorRan(s: State, x: nat) returns (y: nat)
    requires CallsOk(s) && PartsOk(s) && s.popped <= |s.pushed| && ExecutionOk(s)
    requires ExecutedInRange(s) && x < |s.executed| && PartAt(s, x) > 0
    requires (s.pushed[s.executed[x]].call, PartAt(s, x) - 1) !in s.skipped
    ensures y < x && Of(s, y, s.pushed[s.executed[x]].call) && PartAt(s, y) == PartAt(s, x) - 1
  {
    var j := s.executed[x];
    assert PredecessorOk(s, j) && EarlierRan(s, j);
    var i := s.at[(s.pushed[j].call, s.pushed[j].part - 1)];
    y :| 0 <= y < |s.executed| && s.executed[y] == i;
  }

  lemma SamePart(s: State, x: nat, y: nat)
    requires CallsOk(s) && s.popped <= |s.pushed| && ExecutionOk(s) && ExecutedInRange(s)
    requires x < |s.executed| && y < |s.executed| && Of(s, x, s.pushed[s.executed[y]].call) && PartAt(s, x) == PartAt(s, y)
    ensures x == y
  {
    var m := s.pushed[s.executed[x]];
    assert s.at[(m.call, m.part)] == s.executed[x] == s.executed[y];
  }

  /** Part k of call c is among the first x dispatches. */
  ghost predicate Seen(s: State, x: nat, c: nat, k: nat)
    requires x <= |s.executed| && ExecutedInRange(s)
  {
    exists y :: 0 <= y < x && Of(s, y, c) && PartAt(s, y) == k
  }

  /** The x-th dispatch is of a part not dispatched before, next to one that was. */
  ghost predicate InTurn(s: State, x: nat, c: nat)
    requires x < |s.executed| && ExecutedInRange(s)
  {
    && !Seen(s, x, c, PartAt(s, x))
    && (PartAt(s, x) > 0 ==> Seen(s, x, c, PartAt(s, x) - 1))
  }

  ghost predicate Orderly(s: State, c: nat) {
    ExecutedInRange(s) && forall x :: 0 <= x < |s.executed| && Of(s, x, c) ==> InTurn(s, x, c)
  }

  lemma OrderlyWithoutGap(s: State, c: nat)
    requires CallsOk(s) && PartsOk(s) && s.popped <= |s.pushed| && ExecutionOk(s)
    requires ExecutedInRange(s) && NoneAfterGap(s, c)
    ensures Orderly(s, c)
  {
    forall x | 0 <= x < |s.executed| && Of(s, x, c)
      ensures InTurn(s, x, c)
    {
      if y :| 0 <= y < x && Of(s, y, c) && PartAt(s, y) == PartAt(s, x) {
        SamePart(s, x, y);
      }
      if PartAt(s, x) > 0 {
        assert Dispatched(s, c, PartAt(s, x));
        var y := PredecessorRan(s, x);
      }
    }
  }

  lemma {:induction false} DispatchedDown(s: State, c: nat, x: nat, j: nat)
    requires Orderly(s, c) && x < |s.executed| && Of(s, x, c) && j <= PartAt(s, x)
    ensures Dispatched(s, c, j)
    decreases x
  {
    if j < PartAt(s, x) {
      assert InTurn(s, x, c);
      var y :| 0 <= y < x && Of(s, y, c) && PartAt(s, y) == PartAt(s, x) - 1;
      DispatchedDown(s, c, y, j);
    }
  }

  /** In every run the dispatched parts of a call are its first ones if and only
      if none was dispatched after a part that was given up on. */
  lemma InitialSegmentExactly(r: Run, c: nat)
    requires IsRun(r)
    ensures ExecutedInRange(r.last)
    ensures InitialSegment(r.last, c) <==> NoneAfterGap(r.last, c)
  {
    RunInv(r);
    var s := r.last;
    InRangeOf(s);
    if NoneAfterGap(s, c) {
      OrderlyWithoutGap(s, c);
      forall j: nat, k: nat | j < k && Dispatched(s, c, k)
        ensures Dispatched(s, c, j)
      {
        var x :| 0 <= x < |s.executed| && Of(s, x, c) && PartAt(s, x) == k;
        DispatchedDown(s, c, x, j);
      }
    }
    if InitialSegment(s, c) {
      forall j: nat, k: nat | j < k && (c, j) in s.skipped
        ensures !Dispatched(s, c, k)
      {
        SkippedNotDispatched(s, c, j);
      }
    }
  }

  // ----- What a call has typed -----

  /** Each dispatched part of call c is the number of those dispatched before it. */
  lemma {:induction false} PartIsRan(s: State, x: nat, c: nat)
    requires Orderly(s, c) && x < |s.executed| && Of(s, x, c)
    ensures PartAt(s, x) == Ran(s, x, c)
    decreases x, 1
  {
    var k := PartAt(s, x);
    assert InTurn(s, x, c);
    SeenIsRan(s, x, c, k);
    if k > 0 { SeenIsRan(s, x, c, k - 1); }
  }

  lemma {:induction false} SeenIsRan(s: State, x: nat, c: nat, k: nat)
    requires Orderly(s, c) && x <= |s.executed|
    ensures Seen(s, x, c, k) <==> k < Ran(s, x, c)
    decreases x, 0
  {
    if x > 0 {
      SeenIsRan(s, x - 1, c, k);
      if Of(s, x - 1, c) { PartIsRan(s, x - 1, c); }
      SeenStep(s, x - 1, c, k);
    }
  }

  lemma SeenStep(s: State, x: nat, c: nat, k: nat)
    requires x < |s.executed| && ExecutedInRange(s)
    ensures Seen(s, x + 1, c, k) <==> Seen(s, x, c, k) || (Of(s, x, c) && PartAt(s, x) == k)
  {
  }

  /** Dispatched commands of call c carry its parts. */
  ghost predicate Faithful(s: State, c: nat)
    requires c < |s.calls| && ExecutedInRange(s)
  {
    forall x :: 0 <= x < |s.executed| && Of(s, x, c) ==>
      PartAt(s, x) < |s.calls[c].parts| && s.pushed[s.executed[x]].text == s.calls[c].parts[PartAt(s, x)]
  }

  lemma {:induction false} TypedIsJoin(s: State, x: nat, c: nat)
    requires c < |s.calls| && Orderly(s, c) && Faithful(s, c) && x <= |s.executed|
    ensures Ran(s, x, c) <= |s.calls[c].parts| && Typed(s, x, c) == Join(s.calls[c].parts, Ran(s, x, c))
  {
    if x > 0 {
      TypedIsJoin(s, x - 1, c);
      if Of(s, x - 1, c) { PartIsRan(s, x - 1, c); }
    }
  }

  lemma {:induction false} JoinPrefix(parts: seq<string>, k: nat)
    requires k <= |parts|
    ensures Join(parts, k) <= Join(parts, |parts|)
    decreases |parts| - k
  {
    if k < |parts| { JoinPrefix(parts, k + 1); }
  }

  /** The call has returned, the ring is drained, and no abort or kill has come
      since the call began. */
  predicate Undisturbed(s: State, c: nat)
    requires c < |s.calls|
  {
    && s.calls[c].blocking && Progress(s, c) == |s.calls[c].parts|
    && s.popped == |s.pushed| && !InHand(s.motor) && s.epoch == s.calls[c].epoch
  }

  /** What was typed for call c is a prefix of `whole`, and all of it if nothing
      disturbed the call and nothing was given up on. */
  ghost predicate TypedProperly(s: State, c: nat, whole: string)
    requires c < |s.calls|
  {
    && ExecutedInRange(s) && Typed(s, |s.executed|, c) <= whole
    && (Undisturbed(s, c) && (forall k: nat :: (c, k) !in s.skipped) ==> Typed(s, |s.executed|, c) == whole)
  }

  lemma TypedWithoutGap(s: State, c: nat)
    requires Inv(s) && c < |s.calls| && ExecutedInRange(s) && NoneAfterGap(s, c)
    ensures TypedProperly(s, c, Join(s.calls[c].parts, |s.calls[c].parts|))
  {
    var parts := s.calls[c].parts;
    OrderlyWithoutGap(s, c);
    assert Faithful(s, c);
    TypedIsJoin(s, |s.executed|, c);
    JoinPrefix(parts, Ran(s, |s.executed|, c));
    if Undisturbed(s, c) && (forall k: nat :: (c, k) !in s.skipped) && parts != [] { LastHasRun(s, c); }
  }

  lemma LastHasRun(s: State, c: nat)
    requires Orderly(s, c) && ProgressOk(s) && CallsOk(s) && s.popped <= |s.pushed| && ExecutionOk(s)
    requires c < |s.calls| && s.calls[c].parts != [] && Undisturbed(s, c)
    requires forall k: nat :: (c, k) !in s.skipped
    requires Ran(s, |s.executed|, c) <= |s.calls[c].parts|
    ensures Ran(s, |s.executed|, c) == |s.calls[c].parts|
  {
    var k := |s.calls[c].parts| - 1;
    assert (c, k) in s.at;
    var j := s.at[(c, k)];
    assert s.pushed[j].epoch == s.calls[c].epoch && !Over(s, j);
    assert j in s.executed;
    var x :| 0 <= x < |s.executed| && s.executed[x] == j;
    assert Of(s, x, c) && PartAt(s, x) == k;
    SeenIsRan(s, |s.executed|, c, k);
  }

  /** A part is given up on only after a push failed and when the motor is shut
      down, and the motor is not started again. */
  lemma SkipOnlyAfterShutdown(s: State, s': State)
    requires Sane(s) && Step(s, s')
    ensures s'.running ==> s.running && s'.skipped == s.skipped
  {
    if ProducerStep(s, s') { ProducerShape(s, s'); }
    else if MotorStep(s, s') { MotorShape(s, s'); }
    else { OtherShape(s, s'); }
  }

  /** As long as the motor thread has not been shut down, no call has given up on any part. */
  lemma {:induction false} NothingGivenUpWhileRunning(r: Run)
    requires IsRun(r) && r.last.running
    ensures r.last.skipped == {}
  {
    match r
    case Start(_) =>
    case Then(before, s) =>
      SkipOnlyAfterShutdown(before.last, s);
      NothingGivenUpWhileRunning(before);
  }

  /** As long as the motor thread has not been shut down, what has been typed for
      a call is a prefix of what it was asked to type, and all of it if nothing
      disturbed the call. */
  lemma TypedIsPrefix(r: Run, c: nat)
    requires IsRun(r) && r.last.running && c < |r.last.calls|
    ensures var s := r.last;
      var whole := Join(s.calls[c].parts, |s.calls[c].parts|);
      && ExecutedInRange(s)
      && Typed(s, |s.executed|, c) <= whole
      && (Undisturbed(s, c) ==> Typed(s, |s.executed|, c) == whole)
  {
    RunInv(r);
    NothingGivenUpWhileRunning(r);
    InRangeOf(r.last);
    TypedWithoutGap(r.last, c);
  }

  /** With a shutdown, the same holds of every call without a dispatch after a gap. */
  lemma TypedIsPrefixWithoutGap(r: Run, c: nat)
    requires IsRun(r) && c < |r.last.calls| && ExecutedInRange(r.last) && NoneAfterGap(r.last, c)
    ensures TypedProperly(r.last, c, Join(r.last.calls[c].parts, |r.last.calls[c].parts|))
  {
    RunInv(r);
    TypedWithoutGap(r.last, c);
  }

  // ----- Threads that are left alone, and a run in which giving up does harm -----

  const ABC := Call(["a", "b", "c"], true, 1)
  const A := Command("a", 1, 0, 0)
  const C := Command("c", 1, 0, 2)

  /** A ring of two slots, so of capacity one, before anything happened. */
  function Begin(): State {
    State(2, [A, A], 0, 0, 1, false, true, PIdle, MTop, [], [], 0, [], map[], map[], {})
  }

  /** Part a is queued, part b does not fit. */
  function BWaits(): State {
    Begin().(producer := PFull(1), calls := [ABC], tail := 1, pushed := [A], at := map[(0, 0) := 0])
  }

  /** The motor has dispatched a and passed the running check again. */
  function ADone(): State {
    BWaits().(motor := MPop, head := 1, popped := 1, passed := map[0 := 1], executed := [0])
  }

  /** After a shutdown the producer gave up on b and queued c. */
  function CQueued(): State {
    ADone().(producer := PPush(3), running := false, buffer := [A, C], tail := 0, pushed := [A, C],
             at := map[(0, 0) := 0, (0, 2) := 1], skipped := {(0, 1)})
  }

  lemma ByProducer(r: Run, s: State)
    ensures IsRun(r) && Sane(r.last) && ProducerStep(r.last, s) ==> IsRun(Then(r, s))
  {
  }

  lemma ByMotor(r: Run, s: State)
    ensures IsRun(r) && Sane(r.last) && MotorStep(r.last, s) ==> IsRun(Then(r, s))
  {
  }

  lemma RunToBWaits() returns (r: Run)
    ensures IsRun(r) && r.last == BWaits()
  {
    var s0 := Begin();
    var s1 := s0.(producer := PEpoch(ABC.parts, true));
    var s2 := s1.(producer := PPush(0), calls := [ABC]);
    var s3 := s2.(producer := PWrite(0));
    var s4 := s3.(producer := PStore(0));
    var s5 := s4.(producer := PPush(1), tail := 1, pushed := [A], at := map[(0, 0) := 0]);
    r := Start(s0);
    ByProducer(r, s1);
    r := Then(r, s1);
    ByProducer(r, s2);
    r := Then(r, s2);
    ByProducer(r, s3);
    r := Then(r, s3);
    assert s4.buffer == s3.buffer[0 := A];
    ByProducer(r, s4);
    r := Then(r, s4);
    ByProducer(r, s5);
    r := Then(r, s5);
    ByProducer(r, BWaits());
    r := Then(r, BWaits());
  }

  /** The motor takes the next command from its slot. */
  lemma Take(r0: Run, cmd: Command) returns (r: Run)
    requires Sane(r0.last) && r0.last.motor == MPop && r0.last.head != r0.last.tail
    requires cmd == r0.last.buffer[r0.last.head]
    ensures IsRun(r0) ==> IsRun(r)
    ensures r.last ==
      r0.last.(motor := MEpoch(cmd), head := r0.last.Next(r0.last.head), popped := r0.last.popped + 1)
  {
    var s0 := r0.last;
    var s1 := s0.(motor := MRead);
    var s2 := s1.(motor := MStore(cmd));
    r := r0;
    ByMotor(r, s1);
    r := Then(r, s1);
    ByMotor(r, s2);
    r := Then(r, s2);
    var s3 := s2.(motor := MEpoch(cmd), head := s0.Next(s0.head), popped := s0.popped + 1);
    ByMotor(r, s3);
    r := Then(r, s3);
  }

  /** The motor takes the next command from its slot, checks it and dispatches it. */
  lemma Dispatch(r0: Run, cmd: Command) returns (r: Run)
    requires Sane(r0.last) && r0.last.motor == MPop && r0.last.head != r0.last.tail
    requires cmd == r0.last.buffer[r0.last.head] && cmd.epoch == r0.last.epoch && !r0.last.killed
    ensures IsRun(r0) ==> IsRun(r)
    ensures r.last == r0.last.(motor := MTop, head := r0.last.Next(r0.last.head), popped := r0.last.popped + 1,
      passed := r0.last.passed[r0.last.popped := r0.last.epoch], executed := r0.last.executed + [r0.last.popped])
  {
    r := Take(r0, cmd);
    r := CheckAndRun(r, cmd);
  }

  /** The motor checks the command in its hand and dispatches it. */
  lemma CheckAndRun(r0: Run, cmd: Command) returns (r: Run)
    requires Sane(r0.last) && r0.last.motor == MEpoch(cmd) && r0.last.popped > 0
    requires cmd.epoch == r0.last.epoch && !r0.last.killed
    ensures IsRun(r0) ==> IsRun(r)
    ensures var s, j := r0.last, r0.last.popped - 1;
      r.last == s.(motor := MTop, passed := s.passed[j := s.epoch], executed := s.executed + [j])
  {
    var s, j := r0.last, r0.last.popped - 1;
    var s1 := s.(motor := MKill(cmd), passed := s.passed[j := s.epoch]);
    var s2 := s1.(motor := MRun(cmd));
    var s3 := s2.(motor := MTop, executed := s.executed + [j]);
    CheckSteps(s, cmd);
    r := r0;
    ByMotor(r, s1);
    r := Then(r, s1);
    ByMotor(r, s2);
    r := Then(r, s2);
    ByMotor(r, s3);
    r := Then(r, s3);
  }

  lemma CheckSteps(s: State, cmd: Command)
    requires Sane(s) && s.motor == MEpoch(cmd) && s.popped > 0 && cmd.epoch == s.epoch && !s.killed
    ensures var j := s.popped - 1;
      var s1 := s.(motor := MKill(cmd), passed := s.passed[j := s.epoch]);
      var s2 := s1.(motor := MRun(cmd));
      && MotorStep(s, s1) && Sane(s1) && MotorStep(s1, s2) && Sane(s2)
      && MotorStep(s2, s2.(motor := MTop, executed := s.executed + [j]))
  {
  }

  lemma MotorGoes(r0: Run, s: State) returns (r: Run)
    requires IsRun(r0) && Sane(r0.last) && MotorStep(r0.last, s)
    ensures IsRun(r) && r.last == s && Sane(s)
  {
    r := Then(r0, s);
    RunInv(r);
  }

  /** Some run comes to s. */
  ghost predicate Reached(s: State) {
    exists r: Run :: IsRun(r) && r.last == s
  }

  lemma ProducerReaches(s: State, s': State)
    requires Reached(s) && Sane(s) && ProducerStep(s, s')
    ensures Reached(s') && Sane(s')
  {
    var r: Run :| IsRun(r) && r.last == s;
    RunInv(Then(r, s'));
  }

  lemma RoomReached(s: State)
    requires Reached(s)
    ensures Sane(s) && (s.Next(s.tail) == s.head <==> RingFull(s))
  {
    var r: Run :| IsRun(r) && r.last == s;
    RunRoom(r);
  }

  lemma Oldest(r: Run)
    requires IsRun(r) && r.last.popped < |r.last.pushed|
    ensures var s := r.last; Sane(s) && s.head != s.tail && s.buffer[s.head] == s.pushed[s.popped]
  {
    RunInv(r);
    RoomSeen(r.last);
  }

  lemma LoopRuns(s: State)
    requires Sane(s) && s.motor == MTop && s.running
    ensures MotorStep(s, s.(motor := MPop))
  {
  }

  lemma Discards(s: State)
    requires Sane(s) && s.motor.MEpoch? && s.motor.cmd.epoch != s.epoch
    ensures MotorStep(s, s.(motor := MTop))
  {
  }

  /** From every reachable state in which the motor is at the top of its loop, left
      alone it dispatches the oldest command, if that is of the current epoch and
      the motor runs with the latch clear. */
  lemma OldestIsDispatched(r0: Run) returns (r: Run)
    requires IsRun(r0) && r0.last.motor == MTop && r0.last.running && !r0.last.killed
    requires r0.last.popped < |r0.last.pushed| && r0.last.pushed[r0.last.popped].epoch == r0.last.epoch
    ensures IsRun(r)
    ensures var s := r0.last;
      r.last == s.(motor := MTop, head := s.Next(s.head), popped := s.popped + 1,
                   passed := s.passed[s.popped := s.epoch], executed := s.executed + [s.popped])
  {
    Oldest(r0);
    LoopRuns(r0.last);
    r := MotorGoes(r0, r0.last.(motor := MPop));
    r := Dispatch(r, r0.last.pushed[r0.last.popped]);
  }

  /** A command of another epoch it takes and discards. */
  lemma StaleIsDiscarded(r0: Run) returns (r: Run)
    requires IsRun(r0) && r0.last.motor == MTop && r0.last.running
    requires r0.last.popped < |r0.last.pushed| && r0.last.pushed[r0.last.popped].epoch != r0.last.epoch
    ensures IsRun(r)
    ensures r.last == r0.last.(motor := MTop, head := r0.last.Next(r0.last.head), popped := r0.last.popped + 1)
  {
    Oldest(r0);
    LoopRuns(r0.last);
    r := MotorGoes(r0, r0.last.(motor := MPop));
    r := Take(r, r0.last.pushed[r0.last.popped]);
    RunInv(r);
    Discards(r.last);
    r := MotorGoes(r, r.last.(motor := MTop));
  }

  lemma Asks(s: State, text: string) returns (s': State)
    requires Reached(s) && s.producer == PIdle
    ensures Reached(s') && s' == s.(producer := PPush(0), calls := s.calls + [Call([text], false, s.epoch)])
  {
    RoomReached(s);
    var s1 := s.(producer := PEpoch([text], false));
    ProducerReaches(s, s1);
    s' := s1.(producer := PPush(0), calls := s.calls + [Call([text], false, s.epoch)]);
    ProducerReaches(s1, s');
  }

  lemma WriteStep(s: State) returns (s': State)
    requires Sane(s) && s.producer == PPush(0) && s.Next(s.tail) != s.head && s.calls != []
    requires |s.calls[|s.calls| - 1].parts| == 1
    ensures ProducerStep(s, s') && s' == s.(producer := PWrite(0))
  {
    s' := s.(producer := PWrite(0));
  }

  lemma SlotStep(s: State) returns (s': State)
    requires Sane(s) && s.producer == PWrite(0)
    ensures ProducerStep(s, s') && s'.producer == PStore(0) && s'.calls == s.calls
    ensures s'.pushed == s.pushed && s'.popped == s.popped
  {
    s' := s.(producer := PStore(0), buffer := s.buffer[s.tail := CommandOf(s, 0)]);
  }

  /** The command carries part 0 of the latest call. */
  predicate IsFirstPart(s: State, m: Command)
    requires s.calls != []
  {
    var c := |s.calls| - 1;
    s.calls[c].parts == [m.text] && m.epoch == s.calls[c].epoch && m.call == c && m.part == 0
  }

  lemma StoreStep(s: State, text: string) returns (s': State, m: Command)
    requires Sane(s) && s.producer == PStore(0) && s.calls != [] && s.calls[|s.calls| - 1].parts == [text]
    ensures ProducerStep(s, s') && s'.producer == PPush(1) && s'.calls == s.calls && s'.popped == s.popped
    ensures s'.pushed == s.pushed + [m] && IsFirstPart(s, m)
  {
    m := CommandOf(s, 0);
    s' := s.(producer := PPush(1), tail := s.Next(s.tail), pushed := s.pushed + [m],
             at := s.at[(|s.calls| - 1, 0) := |s.pushed|]);
  }

  lemma QueueSteps(s: State, text: string) returns (s1: State, s2: State, s3: State, m: Command)
    requires Sane(s) && s.producer == PPush(0) && s.Next(s.tail) != s.head && s.calls != []
    requires s.calls[|s.calls| - 1].parts == [text]
    ensures ProducerStep(s, s1) && Sane(s1) && ProducerStep(s1, s2) && Sane(s2) && ProducerStep(s2, s3)
    ensures s3.producer == PPush(1) && s3.calls == s.calls && s3.popped == s.popped
    ensures s3.pushed == s.pushed + [m] && IsFirstPart(s, m)
  {
    s1 := WriteStep(s);
    s2 := SlotStep(s1);
    s3, m := StoreStep(s2, text);
  }

  lemma ThreeSteps(s: State, s1: State, s2: State, s3: State)
    requires Reached(s) && Sane(s)
    requires ProducerStep(s, s1) && Sane(s1) && ProducerStep(s1, s2) && Sane(s2) && ProducerStep(s2, s3)
    ensures Reached(s3)
  {
    ProducerReaches(s, s1);
    ProducerReaches(s1, s2);
    ProducerReaches(s2, s3);
  }

  /** Part 0 is queued. */
  lemma Writes(s: State, text: string) returns (s': State, m: Command)
    requires Reached(s) && s.producer == PPush(0) && !RingFull(s) && s.calls != []
    requires s.calls[|s.calls| - 1].parts == [text]
    ensures Reached(s') && s'.producer == PPush(1) && s'.calls == s.calls && s'.popped == s.popped
    ensures s'.pushed == s.pushed + [m] && IsFirstPart(s, m)
  {
    RoomReached(s);
    var s1, s2;
    s1, s2, s', m := QueueSteps(s, text);
    ThreeSteps(s, s1, s2, s');
  }

  lemma ReturnStep(s: State)
    requires Sane(s) && s.producer.PPush? && s.calls != []
    requires s.producer.i == |s.calls[|s.calls| - 1].parts| ||
             (s.Next(s.tail) == s.head && !s.calls[|s.calls| - 1].blocking)
    ensures ProducerStep(s, s.(producer := PIdle))
  {
  }

  /** From every reachable state in which the producer is idle, a `queue_action`
      that is left alone appends its command, under the current epoch, unless the
      ring is full. */
  lemma ActionIsQueued(r0: Run, text: string) returns (r: Run)
    requires IsRun(r0) && r0.last.producer == PIdle
    ensures IsRun(r) && r.last.producer == PIdle && r.last.calls == r0.last.calls + [Call([text], false, r0.last.epoch)]
    ensures r.last.popped == r0.last.popped
    ensures RingFull(r0.last) ==> r.last.pushed == r0.last.pushed
    ensures !RingFull(r0.last) ==>
      var n := |r0.last.pushed|;
      |r.last.pushed| == n + 1 && r.last.pushed[..n] == r0.last.pushed && IsFirstPart(r.last, r.last.pushed[n])
  {
    var s := Asks(r0.last, text);
    var m;
    if !RingFull(s) { s, m := Writes(s, text); }
    RoomReached(s);
    ReturnStep(s);
    ProducerReaches(s, s.(producer := PIdle));
    r :| IsRun(r) && r.last == s.(producer := PIdle);
  }

  lemma RunToADone() returns (r: Run)
    ensures IsRun(r) && r.last == ADone()
  {
    r := RunToBWaits();
    var s1 := BWaits().(motor := MPop);
    ByMotor(r, s1);
    r := Dispatch(Then(r, s1), A);
    ByMotor(r, ADone());
    r := Then(r, ADone());
  }

  /** After a shutdown the producer has given up on b and is at c. */
  function AtC(): State {
    ADone().(producer := PPush(2), running := false, skipped := {(0, 1)})
  }

  lemma RunToAtC() returns (r: Run)
    ensures IsRun(r) && r.last == AtC()
  {
    r := RunToADone();
    var s1 := ADone().(running := false);
    assert OtherStep(ADone(), s1);
    r := Then(r, s1);
    assert s1.skipped + {(0, 1)} == {(0, 1)};
    ByProducer(r, AtC());
    r := Then(r, AtC());
  }

  function CW(): State {
    AtC().(producer := PWrite(2))
  }

  function CStores(): State {
    AtC().(producer := PStore(2), buffer := [A, C])
  }

  lemma CFits()
    ensures Sane(AtC()) && ProducerStep(AtC(), CW())
  {
  }

  lemma CWritten()
    ensures Sane(CW()) && ProducerStep(CW(), CStores())
  {
    assert CW().buffer[1 := C] == [A, C];
  }

  lemma CStored()
    ensures Sane(CStores()) && ProducerStep(CStores(), CQueued())
  {
    assert CStores().at[(0, 2) := 1] == CQueued().at && CStores().pushed + [C] == [A, C];
  }

  lemma RunToCQueued() returns (r: Run)
    ensures IsRun(r) && r.last == CQueued()
  {
    r := RunToAtC();
    CFits();
    ByProducer(r, CW());
    r := Then(r, CW());
    CWritten();
    ByProducer(r, CStores());
    r := Then(r, CStores());
    CStored();
    ByProducer(r, CQueued());
    r := Then(r, CQueued());
  }

  /** A waiting call that gives up on a part can still have a later part
      dispatched: the motor types "ac" for "abc". */
  lemma GapAfterShutdown() returns (r: Run)
    ensures IsRun(r) && r.last.calls == [ABC] && (0, 1) in r.last.skipped
    ensures ExecutedInRange(r.last) && Typed(r.last, |r.last.executed|, 0) == "ac"
    ensures !(Typed(r.last, |r.last.executed|, 0) <= Join(ABC.parts, 3))
  {
    r := RunToCQueued();
    r := Dispatch(r, C);
    var s := r.last;
    assert s.executed == [0, 1] && s.pushed == [A, C];
    assert Typed(s, 1, 0) == Typed(s, 0, 0) + "a" == "a";
    assert Typed(s, 2, 0) == Typed(s, 1, 0) + "c";
    assert Join(ABC.parts, 1) == Join(ABC.parts, 0) + "a" == "a";
    assert Join(ABC.parts, 2) == Join(ABC.parts, 1) + "b";
    assert Join(ABC.parts, 3)[1] == 'b';
  }

  // ----- The parts of a string -----

  const CHUNK := 250

  /** The pieces that `queue_string` queues. */
  function Chunks(str: string): seq<string>
    decreases |str|
  {
    if str == [] then []
    else if |str| <= CHUNK then [str]
    else [str[..CHUNK]] + Chunks(str[CHUNK..])
  }

  lemma {:induction false} JoinCons(p: string, parts: seq<string>, k: nat)
    requires k <= |parts|
    ensures Join([p] + parts, k + 1) == p + Join(parts, k)
  {
    if k > 0 {
      JoinCons(p, parts, k - 1);
      assert ([p] + parts)[k] == parts[k - 1];
    } else {
      assert Join([p] + parts, 0) == [];
    }
  }

  /** The pieces make up the string. */
  lemma {:induction false} JoinChunks(str: string)
    ensures Join(Chunks(str), |Chunks(str)|) == str
    ensures forall i :: 0 <= i < |Chunks(str)| ==> 0 < |Chunks(str)[i]| <= 250
    ensures forall i :: 0 <= i < |Chunks(str)| - 1 ==> |Chunks(str)[i]| == 250
    decreases |str|
  {
    if str == [] {
    } else if |str| <= CHUNK {
      assert Join([str], 1) == Join([str], 0) + str;
    } else {
      JoinChunks(str[CHUNK..]);
      JoinCons(str[..CHUNK], Chunks(str[CHUNK..]), |Chunks(str[CHUNK..])|);
    }
  }

  /** A string queued as its pieces: as long as the motor thread has not been shut
      down, what is typed is a prefix of the string, and the whole string if
      nothing disturbed the call. */
  lemma StringTyped(r: Run, c: nat, str: string)
    requires IsRun(r) && r.last.running && c < |r.last.calls| && r.last.calls[c].parts == Chunks(str)
    ensures ExecutedInRange(r.last) && Typed(r.last, |r.last.executed|, c) <= str
    ensures Undisturbed(r.last, c) ==> Typed(r.last, |r.last.executed|, c) == str
  {
    TypedIsPrefix(r, c);
    JoinChunks(str);
  }

  /** After a shutdown too, unless a piece was dispatched after one given up on. */
  lemma StringTypedWithoutGap(r: Run, c: nat, str: string)
    requires IsRun(r) && c < |r.last.calls| && r.last.calls[c].parts == Chunks(str)
    requires ExecutedInRange(r.last) && NoneAfterGap(r.last, c)
    ensures TypedProperly(r.last, c, str)
  {
    TypedIsPrefixWithoutGap(r, c);
    JoinChunks(str);
  }

  // ----- The ring without interference -----

  /** `MotorQueue` as its own thread sees it between operations. */
  class MotorQueue<T> {
    const buffer: array<T>
    var head: nat
    var tail: nat
    ghost var contents: seq<T>  // oldest first

    ghost predicate Valid()
      reads this, buffer
    {
      && 2 <= buffer.Length && head < buffer.Length && tail < buffer.Length && |contents| < buffer.Length
      && tail == (if head + |contents| < buffer.Length then head + |contents| else head + |contents| - buffer.Length)
      && forall i :: 0 <= i < |contents| ==>
           contents[i] == buffer[if head + i < buffer.Length then head + i else head + i - buffer.Length]
    }

    constructor (size: nat, blank: T)
      requires 2 <= size
      ensures Valid() && fresh(buffer) && buffer.Length == size && contents == []
    {
      buffer := new T[size](_ => blank);
      head, tail, contents := 0, 0, [];
    }

    /** Fails exactly when size - 1 commands are waiting. */
    method Push(cmd: T) returns (ok: bool)
      requires Valid()
      modifies this`tail, this`contents, buffer
      ensures Valid() && ok == (|old(contents)| + 1 < buffer.Length)
      ensures contents == if ok then old(contents) + [cmd] else old(contents)
    {
      var next := if tail + 1 == buffer.Length then 0 else tail + 1;
      if next == head { return false; }
      buffer[tail] := cmd;
      tail := next;
      contents := contents + [cmd];
      ok := true;
    }

    method Pop(blank: T) returns (ok: bool, cmd: T)
      requires Valid()
      modifies this`head, this`contents
      ensures Valid() && ok == (old(contents) != [])
      ensures ok ==> [cmd] + contents == old(contents)
      ensures !ok ==> contents == []
    {
      if head == tail { return false, blank; }
      cmd := buffer[head];
      head := if head + 1 == buffer.Length then 0 else head + 1;
      contents := contents[1..];
      ok := true;
    }

    method IsIdle() returns (idle: bool)
      requires Valid()
      ensures idle == (contents == [])
    {
      idle := head == tail;
    }
  }
}
