/** Sleep and wake: the writer and the reader of the brain file, record by record. */
module Memory {
  import opened CortexData
  import opened Graph

  const MAGIC := 0x46505341
  const VERSION := 2

  /** What a node carries; `marks` stands for everything that is not in the file:
      motor and binding flags, motor payload, memory tier. */
  datatype Node<!M> = Node(alive: bool, activation: real, clamped: bool, marks: M, forward: seq<Edge>, inverse: seq<Edge>)

  datatype Record =
    | Header(magic: int, version: int, nodeCount: nat, cortexActive: nat, aliveNodes: nat)
    | CortexRecord(clusterId: int, weights: seq<int>, accum: seq<real>, sampleCount: int, frozen: int, wordLabel: string)
    | NodeRecord(nodeId: int, edgeCount: nat, inverseEdgeCount: nat)
    | EdgeRecord(target: int, weight: real, coOccur: int, code: nat)

  // ----- Field encodings -----

  function Code(t: EdgeType): (c: nat)
    ensures c < 22
  {
    match t
    case Temporal => 0 case IsA => 1 case HasA => 2 case CanDo => 3 case Causes => 4 case Sequence => 5
    case AstChild => 6 case NextWord => 7 case PhraseHead => 8 case PhraseChild => 9 case Related => 10
    case AstDef => 11 case AstArg => 12 case AstBody => 13 case ImplementedBy => 14 case Requires => 15
    case Analogy => 16 case VisualChild => 17 case Antonym => 18 case EpisodicLink => 19
    case Directive => 20 case EnsembleLink => 21
  }

  const TYPES: seq<EdgeType> := [
    Temporal, IsA, HasA, CanDo, Causes, Sequence, AstChild, NextWord, PhraseHead, PhraseChild, Related,
    AstDef, AstArg, AstBody, ImplementedBy, Requires, Analogy, VisualChild, Antonym, EpisodicLink, Directive, EnsembleLink]

  /** The cast back from the stored byte; codes of no type do not occur in written files. */
  function TypeOf(code: nat): EdgeType {
    if code < 22 then TYPES[code] else Temporal
  }

  lemma TypeRoundTrip(t: EdgeType)
    ensures TypeOf(Code(t)) == t
  {
    match t
    case Temporal => case IsA => case HasA => case CanDo => case Causes => case Sequence =>
    case AstChild => case NextWord => case PhraseHead => case PhraseChild => case Related =>
    case AstDef => case AstArg => case AstBody => case ImplementedBy => case Requires =>
    case Analogy => case VisualChild => case Antonym => case EpisodicLink =>
    case Directive => case EnsembleLink =>
  }

  // ----- The written file -----

  function EdgeRecords(es: seq<Edge>): (rs: seq<Record>)
    ensures |rs| == |es|
  {
    if es == [] then []
    else [EdgeRecord(es[0].target, es[0].weight, es[0].coOccur, Code(es[0].etype))] + EdgeRecords(es[1..])
  }

  function NodeRecords<M>(i: nat, n: Node<M>): seq<Record> {
    if !n.alive then []
    else [NodeRecord(i, |n.forward|, |n.inverse|)] + EdgeRecords(n.forward) + EdgeRecords(n.inverse)
  }

  function NodesFrom<M>(nodes: seq<Node<M>>, i: nat): seq<Record>
    requires i <= |nodes|
    decreases |nodes| - i
  {
    if i == |nodes| then [] else NodeRecords(i, nodes[i]) + NodesFrom(nodes, i + 1)
  }

  function AliveFrom<M>(nodes: seq<Node<M>>, i: nat): nat
    requires i <= |nodes|
    decreases |nodes| - i
  {
    if i == |nodes| then 0 else (if nodes[i].alive then 1 else 0) + AliveFrom(nodes, i + 1)
  }

  function ClusterRecords(i: nat, c: Cluster): seq<Record> {
    if !c.active then []
    else [CortexRecord(i, c.weights, c.accum, c.sampleCount, if c.frozen then 1 else 0, Clip(c.wordLabel))]
  }

  function ClustersFrom(cs: seq<Cluster>, i: nat): seq<Record>
    requires i <= |cs|
    decreases |cs| - i
  {
    if i == |cs| then [] else ClusterRecords(i, cs[i]) + ClustersFrom(cs, i + 1)
  }

  function ActiveFrom(cs: seq<Cluster>, i: nat): nat
    requires i <= |cs|
    decreases |cs| - i
  {
    if i == |cs| then 0 else (if cs[i].active then 1 else 0) + ActiveFrom(cs, i + 1)
  }

  function HeaderOf<M>(nodes: seq<Node<M>>, cs: seq<Cluster>): Record {
    Header(MAGIC, VERSION, |nodes|, ActiveFrom(cs, 0), AliveFrom(nodes, 0))
  }

  function Image<M>(nodes: seq<Node<M>>, cs: seq<Cluster>): seq<Record> {
    [HeaderOf(nodes, cs)] + ClustersFrom(cs, 0) + NodesFrom(nodes, 0)
  }

  // ----- What the reader makes of a file -----

  datatype Parsed<+T> = Bad | Good(value: T, pos: nat)

  /** A node as `init` leaves it: alive and empty. */
  function Fresh<M>(none: M): Node<M> {
    Node(true, 0.0, false, none, [], [])
  }

  const WORD_DIM := 256

  function Copies<T>(n: nat, x: T): (s: seq<T>)
    ensures |s| == n && forall i :: 0 <= i < n ==> s[i] == x
  {
    if n == 0 then [] else Copies(n - 1, x) + [x]
  }

  const IDLE := Cluster(Copies(WORD_DIM, 0), Copies(WORD_DIM, 0.0), 0, false, false, "")

  function EdgeOf(rec: Record): Edge
    requires rec.EdgeRecord?
  {
    Edge(rec.target, rec.weight, rec.coOccur, TypeOf(rec.code), Unknown)
  }

  function ReadEdges(file: seq<Record>, pos: nat, n: nat, acc: seq<Edge>): (r: Parsed<seq<Edge>>)
    requires pos <= |file|
    ensures r.Good? ==> pos <= r.pos <= |file|
    decreases n
  {
    if n == 0 then Good(acc, pos)
    else if pos < |file| && file[pos].EdgeRecord? then
      ReadEdges(file, pos + 1, n - 1, acc + [EdgeOf(file[pos])])
    else Bad
  }

  function ReadNode<M>(file: seq<Record>, pos: nat, nodes: seq<Node<M>>): (r: Parsed<seq<Node<M>>>)
    requires pos <= |file|
    ensures r.Good? ==> pos <= r.pos <= |file| && |r.value| == |nodes|
  {
    if pos == |file| || !file[pos].NodeRecord? then Bad
    else
      var rec := file[pos];
      if !(0 <= rec.nodeId < |nodes|) then Bad
      else
        var f := ReadEdges(file, pos + 1, rec.edgeCount, []);
        if f.Bad? then Bad
        else
          var b := ReadEdges(file, f.pos, rec.inverseEdgeCount, []);
          if b.Bad? then Bad
          else Good(nodes[rec.nodeId := Node(true, 0.0, false, nodes[rec.nodeId].marks, f.value, b.value)], b.pos)
  }

  function ReadNodes<M>(file: seq<Record>, pos: nat, n: nat, nodes: seq<Node<M>>): (r: Parsed<seq<Node<M>>>)
    requires pos <= |file|
    ensures r.Good? ==> pos <= r.pos <= |file| && |r.value| == |nodes|
    decreases n
  {
    if n == 0 then Good(nodes, pos)
    else
      var one := ReadNode(file, pos, nodes);
      if one.Bad? then Bad else ReadNodes(file, one.pos, n - 1, one.value)
  }

  function ClusterOf(rec: Record): Cluster
    requires rec.CortexRecord?
  {
    Cluster(rec.weights, rec.accum, rec.sampleCount, rec.frozen != 0, true, Clip(rec.wordLabel))
  }

  function ReadClusters(file: seq<Record>, pos: nat, n: nat, cs: seq<Cluster>): (r: Parsed<seq<Cluster>>)
    requires pos <= |file|
    ensures r.Good? ==> pos <= r.pos <= |file| && |r.value| == |cs|
    decreases n
  {
    if n == 0 then Good(cs, pos)
    else if pos < |file| && file[pos].CortexRecord? then
      var rec := file[pos];
      ReadClusters(file, pos + 1, n - 1, if 0 <= rec.clusterId < |cs| then cs[rec.clusterId := ClusterOf(rec)] else cs)
    else Bad
  }

  /** The file begins with a header of this format. */
  predicate HasHeader(file: seq<Record>) {
    file != [] && file[0].Header? && file[0].magic == MAGIC
  }

  /** The brain that the first m cluster records and the first k node records
      build, and where they end. */
  function Build<M>(file: seq<Record>, m: nat, k: nat, capacity: nat, clusters: nat, none: M)
    : Parsed<(seq<Node<M>>, seq<Cluster>)>
    requires HasHeader(file)
  {
    var h := file[0];
    var cs := ReadClusters(file, 1, m, Copies(clusters, IDLE));
    if cs.Bad? then Bad
    else
      var ns := ReadNodes(file, cs.pos, k, Copies(if h.nodeCount < capacity then h.nodeCount else capacity, Fresh(none)));
      if ns.Bad? then Bad else Good((ns.value, cs.value), ns.pos)
  }

  /** The brain that `wake` builds, and where it stops reading. */
  function Parse<M>(file: seq<Record>, capacity: nat, clusters: nat, none: M): Parsed<(seq<Node<M>>, seq<Cluster>)> {
    if !HasHeader(file) then Bad
    else Build(file, file[0].cortexActive, file[0].aliveNodes, capacity, clusters, none)
  }

  // ----- Round trip -----

  function Bare(es: seq<Edge>): (bs: seq<Edge>)
    ensures |bs| == |es|
  {
    if es == [] then [] else [es[0].(provenance := Unknown)] + Bare(es[1..])
  }

  /** What a node becomes: its edges without provenance, if it was alive; else
      an empty node that is alive. */
  function Reborn<M>(n: Node<M>, none: M): Node<M> {
    if n.alive then Node(true, 0.0, false, none, Bare(n.forward), Bare(n.inverse)) else Fresh(none)
  }

  function RebornAll<M>(nodes: seq<Node<M>>, none: M): (s: seq<Node<M>>)
    ensures |s| == |nodes| && forall i :: 0 <= i < |s| ==> s[i] == Reborn(nodes[i], none)
  {
    if nodes == [] then [] else RebornAll(nodes[..|nodes| - 1], none) + [Reborn(nodes[|nodes| - 1], none)]
  }

  function Kept(c: Cluster): Cluster {
    if c.active then c else IDLE
  }

  function KeptAll(cs: seq<Cluster>): (s: seq<Cluster>)
    ensures |s| == |cs| && forall i :: 0 <= i < |s| ==> s[i] == Kept(cs[i])
  {
    if cs == [] then [] else KeptAll(cs[..|cs| - 1]) + [Kept(cs[|cs| - 1])]
  }

  ghost predicate Labelled(cs: seq<Cluster>) {
    forall i :: 0 <= i < |cs| ==> |cs[i].wordLabel| <= LABEL_MAX
  }

  /** `file` holds `part` at position pos. */
  ghost predicate At(file: seq<Record>, pos: nat, part: seq<Record>) {
    pos + |part| <= |file| && file[pos..pos + |part|] == part
  }

  lemma AtSplit(file: seq<Record>, pos: nat, p: seq<Record>, q: seq<Record>)
    requires At(file, pos, p + q)
    ensures At(file, pos, p) && At(file, pos + |p|, q)
  {
    var s := file[pos..pos + |p + q|];
    assert s[..|p|] == p && s[|p|..] == q;
    assert file[pos..pos + |p|] == s[..|p|] && file[pos + |p|..pos + |p| + |q|] == s[|p|..];
  }

  lemma AtHead(file: seq<Record>, pos: nat, r: Record, rest: seq<Record>)
    requires At(file, pos, [r] + rest)
    ensures pos < |file| && file[pos] == r && At(file, pos + 1, rest)
  {
    AtSplit(file, pos, [r], rest);
    assert file[pos] == file[pos..pos + 1][0];
  }

  lemma {:induction false} EdgesRead(file: seq<Record>, pos: nat, es: seq<Edge>, acc: seq<Edge>)
    requires At(file, pos, EdgeRecords(es))
    ensures ReadEdges(file, pos, |es|, acc) == Good(acc + Bare(es), pos + |es|)
    decreases |es|
  {
    if es == [] {
      assert acc + [] == acc;
    } else {
      var e := es[0];
      AtHead(file, pos, EdgeRecord(e.target, e.weight, e.coOccur, Code(e.etype)), EdgeRecords(es[1..]));
      TypeRoundTrip(e.etype);
      var acc' := acc + [e.(provenance := Unknown)];
      EdgesRead(file, pos + 1, es[1..], acc');
      assert acc' + Bare(es[1..]) == acc + Bare(es);
    }
  }

  lemma TableRead(file: seq<Record>, pos: nat, es: seq<Edge>)
    requires At(file, pos, EdgeRecords(es))
    ensures pos <= |file| && ReadEdges(file, pos, |es|, []) == Good(Bare(es), pos + |es|)
  {
    EdgesRead(file, pos, es, []);
    assert [] + Bare(es) == Bare(es);
  }

  lemma NodeLaidOut<M>(file: seq<Record>, pos: nat, i: nat, n: Node<M>)
    requires n.alive && At(file, pos, NodeRecords(i, n))
    ensures pos < |file| && file[pos] == NodeRecord(i, |n.forward|, |n.inverse|)
    ensures At(file, pos + 1, EdgeRecords(n.forward)) && At(file, pos + 1 + |n.forward|, EdgeRecords(n.inverse))
    ensures |NodeRecords(i, n)| == 1 + |n.forward| + |n.inverse|
  {
    var head, f, b := NodeRecord(i, |n.forward|, |n.inverse|), EdgeRecords(n.forward), EdgeRecords(n.inverse);
    AtSplit(file, pos, [head] + f, b);
    AtHead(file, pos, head, f);
  }

  lemma NodeRead<M>(file: seq<Record>, pos: nat, i: nat, n: Node<M>, nodes: seq<Node<M>>, none: M)
    requires n.alive && i < |nodes| && nodes[i].marks == none && At(file, pos, NodeRecords(i, n))
    ensures ReadNode(file, pos, nodes) == Good(nodes[i := Reborn(n, none)], pos + |NodeRecords(i, n)|)
  {
    NodeLaidOut(file, pos, i, n);
    TableRead(file, pos + 1, n.forward);
    TableRead(file, pos + 1 + |n.forward|, n.inverse);
  }

  /** The first i nodes restored, the rest fresh. */
  ghost predicate Halfway<M>(half: seq<Node<M>>, nodes: seq<Node<M>>, i: nat, none: M) {
    |half| == |nodes| && forall k :: 0 <= k < |half| ==> half[k] == if k < i then Reborn(nodes[k], none) else Fresh(none)
  }

  lemma HalfwayDone<M>(half: seq<Node<M>>, nodes: seq<Node<M>>, none: M)
    requires Halfway(half, nodes, |nodes|, none)
    ensures half == RebornAll(nodes, none)
  {
  }

  lemma NodesFromStep<M>(file: seq<Record>, pos: nat, nodes: seq<Node<M>>, i: nat)
    requires i < |nodes| && At(file, pos, NodesFrom(nodes, i))
    ensures At(file, pos, NodeRecords(i, nodes[i])) && At(file, pos + |NodeRecords(i, nodes[i])|, NodesFrom(nodes, i + 1))
    ensures |NodesFrom(nodes, i)| == |NodeRecords(i, nodes[i])| + |NodesFrom(nodes, i + 1)|
  {
    AtSplit(file, pos, NodeRecords(i, nodes[i]), NodesFrom(nodes, i + 1));
  }

  lemma ReadNodesStep<M>(file: seq<Record>, pos: nat, n: nat, half: seq<Node<M>>, half': seq<Node<M>>, next: nat)
    requires pos <= |file| && ReadNode(file, pos, half) == Good(half', next)
    ensures next <= |file| && ReadNodes(file, pos, n + 1, half) == ReadNodes(file, next, n, half')
  {
  }

  /** One live node is read. */
  lemma OneNodeRead<M>(file: seq<Record>, pos: nat, nodes: seq<Node<M>>, i: nat, half: seq<Node<M>>, none: M, next: nat)
    requires i < |nodes| == |half| && nodes[i].alive && half[i].marks == none
    requires At(file, pos, NodeRecords(i, nodes[i])) && next == pos + |NodeRecords(i, nodes[i])|
    ensures next <= |file| && ReadNodes(file, pos, AliveFrom(nodes, i), half) ==
                              ReadNodes(file, next, AliveFrom(nodes, i + 1), half[i := Reborn(nodes[i], none)])
  {
    NodeRead(file, pos, i, nodes[i], half, none);
    ReadNodesStep(file, pos, AliveFrom(nodes, i + 1), half, half[i := Reborn(nodes[i], none)], next);
  }

  lemma HalfwayStep<M>(half: seq<Node<M>>, nodes: seq<Node<M>>, i: nat, none: M)
    requires i < |nodes| && Halfway(half, nodes, i, none)
    ensures half[i].marks == none && Halfway(half[i := Reborn(nodes[i], none)], nodes, i + 1, none)
  {
  }

  lemma DeadNodeSkipped<M>(nodes: seq<Node<M>>, i: nat, half: seq<Node<M>>, none: M)
    requires i < |nodes| && !nodes[i].alive && Halfway(half, nodes, i, none)
    ensures Halfway(half, nodes, i + 1, none) && NodesFrom(nodes, i) == NodesFrom(nodes, i + 1)
  {
    assert [] + NodesFrom(nodes, i + 1) == NodesFrom(nodes, i + 1);
  }

  /** Reading went well, up to here, and has restored all nodes. */
  ghost predicate NodesDone<M>(r: Parsed<seq<Node<M>>>, nodes: seq<Node<M>>, none: M, pos: nat) {
    r.Good? && r.pos == pos && Halfway(r.value, nodes, |nodes|, none)
  }

  lemma {:induction false} NodesRead<M>(file: seq<Record>, pos: nat, nodes: seq<Node<M>>, i: nat, half: seq<Node<M>>, none: M)
    requires i <= |nodes| && At(file, pos, NodesFrom(nodes, i)) && Halfway(half, nodes, i, none)
    ensures NodesDone(ReadNodes(file, pos, AliveFrom(nodes, i), half), nodes, none, pos + |NodesFrom(nodes, i)|)
    decreases |nodes| - i
  {
    if i < |nodes| {
      var n := nodes[i];
      if n.alive {
        HalfwayStep(half, nodes, i, none);
        var next := pos + |NodeRecords(i, n)|;
        NodesFromStep(file, pos, nodes, i);
        OneNodeRead(file, pos, nodes, i, half, none, next);
        NodesRead(file, next, nodes, i + 1, half[i := Reborn(n, none)], none);
      } else {
        DeadNodeSkipped(nodes, i, half, none);
        NodesRead(file, pos, nodes, i + 1, half, none);
      }
    }
  }

  ghost predicate HalfKept(half: seq<Cluster>, cs: seq<Cluster>, i: nat) {
    |half| == |cs| && forall k :: 0 <= k < |half| ==> half[k] == if k < i then Kept(cs[k]) else IDLE
  }

  lemma HalfKeptDone(half: seq<Cluster>, cs: seq<Cluster>)
    requires HalfKept(half, cs, |cs|)
    ensures half == KeptAll(cs)
  {
  }

  lemma HalfKeptStep(half: seq<Cluster>, cs: seq<Cluster>, i: nat)
    requires i < |cs| && HalfKept(half, cs, i)
    ensures if cs[i].active then HalfKept(half[i := cs[i]], cs, i + 1) else HalfKept(half, cs, i + 1)
  {
  }

  lemma ClusterRead(file: seq<Record>, pos: nat, i: nat, c: Cluster, n: nat, cs: seq<Cluster>)
    requires c.active && |c.wordLabel| <= LABEL_MAX && i < |cs|
    requires pos < |file| && [file[pos]] == ClusterRecords(i, c)
    ensures ReadClusters(file, pos, n + 1, cs) == ReadClusters(file, pos + 1, n, cs[i := c])
  {
    assert file[pos] == ClusterRecords(i, c)[0];
    assert ClusterOf(file[pos]) == c;
  }

  lemma ClustersFromStep(file: seq<Record>, pos: nat, cs: seq<Cluster>, i: nat)
    requires i < |cs| && At(file, pos, ClustersFrom(cs, i))
    ensures cs[i].active ==> pos < |file| && [file[pos]] == ClusterRecords(i, cs[i]) &&
                             At(file, pos + 1, ClustersFrom(cs, i + 1)) && |ClustersFrom(cs, i)| == 1 + |ClustersFrom(cs, i + 1)|
    ensures !cs[i].active ==> ClustersFrom(cs, i) == ClustersFrom(cs, i + 1)
  {
    if cs[i].active {
      AtHead(file, pos, ClusterRecords(i, cs[i])[0], ClustersFrom(cs, i + 1));
    } else {
      assert [] + ClustersFrom(cs, i + 1) == ClustersFrom(cs, i + 1);
    }
  }

  /** One active cluster is read. */
  lemma OneClusterRead(file: seq<Record>, pos: nat, cs: seq<Cluster>, i: nat, half: seq<Cluster>)
    requires i < |cs| == |half| && cs[i].active && |cs[i].wordLabel| <= LABEL_MAX && At(file, pos, ClustersFrom(cs, i))
    ensures pos < |file| && At(file, pos + 1, ClustersFrom(cs, i + 1))
    ensures |ClustersFrom(cs, i)| == 1 + |ClustersFrom(cs, i + 1)|
    ensures ReadClusters(file, pos, ActiveFrom(cs, i), half) ==
            ReadClusters(file, pos + 1, ActiveFrom(cs, i + 1), half[i := cs[i]])
  {
    ClustersFromStep(file, pos, cs, i);
    ClusterRead(file, pos, i, cs[i], ActiveFrom(cs, i + 1), half);
  }

  ghost predicate ClustersDone(r: Parsed<seq<Cluster>>, cs: seq<Cluster>, pos: nat) {
    r.Good? && r.pos == pos && HalfKept(r.value, cs, |cs|)
  }

  lemma {:induction false} ClustersRead(file: seq<Record>, pos: nat, cs: seq<Cluster>, i: nat, half: seq<Cluster>)
    requires i <= |cs| && At(file, pos, ClustersFrom(cs, i)) && Labelled(cs) && HalfKept(half, cs, i)
    ensures ClustersDone(ReadClusters(file, pos, ActiveFrom(cs, i), half), cs, pos + |ClustersFrom(cs, i)|)
    decreases |cs| - i
  {
    if i < |cs| {
      HalfKeptStep(half, cs, i);
      if cs[i].active {
        OneClusterRead(file, pos, cs, i, half);
        ClustersRead(file, pos + 1, cs, i + 1, half[i := cs[i]]);
      } else {
        ClustersFromStep(file, pos, cs, i);
        ClustersRead(file, pos, cs, i + 1, half);
      }
    }
  }

  lemma ImageLaidOut<M>(nodes: seq<Node<M>>, cs: seq<Cluster>)
    ensures var file, c := Image(nodes, cs), |ClustersFrom(cs, 0)|;
      && file[0] == HeaderOf(nodes, cs) && |file| == 1 + c + |NodesFrom(nodes, 0)|
      && At(file, 1, ClustersFrom(cs, 0)) && At(file, 1 + c, NodesFrom(nodes, 0))
  {
    var file := Image(nodes, cs);
    var head, cr, nr := [HeaderOf(nodes, cs)], ClustersFrom(cs, 0), NodesFrom(nodes, 0);
    assert At(file, 0, head + cr + nr);
    AtSplit(file, 0, head + cr, nr);
    AtSplit(file, 0, head, cr);
    assert file[0] == file[0..1][0];
  }

  lemma AllClustersRead(file: seq<Record>, pos: nat, cs: seq<Cluster>)
    requires Labelled(cs) && At(file, pos, ClustersFrom(cs, 0))
    ensures ReadClusters(file, pos, ActiveFrom(cs, 0), Copies(|cs|, IDLE)) == Good(KeptAll(cs), pos + |ClustersFrom(cs, 0)|)
  {
    ClustersRead(file, pos, cs, 0, Copies(|cs|, IDLE));
    HalfKeptDone(ReadClusters(file, pos, ActiveFrom(cs, 0), Copies(|cs|, IDLE)).value, cs);
  }

  lemma AllNodesRead<M>(file: seq<Record>, pos: nat, nodes: seq<Node<M>>, none: M)
    requires At(file, pos, NodesFrom(nodes, 0))
    ensures ReadNodes(file, pos, AliveFrom(nodes, 0), Copies(|nodes|, Fresh(none))) ==
            Good(RebornAll(nodes, none), pos + |NodesFrom(nodes, 0)|)
  {
    NodesRead(file, pos, nodes, 0, Copies(|nodes|, Fresh(none)), none);
    HalfwayDone(ReadNodes(file, pos, AliveFrom(nodes, 0), Copies(|nodes|, Fresh(none))).value, nodes, none);
  }

  lemma ImageClusters<M>(nodes: seq<Node<M>>, cs: seq<Cluster>)
    requires Labelled(cs)
    ensures ReadClusters(Image(nodes, cs), 1, ActiveFrom(cs, 0), Copies(|cs|, IDLE)) ==
            Good(KeptAll(cs), 1 + |ClustersFrom(cs, 0)|)
  {
    ImageLaidOut(nodes, cs);
    AllClustersRead(Image(nodes, cs), 1, cs);
  }

  lemma ImageNodes<M>(nodes: seq<Node<M>>, cs: seq<Cluster>, none: M)
    ensures ReadNodes(Image(nodes, cs), 1 + |ClustersFrom(cs, 0)|, AliveFrom(nodes, 0), Copies(|nodes|, Fresh(none))) ==
            Good(RebornAll(nodes, none), |Image(nodes, cs)|)
  {
    ImageLaidOut(nodes, cs);
    AllNodesRead(Image(nodes, cs), 1 + |ClustersFrom(cs, 0)|, nodes, none);
  }

  /** Waking from a written file restores every active cluster and the edges of
      every alive node, with all activations zero, and reads the whole file. A
      node that was dead comes back alive and empty. */
  lemma WakeAfterSleep<M>(nodes: seq<Node<M>>, cs: seq<Cluster>, capacity: nat, none: M)
    requires |nodes| <= capacity && Labelled(cs)
    ensures Parse(Image(nodes, cs), capacity, |cs|, none) ==
            Good((RebornAll(nodes, none), KeptAll(cs)), |Image(nodes, cs)|)
  {
    ImageLaidOut(nodes, cs);
    ImageClusters(nodes, cs);
    ImageNodes(nodes, cs, none);
  }

  // ----- Truncation -----

  lemma {:induction false} EdgesPrefix(p: seq<Record>, file: seq<Record>, pos: nat, n: nat, acc: seq<Edge>)
    requires p <= file && pos <= |p| && ReadEdges(p, pos, n, acc).Good?
    ensures ReadEdges(file, pos, n, acc) == ReadEdges(p, pos, n, acc)
    decreases n
  {
    if n > 0 {
      EdgesPrefix(p, file, pos + 1, n - 1, acc + [EdgeOf(p[pos])]);
    }
  }

  lemma NodePrefix<M>(p: seq<Record>, file: seq<Record>, pos: nat, nodes: seq<Node<M>>)
    requires p <= file && pos <= |p| && ReadNode(p, pos, nodes).Good?
    ensures ReadNode(file, pos, nodes) == ReadNode(p, pos, nodes)
  {
    var rec := p[pos];
    EdgesPrefix(p, file, pos + 1, rec.edgeCount, []);
    EdgesPrefix(p, file, ReadEdges(p, pos + 1, rec.edgeCount, []).pos, rec.inverseEdgeCount, []);
  }

  lemma {:induction false} NodesPrefix<M>(p: seq<Record>, file: seq<Record>, pos: nat, n: nat, nodes: seq<Node<M>>)
    requires p <= file && pos <= |p| && ReadNodes(p, pos, n, nodes).Good?
    ensures ReadNodes(file, pos, n, nodes) == ReadNodes(p, pos, n, nodes)
    decreases n
  {
    if n > 0 {
      NodePrefix(p, file, pos, nodes);
      var one := ReadNode(p, pos, nodes);
      NodesPrefix(p, file, one.pos, n - 1, one.value);
    }
  }

  lemma {:induction false} ClustersPrefix(p: seq<Record>, file: seq<Record>, pos: nat, n: nat, cs: seq<Cluster>)
    requires p <= file && pos <= |p| && ReadClusters(p, pos, n, cs).Good?
    ensures ReadClusters(file, pos, n, cs) == ReadClusters(p, pos, n, cs)
    decreases n
  {
    if n > 0 {
      var rec := p[pos];
      ClustersPrefix(p, file, pos + 1, n - 1, if 0 <= rec.clusterId < |cs| then cs[rec.clusterId := ClusterOf(rec)] else cs);
    }
  }

  lemma ParsePrefix<M>(p: seq<Record>, file: seq<Record>, capacity: nat, clusters: nat, none: M)
    requires p <= file && Parse(p, capacity, clusters, none).Good?
    ensures Parse(file, capacity, clusters, none) == Parse(p, capacity, clusters, none)
    ensures Parse(p, capacity, clusters, none).pos <= |p|
  {
    var h := p[0];
    ClustersPrefix(p, file, 1, h.cortexActive, Copies(clusters, IDLE));
    var cs := ReadClusters(p, 1, h.cortexActive, Copies(clusters, IDLE));
    NodesPrefix(p, file, cs.pos, h.aliveNodes, Copies(if h.nodeCount < capacity then h.nodeCount else capacity, Fresh(none)));
  }

  /** Every proper prefix of a written file is rejected. */
  lemma TruncatedIsRejected<M>(nodes: seq<Node<M>>, cs: seq<Cluster>, p: seq<Record>, capacity: nat, none: M)
    requires |nodes| <= capacity && Labelled(cs) && p < Image(nodes, cs)
    ensures Parse(p, capacity, |cs|, none).Bad?
  {
    WakeAfterSleep(nodes, cs, capacity, none);
    if Parse(p, capacity, |cs|, none).Good? {
      ParsePrefix(p, Image(nodes, cs), capacity, |cs|, none);
      assert false;
    }
  }

  // ----- Generations -----

  lemma {:induction false} BareTwice(es: seq<Edge>)
    ensures Bare(Bare(es)) == Bare(es) && EdgeRecords(Bare(es)) == EdgeRecords(es)
  {
    if es != [] {
      BareTwice(es[1..]);
      assert Bare(es)[1..] == Bare(es[1..]);
    }
  }

  lemma RebornTwice<M>(n: Node<M>, none: M)
    ensures Reborn(Reborn(n, none), none) == Reborn(n, none)
  {
    BareTwice(n.forward);
    BareTwice(n.inverse);
  }

  /** Sleeping and waking twice gives what once gives, so that from the second
      generation on the file no longer changes. */
  lemma SecondGeneration<M>(nodes: seq<Node<M>>, cs: seq<Cluster>, none: M)
    ensures var nodes1, cs1 := RebornAll(nodes, none), KeptAll(cs);
      && RebornAll(nodes1, none) == nodes1 && KeptAll(cs1) == cs1
      && Image(RebornAll(nodes1, none), KeptAll(cs1)) == Image(nodes1, cs1)
  {
    var nodes1 := RebornAll(nodes, none);
    forall i | 0 <= i < |nodes1|
      ensures RebornAll(nodes1, none)[i] == nodes1[i]
    {
      RebornTwice(nodes[i], none);
    }
  }

  predicate AllAlive<M>(nodes: seq<Node<M>>, i: nat) {
    forall k :: i <= k < |nodes| ==> nodes[k].alive
  }

  lemma {:induction false} AliveCount<M>(nodes: seq<Node<M>>, i: nat)
    requires i <= |nodes|
    ensures AliveFrom(nodes, i) <= |nodes| - i
    ensures AliveFrom(nodes, i) == |nodes| - i <==> AllAlive(nodes, i)
    decreases |nodes| - i
  {
    if i < |nodes| { AliveCount(nodes, i + 1); }
  }

  predicate SameRecord<M>(nodes: seq<Node<M>>, nodes': seq<Node<M>>, k: nat)
    requires k < |nodes| == |nodes'|
  {
    NodeRecords(k, nodes[k]) == NodeRecords(k, nodes'[k])
  }

  lemma NodesFromAlike<M>(nodes: seq<Node<M>>, nodes': seq<Node<M>>, i: nat)
    requires i < |nodes| == |nodes'| && SameRecord(nodes, nodes', i)
    requires NodesFrom(nodes, i + 1) == NodesFrom(nodes', i + 1)
    ensures NodesFrom(nodes, i) == NodesFrom(nodes', i)
  {
  }

  lemma RebornAlike<M>(nodes: seq<Node<M>>, nodes': seq<Node<M>>, none: M, i: nat)
    requires i < |nodes| == |nodes'| && nodes[i].alive && nodes'[i] == Reborn(nodes[i], none)
    ensures SameRecord(nodes', nodes, i)
  {
    RebornRecords(i, nodes[i], none);
  }

  lemma {:induction false} NodesFromReborn<M>(nodes: seq<Node<M>>, nodes': seq<Node<M>>, none: M, i: nat)
    requires i <= |nodes| == |nodes'| && AllAlive(nodes, i)
    requires forall k :: i <= k < |nodes| ==> nodes'[k] == Reborn(nodes[k], none)
    ensures NodesFrom(nodes', i) == NodesFrom(nodes, i)
    decreases |nodes| - i
  {
    if i < |nodes| {
      NodesFromReborn(nodes, nodes', none, i + 1);
      RebornAlike(nodes, nodes', none, i);
      NodesFromAlike(nodes', nodes, i);
    }
  }

  lemma RebornRecords<M>(i: nat, n: Node<M>, none: M)
    requires n.alive
    ensures NodeRecords(i, Reborn(n, none)) == NodeRecords(i, n)
  {
    BareTwice(n.forward);
    BareTwice(n.inverse);
  }

  lemma {:induction false} ClustersFromKept(cs: seq<Cluster>, i: nat)
    requires i <= |cs|
    ensures ClustersFrom(KeptAll(cs), i) == ClustersFrom(cs, i) && ActiveFrom(KeptAll(cs), i) == ActiveFrom(cs, i)
    decreases |cs| - i
  {
    if i < |cs| { ClustersFromKept(cs, i + 1); }
  }

  lemma RebornAreAlive<M>(nodes: seq<Node<M>>, nodes': seq<Node<M>>, none: M)
    requires |nodes'| == |nodes| && forall k :: 0 <= k < |nodes| ==> nodes'[k] == Reborn(nodes[k], none)
    ensures AliveFrom(nodes', 0) == |nodes|
  {
    AliveCount(nodes', 0);
  }

  lemma SameImage<M>(nodes: seq<Node<M>>, cs: seq<Cluster>, nodes': seq<Node<M>>, cs': seq<Cluster>)
    requires |nodes| == |nodes'| && AliveFrom(nodes, 0) == AliveFrom(nodes', 0) && NodesFrom(nodes, 0) == NodesFrom(nodes', 0)
    requires ActiveFrom(cs, 0) == ActiveFrom(cs', 0) && ClustersFrom(cs, 0) == ClustersFrom(cs', 0)
    ensures Image(nodes, cs) == Image(nodes', cs')
  {
  }

  lemma ImagesDiffer<M>(nodes: seq<Node<M>>, cs: seq<Cluster>, nodes': seq<Node<M>>, cs': seq<Cluster>)
    requires AliveFrom(nodes, 0) != AliveFrom(nodes', 0)
    ensures Image(nodes, cs) != Image(nodes', cs')
  {
    assert Image(nodes, cs)[0] == HeaderOf(nodes, cs) && Image(nodes', cs')[0] == HeaderOf(nodes', cs');
  }

  /** Already the second file equals the first exactly when no node was dead. */
  lemma FirstFileRepeats<M>(nodes: seq<Node<M>>, cs: seq<Cluster>, none: M)
    ensures Image(RebornAll(nodes, none), KeptAll(cs)) == Image(nodes, cs) <==> AllAlive(nodes, 0)
  {
    var nodes1, cs1 := RebornAll(nodes, none), KeptAll(cs);
    AliveCount(nodes, 0);
    RebornAreAlive(nodes, nodes1, none);
    if AllAlive(nodes, 0) {
      ClustersFromKept(cs, 0);
      NodesFromReborn(nodes, nodes1, none, 0);
      SameImage(nodes1, cs1, nodes, cs);
    } else {
      ImagesDiffer(nodes1, cs1, nodes, cs);
    }
  }

  // ----- Topology hash -----

  /** The fold of `topology_hash` over a node's forward edges; mix is its
      combination of the running hash, node id, target and weight. */
  function HashEdges<H>(h: H, i: nat, es: seq<Edge>, mix: (H, nat, int, real) -> H): H
    decreases |es|
  {
    if es == [] then h else HashEdges(mix(h, i, es[0].target, es[0].weight), i, es[1..], mix)
  }

  function HashFrom<H, M>(h: H, nodes: seq<Node<M>>, i: nat, mix: (H, nat, int, real) -> H): H
    requires i <= |nodes|
    decreases |nodes| - i
  {
    if i == |nodes| then h
    else HashFrom(if nodes[i].alive then HashEdges(h, i, nodes[i].forward, mix) else h, nodes, i + 1, mix)
  }

  lemma {:induction false} HashBare<H>(h: H, i: nat, es: seq<Edge>, mix: (H, nat, int, real) -> H)
    ensures HashEdges(h, i, Bare(es), mix) == HashEdges(h, i, es, mix)
    decreases |es|
  {
    if es != [] {
      HashBare(mix(h, i, es[0].target, es[0].weight), i, es[1..], mix);
      assert Bare(es)[1..] == Bare(es[1..]);
    }
  }

  /** The topology hash survives sleep and wake, dead nodes or not. */
  lemma {:induction false} HashKept<H, M>(h: H, nodes: seq<Node<M>>, i: nat, mix: (H, nat, int, real) -> H, none: M)
    requires i <= |nodes|
    ensures HashFrom(h, RebornAll(nodes, none), i, mix) == HashFrom(h, nodes, i, mix)
    decreases |nodes| - i
  {
    if i < |nodes| {
      var h' := if nodes[i].alive then HashEdges(h, i, nodes[i].forward, mix) else h;
      HashBare(h, i, nodes[i].forward, mix);
      HashKept(h', nodes, i + 1, mix, none);
    }
  }

  // ----- What the hash takes in -----

  /** A forward edge of a live node: its source, target and weight. */
  datatype Link = Link(source: nat, target: int, weight: real)

  function LinksOf(i: nat, es: seq<Edge>): (ls: seq<Link>)
    ensures |ls| == |es|
    ensures forall e :: 0 <= e < |es| ==> ls[e] == Link(i, es[e].target, es[e].weight)
  {
    seq(|es|, e requires 0 <= e < |es| => Link(i, es[e].target, es[e].weight))
  }

  /** All forward edges of the live nodes from i on, in order. */
  function Links<M>(nodes: seq<Node<M>>, i: nat): seq<Link>
    requires i <= |nodes|
    decreases |nodes| - i
  {
    if i == |nodes| then []
    else (if nodes[i].alive then LinksOf(i, nodes[i].forward) else []) + Links(nodes, i + 1)
  }

  function Mixed<H>(h: H, ls: seq<Link>, mix: (H, nat, int, real) -> H): H {
    if ls == [] then h
    else
      var l := ls[|ls| - 1];
      mix(Mixed(h, ls[..|ls| - 1], mix), l.source, l.target, l.weight)
  }

  lemma {:induction false} MixedConcat<H>(h: H, a: seq<Link>, b: seq<Link>, mix: (H, nat, int, real) -> H)
    ensures Mixed(h, a + b, mix) == Mixed(Mixed(h, a, mix), b, mix)
    decreases |b|
  {
    if b == [] {
      assert a + b == a;
    } else {
      assert (a + b)[..|a + b| - 1] == a + b[..|b| - 1];
      MixedConcat(h, a, b[..|b| - 1], mix);
    }
  }

  lemma MixedFirst<H>(h: H, l: Link, ls: seq<Link>, mix: (H, nat, int, real) -> H)
    ensures Mixed(h, [l] + ls, mix) == Mixed(mix(h, l.source, l.target, l.weight), ls, mix)
  {
    MixedConcat(h, [l], ls, mix);
    assert [l][..0] == [];
    assert Mixed(h, [l], mix) == mix(h, l.source, l.target, l.weight);
  }

  lemma {:induction false} EdgesAreMixed<H>(h: H, i: nat, es: seq<Edge>, mix: (H, nat, int, real) -> H)
    ensures HashEdges(h, i, es, mix) == Mixed(h, LinksOf(i, es), mix)
    decreases |es|
  {
    if es != [] {
      var l := Link(i, es[0].target, es[0].weight);
      EdgesAreMixed(mix(h, i, es[0].target, es[0].weight), i, es[1..], mix);
      MixedFirst(h, l, LinksOf(i, es[1..]), mix);
      assert LinksOf(i, es) == [l] + LinksOf(i, es[1..]);
    }
  }

  /** The hash mixes in every forward edge of every live node once, in order, and
      nothing else. */
  lemma {:induction false} HashIsMixed<H, M>(h: H, nodes: seq<Node<M>>, i: nat, mix: (H, nat, int, real) -> H)
    requires i <= |nodes|
    ensures HashFrom(h, nodes, i, mix) == Mixed(h, Links(nodes, i), mix)
    decreases |nodes| - i
  {
    if i < |nodes| {
      var part := if nodes[i].alive then LinksOf(i, nodes[i].forward) else [];
      EdgesAreMixed(h, i, nodes[i].forward, mix);
      HashIsMixed(Mixed(h, part, mix), nodes, i + 1, mix);
      MixedConcat(h, part, Links(nodes, i + 1), mix);
    }
  }

  /** Different running hashes stay different, whatever is mixed in. */
  ghost predicate Separates<H(!new)>(mix: (H, nat, int, real) -> H) {
    forall g, h, i, t, w :: g != h ==> mix(g, i, t, w) != mix(h, i, t, w)
  }

  lemma {:induction false} StaysApart<H(!new)>(g: H, h: H, ls: seq<Link>, mix: (H, nat, int, real) -> H)
    requires Separates(mix) && g != h
    ensures Mixed(g, ls, mix) != Mixed(h, ls, mix)
    decreases |ls|
  {
    if ls != [] { StaysApart(g, h, ls[..|ls| - 1], mix); }
  }

  /** Two brains that differ in one edge have different hashes, if the mixing tells
      these two edges apart and separates running hashes. */
  lemma OneEdgeMatters<H(!new), M>(h: H, nodes: seq<Node<M>>, nodes': seq<Node<M>>, mix: (H, nat, int, real) -> H,
                                   before: seq<Link>, l: Link, l': Link, after: seq<Link>)
    requires Links(nodes, 0) == before + [l] + after && Links(nodes', 0) == before + [l'] + after && Separates(mix)
    requires forall g: H :: mix(g, l.source, l.target, l.weight) != mix(g, l'.source, l'.target, l'.weight)
    ensures HashFrom(h, nodes, 0, mix) != HashFrom(h, nodes', 0, mix)
  {
    HashIsMixed(h, nodes, 0, mix);
    HashIsMixed(h, nodes', 0, mix);
    var g := Mixed(h, before, mix);
    MixedConcat(h, before + [l], after, mix);
    MixedConcat(h, before + [l'], after, mix);
    MixedConcat(h, before, [l], mix);
    MixedConcat(h, before, [l'], mix);
    MixedFirst(g, l, [], mix);
    MixedFirst(g, l', [], mix);
    assert [l] + [] == [l] && [l'] + [] == [l'];
    StaysApart(Mixed(g, [l], mix), Mixed(g, [l'], mix), after, mix);
  }

  // ----- The two operations in place -----

  lemma NodesAppend<M>(file: seq<Record>, nodes: seq<Node<M>>, i: nat)
    requires i < |nodes|
    ensures file + NodesFrom(nodes, i) == (file + NodeRecords(i, nodes[i])) + NodesFrom(nodes, i + 1)
  {
    var r, rest := NodeRecords(i, nodes[i]), NodesFrom(nodes, i + 1);
    assert file + (r + rest) == (file + r) + rest;
  }

  // ----- Files that break off -----

  lemma {:induction false} ClustersSnoc(file: seq<Record>, pos: nat, n: nat, cs: seq<Cluster>)
    requires pos <= |file| && ReadClusters(file, pos, n, cs).Good?
    ensures var r := ReadClusters(file, pos, n, cs);
      ReadClusters(file, pos, n + 1, cs) == ReadClusters(file, r.pos, 1, r.value)
    decreases n
  {
    if n > 0 {
      var rec := file[pos];
      ClustersSnoc(file, pos + 1, n - 1, if 0 <= rec.clusterId < |cs| then cs[rec.clusterId := ClusterOf(rec)] else cs);
    }
  }

  lemma {:induction false} NodesSnoc<M>(file: seq<Record>, pos: nat, n: nat, nodes: seq<Node<M>>)
    requires pos <= |file| && ReadNodes(file, pos, n, nodes).Good?
    ensures var r := ReadNodes(file, pos, n, nodes);
      ReadNodes(file, pos, n + 1, nodes) == ReadNode(file, r.pos, r.value)
    decreases n
  {
    var one := ReadNode(file, pos, nodes);
    if n > 0 {
      NodesSnoc(file, one.pos, n - 1, one.value);
    }
  }

  /** The next n records are edges. */
  predicate EdgeRun(file: seq<Record>, pos: nat, n: nat) {
    pos + n <= |file| && forall p :: pos <= p < pos + n ==> file[p].EdgeRecord?
  }

  lemma NoLongerRun(file: seq<Record>, pos: nat, n: nat, more: nat)
    requires n <= more && !EdgeRun(file, pos, n)
    ensures !EdgeRun(file, pos, more)
  {
  }

  /** The slots hold the edges from pos on. */
  ghost predicate ReadFrom(file: seq<Record>, pos: nat, es: seq<Edge>) {
    EdgeRun(file, pos, |es|) && forall e :: 0 <= e < |es| ==> es[e] == EdgeOf(file[pos + e])
  }

  lemma ReadFromNext(file: seq<Record>, pos: nat, es: seq<Edge>)
    requires ReadFrom(file, pos, es) && pos + |es| < |file| && file[pos + |es|].EdgeRecord?
    ensures ReadFrom(file, pos, es + [EdgeOf(file[pos + |es|])])
  {
    var es' := es + [EdgeOf(file[pos + |es|])];
    assert EdgeRun(file, pos, |es'|);
  }

  lemma RunStops(file: seq<Record>, pos: nat, n: nat)
    requires pos + n == |file| || (pos + n < |file| && !file[pos + n].EdgeRecord?)
    ensures !EdgeRun(file, pos, n + 1)
  {
  }

  predicate SlotFilled(file: seq<Record>, pos: nat, e: nat, edge: Edge) {
    EdgeRun(file, pos, e + 1) ==> edge == EdgeOf(file[pos + e])
  }

  /** A table of n slots, of which those hold what was read that come before
      the first record that is missing. */
  ghost predicate Filled(file: seq<Record>, pos: nat, n: nat, es: seq<Edge>) {
    |es| == n && forall e :: 0 <= e < n ==> SlotFilled(file, pos, e, es[e])
  }

  /** A node whose records break off: its counts are those of its record. */
  ghost predicate TornNode<M>(file: seq<Record>, pos: nat, rec: Record, before: Node<M>, after: Node<M>)
    requires rec.NodeRecord?
  {
    && after.alive && after.activation == 0.0 && !after.clamped && after.marks == before.marks
    && Filled(file, pos, rec.edgeCount, after.forward)
    && if EdgeRun(file, pos, rec.edgeCount) then Filled(file, pos + rec.edgeCount, rec.inverseEdgeCount, after.inverse)
       else after.inverse == before.inverse
  }

  /** What remains when the node record at pos, or one of its edges, is missing or wrong. */
  ghost predicate Torn<M>(file: seq<Record>, pos: nat, before: seq<Node<M>>, after: seq<Node<M>>) {
    if pos < |file| && file[pos].NodeRecord? && 0 <= file[pos].nodeId < |before| then
      var id := file[pos].nodeId;
      |after| == |before| && after == before[id := after[id]] && TornNode(file, pos + 1, file[pos], before[id], after[id])
    else after == before
  }

  /** After k node records of n the next is missing or wrong, and this remains. */
  ghost predicate Breaks<M>(file: seq<Record>, pos: nat, n: nat, k: nat, before: seq<Node<M>>, after: seq<Node<M>>)
    requires pos <= |file|
  {
    var r := ReadNodes(file, pos, k, before);
    k < n && r.Good? && ReadNodes(file, pos, k + 1, before).Bad? && Torn(file, r.pos, r.value, after)
  }

  lemma BreaksHere<M>(file: seq<Record>, pos: nat, n: nat, k: nat, before: seq<Node<M>>, nodes: seq<Node<M>>, here: nat,
                      after: seq<Node<M>>)
    requires pos <= |file| && here <= |file| && k < n && ReadNodes(file, pos, k, before) == Good(nodes, here)
    requires ReadNode(file, here, nodes).Bad? && Torn(file, here, nodes, after)
    ensures Breaks(file, pos, n, k, before, after)
  {
    NodesSnoc(file, pos, k, before);
  }

  /** What `wake` leaves when it has read m cluster records and k node records. */
  ghost predicate Left<M>(file: seq<Record>, m: nat, k: nat, capacity: nat, none: M,
                          nodes: seq<Node<M>>, clusters: seq<Cluster>)
    requires HasHeader(file)
  {
    var (h, r) := (file[0], Build(file, m, k, capacity, |clusters|, none));
    && r.Good? && clusters == r.value.1 && m <= h.cortexActive && k <= h.aliveNodes
    && if m < h.cortexActive then k == 0 && nodes == r.value.0 && Build(file, m + 1, 0, capacity, |clusters|, none).Bad?
       else if k < h.aliveNodes then Torn(file, r.pos, r.value.0, nodes) && Build(file, m, k + 1, capacity, |clusters|, none).Bad?
       else nodes == r.value.0
  }

  class Brain<!M> {
    const capacity: nat
    const none: M
    var nodes: seq<Node<M>>
    var clusters: seq<Cluster>

    constructor (capacity: nat, none: M, nodes: seq<Node<M>>, clusters: seq<Cluster>)
      ensures this.capacity == capacity && this.none == none && this.nodes == nodes && this.clusters == clusters
    {
      this.capacity, this.none, this.nodes, this.clusters := capacity, none, nodes, clusters;
    }

    method Sleep() returns (file: seq<Record>)
      ensures file == Image(nodes, clusters)
    {
      var alive := CountAlive();
      var active := CountActive();
      file := [Header(MAGIC, VERSION, |nodes|, active, alive)];
      file := WriteClusters(file);
      file := WriteNodes(file);
    }

    method TopologyHash<H>(seed: H, mix: (H, nat, int, real) -> H) returns (h: H)
      ensures h == HashFrom(seed, nodes, 0, mix)
    {
      h := seed;
      for i := 0 to |nodes|
        invariant HashFrom(h, nodes, i, mix) == HashFrom(seed, nodes, 0, mix)
      {
        if !nodes[i].alive { continue; }
        ghost var before := h;
        var es := nodes[i].forward;
        for e := 0 to |es|
          invariant HashEdges(h, i, es[e..], mix) == HashEdges(before, i, es, mix)
        {
          assert es[e..][1..] == es[e + 1..];
          h := mix(h, i, es[e].target, es[e].weight);
        }
      }
    }

    method CountAlive() returns (alive: nat)
      ensures alive == AliveFrom(nodes, 0)
    {
      alive := 0;
      for i := 0 to |nodes|
        invariant alive + AliveFrom(nodes, i) == AliveFrom(nodes, 0)
      {
        if nodes[i].alive { alive := alive + 1; }
      }
    }

    method CountActive() returns (active: nat)
      ensures active == ActiveFrom(clusters, 0)
    {
      active := 0;
      for i := 0 to |clusters|
        invariant active + ActiveFrom(clusters, i) == ActiveFrom(clusters, 0)
      {
        if clusters[i].active { active := active + 1; }
      }
    }

    method WriteClusters(file0: seq<Record>) returns (file: seq<Record>)
      ensures file == file0 + ClustersFrom(clusters, 0)
    {
      file := file0;
      for i := 0 to |clusters|
        invariant file + ClustersFrom(clusters, i) == file0 + ClustersFrom(clusters, 0)
      {
        var c := clusters[i];
        ghost var before := file;
        if c.active {
          file := file + [CortexRecord(i, c.weights, c.accum, c.sampleCount, if c.frozen then 1 else 0, Clip(c.wordLabel))];
        }
        assert file + ClustersFrom(clusters, i + 1) == before + (ClusterRecords(i, c) + ClustersFrom(clusters, i + 1));
      }
      assert file == file + ClustersFrom(clusters, |clusters|);
    }

    method WriteNodes(file0: seq<Record>) returns (file: seq<Record>)
      ensures file == file0 + NodesFrom(nodes, 0)
    {
      file := file0;
      for i := 0 to |nodes|
        invariant file + NodesFrom(nodes, i) == file0 + NodesFrom(nodes, 0)
      {
        NodesAppend(file, nodes, i);
        file := WriteNode(file, i, nodes[i]);
      }
      assert file == file + NodesFrom(nodes, |nodes|);
    }

    static method WriteNode(file0: seq<Record>, i: nat, n: Node<M>) returns (file: seq<Record>)
      ensures file == file0 + NodeRecords(i, n)
    {
      file := file0;
      if n.alive {
        file := file + [NodeRecord(i, |n.forward|, |n.inverse|)];
        file := WriteEdges(file, n.forward);
        file := WriteEdges(file, n.inverse);
      }
    }

    static method WriteEdges(file0: seq<Record>, es: seq<Edge>) returns (file: seq<Record>)
      ensures file == file0 + EdgeRecords(es)
    {
      file := file0;
      for e := 0 to |es|
        invariant file + EdgeRecords(es[e..]) == file0 + EdgeRecords(es)
      {
        assert es[e..][1..] == es[e + 1..];
        ghost var before := file;
        file := file + [EdgeRecord(es[e].target, es[e].weight, es[e].coOccur, Code(es[e].etype))];
        assert before + EdgeRecords(es[e..]) == file + EdgeRecords(es[e + 1..]);
      }
      assert file == file + EdgeRecords(es[|es|..]);
    }

    /** The edges read, all n of them unless a record is missing. */
    static method ReadEdgeRecords(file: seq<Record>, pos0: nat, n: nat) returns (ok: bool, pos: nat, es: seq<Edge>)
      requires pos0 <= |file|
      ensures ReadEdges(file, pos0, n, []) == if ok then Good(es, pos) else Bad
      ensures pos == pos0 + |es| && ReadFrom(file, pos0, es)
      ensures if ok then |es| == n else |es| < n && !EdgeRun(file, pos0, |es| + 1)
    {
      pos, es := pos0, [];
      for e := 0 to n
        invariant pos == pos0 + |es| && |es| == e && ReadFrom(file, pos0, es)
        invariant ReadEdges(file, pos0, n, []) == ReadEdges(file, pos, n - e, es)
      {
        if pos == |file| || !file[pos].EdgeRecord? {
          RunStops(file, pos0, e);
          return false, pos, es;
        }
        ReadFromNext(file, pos0, es);
        es := es + [EdgeOf(file[pos])];
        pos := pos + 1;
      }
      ok := true;
    }

    /** Accepts exactly the files that parse. A file without a header changes
        nothing; any other leaves what the records say that could be read, up to
        the first that is missing. The slots of a table that is not read in full
        hold what they held before. */
    method Wake(file: seq<Record>, stale: nat -> Edge) returns (ok: bool, ghost m: nat, ghost k: nat)
      modifies this
      ensures ok <==> Parse(file, capacity, old(|clusters|), none).Good?
      ensures ok ==> (nodes, clusters) == Parse(file, capacity, old(|clusters|), none).value
      ensures |clusters| == old(|clusters|)
      ensures if HasHeader(file) then Left(file, m, k, capacity, none, nodes, clusters)
        else nodes == old(nodes) && clusters == old(clusters)
      ensures ok <==> HasHeader(file) && m == file[0].cortexActive && k == file[0].aliveNodes
    {
      m, k := 0, 0;
      if file == [] || !file[0].Header? || file[0].magic != MAGIC { return false, m, k; }
      var h := file[0];
      nodes := Copies(if h.nodeCount < capacity then h.nodeCount else capacity, Fresh(none));
      clusters := Copies(|clusters|, IDLE);
      var pos;
      ok, pos, m := WakeClusters(file, 1, h.cortexActive);
      if !ok { return; }
      ok, pos, k := WakeNodes(file, pos, h.aliveNodes, stale);
    }

    method WakeClusters(file: seq<Record>, pos0: nat, n: nat) returns (ok: bool, pos: nat, ghost m: nat)
      requires pos0 <= |file|
      modifies this`clusters
      ensures ok <==> ReadClusters(file, pos0, n, old(clusters)).Good?
      ensures Good(clusters, pos) == ReadClusters(file, pos0, m, old(clusters))
      ensures if ok then m == n else m < n && ReadClusters(file, pos0, m + 1, old(clusters)).Bad?
    {
      pos, m := pos0, 0;
      for i := 0 to n
        invariant pos <= |file| && m == i
        invariant ReadClusters(file, pos0, m, old(clusters)) == Good(clusters, pos)
        invariant ReadClusters(file, pos0, n, old(clusters)) == ReadClusters(file, pos, n - i, clusters)
      {
        ClustersSnoc(file, pos0, m, old(clusters));
        if pos == |file| || !file[pos].CortexRecord? { return false, pos, m; }
        var rec := file[pos];
        if 0 <= rec.clusterId < |clusters| { clusters := clusters[rec.clusterId := ClusterOf(rec)]; }
        pos, m := pos + 1, m + 1;
      }
      ok := true;
    }

    method WakeNodes(file: seq<Record>, pos0: nat, n: nat, stale: nat -> Edge) returns (ok: bool, pos: nat, ghost k: nat)
      requires pos0 <= |file|
      modifies this`nodes
      ensures ok <==> ReadNodes(file, pos0, n, old(nodes)).Good?
      ensures ok ==> k == n && ReadNodes(file, pos0, k, old(nodes)) == Good(nodes, pos)
      ensures !ok ==> Breaks(file, pos0, n, k, old(nodes), nodes)
    {
      pos, k := pos0, 0;
      for i := 0 to n
        invariant pos <= |file| && k == i
        invariant ReadNodes(file, pos0, k, old(nodes)) == Good(nodes, pos)
        invariant ReadNodes(file, pos0, n, old(nodes)) == ReadNodes(file, pos, n - i, nodes)
      {
        ghost var before, here := nodes, pos;
        ok, pos := WakeNode(file, pos, stale);
        if !ok {
          BreaksHere(file, pos0, n, k, old(nodes), before, here, nodes);
          return;
        }
        NodesSnoc(file, pos0, k, old(nodes));
        k := k + 1;
      }
      ok := true;
    }

    method WakeNode(file: seq<Record>, pos0: nat, stale: nat -> Edge) returns (ok: bool, pos: nat)
      requires pos0 <= |file|
      modifies this`nodes
      ensures ok <==> ReadNode(file, pos0, old(nodes)).Good?
      ensures if ok then Good(nodes, pos) == ReadNode(file, pos0, old(nodes)) else Torn(file, pos0, old(nodes), nodes)
    {
      pos := pos0;
      if pos == |file| || !file[pos].NodeRecord? { return false, pos; }
      var rec := file[pos];
      if rec.nodeId < 0 || rec.nodeId >= |nodes| { return false, pos; }
      var n := nodes[rec.nodeId];
      var forward, inverse;
      ok, pos, forward := ReadEdgeRecords(file, pos + 1, rec.edgeCount);
      if !ok {
        forward := PadEdges(file, pos0 + 1, rec.edgeCount, forward, stale);
        nodes := nodes[rec.nodeId := Node(true, 0.0, false, n.marks, forward, n.inverse)];
        return;
      }
      ok, pos, inverse := ReadEdgeRecords(file, pos, rec.inverseEdgeCount);
      if !ok {
        inverse := PadEdges(file, pos0 + 1 + rec.edgeCount, rec.inverseEdgeCount, inverse, stale);
      }
      nodes := nodes[rec.nodeId := Node(true, 0.0, false, n.marks, forward, inverse)];
    }

    /** The table as its count says, the slots that were not read included. */
    static method PadEdges(file: seq<Record>, ghost pos: nat, n: nat, es: seq<Edge>, stale: nat -> Edge)
      returns (full: seq<Edge>)
      requires |es| < n && ReadFrom(file, pos, es) && !EdgeRun(file, pos, |es| + 1)
      ensures Filled(file, pos, n, full) && !EdgeRun(file, pos, n)
    {
      full := es + seq(n - |es|, i requires 0 <= i < n - |es| => stale(|es| + i));
      forall e | 0 <= e < n
        ensures SlotFilled(file, pos, e, full[e])
      {
        if e >= |es| { NoLongerRun(file, pos, |es| + 1, e + 1); }
      }
      NoLongerRun(file, pos, |es| + 1, n);
    }
  }
}
