/** Online clustering of word hashes: clusters that learn by running mean and
    freeze after five samples. */
module LanguageCortex {
  import opened CortexData
  import Graph

  /** One call of `perceive` and what it returned. */
  datatype Call = Call(input: seq<int>, learn: bool, word: Graph.Option<string>, result: int)

  // ----- How alike an input and a cluster are -----

  predicate Counts(x: int, w: int) {
    x != 0 || w != 0
  }

  /** How many of the first n positions matter. */
  function ActiveIn(input: seq<int>, weights: seq<int>, n: nat): (a: nat)
    requires n <= |input| == |weights|
  {
    if n == 0 then 0 else ActiveIn(input, weights, n - 1) + if Counts(input[n - 1], weights[n - 1]) then 1 else 0
  }

  /** Agreements less disagreements among them. */
  function Score(input: seq<int>, weights: seq<int>, n: nat): (s: int)
    requires n <= |input| == |weights|
  {
    if n == 0 then 0
    else Score(input, weights, n - 1) +
         if !Counts(input[n - 1], weights[n - 1]) then 0 else if input[n - 1] == weights[n - 1] then 1 else -1
  }

  /** The cluster takes part in the comparison. */
  predicate Compared(c: Cluster, input: seq<int>) {
    c.active && |input| == |c.weights| && ActiveIn(input, c.weights, |input|) > 0
  }

  function Sim(c: Cluster, input: seq<int>): real
    requires Compared(c, input)
  {
    Score(input, c.weights, |input|) as real / ActiveIn(input, c.weights, |input|) as real
  }

  /** The positions among the first n that matter and agree, or do not. */
  function Agreeing(input: seq<int>, weights: seq<int>, n: nat, same: bool): set<nat>
    requires n <= |input| == |weights|
  {
    set i: nat | i < n && (input[i] != 0 || weights[i] != 0) && (input[i] == weights[i]) == same
  }

  lemma {:induction false} CountsByPosition(input: seq<int>, weights: seq<int>, n: nat)
    requires n <= |input| == |weights|
    ensures Score(input, weights, n) == |Agreeing(input, weights, n, true)| - |Agreeing(input, weights, n, false)|
    ensures ActiveIn(input, weights, n) == |Agreeing(input, weights, n, true)| + |Agreeing(input, weights, n, false)|
  {
    if n == 0 {
      assert Agreeing(input, weights, 0, true) == {} && Agreeing(input, weights, 0, false) == {};
    } else {
      CountsByPosition(input, weights, n - 1);
      AgreeingNext(input, weights, n - 1, true);
      AgreeingNext(input, weights, n - 1, false);
    }
  }

  lemma AgreeingNext(input: seq<int>, weights: seq<int>, n: nat, same: bool)
    requires n < |input| == |weights|
    ensures var more := (input[n] != 0 || weights[n] != 0) && (input[n] == weights[n]) == same;
      |Agreeing(input, weights, n + 1, same)| == |Agreeing(input, weights, n, same)| + if more then 1 else 0
  {
    var more := (input[n] != 0 || weights[n] != 0) && (input[n] == weights[n]) == same;
    assert Agreeing(input, weights, n + 1, same) == Agreeing(input, weights, n, same) + if more then {n} else {};
  }

  /** The similarity is agreements less disagreements, over both together, at the
      positions where the input or the cluster has a spike. */
  lemma SimByPosition(c: Cluster, input: seq<int>)
    requires Compared(c, input)
    ensures var (a, d) := (|Agreeing(input, c.weights, |input|, true)|, |Agreeing(input, c.weights, |input|, false)|);
      a + d > 0 && Sim(c, input) == (a - d) as real / (a + d) as real
  {
    CountsByPosition(input, c.weights, |input|);
  }

  lemma {:induction false} ScoreOfSame(input: seq<int>, n: nat)
    requires n <= |input|
    ensures Score(input, input, n) == ActiveIn(input, input, n)
    ensures ActiveIn(input, input, n) > 0 <==> exists i :: 0 <= i < n && input[i] != 0
  {
    if n > 0 { ScoreOfSame(input, n - 1); }
  }

  lemma {:induction false} ScoreAgainstZero(input: seq<int>, weights: seq<int>, n: nat)
    requires n <= |input| == |weights| && forall i :: 0 <= i < |input| ==> input[i] == 0
    ensures Score(input, weights, n) == 0 - ActiveIn(input, weights, n)
  {
    if n > 0 { ScoreAgainstZero(input, weights, n - 1); }
  }

  // ----- Which cluster a call takes -----

  const VIGILANCE: real := 0.85

  /** The first of the clusters most like the input, or -1 if none compares. */
  ghost predicate IsBest(cs: seq<Cluster>, input: seq<int>, best: int) {
    if best == -1 then forall c :: 0 <= c < |cs| ==> !Compared(cs[c], input)
    else
      && 0 <= best < |cs| && Compared(cs[best], input)
      && forall c :: 0 <= c < |cs| && Compared(cs[c], input) ==>
           Sim(cs[c], input) <= Sim(cs[best], input) && (c < best ==> Sim(cs[c], input) < Sim(cs[best], input))
  }

  ghost predicate IsFirstEmpty(cs: seq<Cluster>, e: int) {
    if e == -1 then forall c :: 0 <= c < |cs| ==> cs[c].active
    else 0 <= e < |cs| && !cs[e].active && forall c :: 0 <= c < e ==> cs[c].active
  }

  predicate Familiar(cs: seq<Cluster>, input: seq<int>, best: int) {
    0 <= best < |cs| && Compared(cs[best], input) && Sim(cs[best], input) >= VIGILANCE
  }

  /** What perceive answers: the best cluster if it is familiar; otherwise a new
      cluster, or the best after all when there is none left, but nothing at all
      for a call that does not learn. */
  function Answer(familiar: bool, best: int, empty: int, learn: bool): int {
    if familiar then best
    else if !learn then -1
    else if empty != -1 then empty
    else best
  }

  ghost predicate Answers(cs: seq<Cluster>, input: seq<int>, learn: bool, r: int) {
    exists best, empty ::
      && IsBest(cs, input, best) && IsFirstEmpty(cs, empty)
      && r == Answer(Familiar(cs, input, best), best, empty, learn)
  }

  lemma AnswerIsDetermined(cs: seq<Cluster>, input: seq<int>, learn: bool, r: int, r': int)
    requires Answers(cs, input, learn, r) && Answers(cs, input, learn, r')
    ensures r == r'
  {
    var best, empty :| IsBest(cs, input, best) && IsFirstEmpty(cs, empty) &&
                       r == Answer(Familiar(cs, input, best), best, empty, learn);
    var best', empty' :| IsBest(cs, input, best') && IsFirstEmpty(cs, empty') &&
                         r' == Answer(Familiar(cs, input, best'), best', empty', learn);
    assert best == best';
  }

  // ----- What a call changes -----

  function Quantized(a: real): int {
    if a > 0.4 then 1 else if a < -0.4 then -1 else 0
  }

  /** `max(0.1, 1 / count)`. */
  function Rate(count: int): real {
    if count > 0 && 1.0 / count as real > 0.1 then 1.0 / count as real else 0.1
  }

  function Toward(a: real, x: int, rate: real): real {
    a + rate * (x as real - a)
  }

  function Moved(accum: seq<real>, input: seq<int>, rate: real): (r: seq<real>)
    requires |accum| == |input|
    ensures |r| == |accum|
  {
    seq(|accum|, i requires 0 <= i < |accum| => Toward(accum[i], input[i], rate))
  }

  function QuantizedAll(accum: seq<real>): (r: seq<int>)
    ensures |r| == |accum|
  {
    seq(|accum|, i requires 0 <= i < |accum| => Quantized(accum[i]))
  }

  function Labelled(wordLabel: string, word: Graph.Option<string>): string {
    if word.Some? && wordLabel == [] then Clip(word.value) else wordLabel
  }

  function Learned(c: Cluster, input: seq<int>, word: Graph.Option<string>): Cluster
    requires |c.accum| == |input|
  {
    var count := c.sampleCount + 1;
    var accum := Moved(c.accum, input, Rate(count));
    Cluster(QuantizedAll(accum), accum, count, count >= 5, true, Labelled(c.wordLabel, word))
  }

  /** The call takes the clusters from cs to cs'. */
  ghost predicate Perceives(cs: seq<Cluster>, call: Call, cs': seq<Cluster>) {
    && Answers(cs, call.input, call.learn, call.result)
    && var r := call.result;
       if call.learn && 0 <= r < |cs| && !cs[r].frozen then
         |cs[r].accum| == |call.input| && cs' == cs[r := Learned(cs[r], call.input, call.word)]
       else cs' == cs
  }

  // ----- Runs from init -----

  function Blank(dim: nat): Cluster {
    Cluster(seq(dim, _ => 0), seq(dim, _ => 0.0), 0, false, false, "")
  }

  ghost predicate IsRun(states: seq<seq<Cluster>>, calls: seq<Call>, n: nat, dim: nat) {
    && |states| == |calls| + 1
    && |states[0]| == n && (forall c :: 0 <= c < n ==> states[0][c] == Blank(dim))
    && (forall k :: 0 <= k < |calls| ==> |calls[k].input| == dim && Perceives(states[k], calls[k], states[k + 1]))
  }

  /** The k-th call is absorbed by cluster c. */
  predicate Absorbs(state: seq<Cluster>, call: Call, c: nat) {
    c < |state| && call.learn && call.result == c && !state[c].frozen
  }

  /** The inputs that cluster c has absorbed in the first k calls. */
  function Samples(states: seq<seq<Cluster>>, calls: seq<Call>, k: nat, c: nat): seq<seq<int>>
    requires k <= |calls| && |states| == |calls| + 1
  {
    if k == 0 then []
    else Samples(states, calls, k - 1, c) + if Absorbs(states[k - 1], calls[k - 1], c) then [calls[k - 1].input] else []
  }

  function SumAt(samples: seq<seq<int>>, i: nat): int
    requires forall k :: 0 <= k < |samples| ==> i < |samples[k]|
  {
    if samples == [] then 0 else SumAt(samples[..|samples| - 1], i) + samples[|samples| - 1][i]
  }

  ghost predicate AllOfDim(samples: seq<seq<int>>, dim: nat) {
    forall k :: 0 <= k < |samples| ==> |samples[k]| == dim
  }

  /** The cluster is the running mean of its samples, quantized. */
  ghost predicate IsMean(c: Cluster, samples: seq<seq<int>>, dim: nat) {
    && AllOfDim(samples, dim) && |c.accum| == |c.weights| == dim
    && c.sampleCount == |samples| <= 5
    && (c.frozen <==> |samples| == 5) && (c.active <==> samples != [])
    && (forall i :: 0 <= i < dim ==> c.weights[i] == Quantized(c.accum[i]))
    && (samples == [] ==> c == Blank(dim))
    && (samples != [] ==> forall i :: 0 <= i < dim ==>
          c.accum[i] == SumAt(samples, i) as real / |samples| as real)
  }

  lemma MeanStep(a: real, sum: int, count: nat, x: int)
    requires count < 5 && (count > 0 ==> a == sum as real / count as real) && (count == 0 ==> a == 0.0 && sum == 0)
    ensures Toward(a, x, Rate(count + 1)) == (sum + x) as real / (count + 1) as real
  {
    if count == 0 {
    } else if count == 1 {
    } else if count == 2 {
    } else if count == 3 {
    } else {
      assert count == 4;
    }
  }

  lemma SumOfMore(samples: seq<seq<int>>, input: seq<int>, i: nat, dim: nat)
    requires AllOfDim(samples, dim) && |input| == dim && i < dim
    ensures SumAt(samples + [input], i) == SumAt(samples, i) + input[i]
  {
    assert (samples + [input])[..|samples|] == samples;
  }

  lemma LearnedIsMean(c: Cluster, samples: seq<seq<int>>, dim: nat, input: seq<int>, word: Graph.Option<string>)
    requires IsMean(c, samples, dim) && !c.frozen && |input| == dim
    ensures IsMean(Learned(c, input, word), samples + [input], dim)
  {
    var d, more := Learned(c, input, word), samples + [input];
    forall i | 0 <= i < dim
      ensures d.accum[i] == SumAt(more, i) as real / |more| as real
    {
      SumOfMore(samples, input, i, dim);
      MeanStep(c.accum[i], SumAt(samples, i), |samples|, input[i]);
    }
  }

  /** After every run, each cluster is the quantized mean of what it absorbed,
      and frozen exactly when that is five samples. */
  lemma {:induction false} AlwaysMeans(states: seq<seq<Cluster>>, calls: seq<Call>, n: nat, dim: nat, k: nat,
                                       c: nat)
    requires IsRun(states, calls, n, dim) && k <= |calls| && c < n
    ensures |states[k]| == n && IsMean(states[k][c], Samples(states, calls, k, c), dim)
  {
    if k > 0 {
      AlwaysMeans(states, calls, n, dim, k - 1, c);
      assert Perceives(states[k - 1], calls[k - 1], states[k]);
      if Absorbs(states[k - 1], calls[k - 1], c) {
        LearnedIsMean(states[k - 1][c], Samples(states, calls, k - 1, c), dim, calls[k - 1].input, calls[k - 1].word);
      } else {
        assert Samples(states, calls, k, c) == Samples(states, calls, k - 1, c);
      }
    }
  }

  /** A frozen cluster never changes again. */
  lemma {:induction false} FrozenForever(states: seq<seq<Cluster>>, calls: seq<Call>, n: nat, dim: nat,
                                         k: nat, l: nat, c: nat)
    requires IsRun(states, calls, n, dim) && k <= l <= |calls| && c < n
    requires |states[k]| == n && states[k][c].frozen
    ensures |states[l]| == n && states[l][c] == states[k][c]
    decreases l - k
  {
    if k < l {
      FrozenForever(states, calls, n, dim, k, l - 1, c);
      assert Perceives(states[l - 1], calls[l - 1], states[l]);
    }
  }

  /** The call brings a word. */
  predicate Names(call: Call) {
    call.word.Some? && call.word.value != []
  }

  /** Call j names cluster c: it is absorbed by it and the first such call to bring a word. */
  ghost predicate FirstName(states: seq<seq<Cluster>>, calls: seq<Call>, c: nat, j: nat)
    requires j < |calls| && |states| == |calls| + 1
  {
    && Absorbs(states[j], calls[j], c) && Names(calls[j])
    && forall i :: 0 <= i < j ==> !(Absorbs(states[i], calls[i], c) && Names(calls[i]))
  }

  lemma LabelStep(c: Cluster, input: seq<int>, word: Graph.Option<string>)
    requires |c.accum| == |input|
    ensures var name := Learned(c, input, word).wordLabel;
      && (c.wordLabel != [] ==> name == c.wordLabel)
      && (c.wordLabel == [] ==> name == if word.Some? then Clip(word.value) else [])
      && (word.Some? && word.value != [] ==> name != [])
  {
  }

  /** After every run, a cluster is labelled with the first word that a call it
      absorbed has brought, and with nothing if there was none. */
  lemma {:induction false} LabelIsFirstWord(states: seq<seq<Cluster>>, calls: seq<Call>, n: nat, dim: nat, k: nat,
                                            c: nat)
    requires IsRun(states, calls, n, dim) && k <= |calls| && c < n
    ensures |states[k]| == n
    ensures states[k][c].wordLabel == [] ==>
      forall i :: 0 <= i < k ==> !(Absorbs(states[i], calls[i], c) && Names(calls[i]))
    ensures states[k][c].wordLabel != [] ==>
      exists j :: 0 <= j < k && FirstName(states, calls, c, j) && states[k][c].wordLabel == Clip(calls[j].word.value)
  {
    if k > 0 {
      LabelIsFirstWord(states, calls, n, dim, k - 1, c);
      assert Perceives(states[k - 1], calls[k - 1], states[k]);
      if Absorbs(states[k - 1], calls[k - 1], c) {
        LabelStep(states[k - 1][c], calls[k - 1].input, calls[k - 1].word);
        if states[k - 1][c].wordLabel == [] && states[k][c].wordLabel != [] {
          assert FirstName(states, calls, c, k - 1);
        }
      }
    }
  }

  /** A label, once set, stays. */
  lemma {:induction false} LabelStays(states: seq<seq<Cluster>>, calls: seq<Call>, n: nat, dim: nat,
                                      k: nat, l: nat, c: nat)
    requires IsRun(states, calls, n, dim) && k <= l <= |calls| && c < n
    requires |states[k]| == n && states[k][c].wordLabel != []
    ensures |states[l]| == n && states[l][c].wordLabel == states[k][c].wordLabel
    decreases l - k
  {
    if k < l {
      LabelStays(states, calls, n, dim, k, l - 1, c);
      assert Perceives(states[l - 1], calls[l - 1], states[l]);
    }
  }

  // ----- A new cluster is recognised at once -----

  predicate IsSpikes(input: seq<int>) {
    forall i :: 0 <= i < |input| ==> -1 <= input[i] <= 1
  }

  predicate IsZero(input: seq<int>) {
    forall i :: 0 <= i < |input| ==> input[i] == 0
  }

  /** The call opened cluster c. */
  predicate Opens(state: seq<Cluster>, call: Call, c: nat) {
    c < |state| && call.learn && call.result == c && !state[c].active
  }

  lemma FirstSample(c: Cluster, dim: nat, input: seq<int>, word: Graph.Option<string>)
    requires c == Blank(dim) && |input| == dim && IsSpikes(input)
    ensures Learned(c, input, word).weights == input
  {
    var d := Learned(c, input, word);
    forall i | 0 <= i < dim
      ensures d.weights[i] == input[i]
    {
      assert d.accum[i] == Toward(0.0, input[i], 1.0);
    }
  }

  /** Whatever opened a cluster was like no cluster before it. */
  lemma OpenedUnlike(state: seq<Cluster>, call: Call, c: nat, d: nat)
    requires Answers(state, call.input, call.learn, call.result) && Opens(state, call, c)
    requires d < |state| && Compared(state[d], call.input)
    ensures Sim(state[d], call.input) < VIGILANCE
  {
  }

  lemma SimOfSame(c: Cluster, input: seq<int>)
    requires c.active && c.weights == input && !IsZero(input)
    ensures Compared(c, input) && Sim(c, input) == 1.0
  {
    ScoreOfSame(input, |input|);
    RatioOfSame(ActiveIn(input, input, |input|) as real);
  }

  lemma RatioOfSame(a: real)
    requires a > 0.0
    ensures a / a == 1.0
  {
  }

  lemma RecognisedIfSame(cs: seq<Cluster>, input: seq<int>, learn: bool, r: int, c: nat)
    requires c < |cs| && cs[c].active && cs[c].weights == input && !IsZero(input)
    requires forall d :: 0 <= d < |cs| && d != c && Compared(cs[d], input) ==> Sim(cs[d], input) < VIGILANCE
    requires Answers(cs, input, learn, r)
    ensures r == c
  {
    SimOfSame(cs[c], input);
  }

  lemma ZeroIsUnknown(cs: seq<Cluster>, input: seq<int>, learn: bool, r: int, c: nat)
    requires c < |cs| && cs[c].active && cs[c].weights == input && IsZero(input)
    requires Answers(cs, input, learn, r)
    ensures r != c
  {
    ScoreOfSame(input, |input|);
    forall d | 0 <= d < |cs| && Compared(cs[d], input)
      ensures Sim(cs[d], input) < VIGILANCE
    {
      ScoreAgainstZero(input, cs[d].weights, |input|);
    }
  }

  /** An input that opens a cluster and comes again is recognised as that
      cluster, unless no spike is set in it. */
  lemma RecognisedExactly(states: seq<seq<Cluster>>, calls: seq<Call>, n: nat, dim: nat, k: nat, c: nat)
    requires IsRun(states, calls, n, dim) && k + 1 < |calls| && c < n
    requires |states[k]| == n && Opens(states[k], calls[k], c) && IsSpikes(calls[k].input)
    requires calls[k + 1].input == calls[k].input
    ensures calls[k + 1].result == c <==> !IsZero(calls[k].input)
  {
    var input := calls[k].input;
    AlwaysMeans(states, calls, n, dim, k, c);
    assert Perceives(states[k], calls[k], states[k + 1]);
    assert Perceives(states[k + 1], calls[k + 1], states[k + 2]);
    FirstSample(states[k][c], dim, input, calls[k].word);
    var cs := states[k + 1];
    forall d | 0 <= d < |cs| && d != c && Compared(cs[d], input)
      ensures Sim(cs[d], input) < VIGILANCE
    {
      OpenedUnlike(states[k], calls[k], c, d);
    }
    if IsZero(input) {
      ZeroIsUnknown(cs, input, calls[k + 1].learn, calls[k + 1].result, c);
    } else {
      RecognisedIfSame(cs, input, calls[k + 1].learn, calls[k + 1].result, c);
    }
  }

  // ----- The cortex in place -----

  class Cortex {
    const clusters: array<Cluster>
    const dim: nat

    ghost predicate Valid()
      reads clusters
    {
      forall c :: 0 <= c < clusters.Length ==> |clusters[c].weights| == |clusters[c].accum| == dim
    }

    /** The state that every run starts from. */
    constructor (n: nat, dim: nat)
      ensures Valid() && fresh(clusters) && clusters.Length == n && this.dim == dim
      ensures forall c :: 0 <= c < n ==> clusters[c] == Blank(dim)
    {
      clusters := new Cluster[n](_ => Blank(dim));
      this.dim := dim;
    }

    method Compare(c: nat, input: seq<int>) returns (score: int, act: nat)
      requires Valid() && c < clusters.Length && |input| == dim
      ensures act == ActiveIn(input, clusters[c].weights, dim) && score == Score(input, clusters[c].weights, dim)
    {
      score, act := 0, 0;
      var i, weights := 0, clusters[c].weights;
      while i < dim
        invariant i <= dim && act == ActiveIn(input, weights, i) && score == Score(input, weights, i)
      {
        if input[i] != 0 || weights[i] != 0 {
          if weights[i] == input[i] { score := score + 1; } else { score := score - 1; }
          act := act + 1;
        }
        i := i + 1;
      }
    }

    /** One pass over the clusters. No similarity is below -1, so the value that
        bestSim starts with is beaten by the first cluster compared. */
    method Search(input: seq<int>) returns (best: int, empty: int, bestSim: real)
      requires Valid() && |input| == dim
      ensures IsBest(clusters[..], input, best) && IsFirstEmpty(clusters[..], empty)
      ensures bestSim == if best == -1 then -9999.0 else Sim(clusters[best], input)
    {
      best, empty, bestSim := -1, -1, -9999.0;
      var c := 0;
      while c < clusters.Length
        invariant c <= clusters.Length
        invariant IsBest(clusters[..c], input, best) && IsFirstEmpty(clusters[..c], empty)
        invariant bestSim == if best == -1 then -9999.0 else Sim(clusters[best], input)
      {
        assert clusters[..c + 1][..c] == clusters[..c];
        if !clusters[c].active {
          if empty == -1 { empty := c; }
        } else {
          var score, act := Compare(c, input);
          if act > 0 {
            ScoreAtLeast(input, clusters[c].weights, dim);
            var sim := score as real / act as real;
            if sim > bestSim { bestSim, best := sim, c; }
          }
        }
        c := c + 1;
      }
      assert clusters[..clusters.Length] == clusters[..];
    }

    method Learn(best: nat, input: seq<int>, word: Graph.Option<string>)
      requires Valid() && best < clusters.Length && |input| == dim
      modifies clusters
      ensures Valid()
      ensures clusters[..] == old(clusters[..])[best := Learned(old(clusters[best]), input, word)]
    {
      var c := clusters[best];
      var count := c.sampleCount + 1;
      var lr := Rate(count);
      var accum, weights: seq<int> := [], [];
      var i := 0;
      while i < dim
        invariant i <= dim && accum == Moved(c.accum, input, lr)[..i]
        invariant weights == QuantizedAll(Moved(c.accum, input, lr))[..i]
      {
        var a := Toward(c.accum[i], input[i], lr);
        accum := accum + [a];
        weights := weights + [if a > 0.4 then 1 else if a < -0.4 then -1 else 0];
        i := i + 1;
      }
      var wordLabel := c.wordLabel;
      if word.Some? && wordLabel == [] {
        wordLabel := Clip(word.value);
      }
      assert accum == Moved(c.accum, input, lr) && weights == QuantizedAll(accum);
      clusters[best] := Cluster(weights, accum, count, count >= 5, true, wordLabel);
      assert clusters[best] == Learned(c, input, word);
    }

    method Perceive(input: seq<int>, learn: bool, word: Graph.Option<string>) returns (r: int)
      requires Valid() && |input| == dim
      modifies clusters
      ensures Valid()
      ensures Perceives(old(clusters[..]), Call(input, learn, word, r), clusters[..])
    {
      var best, empty, bestSim := Search(input);
      assert bestSim >= VIGILANCE <==> Familiar(clusters[..], input, best);
      r := best;
      if bestSim < VIGILANCE && empty != -1 && learn {
        r := empty;
      } else if bestSim < VIGILANCE && !learn {
        r := -1;
      }
      assert r == Answer(Familiar(clusters[..], input, best), best, empty, learn);
      if r != -1 && learn && !clusters[r].frozen {
        Learn(r, input, word);
      }
    }
  }

  lemma {:induction false} ScoreAtLeast(input: seq<int>, weights: seq<int>, n: nat)
    requires n <= |input| == |weights|
    ensures var a := ActiveIn(input, weights, n);
      0 - a <= Score(input, weights, n) <= a
      && (a > 0 ==> Score(input, weights, n) as real / a as real >= -1.0)
  {
    if n > 0 { ScoreAtLeast(input, weights, n - 1); }
  }
}
