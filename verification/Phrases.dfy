/** Grouping tagged tokens into noun and verb phrases. */
module Phrases {
  import opened Words
  import Tokenizer

  datatype PhraseType = NP | VP
  datatype Phrase = Phrase(kind: PhraseType, head: nat, start: nat, end: nat, clusterId: int)

  // ----- What a phrase is -----

  predicate IsNominal(t: Tokenizer.Token) {
    t.tag == NOUN || t.tag == PRON
  }

  /** DET? ADJ* (NOUN | PRON) from s to h. */
  predicate NounPattern(tokens: seq<Tokenizer.Token>, s: nat, h: nat) {
    && s <= h < |tokens| && IsNominal(tokens[h])
    && (s < h ==> tokens[s].tag == DET || tokens[s].tag == ADJ)
    && (forall k :: s < k < h ==> tokens[k].tag == ADJ)
  }

  /** AUX? ADV* VERB from s to h. */
  predicate VerbPattern(tokens: seq<Tokenizer.Token>, s: nat, h: nat) {
    && s <= h < |tokens| && tokens[h].tag == VERB
    && (s < h ==> tokens[s].tag == AUX || tokens[s].tag == ADV)
    && (forall k :: s < k < h ==> tokens[k].tag == ADV)
  }

  /** An auxiliary that belongs to no verb. */
  ghost predicate BareAux(tokens: seq<Tokenizer.Token>, h: nat) {
    && h < |tokens| && tokens[h].tag == AUX
    && (forall v: nat :: !VerbPattern(tokens, h, v))
  }

  ghost predicate IsHead(tokens: seq<Tokenizer.Token>, h: nat) {
    h < |tokens| && (IsNominal(tokens[h]) || tokens[h].tag == VERB || BareAux(tokens, h))
  }

  /** The longest stretch of tokens that matches a pattern and ends with the head. */
  ghost predicate IsPhrase(tokens: seq<Tokenizer.Token>, p: Phrase) {
    && IsHead(tokens, p.head) && p.end == p.head + 1 && p.clusterId == -1
    && if IsNominal(tokens[p.head]) then
         && p.kind == NP && NounPattern(tokens, p.start, p.head)
         && forall s: nat :: NounPattern(tokens, s, p.head) ==> p.start <= s
       else if tokens[p.head].tag == VERB then
         && p.kind == VP && VerbPattern(tokens, p.start, p.head)
         && forall s: nat :: VerbPattern(tokens, s, p.head) ==> p.start <= s
       else
         p.kind == VP && p.start == p.head
  }

  lemma PhraseOfHead(tokens: seq<Tokenizer.Token>, p: Phrase, q: Phrase)
    requires IsPhrase(tokens, p) && IsPhrase(tokens, q) && p.head == q.head
    ensures p == q
  {
  }

  // ----- What a grouping is -----

  ghost predicate Ordered(ps: seq<Phrase>) {
    forall k, l :: 0 <= k < l < |ps| ==> ps[k].end <= ps[l].start
  }

  predicate Heads(ps: seq<Phrase>, h: nat) {
    exists k :: 0 <= k < |ps| && ps[k].head == h
  }

  ghost predicate Covered(tokens: seq<Tokenizer.Token>, ps: seq<Phrase>, limit: nat) {
    forall h: nat :: h < limit && IsHead(tokens, h) ==> Heads(ps, h)
  }

  /** How far the phrases must account for every head: to the end, unless they
      are as many as there is room for. */
  function Limit(tokens: seq<Tokenizer.Token>, ps: seq<Phrase>, max: nat): nat {
    if |ps| < max then |tokens| else if ps == [] then 0 else ps[|ps| - 1].end
  }

  ghost predicate AllPhrases(tokens: seq<Tokenizer.Token>, ps: seq<Phrase>) {
    forall k :: 0 <= k < |ps| ==> IsPhrase(tokens, ps[k])
  }

  /** Phrases from left to right, none overlapping, one for each head. */
  ghost predicate Grouping(tokens: seq<Tokenizer.Token>, ps: seq<Phrase>, max: nat) {
    |ps| <= max && AllPhrases(tokens, ps) && Ordered(ps) && Covered(tokens, ps, Limit(tokens, ps, max))
  }

  // ----- A sentence has one grouping -----

  lemma StartIsNotAfterHead(tokens: seq<Tokenizer.Token>, p: Phrase)
    requires IsPhrase(tokens, p)
    ensures p.start <= p.head < p.end <= |tokens|
  {
  }

  lemma HeadsGrow(tokens: seq<Tokenizer.Token>, ps: seq<Phrase>, k: nat, l: nat)
    requires AllPhrases(tokens, ps) && Ordered(ps) && k < l < |ps|
    ensures ps[k].head < ps[l].head
  {
    assert IsPhrase(tokens, ps[k]) && IsPhrase(tokens, ps[l]);
    StartIsNotAfterHead(tokens, ps[k]);
    StartIsNotAfterHead(tokens, ps[l]);
  }

  lemma HeadInLimit(tokens: seq<Tokenizer.Token>, ps: seq<Phrase>, max: nat, k: nat)
    requires Grouping(tokens, ps, max) && k < |ps|
    ensures IsHead(tokens, ps[k].head) && ps[k].head < Limit(tokens, ps, max)
  {
    var last := |ps| - 1;
    assert IsPhrase(tokens, ps[k]) && IsPhrase(tokens, ps[last]);
    StartIsNotAfterHead(tokens, ps[k]);
    StartIsNotAfterHead(tokens, ps[last]);
    if k < last { HeadsGrow(tokens, ps, k, last); }
  }

  lemma NotAmong(tokens: seq<Tokenizer.Token>, a: seq<Phrase>, b: seq<Phrase>, k: nat)
    requires AllPhrases(tokens, a) && Ordered(a) && AllPhrases(tokens, b) && Ordered(b)
    requires k < |a| && k < |b| && a[..k] == b[..k] && b[k].head < a[k].head
    ensures !Heads(a, b[k].head)
  {
    forall m: nat | m < |a|
      ensures a[m].head != b[k].head
    {
      if m < k {
        assert a[m] == a[..k][m] == b[m];
        HeadsGrow(tokens, b, m, k);
      } else if k < m {
        HeadsGrow(tokens, a, k, m);
      }
    }
  }

  /** Where two groupings agree up to k, the head that b has next is one that a has next or later. */
  lemma NextHead(tokens: seq<Tokenizer.Token>, a: seq<Phrase>, b: seq<Phrase>, max: nat, k: nat)
    requires Grouping(tokens, a, max) && Grouping(tokens, b, max)
    requires k < |a| && k < |b| && a[..k] == b[..k]
    ensures a[k].head <= b[k].head
  {
    HeadInLimit(tokens, b, max, k);
    HeadInLimit(tokens, a, max, k);
    if b[k].head < a[k].head {
      NotAmong(tokens, a, b, k);
      assert false;
    }
  }

  lemma NotLonger(tokens: seq<Tokenizer.Token>, a: seq<Phrase>, b: seq<Phrase>, max: nat)
    requires Grouping(tokens, a, max) && Grouping(tokens, b, max)
    requires |a| <= |b| && a == b[..|a|]
    ensures a == b
  {
    if |a| < |b| {
      HeadInLimit(tokens, b, max, |a|);
      assert false;
    }
  }

  lemma AgreeNext(tokens: seq<Tokenizer.Token>, a: seq<Phrase>, b: seq<Phrase>, max: nat, k: nat)
    requires Grouping(tokens, a, max) && Grouping(tokens, b, max)
    requires k < |a| && k < |b| && a[..k] == b[..k]
    ensures a[k] == b[k]
  {
    NextHead(tokens, a, b, max, k);
    NextHead(tokens, b, a, max, k);
    PhraseOfHead(tokens, a[k], b[k]);
  }

  lemma {:induction false} Agree(tokens: seq<Tokenizer.Token>, a: seq<Phrase>, b: seq<Phrase>, max: nat, k: nat)
    requires Grouping(tokens, a, max) && Grouping(tokens, b, max)
    requires k <= |a| && k <= |b|
    ensures a[..k] == b[..k]
  {
    if k > 0 {
      Agree(tokens, a, b, max, k - 1);
      AgreeNext(tokens, a, b, max, k - 1);
      assert a[..k] == a[..k - 1] + [a[k - 1]] && b[..k] == b[..k - 1] + [b[k - 1]];
    }
  }

  lemma GroupingIsUnique(tokens: seq<Tokenizer.Token>, a: seq<Phrase>, b: seq<Phrase>, max: nat)
    requires Grouping(tokens, a, max) && Grouping(tokens, b, max)
    ensures a == b
  {
    if |a| <= |b| {
      Agree(tokens, a, b, max, |a|);
      NotLonger(tokens, a, b, max);
    } else {
      Agree(tokens, a, b, max, |b|);
      NotLonger(tokens, b, a, max);
    }
  }

  /** With room to spare, the noun phrases are headed by exactly the nouns and
      pronouns, the verb phrases by the verbs and the auxiliaries without a verb. */
  lemma HeadsExactly(tokens: seq<Tokenizer.Token>, ps: seq<Phrase>, max: nat, h: nat)
    requires Grouping(tokens, ps, max) && |ps| < max && h < |tokens|
    ensures (exists k :: 0 <= k < |ps| && ps[k].head == h && ps[k].kind == NP) <==> IsNominal(tokens[h])
    ensures (exists k :: 0 <= k < |ps| && ps[k].head == h && ps[k].kind == VP) <==>
            tokens[h].tag == VERB || BareAux(tokens, h)
    ensures forall k, l :: 0 <= k < |ps| && 0 <= l < |ps| && ps[k].head == ps[l].head ==> k == l
  {
    if IsHead(tokens, h) {
      assert Heads(ps, h);
      var k :| 0 <= k < |ps| && ps[k].head == h;
      assert IsPhrase(tokens, ps[k]);
    }
    forall k, l | 0 <= k < |ps| && 0 <= l < |ps| && ps[k].head == ps[l].head
      ensures k == l
    {
      if k < l { HeadsGrow(tokens, ps, k, l); } else if l < k { HeadsGrow(tokens, ps, l, k); }
    }
  }

  // ----- The grouper in place -----

  /** No match straddles position i. */
  ghost predicate Clear(tokens: seq<Tokenizer.Token>, i: nat) {
    forall s: nat, h: nat :: s < i <= h ==> !NounPattern(tokens, s, h) && !VerbPattern(tokens, s, h)
  }

  ghost predicate EndBy(ps: seq<Phrase>, i: nat) {
    forall k :: 0 <= k < |ps| ==> ps[k].end <= i
  }

  ghost predicate Upto(tokens: seq<Tokenizer.Token>, ps: seq<Phrase>, i: nat) {
    && i <= |tokens| && AllPhrases(tokens, ps) && Ordered(ps) && EndBy(ps, i)
    && Covered(tokens, ps, i) && Clear(tokens, i)
  }

  /** Emitting p, which starts at i, accounts for everything up to its end. */
  lemma Emitted(tokens: seq<Tokenizer.Token>, ps: seq<Phrase>, i: nat, p: Phrase)
    requires Upto(tokens, ps, i) && IsPhrase(tokens, p) && p.start == i
    requires Clear(tokens, p.end)
    requires forall h: nat :: i <= h < p.head ==> !IsHead(tokens, h)
    ensures Upto(tokens, ps + [p], p.end)
  {
    StartIsNotAfterHead(tokens, p);
    var qs := ps + [p];
    forall h: nat | h < p.end && IsHead(tokens, h)
      ensures Heads(qs, h)
    {
      if h < i {
        var k :| 0 <= k < |ps| && ps[k].head == h;
        assert qs[k].head == h;
      } else {
        assert qs[|ps|].head == h;
      }
    }
  }

  lemma Skipped(tokens: seq<Tokenizer.Token>, ps: seq<Phrase>, i: nat)
    requires Upto(tokens, ps, i) && i < |tokens| && !IsHead(tokens, i)
    requires forall h: nat :: !NounPattern(tokens, i, h) && !VerbPattern(tokens, i, h)
    ensures Upto(tokens, ps, i + 1)
  {
  }

  /** The end of the run of `tag` that starts at i. */
  method RunEnd(tokens: seq<Tokenizer.Token>, i: nat, tag: POSTag) returns (j: nat)
    requires i <= |tokens|
    ensures i <= j <= |tokens|
    ensures forall k :: i <= k < j ==> tokens[k].tag == tag
    ensures j < |tokens| ==> tokens[j].tag != tag
  {
    j := i;
    while j < |tokens| && tokens[j].tag == tag
      invariant i <= j <= |tokens|
      invariant forall k :: i <= k < j ==> tokens[k].tag == tag
    {
      j := j + 1;
    }
  }

  /** j is where a scan from i stops: past one optional token and a run. */
  predicate Stop(tokens: seq<Tokenizer.Token>, i: nat, j: nat, first: POSTag, run: POSTag) {
    && i < |tokens| && i <= j <= |tokens| && (tokens[i].tag == first ==> i < j)
    && (i < j ==> tokens[i].tag == first || tokens[i].tag == run)
    && (forall k :: i < k < j ==> tokens[k].tag == run)
    && (j < |tokens| ==> tokens[j].tag != run)
  }

  lemma NounScan(tokens: seq<Tokenizer.Token>, i: nat, j: nat)
    requires Stop(tokens, i, j, DET, ADJ)
    ensures if j < |tokens| && IsNominal(tokens[j]) then NounPattern(tokens, i, j)
            else forall h: nat :: !NounPattern(tokens, i, h)
  {
    if !(j < |tokens| && IsNominal(tokens[j])) {
      assert forall h: nat :: !NounPattern(tokens, i, h);
    }
  }

  lemma VerbScan(tokens: seq<Tokenizer.Token>, i: nat, j: nat)
    requires Stop(tokens, i, j, AUX, ADV)
    ensures if j < |tokens| && tokens[j].tag == VERB then VerbPattern(tokens, i, j)
            else forall h: nat :: !VerbPattern(tokens, i, h)
  {
    if !(j < |tokens| && tokens[j].tag == VERB) {
      assert forall h: nat :: !VerbPattern(tokens, i, h);
    }
  }

  lemma NounFound(tokens: seq<Tokenizer.Token>, ps: seq<Phrase>, i: nat, j: nat)
    requires Upto(tokens, ps, i) && NounPattern(tokens, i, j)
    ensures Upto(tokens, ps + [Phrase(NP, j, i, j + 1, -1)], j + 1)
  {
    Emitted(tokens, ps, i, Phrase(NP, j, i, j + 1, -1));
  }

  lemma VerbFound(tokens: seq<Tokenizer.Token>, ps: seq<Phrase>, i: nat, j: nat)
    requires Upto(tokens, ps, i) && VerbPattern(tokens, i, j)
    ensures Upto(tokens, ps + [Phrase(VP, j, i, j + 1, -1)], j + 1)
  {
    Emitted(tokens, ps, i, Phrase(VP, j, i, j + 1, -1));
  }

  lemma AuxFound(tokens: seq<Tokenizer.Token>, ps: seq<Phrase>, i: nat)
    requires Upto(tokens, ps, i) && BareAux(tokens, i)
    ensures Upto(tokens, ps + [Phrase(VP, i, i, i + 1, -1)], i + 1)
  {
    Emitted(tokens, ps, i, Phrase(VP, i, i, i + 1, -1));
  }

  /** One turn of the loop: what is emitted at i, if anything, and where to go on. */
  method MatchAt(tokens: seq<Tokenizer.Token>, i: nat, ghost ps: seq<Phrase>) returns (found: bool, p: Phrase, next: nat)
    requires i < |tokens| && Upto(tokens, ps, i)
    ensures i < next && Upto(tokens, if found then ps + [p] else ps, next)
  {
    p := Phrase(NP, i, i, i + 1, -1);
    var tag := tokens[i].tag;
    if tag == PUNCT {
      Skipped(tokens, ps, i);
      return false, p, i + 1;
    }
    if tag == DET || tag == ADJ || tag == NOUN || tag == PRON {
      var j := RunEnd(tokens, if tag == DET then i + 1 else i, ADJ);
      NounScan(tokens, i, j);
      if j < |tokens| && IsNominal(tokens[j]) {
        NounFound(tokens, ps, i, j);
        return true, Phrase(NP, j, i, j + 1, -1), j + 1;
      }
      Skipped(tokens, ps, i);
      return false, p, i + 1;
    }
    if tag == AUX || tag == ADV || tag == VERB {
      var j := RunEnd(tokens, if tag == AUX then i + 1 else i, ADV);
      VerbScan(tokens, i, j);
      if j < |tokens| && tokens[j].tag == VERB {
        VerbFound(tokens, ps, i, j);
        return true, Phrase(VP, j, i, j + 1, -1), j + 1;
      }
      if tag == AUX {
        AuxFound(tokens, ps, i);
        return true, Phrase(VP, i, i, i + 1, -1), i + 1;
      }
      Skipped(tokens, ps, i);
      return false, p, i + 1;
    }
    Skipped(tokens, ps, i);
    return false, p, i + 1;
  }

  /** Fills `out` with the phrases of a sentence, as many as it has room for. */
  method GroupPhrases(tokens: seq<Tokenizer.Token>, out: array<Phrase>) returns (count: nat)
    modifies out
    ensures count <= out.Length && Grouping(tokens, out[..count], out.Length)
  {
    count := 0;
    var i: nat := 0;
    while i < |tokens| && count < out.Length
      invariant count <= out.Length && Upto(tokens, out[..count], i)
      decreases |tokens| - i
    {
      var found, p, next := MatchAt(tokens, i, out[..count]);
      if found {
        ghost var before := out[..count];
        out[count] := p;
        assert out[..count + 1] == before + [p];
        count := count + 1;
      }
      i := next;
    }
  }
}
