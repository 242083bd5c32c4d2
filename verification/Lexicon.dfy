/** The trie lexicon over a fixed node pool, against a map from words to tags. */
module LexiconTrie {
  import opened Words

  /** A pool node; child 0 stands for no child, since the root, node 0,
      is nobody's child. */
  datatype TrieNode = TrieNode(children: seq<nat>, tag: POSTag, isTerminal: bool)

  function Zeros(n: nat): (s: seq<nat>)
    ensures |s| == n && forall i :: 0 <= i < n ==> s[i] == 0
  {
    if n == 0 then [] else Zeros(n - 1) + [0]
  }

  /** A node as `init` leaves it. */
  function Blank(): (node: TrieNode)
    ensures |node.children| == 128 && !node.isTerminal && forall i :: 0 <= i < 128 ==> node.children[i] == 0
  {
    TrieNode(Zeros(128), UNKNOWN, false)
  }

  // ----- The trie as a tree of words -----

  /** The used nodes, the word that leads to each, and the node of each word. */
  datatype Trie = Trie(nodes: seq<TrieNode>, path: seq<string>, index: map<string, nat>)
  {
    predicate Sized() {
      && |nodes| == |path| && nodes != []
      && forall i :: 0 <= i < |nodes| ==> |nodes[i].children| == 128
    }

    /** Nodes and words correspond one to one. */
    ghost predicate Indexed() {
      && (forall i :: 0 <= i < |path| ==> path[i] in index && index[path[i]] == i)
      && (forall k :: k in index ==> index[k] < |path| && path[index[k]] == k && AllAscii(k))
      && |path| > 0 && path[0] == []
    }

    /** The child links are exactly the one-letter extensions. */
    ghost predicate Linked()
      requires Sized() && Indexed()
    {
      forall i: nat, c: char :: i < |nodes| && IsAscii(c) ==> ChildOk(i, c)
    }

    predicate ChildOk(i: nat, c: char)
      requires Sized() && i < |nodes| && IsAscii(c)
    {
      if nodes[i].children[c as int] == 0 then path[i] + [c] !in index
      else path[i] + [c] in index && index[path[i] + [c]] == nodes[i].children[c as int]
    }

    /** Every word but the empty one extends another: the nodes form a tree. */
    ghost predicate Rooted() {
      forall k: string :: HasParent(k)
    }

    predicate HasParent(k: string) {
      k in index && k != [] ==> k[..|k| - 1] in index
    }

    ghost predicate Ok() {
      Sized() && Indexed() && Linked() && Rooted()
    }

    /** The words that insertion has completed, with their tags. */
    ghost function Table(): map<string, POSTag>
      requires Sized() && Indexed()
    {
      map k | k in index && nodes[index[k]].isTerminal :: nodes[index[k]].tag
    }

    /** A fresh node as child c of node i. */
    function Grow(i: nat, c: char): Trie
      requires Sized() && i < |nodes| && IsAscii(c)
    {
      Trie(nodes[i := TrieNode(nodes[i].children[c as int := |nodes|], nodes[i].tag, nodes[i].isTerminal)] + [Blank()],
           path + [path[i] + [c]], index[path[i] + [c] := |nodes|])
    }

    function Mark(i: nat, tag: POSTag): Trie
      requires i < |nodes|
    {
      Trie(nodes[i := TrieNode(nodes[i].children, tag, true)], path, index)
    }
  }

  lemma ExtensionsDiffer(u: string, v: string, c: char, d: char)
    requires u != v || c != d
    ensures u + [c] != v + [d]
  {
    var x, y := u + [c], v + [d];
    assert x[..|x| - 1] == u && x[|x| - 1] == c;
    assert y[..|y| - 1] == v && y[|y| - 1] == d;
  }

  ghost predicate MayGrow(t: Trie, i: nat, c: char) {
    t.Ok() && i < |t.nodes| && IsAscii(c) && t.nodes[i].children[c as int] == 0
  }

  lemma GrowIndexed(t: Trie, i: nat, c: char)
    requires MayGrow(t, i, c)
    ensures t.path[i] + [c] !in t.index && t.Grow(i, c).Sized() && t.Grow(i, c).Indexed()
  {
    assert t.ChildOk(i, c);
  }

  lemma GrowRooted(t: Trie, i: nat, c: char)
    requires MayGrow(t, i, c)
    ensures t.Grow(i, c).Rooted()
  {
    var k := t.path[i] + [c];
    assert k[..|k| - 1] == t.path[i];
    forall w: string ensures t.Grow(i, c).HasParent(w) {
      assert t.HasParent(w);
    }
  }

  lemma GrowOldLink(t: Trie, i: nat, c: char, m: nat, d: char)
    requires MayGrow(t, i, c) && m < |t.nodes| && IsAscii(d) && t.Grow(i, c).Sized()
    ensures t.Grow(i, c).ChildOk(m, d)
  {
    assert t.ChildOk(m, d);
    assert t.Grow(i, c).path[m] == t.path[m];
    if m != i || c != d {
      assert t.index[t.path[m]] == m && t.index[t.path[i]] == i;
      ExtensionsDiffer(t.path[m], t.path[i], d, c);
    }
  }

  lemma GrowNewLink(t: Trie, i: nat, c: char, d: char)
    requires MayGrow(t, i, c) && IsAscii(d) && t.path[i] + [c] !in t.index && t.Grow(i, c).Sized()
    ensures t.Grow(i, c).ChildOk(|t.nodes|, d)
  {
    var k := t.path[i] + [c];
    var kd := k + [d];
    assert kd[..|kd| - 1] == k && t.HasParent(kd);
    assert kd !in t.index && |kd| != |k|;
  }

  lemma GrowTable(t: Trie, i: nat, c: char)
    requires MayGrow(t, i, c) && t.path[i] + [c] !in t.index && t.Grow(i, c).Sized() && t.Grow(i, c).Indexed()
    ensures t.Grow(i, c).Table() == t.Table()
  {
    var t' := t.Grow(i, c);
    assert !t'.nodes[|t.nodes|].isTerminal;
    forall k | k in t.index
      ensures t'.nodes[t'.index[k]].isTerminal == t.nodes[t.index[k]].isTerminal
      ensures t'.nodes[t'.index[k]].tag == t.nodes[t.index[k]].tag
    {
      assert t'.index[k] == t.index[k];
    }
  }

  lemma GrowOk(t: Trie, i: nat, c: char)
    requires MayGrow(t, i, c)
    ensures t.Grow(i, c).Ok() && t.Grow(i, c).Table() == t.Table()
  {
    var t' := t.Grow(i, c);
    GrowIndexed(t, i, c);
    GrowRooted(t, i, c);
    forall m: nat, d: char | m < |t'.nodes| && IsAscii(d)
      ensures t'.ChildOk(m, d)
    {
      if m < |t.nodes| { GrowOldLink(t, i, c, m, d); } else { GrowNewLink(t, i, c, d); }
    }
    GrowTable(t, i, c);
  }

  lemma MarkTable(t: Trie, i: nat, tag: POSTag)
    requires t.Sized() && t.Indexed() && i < |t.nodes| && t.Mark(i, tag).Sized() && t.Mark(i, tag).Indexed()
    ensures t.Mark(i, tag).Table() == t.Table()[t.path[i] := tag]
  {
    var t' := t.Mark(i, tag);
    assert t.path[i] in t.index;
    forall k | k in t.index && k != t.path[i]
      ensures t'.nodes[t.index[k]] == t.nodes[t.index[k]]
    {
    }
  }

  lemma MarkOk(t: Trie, i: nat, tag: POSTag)
    requires t.Ok() && i < |t.nodes|
    ensures t.Mark(i, tag).Ok() && t.Mark(i, tag).Table() == t.Table()[t.path[i] := tag]
  {
    var t' := t.Mark(i, tag);
    assert t'.Sized() && t'.Indexed();
    forall m: nat, d: char | m < |t'.nodes| && IsAscii(d)
      ensures t'.ChildOk(m, d)
    {
      assert t.ChildOk(m, d);
    }
    forall w: string ensures t'.HasParent(w) {
      assert t.HasParent(w);
    }
    MarkTable(t, i, tag);
  }

  lemma {:induction false} PrefixIn(t: Trie, k: string, n: nat)
    requires t.Rooted() && k in t.index && n <= |k|
    ensures k[..n] in t.index
    decreases |k| - n
  {
    if n == |k| {
      assert k[..n] == k;
    } else {
      PrefixIn(t, k, n + 1);
      assert t.HasParent(k[..n + 1]) && k[..n + 1][..n] == k[..n];
    }
  }

  // ----- Lower case, one character at a time -----

  lemma KeySnoc(word: string, i: nat)
    requires i < |word|
    ensures Key(word[..i + 1]) == Key(word[..i]) + if IsAscii(word[i]) then [ToLower(word[i])] else []
  {
    assert word[..i + 1][..i] == word[..i];
  }

  lemma {:induction false} KeyPrefix(word: string, i: nat)
    requires i <= |word|
    ensures Key(word[..i]) <= Key(word)
    decreases |word| - i
  {
    if i == |word| {
      assert word[..i] == word;
    } else {
      KeyPrefix(word, i + 1);
      KeySnoc(word, i);
    }
  }

  /** Following a child link spells one more letter of the word. */
  lemma Descend(t: Trie, cur: nat, word: string, i: nat)
    requires t.Ok() && cur < |t.nodes| && i < |word| && IsAscii(word[i]) && t.path[cur] == Key(word[..i])
    requires t.nodes[cur].children[ToLower(word[i]) as int] != 0
    ensures var child := t.nodes[cur].children[ToLower(word[i]) as int];
      child < |t.nodes| && t.path[child] == Key(word[..i + 1])
  {
    KeySnoc(word, i);
    assert t.ChildOk(cur, ToLower(word[i]));
  }

  lemma MissingKey(t: Trie, cur: nat, c: char, k: string, n: nat)
    requires t.Ok() && cur < |t.nodes| && IsAscii(c) && t.nodes[cur].children[c as int] == 0
    requires n <= |k| && k[..n] == t.path[cur] + [c]
    ensures k !in t.index
  {
    assert t.ChildOk(cur, c);
    if k in t.index { PrefixIn(t, k, n); }
  }

  /** A missing child link means that the word is not in the trie. */
  lemma Missing(t: Trie, cur: nat, word: string, i: nat)
    requires t.Ok() && cur < |t.nodes| && i < |word| && IsAscii(word[i]) && t.path[cur] == Key(word[..i])
    requires t.nodes[cur].children[ToLower(word[i]) as int] == 0
    ensures Key(word) !in t.index
  {
    KeySnoc(word, i);
    KeyPrefix(word, i + 1);
    MissingKey(t, cur, ToLower(word[i]), Key(word), |Key(word[..i + 1])|);
  }

  /** What a lookup must answer, for the words completed so far. */
  function Answer(table: map<string, POSTag>, word: string): POSTag {
    if AllAscii(word) && Key(word) in table then table[Key(word)] else UNKNOWN
  }

  /** The same letter in upper and lower case, or the same character. */
  predicate SameLetter(c: char, d: char) {
    c == d || ('A' <= c <= 'Z' && d as int == c as int + 32) || ('A' <= d <= 'Z' && c as int == d as int + 32)
  }

  ghost predicate SameUpToCase(v: string, w: string) {
    |v| == |w| && forall i :: 0 <= i < |v| ==> SameLetter(v[i], w[i])
  }

  lemma {:induction false} KeyLetters(word: string)
    requires AllAscii(word)
    ensures |Key(word)| == |word| && forall i :: 0 <= i < |word| ==> Key(word)[i] == ToLower(word[i])
  {
    if word != [] {
      assert word == word[..|word| - 1] + [word[|word| - 1]];
      KeyLetters(word[..|word| - 1]);
    }
  }

  /** Two ASCII words share an entry exactly when they are spelled alike up to
      upper and lower case. */
  lemma SameEntryExactly(v: string, w: string)
    requires AllAscii(v) && AllAscii(w)
    ensures Key(v) == Key(w) <==> SameUpToCase(v, w)
    ensures SameUpToCase(v, w) ==> forall table :: Answer(table, v) == Answer(table, w)
  {
    KeyLetters(v);
    KeyLetters(w);
    if Key(v) == Key(w) {
      forall i | 0 <= i < |v|
        ensures SameLetter(v[i], w[i])
      {
        assert Key(v)[i] == Key(w)[i];
      }
    }
    if SameUpToCase(v, w) {
      assert forall i :: 0 <= i < |v| ==> Key(v)[i] == Key(w)[i];
      assert Key(v) == Key(w);
    }
  }

  /** The plain map that a series of insertions stands for: the last tag wins. */
  function Recorded(table: map<string, POSTag>, entries: seq<(string, POSTag)>): map<string, POSTag> {
    if entries == [] then table
    else
      var (word, tag) := entries[|entries| - 1];
      Recorded(table, entries[..|entries| - 1])[Key(word) := tag]
  }

  /** The entries whose words are in the trie. */
  function Kept(entries: seq<(string, POSTag)>, keys: set<string>): (kept: seq<(string, POSTag)>)
    ensures |kept| <= |entries|
  {
    if entries == [] then []
    else
      var rest := Kept(entries[..|entries| - 1], keys);
      if Key(entries[|entries| - 1].0) in keys then rest + [entries[|entries| - 1]] else rest
  }

  lemma {:induction false} AllKept(entries: seq<(string, POSTag)>, keys: set<string>)
    ensures |Kept(entries, keys)| == |entries| ==> forall i :: 0 <= i < |entries| ==> Key(entries[i].0) in keys
  {
    if entries != [] && |Kept(entries, keys)| == |entries| {
      var before := entries[..|entries| - 1];
      AllKept(before, keys);
      forall i | 0 <= i < |entries|
        ensures Key(entries[i].0) in keys
      {
        if i < |before| { assert Key(before[i].0) in keys; }
      }
    }
  }

  /** While every entry is kept, or no word is new, the entries kept are the same. */
  lemma {:induction false} KeptStays(entries: seq<(string, POSTag)>, keys: set<string>, more: set<string>)
    requires keys <= more && (|Kept(entries, keys)| == |entries| || keys == more)
    ensures Kept(entries, more) == Kept(entries, keys)
  {
    if entries != [] && keys != more {
      AllKept(entries, keys);
      KeptStays(entries[..|entries| - 1], keys, more);
    }
  }

  lemma KeptSnoc(entries: seq<(string, POSTag)>, i: nat, keys: set<string>)
    requires i < |entries|
    ensures Kept(entries[..i + 1], keys) ==
      Kept(entries[..i], keys) + if Key(entries[i].0) in keys then [entries[i]] else []
  {
    assert entries[..i + 1][..i] == entries[..i];
  }

  lemma RecordedSnoc(table: map<string, POSTag>, kept: seq<(string, POSTag)>, entry: (string, POSTag))
    ensures Recorded(table, kept + [entry]) == Recorded(table, kept)[Key(entry.0) := entry.1]
  {
    assert (kept + [entry])[..|kept|] == kept;
  }

  /** No word is lost, and none gained when there is no room. */
  predicate Gained(words: set<string>, more: set<string>, full: bool) {
    words <= more && (full ==> more == words)
  }

  /** What a part of the entries, of which those in `kept` found room, has made of
      the table and of the word count. */
  ghost predicate RecordOf(part: seq<(string, POSTag)>, kept: seq<(string, POSTag)>, full: bool,
                           before: map<string, POSTag>, table: map<string, POSTag>, count: int)
  {
    table == Recorded(before, kept) && count == |kept| && (kept == part || full)
  }

  ghost predicate IsRecord(entries: seq<(string, POSTag)>, i: nat, words: set<string>, full: bool,
                           before: map<string, POSTag>, table: map<string, POSTag>, count: int)
    requires i <= |entries|
  {
    RecordOf(entries[..i], Kept(entries[..i], words), full, before, table, count)
  }

  lemma RecordTaken(part: seq<(string, POSTag)>, kept: seq<(string, POSTag)>, full: bool, full': bool,
                    before: map<string, POSTag>, table: map<string, POSTag>, count: int, entry: (string, POSTag))
    requires RecordOf(part, kept, full, before, table, count) && (full ==> full')
    ensures RecordOf(part + [entry], kept + [entry], full', before, table[Key(entry.0) := entry.1], count + 1)
  {
    RecordedSnoc(before, kept, entry);
  }

  lemma KeptBefore(entries: seq<(string, POSTag)>, words: set<string>, more: set<string>, full: bool)
    requires Gained(words, more, full) && (Kept(entries, words) == entries || full)
    ensures Kept(entries, more) == Kept(entries, words)
  {
    KeptStays(entries, words, more);
  }

  lemma RecordNext(entries: seq<(string, POSTag)>, i: nat, words: set<string>, more: set<string>,
                   full: bool, full': bool, before: map<string, POSTag>,
                   table: map<string, POSTag>, count: int)
    requires i < |entries| && IsRecord(entries, i, words, full, before, table, count)
    requires Gained(words, more, full) && (full ==> full') && (Key(entries[i].0) in more || full')
    ensures if Key(entries[i].0) in more
      then IsRecord(entries, i + 1, more, full', before, table[Key(entries[i].0) := entries[i].1], count + 1)
      else IsRecord(entries, i + 1, more, full', before, table, count)
  {
    var part, kept := entries[..i], Kept(entries[..i], words);
    KeptBefore(part, words, more, full);
    KeptSnoc(entries, i, more);
    if Key(entries[i].0) in more {
      RecordTaken(part, kept, full, full', before, table, count, entries[i]);
      assert entries[..i + 1] == part + [entries[i]];
    } else {
      assert kept + [] == kept;
    }
  }

  lemma AnswerAt(t: Trie, cur: nat, word: string)
    requires t.Ok() && cur < |t.nodes| && t.path[cur] == Key(word) && AllAscii(word)
    ensures Answer(t.Table(), word) == if t.nodes[cur].isTerminal then t.nodes[cur].tag else UNKNOWN
  {
    assert t.index[t.path[cur]] == cur;
  }

  // ----- The lexicon in place -----

  class Lexicon {
    const nodes: array<TrieNode>  // the root, then the pool
    var poolUsed: nat
    var wordCount: nat
    ghost var trie: Trie

    ghost predicate Valid()
      reads this, nodes
    {
      poolUsed < nodes.Length && trie.nodes == nodes[..poolUsed + 1] && trie.Ok()
    }

    ghost function Table(): map<string, POSTag>
      requires Valid()
      reads this, nodes
    {
      trie.Table()
    }

    /** The words that the nodes spell, completed or not. */
    ghost function Words(): set<string>
      reads this
    {
      trie.index.Keys
    }

    constructor (maxNodes: nat)
      ensures Valid() && fresh(nodes) && nodes.Length == maxNodes + 1
      ensures Table() == map[] && poolUsed == 0 && wordCount == 0
    {
      nodes := new TrieNode[maxNodes + 1](_ => Blank());
      poolUsed, wordCount := 0, 0;
      trie := Trie([Blank()], [[]], map[[] := 0]);
    }

    /** `alloc_node`, and the link to the new node from its parent. */
    method Allocate(cur: nat, c: char)
      requires poolUsed + 1 < nodes.Length && trie.nodes == nodes[..poolUsed + 1]
      requires MayGrow(trie, cur, c)
      modifies nodes, this`poolUsed, this`trie
      ensures trie == old(trie).Grow(cur, c) && poolUsed == old(poolUsed) + 1 < nodes.Length
      ensures trie.nodes == nodes[..poolUsed + 1]
    {
      ghost var before := nodes[..poolUsed + 1];
      trie := trie.Grow(cur, c);
      poolUsed := poolUsed + 1;
      nodes[poolUsed] := Blank();
      var parent := nodes[cur];
      assert parent == before[cur];
      nodes[cur] := TrieNode(parent.children[c as int := poolUsed], parent.tag, parent.isTerminal);
    }

    /** The node of the next letter, allocated if need be; 0 when the pool is exhausted. */
    method Follow(cur: nat, word: string, i: nat) returns (child: nat)
      requires Valid() && i < |word| && IsAscii(word[i])
      requires cur < |trie.nodes| && trie.path[cur] == Key(word[..i])
      modifies nodes, this`poolUsed, this`trie
      ensures Valid() && Table() == old(Table()) && poolUsed >= old(poolUsed)
      ensures Gained(old(Words()), Words(), old(poolUsed) + 1 == nodes.Length)
      ensures child != 0 ==> child < |trie.nodes| && trie.path[child] == Key(word[..i + 1])
      ensures child == 0 ==> Key(word) !in trie.index && poolUsed + 1 == nodes.Length
    {
      var c := ToLower(word[i]);
      if nodes[cur].children[c as int] == 0 {
        if poolUsed + 1 >= nodes.Length {
          Missing(trie, cur, word, i);
          return 0;
        }
        GrowOk(trie, cur, c);
        Allocate(cur, c);
      }
      Descend(trie, cur, word, i);
      child := nodes[cur].children[c as int];
    }

    /** Either the word is completed with its tag, replacing an earlier tag, or
        the pool has run out and no lookup changes. When it has run out before,
        the words that can still be completed are those already in the trie. */
    method Insert(word: string, tag: POSTag)
      requires Valid()
      modifies nodes, this
      ensures Valid() && poolUsed >= old(poolUsed)
      ensures Gained(old(Words()), Words(), old(poolUsed) + 1 == nodes.Length)
      ensures if Key(word) in Words()
        then wordCount == old(wordCount) + 1 && Table() == old(Table())[Key(word) := tag]
        else wordCount == old(wordCount) && Table() == old(Table()) && poolUsed + 1 == nodes.Length
    {
      var cur: nat := 0;
      for i := 0 to |word|
        invariant Valid() && Table() == old(Table()) && wordCount == old(wordCount) && poolUsed >= old(poolUsed)
        invariant Gained(old(Words()), Words(), old(poolUsed) + 1 == nodes.Length)
        invariant cur < |trie.nodes| && trie.path[cur] == Key(word[..i])
      {
        KeySnoc(word, i);
        if !IsAscii(word[i]) { continue; }
        var child := Follow(cur, word, i);
        if child == 0 { return; }
        cur := child;
      }
      assert word[..|word|] == word;
      Complete(cur, tag);
      wordCount := wordCount + 1;
    }

    /** A word list, as in `bootstrap_core` and `load_dictionary`. Lookups afterwards
        agree with the plain map of the entries whose words have found room; that
        is all of them unless the pool has run out. */
    method InsertAll(entries: seq<(string, POSTag)>)
      requires Valid()
      modifies nodes, this
      ensures Valid() && Table() == Recorded(old(Table()), Kept(entries, Words()))
      ensures wordCount == old(wordCount) + |Kept(entries, Words())|
      ensures Kept(entries, Words()) == entries || poolUsed + 1 == nodes.Length
    {
      for i := 0 to |entries|
        invariant Valid() && IsRecord(entries, i, Words(), poolUsed + 1 == nodes.Length,
                                      old(Table()), Table(), wordCount - old(wordCount))
      {
        ghost var words, full, table, count := Words(), poolUsed + 1 == nodes.Length, Table(), wordCount - old(wordCount);
        Insert(entries[i].0, entries[i].1);
        RecordNext(entries, i, words, Words(), full, poolUsed + 1 == nodes.Length,
                   old(Table()), table, count);
      }
      assert entries[..|entries|] == entries;
    }

    method Complete(cur: nat, tag: POSTag)
      requires Valid() && cur < |trie.nodes|
      modifies nodes, this`trie
      ensures Valid() && Table() == old(Table())[old(trie.path[cur]) := tag]
      ensures Words() == old(Words()) && old(trie.path[cur]) in Words()
    {
      MarkOk(trie, cur, tag);
      trie := trie.Mark(cur, tag);
      nodes[cur] := TrieNode(nodes[cur].children, tag, true);
    }

    method Lookup(word: string) returns (tag: POSTag)
      requires Valid()
      ensures tag == Answer(Table(), word)
    {
      var cur: nat := 0;
      for i := 0 to |word|
        invariant Valid() && cur < |trie.nodes| && trie.path[cur] == Key(word[..i])
        invariant AllAscii(word[..i])
      {
        if !IsAscii(word[i]) {
          assert word[i] in word;
          return UNKNOWN;
        }
        var c := ToLower(word[i]);
        if nodes[cur].children[c as int] == 0 {
          Missing(trie, cur, word, i);
          return UNKNOWN;
        }
        Descend(trie, cur, word, i);
        cur := nodes[cur].children[c as int];
        assert word[..i + 1] == word[..i] + [word[i]];
      }
      assert word[..|word|] == word;
      AnswerAt(trie, cur, word);
      tag := if nodes[cur].isTerminal then nodes[cur].tag else UNKNOWN;
    }
  }
}
