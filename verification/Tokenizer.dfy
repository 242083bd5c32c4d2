/** Splitting a sentence into tagged tokens. */
module Tokenizer {
  import opened Words

  datatype Token = Token(text: string, tag: POSTag, clusterId: int)

  /** What may stand inside a word. */
  predicate InWord(c: char) {
    IsAlnum(c) || c == '_' || c == '\'' || c == '-'
  }

  // ----- The tokens of a sentence -----

  function SkipSpace(s: string): (r: string)
    ensures |r| <= |s| && (r != [] ==> !IsSpace(r[0]))
  {
    if s != [] && IsSpace(s[0]) then SkipSpace(s[1..]) else s
  }

  /** How many word characters s starts with, counting no further than room. */
  function WordLength(s: string, room: nat): (n: nat)
    ensures n <= |s| && n <= room
    ensures forall i :: 0 <= i < n ==> InWord(s[i])
    ensures n < |s| && n < room ==> !InWord(s[n])
  {
    if s != [] && room > 0 && InWord(s[0]) then 1 + WordLength(s[1..], room - 1) else 0
  }

  /** The first token: a word of at most `room` characters, or a single character. */
  function First(s: string, room: nat): (t: string)
    requires s != [] && 0 < room
    ensures 0 < |t| <= |s| && t == s[..|t|]
  {
    s[..if InWord(s[0]) then WordLength(s, room) else 1]
  }

  function Texts(s: string, max: nat, room: nat): (ts: seq<string>)
    requires 0 < room
    decreases max
  {
    var r := SkipSpace(s);
    if max == 0 || r == [] then []
    else var t := First(r, room); [t] + Texts(r[|t|..], max - 1, room)
  }

  /** What is left when the token limit is reached. */
  function Rest(s: string, max: nat, room: nat): string
    requires 0 < room
    decreases max
  {
    var r := SkipSpace(s);
    if max == 0 then s
    else if r == [] then []
    else Rest(r[|First(r, room)|..], max - 1, room)
  }

  function Tagged(text: string, lexicon: string -> POSTag): Token {
    Token(text, if text != [] && InWord(text[0]) then lexicon(text) else PUNCT, -1)
  }

  function TagAll(ts: seq<string>, lexicon: string -> POSTag): (r: seq<Token>)
    ensures |r| == |ts| && forall i :: 0 <= i < |r| ==> r[i] == Tagged(ts[i], lexicon)
  {
    seq(|ts|, i requires 0 <= i < |ts| => Tagged(ts[i], lexicon))
  }

  // ----- Nothing is lost -----

  function NoSpaces(s: string): string {
    if s == [] then [] else (if IsSpace(s[0]) then [] else [s[0]]) + NoSpaces(s[1..])
  }

  function Concat(ts: seq<string>): string {
    if ts == [] then [] else ts[0] + Concat(ts[1..])
  }

  lemma {:induction false} NoSpacesAppend(s: string, t: string)
    ensures NoSpaces(s + t) == NoSpaces(s) + NoSpaces(t)
  {
    if s == [] {
      assert s + t == t;
    } else {
      assert (s + t)[1..] == s[1..] + t;
      NoSpacesAppend(s[1..], t);
    }
  }

  lemma {:induction false} NoSpacesSkip(s: string)
    ensures NoSpaces(SkipSpace(s)) == NoSpaces(s)
  {
    if s != [] && IsSpace(s[0]) { NoSpacesSkip(s[1..]); }
  }

  lemma {:induction false} NoSpacesSame(s: string)
    requires forall i :: 0 <= i < |s| ==> !IsSpace(s[i])
    ensures NoSpaces(s) == s
  {
    if s != [] { NoSpacesSame(s[1..]); }
  }

  lemma FirstIsKept(s: string, room: nat)
    requires s != [] && 0 < room && !IsSpace(s[0])
    ensures var t := First(s, room);
      NoSpaces(s) == t + NoSpaces(s[|t|..])
  {
    var t := First(s, room);
    assert s == t + s[|t|..];
    NoSpacesAppend(t, s[|t|..]);
    NoSpacesSame(t);
  }

  /** The texts, put together, are the consumed part of the sentence without its
      white space: whatever is missing from them is in what is left over. */
  lemma {:induction false} NothingLost(s: string, max: nat, room: nat)
    requires 0 < room
    ensures NoSpaces(s) == Concat(Texts(s, max, room)) + NoSpaces(Rest(s, max, room))
    decreases max
  {
    var r := SkipSpace(s);
    NoSpacesSkip(s);
    if max == 0 || r == [] {
    } else {
      var t := First(r, room);
      NothingLost(r[|t|..], max - 1, room);
      FirstIsKept(r, room);
      var ts, rest := Texts(r[|t|..], max - 1, room), Rest(s, max, room);
      assert ([t] + ts)[1..] == ts;
      assert t + (Concat(ts) + NoSpaces(rest)) == (t + Concat(ts)) + NoSpaces(rest);
    }
  }

  /** Only a full token array leaves anything over. */
  lemma {:induction false} LeftOverOnlyWhenFull(s: string, max: nat, room: nat)
    requires 0 < room
    ensures |Texts(s, max, room)| <= max
    ensures |Texts(s, max, room)| < max ==> Rest(s, max, room) == []
    decreases max
  {
    var r := SkipSpace(s);
    if max > 0 && r != [] { LeftOverOnlyWhenFull(r[|First(r, room)|..], max - 1, room); }
  }

  // ----- Tokenizing again -----

  function Join(ts: seq<string>): string {
    if ts == [] then [] else if |ts| == 1 then ts[0] else ts[0] + [' '] + Join(ts[1..])
  }

  /** A text that the tokenizer can produce: one whole word, or one other character. */
  predicate IsToken(t: string, room: nat) {
    && t != [] && !IsSpace(t[0]) && |t| <= room
    && (if InWord(t[0]) then forall i :: 0 <= i < |t| ==> InWord(t[i]) else |t| == 1)
  }

  lemma {:induction false} TextsAreTokens(s: string, max: nat, room: nat)
    requires 0 < room
    ensures forall i :: 0 <= i < |Texts(s, max, room)| ==> IsToken(Texts(s, max, room)[i], room)
    decreases max
  {
    var r := SkipSpace(s);
    if max > 0 && r != [] {
      TextsAreTokens(r[|First(r, room)|..], max - 1, room);
    }
  }

  lemma {:induction false} WordLengthOf(t: string, rest: string, room: nat)
    requires |t| <= room && (forall i :: 0 <= i < |t| ==> InWord(t[i]))
    requires rest == [] || !InWord(rest[0])
    ensures WordLength(t + rest, room) == |t|
  {
    if t != [] {
      assert (t + rest)[1..] == t[1..] + rest;
      WordLengthOf(t[1..], rest, room - 1);
    } else {
      assert t + rest == rest;
    }
  }

  lemma FirstOfToken(t: string, rest: string, room: nat)
    requires IsToken(t, room) && (rest == [] || IsSpace(rest[0]))
    ensures First(t + rest, room) == t && SkipSpace(t + rest) == t + rest
  {
    if InWord(t[0]) { WordLengthOf(t, rest, room); }
    assert (t + rest)[..|t|] == t;
  }

  /** The tokens, joined by single spaces, are tokenized into themselves. */
  lemma {:induction false} TokenizeAgain(ts: seq<string>, max: nat, room: nat)
    requires 0 < room && |ts| <= max && forall i :: 0 <= i < |ts| ==> IsToken(ts[i], room)
    ensures Texts(Join(ts), max, room) == ts
  {
    if ts == [] {
    } else if |ts| == 1 {
      FirstOfToken(ts[0], [], room);
      assert ts[0] + [] == ts[0];
      assert ts[0][|ts[0]|..] == [];
      assert Texts([], max - 1, room) == [];
    } else {
      var t, more := ts[0], [' '] + Join(ts[1..]);
      assert Join(ts) == t + more;
      FirstOfToken(t, more, room);
      assert (t + more)[|t|..] == more;
      TokenizeAgain(ts[1..], max - 1, room);
      SpaceSkipped(Join(ts[1..]), max - 1, room);
    }
  }

  lemma SpaceSkipped(s: string, max: nat, room: nat)
    requires 0 < room
    ensures Texts([' '] + s, max, room) == Texts(s, max, room)
  {
    assert ([' '] + s)[1..] == s;
  }

  /** Texts and tags are a fixpoint of tokenizing. */
  lemma TokensAreStable(s: string, max: nat, room: nat, lexicon: string -> POSTag)
    requires 0 < room
    ensures var ts := Texts(s, max, room);
      TagAll(Texts(Join(ts), max, room), lexicon) == TagAll(ts, lexicon)
  {
    TextsAreTokens(s, max, room);
    LeftOverOnlyWhenFull(s, max, room);
    TokenizeAgain(Texts(s, max, room), max, room);
  }

  // ----- The tokenizer in place -----

  /** After `done`, what the rest of the sentence gives completes `all`. */
  ghost predicate Underway(s: string, i: nat, left: nat, room: nat, done: seq<string>, all: seq<string>) {
    0 < room && i <= |s| && done + Texts(s[i..], left, room) == all
  }

  lemma TokenTaken(s: string, i: nat, j: nat, left: nat, room: nat, done: seq<string>, all: seq<string>)
    requires 0 < left && Underway(s, i, left, room, done, all)
    requires j < |s| && s[j..] == SkipSpace(s[i..])
    ensures var t := First(s[j..], room);
      Underway(s, j + |t|, left - 1, room, done + [t], all)
  {
    var r := s[j..];
    var t := First(r, room);
    assert r[|t|..] == s[j + |t|..];
    var more := Texts(r[|t|..], left - 1, room);
    assert Texts(s[i..], left, room) == [t] + more;
    assert done + ([t] + more) == (done + [t]) + more;
  }

  lemma NothingTaken(s: string, left: nat, room: nat)
    requires 0 < room
    ensures Underway(s, 0, left, room, [], Texts(s, left, room))
  {
    assert s[0..] == s;
  }

  lemma AllTaken(s: string, i: nat, left: nat, room: nat, done: seq<string>, all: seq<string>)
    requires Underway(s, i, left, room, done, all)
    requires left == 0 || i == |s| || SkipSpace(s[i..]) == []
    ensures done == all
  {
    assert i == |s| ==> s[i..] == [];
    assert Texts(s[i..], left, room) == [];
  }

  lemma TagMore(done: seq<string>, t: string, lexicon: string -> POSTag)
    ensures TagAll(done + [t], lexicon) == TagAll(done, lexicon) + [Tagged(t, lexicon)]
  {
  }

  /** Stores the token that starts at j, the first place after i that is not white space. */
  method TakeToken(sentence: string, j: nat, lexicon: string -> POSTag, room: nat, out: array<Token>, count: nat,
                   ghost i: nat, ghost done: seq<string>, ghost all: seq<string>) returns (text: string)
    requires count < out.Length && j < |sentence|
    requires Underway(sentence, i, out.Length - count, room, done, all)
    requires sentence[j..] == SkipSpace(sentence[i..])
    requires out[..count] == TagAll(done, lexicon)
    modifies out
    ensures text != []
    ensures Underway(sentence, j + |text|, out.Length - count - 1, room, done + [text], all)
    ensures out[..count + 1] == TagAll(done + [text], lexicon)
  {
    text := TokenAt(sentence, j, room);
    TokenTaken(sentence, i, j, out.Length - count, room, done, all);
    StoreToken(text, lexicon, out, count, done);
  }

  method StoreToken(text: string, lexicon: string -> POSTag, out: array<Token>, count: nat, ghost done: seq<string>)
    requires count < out.Length && text != [] && out[..count] == TagAll(done, lexicon)
    modifies out
    ensures out[..count + 1] == TagAll(done + [text], lexicon)
  {
    out[count] := Token(text, if InWord(text[0]) then lexicon(text) else PUNCT, -1);
    TagMore(done, text, lexicon);
    assert out[..count + 1] == out[..count] + [Tagged(text, lexicon)];
  }

  /** Fills `out` with at most as many tokens as it has room for. */
  method Tokenize(sentence: string, lexicon: string -> POSTag, room: nat, out: array<Token>) returns (count: nat)
    requires 0 < room
    modifies out
    ensures count <= out.Length
    ensures out[..count] == TagAll(Texts(sentence, out.Length, room), lexicon)
  {
    count := 0;
    var i, len := 0, |sentence|;
    ghost var all := Texts(sentence, out.Length, room);
    ghost var done: seq<string> := [];
    NothingTaken(sentence, out.Length, room);
    while i < len && count < out.Length
      invariant i <= len && count <= out.Length
      invariant Underway(sentence, i, out.Length - count, room, done, all)
      invariant out[..count] == TagAll(done, lexicon)
      decreases len - i
    {
      var j := SkipFrom(sentence, i);
      if j >= len {
        AllTaken(sentence, i, out.Length - count, room, done, all);
        return;
      }
      var text := TakeToken(sentence, j, lexicon, room, out, count, i, done, all);
      done := done + [text];
      count := count + 1;
      i := j + |text|;
    }
    AllTaken(sentence, i, out.Length - count, room, done, all);
  }

  method SkipFrom(sentence: string, i0: nat) returns (i: nat)
    requires i0 <= |sentence|
    ensures i0 <= i <= |sentence| && sentence[i..] == SkipSpace(sentence[i0..])
  {
    i := i0;
    while i < |sentence| && IsSpace(sentence[i])
      invariant i0 <= i <= |sentence| && SkipSpace(sentence[i..]) == SkipSpace(sentence[i0..])
    {
      assert sentence[i..][1..] == sentence[i + 1..];
      i := i + 1;
    }
  }

  /** How many word characters stand at i, room at most. */
  method WordAt(sentence: string, i: nat, room: nat) returns (ws: nat)
    requires i <= |sentence|
    ensures ws == WordLength(sentence[i..], room)
  {
    ws := 0;
    while i + ws < |sentence| && ws < room
      invariant i + ws <= |sentence| && ws <= room
      invariant WordLength(sentence[i..], room) == ws + WordLength(sentence[i + ws..], room - ws)
    {
      var c := sentence[i + ws];
      if IsSpace(c) || !InWord(c) { break; }
      assert sentence[i + ws..][1..] == sentence[i + ws + 1..];
      ws := ws + 1;
    }
  }

  /** The text of the token that starts at i. */
  method TokenAt(sentence: string, i: nat, room: nat) returns (text: string)
    requires i < |sentence| && !IsSpace(sentence[i]) && 0 < room
    ensures text == First(sentence[i..], room)
  {
    var c0 := sentence[i];
    assert sentence[i..][..1] == [c0];
    if IsPunct(c0) && c0 != '\'' && c0 != '-' && c0 != '_' { return [c0]; }
    var ws := WordAt(sentence, i, room);
    if ws == 0 { return [c0]; }
    text := sentence[i..][..ws];
  }
}
