/** Part-of-speech tags and the character classes of the "C" locale. */
module Words {

  datatype POSTag = UNKNOWN | NOUN | VERB | ADJ | DET | PREP | ADV | PRON | CONJ | PUNCT | AUX | CODE | IDENTIFIER

  predicate IsAscii(c: char) {
    c < 128 as char
  }

  function ToLower(c: char): (l: char)
    ensures IsAscii(c) <==> IsAscii(l)
  {
    if 'A' <= c <= 'Z' then (c as int + 32) as char else c
  }

  /** What insertion makes of a word: lower case, without the characters outside ASCII. */
  function Key(word: string): (k: string)
    ensures forall c :: c in k ==> IsAscii(c)
  {
    if word == [] then []
    else Key(word[..|word| - 1]) + if IsAscii(word[|word| - 1]) then [ToLower(word[|word| - 1])] else []
  }

  predicate AllAscii(word: string) {
    forall c :: c in word ==> IsAscii(c)
  }

  // ----- Character classes: pairwise disjoint -----

  predicate IsSpace(c: char) {
    c == ' ' || 9 as char <= c <= 13 as char
  }

  predicate IsAlnum(c: char) {
    '0' <= c <= '9' || 'A' <= c <= 'Z' || 'a' <= c <= 'z'
  }

  predicate IsPunct(c: char) {
    '!' <= c <= '~' && !IsAlnum(c)
  }
}
