/** The bounded edit distance of the lexer: its matrix loop, the recursive
    distance it computes, and what that distance means in single edits. */
module Levenshtein {

  function Min3(x: nat, y: nat, z: nat): nat {
    if x <= y && x <= z then x else if y <= z then y else z
  }

  function Cost(c: char, d: char): nat {
    if c == d then 0 else 1
  }

  /** The recursive distance. */
  function Dist(a: string, b: string): nat
    decreases |a| + |b|
  {
    if a == [] then |b|
    else if b == [] then |a|
    else
      var a', b' := a[..|a| - 1], b[..|b| - 1];
      Min3(Dist(a', b) + 1, Dist(a, b') + 1, Dist(a', b') + Cost(a[|a| - 1], b[|b| - 1]))
  }

  // ----- The matrix loop -----

  const FAR: nat := 99

  function Gap(m: nat, n: nat): nat {
    if m <= n then n - m else m - n
  }

  /** The answer for two words: FAR for words of very different length, unseen. */
  function Answered(a: string, b: string): nat {
    if Gap(|a|, |b|) > 2 then FAR else Dist(a, b)
  }

  /** Fills the matrix, in which words of similar length must fit. */
  method LevenshteinDist(a: string, b: string, dp: array2<nat>) returns (d: nat)
    requires Gap(|a|, |b|) <= 2 ==> |a| < dp.Length0 && |b| < dp.Length1
    modifies dp
    ensures d == Answered(a, b)
  {
    var la, lb := |a|, |b|;
    if Gap(la, lb) > 2 { return FAR; }
    for i := 0 to la + 1
      invariant forall k :: 0 <= k < i ==> dp[k, 0] == k
    {
      dp[i, 0] := i;
    }
    for j := 0 to lb + 1
      invariant forall k :: 0 <= k <= la ==> dp[k, 0] == k
      invariant forall k :: 0 <= k < j ==> dp[0, k] == k
    {
      dp[0, j] := j;
    }
    for i := 1 to la + 1
      invariant forall k :: 0 <= k <= la ==> dp[k, 0] == k
      invariant RowsDone(a, b, dp, i)
    {
      FillRow(a, b, dp, i);
    }
    assert a[..la] == a && b[..lb] == b;
    d := dp[la, lb];
  }

  ghost predicate RowsDone(a: string, b: string, dp: array2<nat>, rows: nat)
    requires |a| < dp.Length0 && |b| < dp.Length1
    reads dp
  {
    forall k, l :: 0 <= k < rows && k <= |a| && 0 <= l <= |b| ==> dp[k, l] == Dist(a[..k], b[..l])
  }

  method FillRow(a: string, b: string, dp: array2<nat>, i: nat)
    requires 0 < i <= |a| < dp.Length0 && |b| < dp.Length1
    requires RowsDone(a, b, dp, i) && forall k :: 0 <= k <= |a| ==> dp[k, 0] == k
    modifies dp
    ensures RowsDone(a, b, dp, i + 1) && forall k :: 0 <= k <= |a| ==> dp[k, 0] == k
  {
    for j := 1 to |b| + 1
      invariant forall k :: 0 <= k <= |a| ==> dp[k, 0] == k
      invariant RowsDone(a, b, dp, i)
      invariant forall l :: 0 <= l < j ==> dp[i, l] == Dist(a[..i], b[..l])
    {
      var least := CellOf(a, b, i, j, dp[i - 1, j], dp[i, j - 1], dp[i - 1, j - 1]);
      dp[i, j] := least;
    }
  }

  method CellOf(a: string, b: string, i: nat, j: nat, up: nat, left: nat, diagonal: nat) returns (least: nat)
    requires 0 < i <= |a| && 0 < j <= |b|
    requires up == Dist(a[..i - 1], b[..j]) && left == Dist(a[..i], b[..j - 1])
    requires diagonal == Dist(a[..i - 1], b[..j - 1])
    ensures least == Dist(a[..i], b[..j])
  {
    var cost := if a[i - 1] == b[j - 1] then 0 else 1;
    DistAt(a, b, i, j);
    least := Min3(up + 1, left + 1, diagonal + cost);
  }

  lemma DistAt(a: string, b: string, i: nat, j: nat)
    requires 0 < i <= |a| && 0 < j <= |b|
    ensures Dist(a[..i], b[..j]) ==
      Min3(Dist(a[..i - 1], b[..j]) + 1, Dist(a[..i], b[..j - 1]) + 1,
           Dist(a[..i - 1], b[..j - 1]) + Cost(a[i - 1], b[j - 1]))
  {
    assert a[..i][..i - 1] == a[..i - 1] && b[..j][..j - 1] == b[..j - 1];
  }

  // ----- Single edits -----

  /** b is a with one character inserted at i. */
  predicate InsertedAt(a: string, b: string, i: nat) {
    i <= |a| && |b| == |a| + 1 && b[..i] == a[..i] && b[i + 1..] == a[i..]
  }

  /** b is a with the character at i replaced. */
  predicate ReplacedAt(a: string, b: string, i: nat) {
    i < |a| == |b| && b[..i] == a[..i] && b[i + 1..] == a[i + 1..]
  }

  /** One insertion, deletion or substitution turns a into b. */
  ghost predicate OneEdit(a: string, b: string) {
    exists i: nat :: InsertedAt(a, b, i) || InsertedAt(b, a, i) || ReplacedAt(a, b, i)
  }

  /** k single edits turn a into b. */
  ghost predicate Edits(a: string, b: string, k: nat)
    decreases k
  {
    if k == 0 then a == b
    else exists m: string :: Edits(a, m, k - 1) && OneEdit(m, b)
  }

  // ----- The distance is reached by edits -----

  lemma {:induction false} EditsConcat(a: string, b: string, c: string, k: nat, l: nat)
    requires Edits(a, b, k) && Edits(b, c, l)
    ensures Edits(a, c, k + l)
    decreases l
  {
    if l > 0 {
      var m: string :| Edits(b, m, l - 1) && OneEdit(m, c);
      EditsConcat(a, b, m, k, l - 1);
    }
  }

  lemma OneEditIsEdits(a: string, b: string)
    requires OneEdit(a, b)
    ensures Edits(a, b, 1)
  {
    assert Edits(a, a, 0);
  }

  lemma SnocEdits(a: string, b: string, c: char)
    ensures OneEdit(a, a + [c]) && OneEdit(a + [c], a)
    ensures forall d: char :: OneEdit(a + [c], a + [d])
  {
    assert InsertedAt(a, a + [c], |a|);
    forall d: char
      ensures OneEdit(a + [c], a + [d])
    {
      assert ReplacedAt(a + [c], a + [d], |a|);
    }
  }

  /** An edit can be made in front of a common last character. */
  lemma OneEditSnoc(a: string, b: string, c: char)
    requires OneEdit(a, b)
    ensures OneEdit(a + [c], b + [c])
  {
    var i: nat :| InsertedAt(a, b, i) || InsertedAt(b, a, i) || ReplacedAt(a, b, i);
    if InsertedAt(a, b, i) {
      assert InsertedAt(a + [c], b + [c], i);
    } else if InsertedAt(b, a, i) {
      assert InsertedAt(b + [c], a + [c], i);
    } else {
      assert ReplacedAt(a + [c], b + [c], i);
    }
  }

  lemma {:induction false} EditsSnoc(a: string, b: string, c: char, k: nat)
    requires Edits(a, b, k)
    ensures Edits(a + [c], b + [c], k)
    decreases k
  {
    if k > 0 {
      var m: string :| Edits(a, m, k - 1) && OneEdit(m, b);
      EditsSnoc(a, m, c, k - 1);
      OneEditSnoc(m, b, c);
    }
  }

  lemma {:induction false} EraseAll(a: string)
    ensures Edits(a, [], |a|) && Edits([], a, |a|)
  {
    if a != [] {
      var a', c := a[..|a| - 1], a[|a| - 1];
      EraseAll(a');
      SnocEdits(a', [], c);
      assert a == a' + [c];
      OneEditIsEdits(a, a');
      EditsConcat(a, a', [], 1, |a'|);
    }
  }

  lemma ReachedByDeletion(a: string, b: string, c: char, k: nat)
    requires Edits(a, b, k)
    ensures Edits(a + [c], b, k + 1)
  {
    SnocEdits(a, [], c);
    OneEditIsEdits(a + [c], a);
    EditsConcat(a + [c], a, b, 1, k);
  }

  lemma ReachedByInsertion(a: string, b: string, c: char, k: nat)
    requires Edits(a, b, k)
    ensures Edits(a, b + [c], k + 1)
  {
    SnocEdits(b, [], c);
  }

  lemma ReachedByReplacement(a: string, b: string, c: char, d: char, k: nat)
    requires Edits(a, b, k)
    ensures Edits(a + [c], b + [d], k + Cost(c, d))
  {
    EditsSnoc(a, b, c, k);
    if c != d { SnocEdits(b, [], c); }
  }

  lemma LeastReached(a: string, b: string, x: nat, y: nat, z: nat)
    requires Edits(a, b, x) && Edits(a, b, y) && Edits(a, b, z)
    ensures Edits(a, b, Min3(x, y, z))
  {
  }

  lemma DistOfSnoc(a: string, b: string, c: char, d: char)
    ensures Dist(a + [c], b + [d]) ==
      Min3(Dist(a, b + [d]) + 1, Dist(a + [c], b) + 1, Dist(a, b) + Cost(c, d))
  {
    assert (a + [c])[..|a|] == a && (b + [d])[..|b|] == b;
  }

  lemma {:induction false} DistReached(a: string, b: string)
    ensures Edits(a, b, Dist(a, b))
    decreases |a| + |b|, 1
  {
    if a == [] {
      EraseAll(b);
    } else if b == [] {
      EraseAll(a);
    } else {
      var a', b' := a[..|a| - 1], b[..|b| - 1];
      assert a == a' + [a[|a| - 1]] && b == b' + [b[|b| - 1]];
      SnocReached(a', b', a[|a| - 1], b[|b| - 1], Dist(a, b));
    }
  }

  lemma {:induction false} SnocReached(a: string, b: string, c: char, d: char, k: nat)
    requires k == Dist(a + [c], b + [d])
    ensures Edits(a + [c], b + [d], k)
    decreases |a| + |b| + 2, 0
  {
    var x, y, z := Dist(a, b + [d]), Dist(a + [c], b), Dist(a, b);
    DistOfSnoc(a, b, c, d);
    DistReached(a, b + [d]);
    DistReached(a + [c], b);
    DistReached(a, b);
    ReachedBySnoc(a, b, c, d, x, y, z, k);
  }

  lemma ReachedBySnoc(a: string, b: string, c: char, d: char, x: nat, y: nat, z: nat, k: nat)
    requires Edits(a, b + [d], x) && Edits(a + [c], b, y) && Edits(a, b, z)
    requires k == Min3(x + 1, y + 1, z + Cost(c, d))
    ensures Edits(a + [c], b + [d], k)
  {
    ReachedByDeletion(a, b + [d], c, x);
    ReachedByInsertion(a + [c], b, d, y);
    ReachedByReplacement(a, b, c, d, z);
    LeastReached(a + [c], b + [d], x + 1, y + 1, z + Cost(c, d));
  }

  // ----- No fewer edits reach it -----

  lemma DistSnoc(a: string, x: string, c: char)
    requires a != []
    ensures var a' := a[..|a| - 1];
      Dist(a, x + [c]) == Min3(Dist(a', x + [c]) + 1, Dist(a, x) + 1, Dist(a', x) + Cost(a[|a| - 1], c))
  {
    var y := x + [c];
    assert y[..|y| - 1] == x && y[|y| - 1] == c;
  }

  /** A prefix of the left word is at most one step further. */
  lemma DistDrop(a: string, x: string)
    requires a != []
    ensures Dist(a, x) <= Dist(a[..|a| - 1], x) + 1
  {
  }

  lemma {:induction false} LastCharacter(a: string, x: string, c: char, d: char)
    ensures Dist(a, x + [c]) <= Dist(a, x) + 1
    ensures Dist(a, x) <= Dist(a, x + [c]) + 1
    ensures Dist(a, x + [d]) <= Dist(a, x + [c]) + 1
    decreases |a|
  {
    if a != [] {
      DistSnoc(a, x, c);
      DistSnoc(a, x, d);
      LastCharacter(a[..|a| - 1], x, c, d);
      DistDrop(a, x);
    }
  }

  /** If v is never more than one further away than u, then so is v + y than u + y. */
  lemma {:induction false} CommonSuffix(a: string, u: string, v: string, y: string)
    requires forall w: string :: Dist(w, v) <= Dist(w, u) + 1
    ensures Dist(a, v + y) <= Dist(a, u + y) + 1
    decreases |y|, |a|
  {
    if y == [] {
      assert u + y == u && v + y == v;
    } else {
      var y', l := y[..|y| - 1], y[|y| - 1];
      assert u + y == (u + y') + [l] && v + y == (v + y') + [l];
      CommonSuffix(a, u, v, y');
      if a != [] {
        DistSnoc(a, u + y', l);
        DistSnoc(a, v + y', l);
        CommonSuffix(a[..|a| - 1], u, v, y);
        CommonSuffix(a[..|a| - 1], u, v, y');
      } else {
        assert Dist([], v) <= Dist([], u) + 1;
      }
    }
  }

  /** One edit changes the distance to any word by at most one. */
  lemma OneEditCost(w: string, a: string, b: string)
    requires OneEdit(a, b)
    ensures Dist(w, b) <= Dist(w, a) + 1
  {
    var i: nat :| InsertedAt(a, b, i) || InsertedAt(b, a, i) || ReplacedAt(a, b, i);
    if InsertedAt(a, b, i) {
      InsertionCost(w, a, b, i);
    } else if InsertedAt(b, a, i) {
      DeletionCost(w, a, b, i);
    } else {
      ReplacementCost(w, a, b, i);
    }
  }

  lemma InsertionCost(w: string, a: string, b: string, i: nat)
    requires InsertedAt(a, b, i)
    ensures Dist(w, b) <= Dist(w, a) + 1
  {
    EditCostAt(w, a[..i], a[..i] + [b[i]], a[i..], b[i], b[i], a, b);
  }

  lemma DeletionCost(w: string, a: string, b: string, i: nat)
    requires InsertedAt(b, a, i)
    ensures Dist(w, b) <= Dist(w, a) + 1
  {
    EditCostAt(w, b[..i] + [a[i]], b[..i], b[i..], a[i], a[i], a, b);
  }

  lemma ReplacementCost(w: string, a: string, b: string, i: nat)
    requires ReplacedAt(a, b, i)
    ensures Dist(w, b) <= Dist(w, a) + 1
  {
    EditCostAt(w, a[..i] + [a[i]], a[..i] + [b[i]], a[i + 1..], a[i], b[i], a, b);
  }

  lemma EditCostAt(w: string, u: string, v: string, y: string, c: char, d: char, a: string, b: string)
    requires a == u + y && b == v + y
    requires v == u + [c] || u == v + [c] || (|u| > 0 && u == u[..|u| - 1] + [c] && v == u[..|u| - 1] + [d])
    ensures Dist(w, b) <= Dist(w, a) + 1
  {
    forall w: string
      ensures Dist(w, v) <= Dist(w, u) + 1
    {
      if v == u + [c] {
        LastCharacter(w, u, c, c);
      } else if u == v + [c] {
        LastCharacter(w, v, c, c);
      } else {
        LastCharacter(w, u[..|u| - 1], c, d);
      }
    }
    CommonSuffix(w, u, v, y);
  }

  lemma {:induction false} DistSelf(a: string)
    ensures Dist(a, a) == 0
  {
    if a != [] { DistSelf(a[..|a| - 1]); }
  }

  lemma {:induction false} EditsCost(a: string, b: string, k: nat)
    requires Edits(a, b, k)
    ensures Dist(a, b) <= k
    decreases k
  {
    if k == 0 {
      DistSelf(a);
    } else {
      var m: string :| Edits(a, m, k - 1) && OneEdit(m, b);
      EditsCost(a, m, k - 1);
      OneEditCost(a, m, b);
    }
  }

  // ----- What the distance means -----

  /** The distance is the least number of single edits. */
  lemma DistIsLeast(a: string, b: string)
    ensures Edits(a, b, Dist(a, b))
    ensures forall k: nat :: Edits(a, b, k) ==> Dist(a, b) <= k
  {
    DistReached(a, b);
    forall k: nat | Edits(a, b, k)
      ensures Dist(a, b) <= k
    {
      EditsCost(a, b, k);
    }
  }

  /** Distance 1: different words, one edit apart. */
  lemma DistOne(a: string, b: string)
    ensures Dist(a, b) == 1 <==> a != b && OneEdit(a, b)
  {
    DistReached(a, b);
    if Dist(a, b) == 1 {
      DistSelf(a);
      var m: string :| Edits(a, m, 0) && OneEdit(m, b);
    }
    if a != b && OneEdit(a, b) {
      OneEditIsEdits(a, b);
      EditsCost(a, b, 1);
    }
  }

  lemma {:induction false} DistSymmetric(a: string, b: string)
    ensures Dist(a, b) == Dist(b, a)
    decreases |a| + |b|
  {
    if a != [] && b != [] {
      var a', b' := a[..|a| - 1], b[..|b| - 1];
      DistSymmetric(a', b);
      DistSymmetric(a, b');
      DistSymmetric(a', b');
    }
  }

  lemma DistTriangle(a: string, b: string, c: string)
    ensures Dist(a, c) <= Dist(a, b) + Dist(b, c)
  {
    DistReached(a, b);
    DistReached(b, c);
    EditsConcat(a, b, c, Dist(a, b), Dist(b, c));
    EditsCost(a, c, Dist(a, b) + Dist(b, c));
  }

  lemma {:induction false} DistAtLeastGap(a: string, b: string)
    ensures Gap(|a|, |b|) <= Dist(a, b)
    decreases |a| + |b|
  {
    if a != [] && b != [] {
      var a', b' := a[..|a| - 1], b[..|b| - 1];
      DistAtLeastGap(a', b);
      DistAtLeastGap(a, b');
      DistAtLeastGap(a', b');
    }
  }

  /** The early answer is given only to words more than two edits apart. */
  lemma FarMeansFar(a: string, b: string)
    requires Gap(|a|, |b|) > 2
    ensures Dist(a, b) > 2 && forall k: nat :: k <= 2 ==> !Edits(a, b, k)
  {
    DistAtLeastGap(a, b);
    DistIsLeast(a, b);
  }

  // ----- The answered value as a distance -----

  lemma AnsweredSymmetric(a: string, b: string)
    ensures Answered(a, b) == Answered(b, a)
  {
    DistSymmetric(a, b);
  }

  /** The answer is 1 exactly for different words that are one edit apart. */
  lemma AnsweredOne(a: string, b: string)
    ensures Answered(a, b) == 1 <==> a != b && OneEdit(a, b)
  {
    DistOne(a, b);
    DistAtLeastGap(a, b);
  }

  lemma {:induction false} DistAtMostLength(a: string, b: string, n: nat)
    requires |a| <= n && |b| <= n
    ensures Dist(a, b) <= n
    decreases |a| + |b|
  {
    if a != [] && b != [] { DistAtMostLength(a[..|a| - 1], b[..|b| - 1], n - 1); }
  }

  /** The answers for three words satisfy the triangle inequality unless the outer
      two are answered unseen and the way over the middle one is seen and short;
      the outer two, if they are not answered unseen, are no longer than FAR. */
  lemma TriangleExactly(a: string, b: string, c: string)
    requires Gap(|a|, |c|) <= 2 ==> |a| <= FAR && |c| <= FAR
    ensures Answered(a, c) <= Answered(a, b) + Answered(b, c) <==>
      || Gap(|a|, |c|) <= 2 || Gap(|a|, |b|) > 2 || Gap(|b|, |c|) > 2
      || Dist(a, b) + Dist(b, c) >= FAR
  {
    DistTriangle(a, b, c);
    if Gap(|a|, |c|) <= 2 { DistAtMostLength(a, c, FAR); }
  }

  /** For words of at most 49 characters, the lengths alone decide. */
  lemma TriangleByLengths(a: string, b: string, c: string)
    requires |a| <= 49 && |b| <= 49 && |c| <= 49
    ensures Answered(a, c) <= Answered(a, b) + Answered(b, c) <==>
      Gap(|a|, |c|) <= 2 || Gap(|a|, |b|) > 2 || Gap(|b|, |c|) > 2
  {
    TriangleExactly(a, b, c);
    DistAtMostLength(a, b, 49);
    DistAtMostLength(b, c, 49);
  }

  /** It fails for "", "ab" and "abc": 99 against 2 and 1. */
  lemma TriangleBroken()
    ensures Answered("", "abc") == 99 && Answered("", "ab") == 2 && Answered("ab", "abc") == 1
    ensures Answered("", "abc") > Answered("", "ab") + Answered("ab", "abc")
  {
    assert InsertedAt("ab", "abc", 2);
    AnsweredOne("ab", "abc");
  }
}
