/** The in-place iterative transform of the ears cortex: a bit-reversal pass
    followed by butterfly stages, against the plain sum over the input. */
module Fft {
  import opened CommutativeRing

  function Pow2(k: nat): (p: nat)
    ensures 1 <= p
  {
    if k == 0 then 1 else 2 * Pow2(k - 1)
  }

  lemma {:induction false} Pow2Add(k: nat, l: nat)
    ensures Pow2(k + l) == Pow2(k) * Pow2(l)
  {
    if l == 0 {
    } else {
      Pow2Add(k, l - 1);
      assert Pow2(k) * (2 * Pow2(l - 1)) == 2 * (Pow2(k) * Pow2(l - 1));
    }
  }

  // ----- Bit reversal -----

  /** The k low binary digits of p, in opposite order. */
  function Rev(k: nat, p: nat): (r: nat)
    ensures r < Pow2(k)
  {
    if k == 0 then 0
    else Rev(k - 1, p / 2) + if p % 2 == 1 then Pow2(k - 1) else 0
  }

  lemma {:induction false} RevTop(k: nat, p: nat)
    requires p < Pow2(k)
    ensures Rev(k + 1, p) == 2 * Rev(k, p)
    ensures Rev(k + 1, p + Pow2(k)) == 2 * Rev(k, p) + 1
  {
    if k == 0 {
      assert Rev(1, 1) == 1;
    } else {
      RevTop(k - 1, p / 2);
      assert (p + Pow2(k)) / 2 == p / 2 + Pow2(k - 1) && (p + Pow2(k)) % 2 == p % 2;
    }
  }

  lemma {:induction false} RevInvolution(k: nat, p: nat)
    requires p < Pow2(k)
    ensures Rev(k, Rev(k, p)) == p
  {
    if k == 0 {
    } else {
      RevInvolution(k - 1, p / 2);
      RevTop(k - 1, Rev(k - 1, p / 2));
    }
  }

  /** `j & bit`, for a single-bit mask: shift both until the mask is 1. */
  predicate HasBit(j: nat, bit: nat) {
    if bit <= 1 then bit == 1 && j % 2 == 1 else HasBit(j / 2, bit / 2)
  }

  /** `j ^= bit`, for a single-bit mask. */
  function FlipBit(j: nat, bit: nat): int {
    if HasBit(j, bit) then j - bit else j + bit
  }

  lemma {:induction false} TopBit(j: nat, t: nat)
    requires j < 2 * Pow2(t)
    ensures HasBit(j, Pow2(t)) <==> Pow2(t) <= j
  {
    if t > 0 { TopBit(j / 2, t - 1); }
  }

  /** The positions below i, and their mirror images, already hold their values. */
  ghost predicate PartlyReversed<T>(s: seq<T>, x: seq<T>, k: nat, i: nat) {
    && |s| == |x| == Pow2(k)
    && forall p :: 0 <= p < |s| ==> s[p] == if p < i || Rev(k, p) < i then x[Rev(k, p)] else x[p]
  }

  lemma ReversalStep<T>(s: seq<T>, x: seq<T>, k: nat, i: nat)
    requires PartlyReversed(s, x, k, i) && i < |s|
    ensures var j := Rev(k, i);
      PartlyReversed(if i < j then s[i := s[j]][j := s[i]] else s, x, k, i + 1)
  {
    var j := Rev(k, i);
    RevInvolution(k, i);
    var t := if i < j then s[i := s[j]][j := s[i]] else s;
    forall p | 0 <= p < |t|
      ensures t[p] == if p < i + 1 || Rev(k, p) < i + 1 then x[Rev(k, p)] else x[p]
    {
      if Rev(k, p) == i {
        RevInvolution(k, p);
        assert p == j;
      }
    }
  }

  method BitReverse<T>(a: array<T>, ghost k: nat)
    requires a.Length == Pow2(k)
    modifies a
    ensures forall p :: 0 <= p < a.Length ==> a[p] == old(a[Rev(k, p)])
  {
    var n := a.Length;
    var j := 0;
    ghost var x := a[..];
    RevZero(k);
    forall p | 0 <= p < n && Rev(k, p) == 0
      ensures p == 0
    {
      RevInvolution(k, p);
    }
    for i := 1 to n
      invariant 0 <= j < n && j == Rev(k, i - 1)
      invariant PartlyReversed(a[..], x, k, i)
    {
      j := ReversedIncrement(n, j, i - 1, k);
      ReversalStep(a[..], x, k, i);
      if i < j {
        ghost var s := a[..];
        a[i], a[j] := a[j], a[i];
        assert a[..] == s[i := s[j]][j := s[i]];
      }
    }
    forall p | 0 <= p < n
      ensures a[p] == x[Rev(k, p)]
    {
      assert a[..][p] == a[p];
    }
  }

  lemma {:induction false} RevZero(k: nat)
    ensures Rev(k, 0) == 0
  {
    if k > 0 { RevZero(k - 1); }
  }

  /** One step of the counter that runs in bit-reversed order. */
  method ReversedIncrement(n: nat, j0: nat, ghost p: nat, ghost k: nat) returns (j: nat)
    requires n == Pow2(k) && p + 1 < n && j0 == Rev(k, p)
    ensures j == Rev(k, p + 1)
  {
    j := j0;
    var bit := n / 2;
    ghost var t: nat, q: nat := k, p;
    while HasBit(j, bit)
      invariant q + 1 < Pow2(t) && 0 < t <= k && bit == Pow2(t - 1)
      invariant j == Rev(t, q) && Rev(k, p + 1) == Rev(t, q + 1)
      decreases t
    {
      TopBit(j, t - 1);
      OddSuccessor(t, q);
      j := FlipBit(j, bit);
      bit := bit / 2;
      t, q := t - 1, q / 2;
    }
    TopBit(j, t - 1);
    EvenSuccessor(t, q);
    j := FlipBit(j, bit);
  }

  lemma OddSuccessor(t: nat, q: nat)
    requires 0 < t && q + 1 < Pow2(t) && Pow2(t - 1) <= Rev(t, q)
    ensures 1 < t && q / 2 + 1 < Pow2(t - 1)
    ensures Rev(t, q) == Rev(t - 1, q / 2) + Pow2(t - 1)
    ensures Rev(t, q + 1) == Rev(t - 1, q / 2 + 1)
  {
    assert (q + 1) / 2 == q / 2 + 1;
  }

  lemma EvenSuccessor(t: nat, q: nat)
    requires 0 < t && Rev(t, q) < Pow2(t - 1)
    ensures Rev(t, q + 1) == Rev(t, q) + Pow2(t - 1)
  {
    assert (q + 1) / 2 == q / 2;
  }

  // ----- The transform as a sum -----

  /** The sum over k of x[k] * w^(j*k). */
  function Dft<T(!new)>(R: Ring<T>, x: seq<T>, w: T, j: nat): T {
    if x == [] then R.zero
    else
      var k := |x| - 1;
      R.add(Dft(R, x[..k], w, j), R.mul(x[k], R.Pow(w, j * k)))
  }

  ghost predicate Spectrum<T(!new)>(R: Ring<T>, s: seq<T>, x: seq<T>, w: T) {
    |s| == |x| && forall j :: 0 <= j < |s| ==> s[j] == Dft(R, x, w, j)
  }

  function Evens<T>(x: seq<T>): (y: seq<T>)
    requires |x| % 2 == 0
    ensures |y| == |x| / 2
  {
    seq(|x| / 2, i requires 0 <= i < |x| / 2 => x[2 * i])
  }

  function Odds<T>(x: seq<T>): (y: seq<T>)
    requires |x| % 2 == 0
    ensures |y| == |x| / 2
  {
    seq(|x| / 2, i requires 0 <= i < |x| / 2 => x[2 * i + 1])
  }

  lemma TermOfEven<T(!new)>(R: Ring<T>, a: T, w: T, j: nat, i: nat)
    requires R.Lawful()
    ensures R.mul(a, R.Pow(w, j * (2 * i))) == R.mul(a, R.Pow(R.Pow(w, 2), j * i))
  {
    R.PowMul(w, 2, j * i);
    assert j * (2 * i) == 2 * (j * i);
  }

  lemma TermOfOdd<T(!new)>(R: Ring<T>, a: T, w: T, j: nat, i: nat)
    requires R.Lawful()
    ensures R.mul(a, R.Pow(w, j * (2 * i + 1))) == R.mul(R.Pow(w, j), R.mul(a, R.Pow(R.Pow(w, 2), j * i)))
  {
    TermOfEven(R, a, w, j, i);
    assert j * (2 * i + 1) == j * (2 * i) + j;
    R.PowAdd(w, j * (2 * i), j);
    var p, q := R.Pow(w, j * (2 * i)), R.Pow(w, j);
    assert R.Law(a, p, q) && R.Law(R.mul(a, p), q, q);
  }

  lemma DftSnoc<T(!new)>(R: Ring<T>, x: seq<T>, a: T, w: T, j: nat)
    ensures Dft(R, x + [a], w, j) == R.add(Dft(R, x, w, j), R.mul(a, R.Pow(w, j * |x|)))
  {
    assert (x + [a])[..|x|] == x;
  }

  lemma DftSnocPair<T(!new)>(R: Ring<T>, y: seq<T>, k: nat, a: T, b: T, w: T, j: nat)
    requires R.Lawful() && |y| == 2 * k
    ensures var q := R.Pow(R.Pow(w, 2), j * k);
            Dft(R, y + [a] + [b], w, j) ==
            R.add(R.add(Dft(R, y, w, j), R.mul(a, q)), R.mul(R.Pow(w, j), R.mul(b, q)))
  {
    TermOfEven(R, a, w, j, k);
    TermOfOdd(R, b, w, j, k);
    DftSnoc(R, y, a, w, j);
    DftSnoc(R, y + [a], b, w, j);
  }

  lemma DftHalvesSnoc<T(!new)>(R: Ring<T>, x: seq<T>, k: nat, w: T, j: nat)
    requires R.Lawful() && |x| == 2 * k + 2
    ensures x == x[..2 * k] + [x[2 * k]] + [x[2 * k + 1]]
    ensures Dft(R, Evens(x), w, j) == R.add(Dft(R, Evens(x[..2 * k]), w, j), R.mul(x[2 * k], R.Pow(w, j * k)))
    ensures Dft(R, Odds(x), w, j) == R.add(Dft(R, Odds(x[..2 * k]), w, j), R.mul(x[2 * k + 1], R.Pow(w, j * k)))
  {
    assert Evens(x)[..k] == Evens(x[..2 * k]);
    assert Odds(x)[..k] == Odds(x[..2 * k]);
  }

  /** A sum of even length splits into the sums over its even and its odd
      positions, taken at the square of the root. */
  lemma {:induction false} DftSplits<T(!new)>(R: Ring<T>, x: seq<T>, m: nat, w: T, j: nat)
    requires R.Lawful() && |x| == 2 * m
    ensures Dft(R, x, w, j) ==
            R.add(Dft(R, Evens(x), R.Pow(w, 2), j), R.mul(R.Pow(w, j), Dft(R, Odds(x), R.Pow(w, 2), j)))
    decreases m
  {
    var w2, p := R.Pow(w, 2), R.Pow(w, j);
    if m == 0 {
      R.MulZero(p);
      assert R.Law(R.zero, R.zero, R.zero);
    } else {
      var k := m - 1;
      var y, a, b, q := x[..2 * k], x[2 * k], x[2 * k + 1], R.Pow(w2, j * k);
      DftSplits(R, y, k, w, j);
      DftSnocPair(R, y, k, a, b, w, j);
      DftHalvesSnoc(R, x, k, w2, j);
      SplitStep(R, Dft(R, Evens(y), w2, j), Dft(R, Odds(y), w2, j), R.mul(a, q), R.mul(b, q), p);
    }
  }

  lemma SplitStep<T(!new)>(R: Ring<T>, e: T, o: T, ta: T, tb: T, p: T)
    requires R.Lawful()
    ensures R.add(R.add(R.add(e, R.mul(p, o)), ta), R.mul(p, tb)) == R.add(R.add(e, ta), R.mul(p, R.add(o, tb)))
  {
    assert R.Law(R.add(e, R.mul(p, o)), ta, R.mul(p, tb)) && R.Law(p, o, tb);
    R.AddShuffle(e, R.mul(p, o), ta, R.mul(p, tb));
  }

  lemma {:induction false} OnePow<T(!new)>(R: Ring<T>, k: nat)
    requires R.Lawful()
    ensures R.Pow(R.one, k) == R.one
  {
    if k > 0 {
      OnePow(R, k - 1);
      assert R.Law(R.one, R.one, R.one);
    }
  }

  lemma {:induction false} DftPeriodic<T(!new)>(R: Ring<T>, x: seq<T>, w: T, j: nat, m: nat)
    requires R.Lawful() && R.Pow(w, m) == R.one
    ensures Dft(R, x, w, j + m) == Dft(R, x, w, j)
  {
    if x != [] {
      var k := |x| - 1;
      DftPeriodic(R, x[..k], w, j, m);
      assert (j + m) * k == j * k + m * k;
      R.PowAdd(w, j * k, m * k);
      R.PowMul(w, m, k);
      OnePow(R, k);
      assert R.Law(R.Pow(w, j * k), R.one, R.one);
    }
  }

  lemma RootSquared<T(!new)>(R: Ring<T>, w: T, m: nat)
    requires R.Lawful() && R.Pow(w, m) == R.neg(R.one)
    ensures R.Pow(R.Pow(w, 2), m) == R.one
  {
    R.PowMul(w, 2, m);
    R.PowAdd(w, m, m);
    var one := R.one;
    R.MulNeg(R.neg(one), one);
    assert R.Law(one, R.neg(one), one) && R.Law(R.neg(one), one, one);
    assert R.Law(R.neg(one), R.neg(R.neg(one)), one);
    R.AddCancel(R.neg(one), one, R.neg(R.neg(one)));
  }

  /** One butterfly: the two half-length sums give the full sum at j and at j + m. */
  lemma ButterflyIsDft<T(!new)>(R: Ring<T>, x: seq<T>, m: nat, w: T, j: nat)
    requires R.Lawful() && |x| == 2 * m
    requires R.Pow(w, m) == R.neg(R.one)
    ensures var u := Dft(R, Evens(x), R.Pow(w, 2), j);
            var v := R.mul(Dft(R, Odds(x), R.Pow(w, 2), j), R.Pow(w, j));
            Dft(R, x, w, j) == R.add(u, v) && Dft(R, x, w, j + m) == R.Sub(u, v)
  {
    var w2 := R.Pow(w, 2);
    var o, p := Dft(R, Odds(x), w2, j), R.Pow(w, j);
    DftSplits(R, x, m, w, j);
    DftSplits(R, x, m, w, j + m);
    assert R.Law(o, p, p);
    RootSquared(R, w, m);
    DftPeriodic(R, Evens(x), w2, j, m);
    DftPeriodic(R, Odds(x), w2, j, m);
    R.PowAdd(w, j, m);
    R.MulNeg(p, R.one);
    assert R.Law(p, R.one, R.one);
    R.MulNeg(o, p);
    assert R.Law(o, R.neg(p), p);
  }

  // ----- Which part of the input a block holds -----

  /** The input positions that block b holds after m halvings. */
  function Decimate<T>(x: seq<T>, k: nat, m: nat, b: nat): (y: seq<T>)
    requires |x| == Pow2(k) && m <= k
    ensures |y| == Pow2(k - m)
  {
    if m == 0 then x
    else if b % 2 == 0 then Evens(Decimate(x, k, m - 1, b / 2))
    else Odds(Decimate(x, k, m - 1, b / 2))
  }

  lemma DecimateChildren<T>(x: seq<T>, k: nat, m: nat, b: nat)
    requires |x| == Pow2(k) && m < k
    ensures Decimate(x, k, m + 1, 2 * b) == Evens(Decimate(x, k, m, b))
    ensures Decimate(x, k, m + 1, 2 * b + 1) == Odds(Decimate(x, k, m, b))
  {
    assert (2 * b) / 2 == b && (2 * b + 1) / 2 == b;
  }

  /** Start(b, l), written so that it needs no multiplication. */
  function Start(b: nat, l: nat): nat
    decreases l
  {
    if l == 0 then b else Start(2 * b, l - 1)
  }

  lemma {:induction false} StartNext(b: nat, l: nat)
    ensures Start(b + 1, l) == Start(b, l) + Pow2(l)
    decreases l
  {
    if l > 0 {
      StartNext(2 * b, l - 1);
      StartNext(2 * b + 1, l - 1);
    }
  }

  lemma {:induction false} StartMono(c: nat, b: nat, l: nat)
    requires c < b
    ensures Start(c, l) + Pow2(l) <= Start(b, l)
    decreases b
  {
    StartNext(b - 1, l);
    if c < b - 1 { StartMono(c, b - 1, l); }
  }

  lemma {:induction false} StartOfPower(m: nat, l: nat)
    ensures Start(Pow2(m), l) == Pow2(m + l)
    decreases l
  {
    if l > 0 { StartOfPower(m + 1, l - 1); }
  }

  lemma {:induction false} DecimateAt<T>(x: seq<T>, k: nat, m: nat, b: nat, i: nat)
    requires |x| == Pow2(k) && m <= k && i < Pow2(k - m)
    ensures var at := Rev(m, b) + Start(i, m); at < |x| && Decimate(x, k, m, b)[i] == x[at]
  {
    if m == 0 {
    } else {
      StartNext(2 * i, m - 1);
      if b % 2 == 0 {
        DecimateAt(x, k, m - 1, b / 2, 2 * i);
      } else {
        DecimateAt(x, k, m - 1, b / 2, 2 * i + 1);
      }
    }
  }

  lemma {:induction false} StartZero(l: nat)
    ensures Start(0, l) == 0
  {
    if l > 0 { StartZero(l - 1); }
  }

  lemma DecimatedLeaf<T(!new)>(R: Ring<T>, x: seq<T>, k: nat, b: nat, w: T)
    requires R.Lawful() && |x| == Pow2(k) && b < |x|
    ensures Spectrum(R, [x[Rev(k, b)]], Decimate(x, k, k, b), w)
  {
    DecimateAt(x, k, k, b, 0);
    StartZero(k);
    var v := x[Rev(k, b)];
    assert Decimate(x, k, k, b) == [v];
    assert 0 * 0 == 0 && R.Pow(w, 0) == R.one;
    assert [v][..0] == [];
    assert Dft(R, [v], w, 0) == R.add(R.zero, R.mul(v, R.one));
    assert R.Law(v, R.zero, R.zero) && R.Law(R.zero, v, v);
  }

  // ----- The butterfly stages -----

  /** What the butterflies of one block, of half-length `half` at i, leave in slot p. */
  ghost function Butterflied<T(!new)>(R: Ring<T>, s: seq<T>, i: nat, half: nat, w: T, p: nat): T
    requires i + 2 * half <= |s| && p < |s|
  {
    if i <= p < i + half then R.add(s[p], R.mul(s[p + half], R.Pow(w, p - i)))
    else if i + half <= p < i + 2 * half then R.Sub(s[p - half], R.mul(s[p], R.Pow(w, p - half - i)))
    else s[p]
  }

  ghost predicate Combined<T(!new)>(R: Ring<T>, s: seq<T>, t: seq<T>, i: nat, half: nat, w: T)
    requires |s| == |t| && i + 2 * half <= |s|
  {
    forall p :: 0 <= p < |t| ==> t[p] == Butterflied(R, s, i, half, w, p)
  }

  /** The innermost loop: combines two neighbouring half-blocks in place. */
  method Combine<T(!new)>(R: Ring<T>, a: array<T>, i: nat, len: nat, wlen: T, ghost half: nat)
    requires len == 2 * half && i + len <= a.Length
    modifies a
    ensures Combined(R, old(a[..]), a[..], i, half, wlen)
  {
    var w := R.one;
    ghost var s := a[..];
    for j := 0 to len / 2
      invariant w == R.Pow(wlen, j)
      invariant forall p :: 0 <= p < a.Length ==>
        a[p] == if i <= p < i + j || i + half <= p < i + half + j then Butterflied(R, s, i, half, wlen, p) else s[p]
    {
      var u := a[i + j];
      var v := R.mul(a[i + j + len / 2], w);
      a[i + j] := R.add(u, v);
      a[i + j + len / 2] := R.Sub(u, v);
      w := R.mul(w, wlen);
    }
  }

  /** The slice of s at lo holds the spectrum of y. */
  ghost predicate Holds<T(!new)>(R: Ring<T>, s: seq<T>, lo: nat, y: seq<T>, w: T) {
    lo + |y| <= |s| && Spectrum(R, s[lo..lo + |y|], y, w)
  }

  /** Block b of length Pow2(l) holds the transform of its part of the input. */
  ghost predicate BlockDone<T(!new)>(R: Ring<T>, s: seq<T>, x: seq<T>, k: nat, l: nat, b: nat, w: T)
    requires |x| == Pow2(k) && l <= k
  {
    Holds(R, s, Start(b, l), Decimate(x, k, k - l, b), w)
  }

  ghost predicate BlocksDone<T(!new)>(R: Ring<T>, s: seq<T>, x: seq<T>, k: nat, l: nat, from: nat, to: nat, w: T)
    requires |x| == |s| == Pow2(k) && l <= k
  {
    forall b: nat :: from <= b < to ==> BlockDone(R, s, x, k, l, b, w)
  }

  /** Two neighbouring spectra, combined by butterflies, are the spectrum of the
      input they interleave. */
  lemma CombinedSpectrum<T(!new)>(R: Ring<T>, s: seq<T>, out: seq<T>, y: seq<T>, half: nat, w: T)
    requires R.Lawful() && |y| == 2 * half == |s| == |out|
    requires R.Pow(w, half) == R.neg(R.one)
    requires Spectrum(R, s[..half], Evens(y), R.Pow(w, 2)) && Spectrum(R, s[half..], Odds(y), R.Pow(w, 2))
    requires Combined(R, s, out, 0, half, w)
    ensures Spectrum(R, out, y, w)
  {
    forall p | 0 <= p < |y|
      ensures out[p] == Dft(R, y, w, p)
    {
      var j := if p < half then p else p - half;
      assert out[p] == Butterflied(R, s, 0, half, w, p);
      HalfSpectra(R, s, y, half, w, j);
      CombinedAt(R, s, y, half, w, p, j);
    }
  }

  lemma HalfSpectra<T(!new)>(R: Ring<T>, s: seq<T>, y: seq<T>, half: nat, w: T, j: nat)
    requires |y| == 2 * half == |s| && j < half
    requires Spectrum(R, s[..half], Evens(y), R.Pow(w, 2)) && Spectrum(R, s[half..], Odds(y), R.Pow(w, 2))
    ensures s[j] == Dft(R, Evens(y), R.Pow(w, 2), j) && s[j + half] == Dft(R, Odds(y), R.Pow(w, 2), j)
  {
    assert s[..half][j] == s[j] && s[half..][j] == s[j + half];
  }

  lemma CombinedAt<T(!new)>(R: Ring<T>, s: seq<T>, y: seq<T>, half: nat, w: T, p: nat, j: nat)
    requires R.Lawful() && |y| == 2 * half == |s| && j < half && (p == j || p == j + half)
    requires R.Pow(w, half) == R.neg(R.one)
    requires s[j] == Dft(R, Evens(y), R.Pow(w, 2), j) && s[j + half] == Dft(R, Odds(y), R.Pow(w, 2), j)
    ensures Butterflied(R, s, 0, half, w, p) == Dft(R, y, w, p)
  {
    ButterflyIsDft(R, y, half, w, j);
  }

  lemma CombinedSlice<T(!new)>(R: Ring<T>, s: seq<T>, t: seq<T>, i: nat, half: nat, w: T)
    requires |s| == |t| && i + 2 * half <= |s| && Combined(R, s, t, i, half, w)
    ensures Combined(R, s[i..i + 2 * half], t[i..i + 2 * half], 0, half, w)
  {
    var s', t' := s[i..i + 2 * half], t[i..i + 2 * half];
    forall p | 0 <= p < |t'|
      ensures t'[p] == Butterflied(R, s', 0, half, w, p)
    {
      assert t[i + p] == Butterflied(R, s, i, half, w, i + p);
    }
  }

  lemma CombinedHolds<T(!new)>(R: Ring<T>, s: seq<T>, t: seq<T>, i: nat, y: seq<T>, half: nat, w: T)
    requires R.Lawful() && |s| == |t| && |y| == 2 * half && i + 2 * half <= |s|
    requires R.Pow(w, half) == R.neg(R.one)
    requires Holds(R, s, i, Evens(y), R.Pow(w, 2)) && Holds(R, s, i + half, Odds(y), R.Pow(w, 2))
    requires Combined(R, s, t, i, half, w)
    ensures Holds(R, t, i, y, w)
  {
    CombinedSlice(R, s, t, i, half, w);
    var s' := s[i..i + 2 * half];
    assert s'[..half] == s[i..i + half] && s'[half..] == s[i + half..i + half + half];
    CombinedSpectrum(R, s', t[i..i + 2 * half], y, half, w);
  }

  lemma HoldsKept<T(!new)>(R: Ring<T>, s: seq<T>, t: seq<T>, lo: nat, y: seq<T>, w: T)
    requires |s| == |t| && Holds(R, s, lo, y, w)
    requires forall p :: lo <= p < lo + |y| ==> t[p] == s[p]
    ensures Holds(R, t, lo, y, w)
  {
    assert t[lo..lo + |y|] == s[lo..lo + |y|];
  }

  /** `root` gives, for every stage length, the power of w of that order. */
  ghost predicate StageRoots<T(!new)>(R: Ring<T>, root: nat -> T, w: T, k: nat) {
    forall l :: 0 < l <= k ==> root(Pow2(l)) == R.Pow(w, Pow2(k - l))
  }

  lemma StageRoot<T(!new)>(R: Ring<T>, w: T, k: nat, l: nat)
    requires R.Lawful() && 0 < l <= k && R.Pow(w, Pow2(k - 1)) == R.neg(R.one)
    ensures R.Pow(R.Pow(w, Pow2(k - l)), Pow2(l - 1)) == R.neg(R.one)
    ensures R.Pow(R.Pow(w, Pow2(k - l)), 2) == R.Pow(w, Pow2(k - l + 1))
  {
    R.PowMul(w, Pow2(k - l), Pow2(l - 1));
    Pow2Add(k - l, l - 1);
    R.PowMul(w, Pow2(k - l), 2);
  }

  /** The halves of block b at the next length hold the transforms of its even and odd inputs. */
  lemma HalvesHold<T(!new)>(R: Ring<T>, s: seq<T>, x: seq<T>, k: nat, l: nat, b: nat, w2: T)
    requires |s| == |x| == Pow2(k) && l < k
    requires BlockDone(R, s, x, k, l, 2 * b, w2) && BlockDone(R, s, x, k, l, 2 * b + 1, w2)
    ensures var i, y := Start(b, l + 1), Decimate(x, k, k - l - 1, b);
      Holds(R, s, i, Evens(y), w2) && Holds(R, s, i + Pow2(l), Odds(y), w2)
  {
    var m: nat := k - l - 1;
    var even, odd := Start(2 * b, l), Start(2 * b + 1, l);
    DecimateChildren(x, k, m, b);
    assert even == Start(b, l + 1);
    StartNext(2 * b, l);
    assert Holds(R, s, even, Decimate(x, k, m + 1, 2 * b), w2);
    assert Holds(R, s, odd, Decimate(x, k, m + 1, 2 * b + 1), w2);
  }

  /** After the butterflies of block b, that block is done at the next length. */
  lemma NewBlock<T(!new)>(R: Ring<T>, before: seq<T>, s: seq<T>, t: seq<T>, x: seq<T>,
                          k: nat, l: nat, b: nat, w: T)
    requires R.Lawful() && |before| == |s| == |t| == |x| == Pow2(k) && l < k
    requires Start(b, l + 1) + Pow2(l + 1) <= |s|
    requires R.Pow(w, Pow2(l)) == R.neg(R.one)
    requires BlockDone(R, before, x, k, l, 2 * b, R.Pow(w, 2)) && BlockDone(R, before, x, k, l, 2 * b + 1, R.Pow(w, 2))
    requires forall p :: Start(b, l + 1) <= p < |s| ==> s[p] == before[p]
    requires Combined(R, s, t, Start(b, l + 1), Pow2(l), w)
    ensures BlockDone(R, t, x, k, l + 1, b, w)
  {
    var i, y, w2 := Start(b, l + 1), Decimate(x, k, k - l - 1, b), R.Pow(w, 2);
    HalvesHold(R, before, x, k, l, b, w2);
    HoldsKept(R, before, s, i, Evens(y), w2);
    HoldsKept(R, before, s, i + Pow2(l), Odds(y), w2);
    CombinedHolds(R, s, t, i, y, Pow2(l), w);
  }

  lemma OlderBlocks<T(!new)>(R: Ring<T>, s: seq<T>, t: seq<T>, x: seq<T>, k: nat, l: nat, b: nat, w: T)
    requires |s| == |t| == |x| == Pow2(k) && l <= k && Start(b, l) <= |s|
    requires BlocksDone(R, s, x, k, l, 0, b, w)
    requires forall p :: 0 <= p < Start(b, l) ==> t[p] == s[p]
    ensures BlocksDone(R, t, x, k, l, 0, b, w)
  {
    forall c: nat | 0 <= c < b
      ensures BlockDone(R, t, x, k, l, c, w)
    {
      StartMono(c, b, l);
      assert BlockDone(R, s, x, k, l, c, w);
      HoldsKept(R, s, t, Start(c, l), Decimate(x, k, k - l, c), w);
    }
  }

  /** The state of a pass after b of its blocks: those are done, the rest is untouched. */
  ghost predicate PassState<T(!new)>(R: Ring<T>, before: seq<T>, s: seq<T>, x: seq<T>, k: nat, l: nat, b: nat, w: T)
    requires |before| == |x| == Pow2(k) && 0 < l <= k
  {
    && |s| == |before|
    && Start(b, l) <= |s|
    && BlocksDone(R, s, x, k, l, 0, b, w)
    && forall p :: Start(b, l) <= p < |s| ==> s[p] == before[p]
  }

  lemma PassStep<T(!new)>(R: Ring<T>, before: seq<T>, s: seq<T>, t: seq<T>, x: seq<T>, k: nat, l: nat, b: nat, w: T)
    requires R.Lawful() && |before| == |t| == |x| == Pow2(k) && l < k && b < Pow2(k - l - 1)
    requires R.Pow(w, Pow2(l)) == R.neg(R.one)
    requires BlocksDone(R, before, x, k, l, 0, Pow2(k - l), R.Pow(w, 2))
    requires PassState(R, before, s, x, k, l + 1, b, w)
    requires Start(b, l + 1) + Pow2(l + 1) <= |s| && Combined(R, s, t, Start(b, l + 1), Pow2(l), w)
    ensures PassState(R, before, t, x, k, l + 1, b + 1, w)
    ensures Start(b + 1, l + 1) == Start(b, l + 1) + Pow2(l + 1)
  {
    StartNext(b, l + 1);
    OlderBlocks(R, s, t, x, k, l + 1, b, w);
    assert 2 * b + 1 < Pow2(k - l);
    NewBlock(R, before, s, t, x, k, l, b, w);
  }

  /** One pass over the array, doubling the length of the finished blocks. */
  method Stage<T(!new)>(R: Ring<T>, a: array<T>, len: nat, wlen: T, ghost x: seq<T>, ghost k: nat, ghost l: nat)
    requires R.Lawful() && a.Length == |x| == Pow2(k) && l < k && len == Pow2(l + 1)
    requires R.Pow(wlen, Pow2(l)) == R.neg(R.one)
    requires BlocksDone(R, a[..], x, k, l, 0, Pow2(k - l), R.Pow(wlen, 2))
    modifies a
    ensures BlocksDone(R, a[..], x, k, l + 1, 0, Pow2(k - l - 1), wlen)
  {
    var n := a.Length;
    var i := 0;
    ghost var b: nat := 0;
    ghost var before := a[..];
    ghost var blocks := Pow2(k - l - 1);
    StartOfPower(k - l - 1, l + 1);
    StartZero(l + 1);
    while i < n
      invariant b <= blocks && i == Start(b, l + 1)
      invariant PassState(R, before, a[..], x, k, l + 1, b, wlen)
      decreases n - i
    {
      StartMono(b, blocks, l + 1);
      ghost var s := a[..];
      Combine(R, a, i, len, wlen, Pow2(l));
      PassStep(R, before, s, a[..], x, k, l, b, wlen);
      i := i + len;
      b := b + 1;
    }
    if b < blocks { StartMono(b, blocks, l + 1); }
  }

  /** The whole transform. For `n == Pow2(k)` and a root w of which the power
      n/2 is -1, slot j ends with the sum over i of input[i] * w^(j*i). */
  method Transform<T(!new)>(R: Ring<T>, a: array<T>, root: nat -> T, ghost w: T, ghost k: nat)
    requires R.Lawful() && a.Length == Pow2(k)
    requires k > 0 ==> R.Pow(w, a.Length / 2) == R.neg(R.one)
    requires StageRoots(R, root, w, k)
    modifies a
    ensures Spectrum(R, a[..], old(a[..]), w)
  {
    ghost var x := a[..];
    var n := a.Length;
    BitReverse(a, k);
    var len := 2;
    ghost var l := 0;
    Reversed(R, a[..], x, k, R.Pow(w, Pow2(k)));
    while len <= n
      invariant l <= k && len == Pow2(l + 1)
      invariant BlocksDone(R, a[..], x, k, l, 0, Pow2(k - l), R.Pow(w, Pow2(k - l)))
      decreases k - l
    {
      assert l < k;
      var wlen := root(len);
      StageRoot(R, w, k, l + 1);
      Stage(R, a, len, wlen, x, k, l);
      len := 2 * len;
      l := l + 1;
    }
    if l < k { Pow2Mono(l + 1, k); }
    WholeBlock(R, a[..], x, k, w);
  }

  lemma {:induction false} Pow2Mono(k: nat, l: nat)
    requires k <= l
    ensures Pow2(k) <= Pow2(l)
  {
    if k < l { Pow2Mono(k, l - 1); }
  }

  lemma Reversed<T(!new)>(R: Ring<T>, s: seq<T>, x: seq<T>, k: nat, w: T)
    requires R.Lawful() && |s| == |x| == Pow2(k)
    requires forall p :: 0 <= p < |s| ==> s[p] == x[Rev(k, p)]
    ensures BlocksDone(R, s, x, k, 0, 0, Pow2(k), w)
  {
    forall b: nat | b < Pow2(k)
      ensures BlockDone(R, s, x, k, 0, b, w)
    {
      DecimatedLeaf(R, x, k, b, w);
      assert Start(b, 0) == b && s[b..b + 1] == [x[Rev(k, b)]];
    }
  }

  lemma WholeBlock<T(!new)>(R: Ring<T>, s: seq<T>, x: seq<T>, k: nat, w: T)
    requires R.Lawful() && |s| == |x| == Pow2(k)
    requires BlocksDone(R, s, x, k, k, 0, Pow2(0), R.Pow(w, Pow2(0)))
    ensures Spectrum(R, s, x, w)
  {
    StartZero(k);
    assert BlockDone(R, s, x, k, k, 0, R.Pow(w, Pow2(0)));
    assert s[0..Pow2(k)] == s;
    assert R.Law(w, R.one, R.one) && R.Pow(w, 0) == R.one;
  }
}
