/** Commutative rings as records of operations, and powers in them.
    The laws are stated through `Law`, so that the verifier uses them only for
    the triples of elements that a proof mentions. */
module CommutativeRing {

  datatype Ring<!T(!new)> = Ring(zero: T, one: T, add: (T, T) -> T, neg: T -> T, mul: (T, T) -> T)
  {
    ghost predicate Law(a: T, b: T, c: T) {
      && add(a, b) == add(b, a)
      && add(add(a, b), c) == add(a, add(b, c))
      && add(a, zero) == a
      && add(a, neg(a)) == zero
      && mul(a, b) == mul(b, a)
      && mul(mul(a, b), c) == mul(a, mul(b, c))
      && mul(a, one) == a
      && mul(a, add(b, c)) == add(mul(a, b), mul(a, c))
    }

    ghost predicate Lawful() {
      forall a, b, c :: Law(a, b, c)
    }

    function Sub(a: T, b: T): T {
      add(a, neg(b))
    }

    function Pow(x: T, k: nat): T {
      if k == 0 then one else mul(Pow(x, k - 1), x)
    }

    lemma AddShuffle(a: T, b: T, c: T, d: T)
      requires Lawful()
      ensures add(add(a, b), add(c, d)) == add(add(a, c), add(b, d))
    {
      assert Law(a, b, add(c, d)) && Law(b, c, d) && Law(c, b, d) && Law(a, c, add(b, d));
    }

    lemma AddCancel(a: T, b: T, c: T)
      requires Lawful() && add(a, b) == add(a, c)
      ensures b == c
    {
      assert Law(neg(a), a, b) && Law(neg(a), a, c) && Law(a, neg(a), a) && Law(b, zero, b) && Law(c, zero, c);
      assert Law(zero, b, b) && Law(zero, c, c);
    }

    lemma MulZero(a: T)
      requires Lawful()
      ensures mul(a, zero) == zero
    {
      assert Law(a, zero, zero) && Law(zero, zero, zero) && Law(mul(a, zero), zero, zero);
      AddCancel(mul(a, zero), mul(a, zero), zero);
    }

    lemma MulNeg(a: T, b: T)
      requires Lawful()
      ensures mul(a, neg(b)) == neg(mul(a, b))
    {
      MulZero(a);
      assert Law(a, b, neg(b)) && Law(b, b, b) && Law(mul(a, b), b, b);
      AddCancel(mul(a, b), mul(a, neg(b)), neg(mul(a, b)));
    }

    lemma {:induction false} PowAdd(x: T, k: nat, l: nat)
      requires Lawful()
      ensures Pow(x, k + l) == mul(Pow(x, k), Pow(x, l))
    {
      if l == 0 {
        assert Law(Pow(x, k), x, x);
      } else {
        PowAdd(x, k, l - 1);
        assert Law(Pow(x, k), Pow(x, l - 1), x);
      }
    }

    lemma {:induction false} PowMul(x: T, k: nat, l: nat)
      requires Lawful()
      ensures Pow(Pow(x, k), l) == Pow(x, k * l)
    {
      if l == 0 {
      } else {
        PowMul(x, k, l - 1);
        PowAdd(x, k * (l - 1), k);
        assert k * (l - 1) + k == k * l;
      }
    }
  }

  /** Complex numbers with real components, the element type of the transform. */
  datatype Complex = Complex(re: real, im: real)

  const COMPLEX: Ring<Complex> := Ring(
    Complex(0.0, 0.0),
    Complex(1.0, 0.0),
    (a: Complex, b: Complex) => Complex(a.re + b.re, a.im + b.im),
    (a: Complex) => Complex(-a.re, -a.im),
    (a: Complex, b: Complex) => Complex(a.re * b.re - a.im * b.im, a.re * b.im + a.im * b.re))

  lemma MulAssoc(x: real, y: real, z: real)
    ensures (x * y) * z == x * (y * z)
  {
  }

  lemma Distribute(p: real, q: real, z: real)
    ensures (p - q) * z == p * z - q * z && (p + q) * z == p * z + q * z
  {
  }

  lemma RealAssoc(x: real, y: real, u: real, v: real, z: real)
    ensures (x * y - u * v) * z == x * (y * z) - u * (v * z)
    ensures (x * y + u * v) * z == x * (y * z) + u * (v * z)
  {
    MulAssoc(x, y, z);
    MulAssoc(u, v, z);
    Distribute(x * y, u * v, z);
  }

  lemma ComplexMulAssoc(a: Complex, b: Complex, c: Complex)
    ensures COMPLEX.mul(COMPLEX.mul(a, b), c) == COMPLEX.mul(a, COMPLEX.mul(b, c))
  {
    RealAssoc(a.re, b.re, a.im, b.im, c.re);
    RealAssoc(a.re, b.im, a.im, b.re, c.im);
    RealAssoc(a.re, b.re, a.im, b.im, c.im);
    RealAssoc(a.re, b.im, a.im, b.re, c.re);
    var re, im := b.re * c.re - b.im * c.im, b.re * c.im + b.im * c.re;
    assert a.re * re == a.re * (b.re * c.re) - a.re * (b.im * c.im);
    assert a.im * im == a.im * (b.re * c.im) + a.im * (b.im * c.re);
    assert a.re * im == a.re * (b.re * c.im) + a.re * (b.im * c.re);
    assert a.im * re == a.im * (b.re * c.re) - a.im * (b.im * c.im);
  }

  lemma ComplexMulAdd(a: Complex, b: Complex, c: Complex)
    ensures COMPLEX.mul(a, COMPLEX.add(b, c)) == COMPLEX.add(COMPLEX.mul(a, b), COMPLEX.mul(a, c))
  {
    assert a.re * (b.re + c.re) == a.re * b.re + a.re * c.re;
    assert a.im * (b.im + c.im) == a.im * b.im + a.im * c.im;
    assert a.re * (b.im + c.im) == a.re * b.im + a.re * c.im;
    assert a.im * (b.re + c.re) == a.im * b.re + a.im * c.re;
  }

  lemma ComplexMulComm(a: Complex, b: Complex)
    ensures COMPLEX.mul(a, b) == COMPLEX.mul(b, a)
  {
  }

  lemma ComplexLaw(a: Complex, b: Complex, c: Complex)
    ensures COMPLEX.Law(a, b, c)
  {
    ComplexMulComm(a, b);
    ComplexMulAssoc(a, b, c);
    ComplexMulAdd(a, b, c);
  }

  lemma ComplexIsLawful()
    ensures COMPLEX.Lawful()
  {
    forall a, b, c
      ensures COMPLEX.Law(a, b, c)
    {
      ComplexLaw(a, b, c);
    }
  }
}
