/**
 * Complex arithmetic of the fractal viewer (src/complex.rs).
 * Double precision and arbitrary precision numbers are both modelled as
 * exact pairs of reals; rounding is not modelled.
 */
module Complex {
  import opened Wrappers

  const U32_LIMIT: int := 0x1_0000_0000

  // ---------------------------------------------------------------
  // factorial and choose
  // ---------------------------------------------------------------

  /** n!, over unbounded naturals. */
  function Fact(n: nat): (r: nat)
    ensures r >= 1
  {
    if n == 0 then 1 else n * Fact(n - 1)
  }

  /** Pascal's definition of the binomial coefficient; zero above n. */
  function Binomial(n: nat, r: nat): nat
  {
    if r == 0 then 1
    else if n == 0 then 0
    else Binomial(n - 1, r - 1) + Binomial(n - 1, r)
  }

  lemma {:induction false} BinomialAbove(n: nat, r: nat)
    requires r > n
    ensures Binomial(n, r) == 0
  {
    if n > 0 {
      BinomialAbove(n - 1, r - 1);
      BinomialAbove(n - 1, r);
    }
  }

  lemma {:induction false} BinomialDiagonal(n: nat)
    ensures Binomial(n, n) == 1
  {
    if n > 0 {
      BinomialDiagonal(n - 1);
      BinomialAbove(n - 1, n);
    }
  }

  /** Distributing the two halves of Pascal's rule over the factorials. */
  lemma PascalStep(a: int, b: int, r: int, k: int, x: int, y: int, f: int)
    requires a * x * (k * y) == f && b * (r * x) * y == f
    ensures (a + b) * (r * x) * (k * y) == (r + k) * f
  {
    assert a * (r * x) * (k * y) == r * (a * x * (k * y));
    assert b * (r * x) * (k * y) == k * (b * (r * x) * y);
  }

  /** The factorial identity that makes the closed form of choose exact. */
  lemma {:induction false} BinomialFactorials(n: nat, r: nat)
    requires r <= n
    ensures Binomial(n, r) * Fact(r) * Fact(n - r) == Fact(n)
  {
    if r == 0 {
      assert Binomial(n, r) == 1;
    } else if r == n {
      BinomialDiagonal(n);
      assert Fact(n - r) == 1;
    } else {
      BinomialFactorials(n - 1, r - 1);
      BinomialFactorials(n - 1, r);
      assert Fact(r) == r * Fact(r - 1);
      assert Fact(n - r) == (n - r) * Fact(n - r - 1);
      PascalStep(Binomial(n - 1, r - 1), Binomial(n - 1, r), r, n - r,
                 Fact(r - 1), Fact(n - r - 1), Fact(n - 1));
    }
  }

  /**
   * Loop computing n! as factorial does (complex.rs:12-18), over
   * unbounded naturals.
   */
  method Factorial(n: nat) returns (result: nat)
    ensures result == Fact(n)
  {
    result := 1;
    var i := 2;
    while i < n + 1
      invariant 2 <= i <= if n < 2 then 2 else n + 1
      invariant result == Fact(i - 1)
    {
      result := result * i;
      i := i + 1;
    }
  }

  /**
   * choose over unbounded naturals: the coefficient the closed form of
   * complex.rs:20-25 evidently intends.
   */
  function Choose(n: nat, r: nat): (c: nat)
    requires n >= r
    ensures c == Binomial(n, r)
  {
    if r == 0 || r == n then
      BinomialDiagonal(n);
      1
    else if r == 1 || r == n - 1 then
      BinomialNextToEdge(n, r);
      n
    else
      ClosedForm(n, r);
      DivExact(Binomial(n, r), Denominator(n, r), Fact(n));
      Fact(n) / Denominator(n, r)
  }

  /** r! * (n - r)!, the divisor of choose's closed form. */
  function Denominator(n: nat, r: nat): (d: nat)
    requires r <= n
    ensures d >= 1
  {
    MulMonotone(Fact(r), Fact(n - r));
    Fact(r) * Fact(n - r)
  }

  lemma ClosedForm(n: nat, r: nat)
    requires r <= n
    ensures Binomial(n, r) * Denominator(n, r) == Fact(n)
  {
    var b, x, y := Binomial(n, r), Fact(r), Fact(n - r);
    BinomialFactorials(n, r);
    IntMulAssoc(b, x, y);
    assert Denominator(n, r) == x * y;
  }

  lemma IntMulAssoc(a: int, b: int, c: int)
    ensures a * b * c == a * (b * c)
  {
  }

  lemma BinomialNextToEdge(n: nat, r: nat)
    requires 0 < r < n && (r == 1 || r == n - 1)
    ensures Binomial(n, r) == n
  {
    ClosedForm(n, r);
    assert Fact(n) == n * Fact(n - 1);
    assert Denominator(n, r) == Fact(n - 1) by {
      if r == 1 { assert Fact(1) == 1; } else { assert Fact(n - r) == 1; }
    }
    MulCancel(Binomial(n, r), n, Fact(n - 1));
  }

  lemma MulCancel(a: int, b: int, x: int)
    requires x > 0 && a * x == b * x
    ensures a == b
  {
  }

  lemma DivExact(q: int, d: int, m: int)
    requires d > 0 && q * d == m
    ensures m / d == q
  {
    var k, rem := q - m / d, m % d;
    assert k * d == rem by {
      assert m == d * (m / d) + rem;
      assert k * d == q * d - (m / d) * d;
    }
    if k >= 1 {
      MulMonotone(k, d);
    } else if k <= -1 {
      MulMonotone(-k, d);
    }
  }

  lemma MulMonotone(k: int, d: int)
    requires k >= 1 && d > 0
    ensures k * d >= d
  {
  }

  /** n! with every multiplication wrapping at 2^32 (u32 in a release build). */
  function FactU32(n: nat): (r: nat)
    ensures r < U32_LIMIT
  {
    if n <= 1 then 1 else MulU32(n % U32_LIMIT, FactU32(n - 1))
  }

  /** A u32 multiplication that wraps at 2^32. */
  function MulU32(a: nat, b: nat): (r: nat)
    ensures r < U32_LIMIT
  {
    a * b % U32_LIMIT
  }

  lemma {:induction false} FactMonotone(m: nat, n: nat)
    requires m <= n
    ensures Fact(m) <= Fact(n)
  {
    if m < n {
      FactMonotone(m, n - 1);
      assert Fact(n) == n * Fact(n - 1);
    }
  }

  /** While n! fits in 32 bits the wrapping factorial is exact. */
  lemma {:induction false} FactU32Exact(n: nat)
    requires Fact(n) < U32_LIMIT
    ensures FactU32(n) == Fact(n)
  {
    if n > 1 {
      FactMonotone(n - 1, n);
      FactU32Exact(n - 1);
      assert Fact(n) == n * Fact(n - 1);
      WrapStep(n, Fact(n - 1));
    }
  }

  /** One wrapped multiplication of factorial's loop is exact while the product fits. */
  lemma WrapStep(n: nat, f: nat)
    requires n >= 1 && f >= 1 && n * f < U32_LIMIT
    ensures MulU32(n % U32_LIMIT, f) == n * f
  {
    MulMonotone(f, n);
    ModSmall(n);
    ModSmall(n * f);
  }

  lemma ModSmall(x: nat)
    requires x < U32_LIMIT
    ensures x % U32_LIMIT == x
  {
  }

  /**
   * choose as written in complex.rs:20-25, in a release build: the
   * factorials are u32 values that wrap at 2^32, and None is the panic of
   * a u32 division by zero when the wrapped divisor is 0.  (A debug build
   * panics at the first overflowing multiplication instead.)
   */
  function ChooseU32(n: nat, r: nat): (c: Option<nat>)
    requires n >= r
    ensures r == 0 || r == n ==> c == Some(1)
    ensures 0 < r < n && (r == 1 || r == n - 1) ==> c == Some(n)
    ensures c.None? <==> 1 < r < n - 1 && MulU32(FactU32(r), FactU32(n - r)) == 0
  {
    if r == 0 || r == n then Some(1)
    else if r == 1 || r == n - 1 then Some(n)
    else
      var d := MulU32(FactU32(r), FactU32(n - r));
      if d == 0 then None else Some(FactU32(n) / d)
  }

  /** Up to n = 12 (12! < 2^32) the u32 closed form is the binomial coefficient. */
  lemma ChooseU32Exact(n: nat, r: nat)
    requires r <= n <= 12
    ensures ChooseU32(n, r) == Some(Choose(n, r))
  {
    if 1 < r < n - 1 {
      FactBelowLimit(n);
      FactMonotone(r, n);
      FactMonotone(n - r, n);
      FactU32Exact(n);
      FactU32Exact(r);
      FactU32Exact(n - r);
      ClosedFormDivisor(n, r);
      MulU32Exact(Fact(r), Fact(n - r));
      assert MulU32(FactU32(r), FactU32(n - r)) == Denominator(n, r);
    }
  }

  lemma MulU32Exact(a: nat, b: nat)
    requires a * b < U32_LIMIT
    ensures MulU32(a, b) == a * b
  {
  }

  lemma ClosedFormDivisor(n: nat, r: nat)
    requires r <= n && Fact(n) < U32_LIMIT
    ensures Denominator(n, r) < U32_LIMIT
  {
    ClosedForm(n, r);
    FactorBelow(Binomial(n, r), Denominator(n, r), Fact(n));
  }

  /** A factor of a positive product is at most the product. */
  lemma FactorBelow(b: nat, d: nat, m: nat)
    requires b * d == m && m >= 1
    ensures d <= m
  {
    if b >= 1 { MulMonotone(b, d); }
  }

  lemma FactBelowLimit(n: nat)
    requires n <= 12
    ensures Fact(n) < U32_LIMIT
  {
    FactMonotone(n, 12);
    assert Fact(12) == 479001600;
  }

  /** At n = 13 the u32 factorials wrap: choose(13, 2) yields 24, not 78. */
  lemma ChooseU32Overflow()
    ensures ChooseU32(13, 2) == Some(24)
    ensures Choose(13, 2) == 78
  {
    assert FactU32(2) == 2;
    assert FactU32(3) == 6;
    assert FactU32(4) == 24;
    assert FactU32(5) == 120;
    assert FactU32(6) == 720;
    assert FactU32(7) == 5040;
    assert FactU32(8) == 40320;
    assert FactU32(9) == 362880;
    assert FactU32(10) == 3628800;
    assert FactU32(11) == 39916800;
    assert FactU32(12) == 479001600;
    assert FactU32(13) == 1932053504;
    assert Fact(11) == 39916800;
    assert Fact(13) == 6227020800;
  }

  /**
   * choose(40, 20) panics in a release build: 20! wrapped to u32 is a
   * multiple of 2^18, so the wrapped divisor 20! * 20! is 0.
   */
  lemma ChooseU32DivByZero()
    ensures MulU32(FactU32(20), FactU32(20)) == 0
    ensures ChooseU32(40, 20) == None
    ensures !ChooseU32DefinedBelow(40, 41)
  {
    assert FactU32(2) == 2;
    assert FactU32(3) == 6;
    assert FactU32(4) == 24;
    assert FactU32(5) == 120;
    assert FactU32(6) == 720;
    assert FactU32(7) == 5040;
    assert FactU32(8) == 40320;
    assert FactU32(9) == 362880;
    assert FactU32(10) == 3628800;
    assert FactU32(11) == 39916800;
    assert FactU32(12) == 479001600;
    assert FactU32(13) == 1932053504;
    assert FactU32(14) == 1278945280;
    assert FactU32(15) == 2004310016;
    assert FactU32(16) == 2004189184;
    assert FactU32(17) == 4006445056;
    assert FactU32(18) == 3396534272;
    assert FactU32(19) == 109641728;
    assert FactU32(20) == 2192834560;
  }

  // ---------------------------------------------------------------
  // complex numbers
  // ---------------------------------------------------------------

  datatype Complex = Complex(re: real, im: real)

  const Zero := Complex(0.0, 0.0)
  const One := Complex(1.0, 0.0)

  function Add(a: Complex, b: Complex): Complex
  {
    Complex(a.re + b.re, a.im + b.im)
  }

  function Mul(a: Complex, b: Complex): Complex
  {
    Complex(a.re * b.re - a.im * b.im, a.re * b.im + a.im * b.re)
  }

  /** Multiplication by a real (complex.rs:400-409). */
  function Scale(a: Complex, k: real): Complex
  {
    Complex(a.re * k, a.im * k)
  }

  /** Multiplying by a real is multiplying by a number on the real axis. */
  lemma ScaleIsMul(a: Complex, k: real)
    ensures Scale(a, k) == Mul(a, Complex(k, 0.0))
  {
  }

  /** Subtraction (complex.rs:379-388). */
  function Sub(a: Complex, b: Complex): Complex
  {
    Complex(a.re - b.re, a.im - b.im)
  }

  /** Subtraction undoes addition. */
  lemma SubAdd(a: Complex, b: Complex)
    ensures Add(Sub(a, b), b) == a
    ensures Sub(Add(a, b), b) == a
  {
  }

  /** The conjugate (complex.rs:339-344). */
  function Conjugate(z: Complex): Complex
  {
    Complex(z.re, -z.im)
  }

  /** Conjugation reflects across the real axis: it is an involution. */
  lemma ConjugateInvolution(z: Complex)
    ensures Conjugate(Conjugate(z)) == z
    ensures Conjugate(z) == z <==> z.im == 0.0
  {
  }

  /** A number times its conjugate is the real |z|^2. */
  lemma ConjugateProduct(z: Complex)
    ensures Mul(z, Conjugate(z)) == Complex(AbsSquared(z), 0.0)
  {
  }

  /** |z|^2 (complex.rs:335-337). */
  function AbsSquared(z: Complex): real
  {
    z.re * z.re + z.im * z.im
  }

  /** Squared distance to another number (complex.rs:351-356). */
  function Distance2(a: Complex, b: Complex): real
  {
    AbsSquared(Sub(a, b))
  }

  /** The squared distance is symmetric and vanishes between equal numbers. */
  lemma Distance2Symmetric(a: Complex, b: Complex)
    ensures Distance2(a, b) == Distance2(b, a)
    ensures Distance2(a, a) == 0.0
  {
    var d := Sub(a, b);
    NegSquare(d.re);
    NegSquare(d.im);
  }

  lemma NegSquare(x: real)
    ensures (-x) * (-x) == x * x
  {
  }

  /** square (complex.rs:328-333). */
  function Square(z: Complex): Complex
  {
    Complex(z.re * z.re - z.im * z.im, 2.0 * z.re * z.im)
  }

  /** Squaring is multiplying a number by itself. */
  lemma SquareIsMul(z: Complex)
    ensures Square(z) == Mul(z, z)
  {
  }

  /**
   * Division (complex.rs:410-420): multiply by the conjugate and divide
   * by |rhs|^2. A zero divisor (a NaN result) is outside the model.
   */
  function Div(a: Complex, b: Complex): Complex
    requires AbsSquared(b) != 0.0
  {
    var n := Mul(a, Conjugate(b));
    var d := AbsSquared(b);
    Complex(n.re / d, n.im / d)
  }

  /** The quotient times the divisor gives back the dividend. */
  lemma DivMul(a: Complex, b: Complex)
    requires AbsSquared(b) != 0.0
    ensures Mul(Div(a, b), b) == a
  {
    DivTimes(a, b, Mul(a, Conjugate(b)), AbsSquared(b));
  }

  lemma DivTimes(a: Complex, b: Complex, n: Complex, d: real)
    requires d == b.re * b.re + b.im * b.im && d != 0.0
    requires n == Mul(a, Complex(b.re, -b.im))
    ensures Mul(Complex(n.re / d, n.im / d), b) == a
  {
    var x, y := n.re / d, n.im / d;
    assert x * d == n.re && y * d == n.im;
    assert (x * b.re - y * b.im) * d == n.re * b.re - n.im * b.im;
    assert n.re * b.re - n.im * b.im == a.re * d;
    assert (x * b.im + y * b.re) * d == n.re * b.im + n.im * b.re;
    assert n.re * b.im + n.im * b.re == a.im * d;
  }

  /** z^n by repeated multiplication: the reference for pow. */
  function CPow(z: Complex, n: nat): Complex
  {
    if n == 0 then One else Mul(z, CPow(z, n - 1))
  }

  function RPow(x: real, n: nat): real
  {
    if n == 0 then 1.0 else x * RPow(x, n - 1)
  }

  /** Multiplication by i: a quarter turn. */
  function TimesI(z: Complex): Complex
  {
    Complex(-z.im, z.re)
  }

  /** i^k. */
  function IPow(k: nat): Complex
  {
    if k == 0 then One else TimesI(IPow(k - 1))
  }

  /** k mod 4, counted one step at a time. */
  function Quarter(k: nat): (q: nat)
    ensures q < 4
  {
    if k == 0 then 0 else if Quarter(k - 1) == 3 then 0 else Quarter(k - 1) + 1
  }

  lemma {:induction false} QuarterIsMod(k: nat)
    ensures Quarter(k) == k % 4
  {
    if k > 0 { QuarterIsMod(k - 1); }
  }

  /** c placed on the axis that q quarter turns select: what pow adds for one term. */
  function Rotate(c: real, q: nat): Complex
  {
    if q == 0 then Complex(c, 0.0)
    else if q == 1 then Complex(0.0, c)
    else if q == 2 then Complex(-c, 0.0)
    else Complex(0.0, -c)
  }

  /** The coefficient C(n,i) * im^(n-i) * re^i of pow's i-th term. */
  function Coefficient(z: Complex, n: nat, i: nat): real
    requires i <= n
  {
    (Binomial(n, i) as real) * RPow(z.im, n - i) * RPow(z.re, i)
  }

  lemma CoefficientIs(z: Complex, n: nat, i: nat, b: nat)
    requires i <= n && b == Binomial(n, i)
    ensures Coefficient(z, n, i) == (b as real) * RPow(z.im, n - i) * RPow(z.re, i)
  {
  }

  /** The i-th term: the coefficient turned by i^(n-i). */
  function PowTerm(z: Complex, n: nat, i: nat): Complex
    requires i <= n
  {
    Rotate(Coefficient(z, n, i), Quarter(n - i))
  }

  /** The sum of the first k binomial terms. */
  function PowSum(z: Complex, n: nat, k: nat): Complex
    requires k <= n + 1
  {
    if k == 0 then Zero else Add(PowSum(z, n, k - 1), PowTerm(z, n, k - 1))
  }

  /**
   * pow (complex.rs:300-315), corrected to exact binomial coefficients:
   * sums the binomial expansion of (re + i*im)^n term by term, and the
   * result is z^n for every n.  PowAsWritten below keeps the source's u32
   * choose.
   */
  method Pow(z: Complex, n: nat) returns (p: Complex)
    ensures p == CPow(z, n)
  {
    var re, im := 0.0, 0.0;
    var i := 0;
    while i <= n
      invariant i <= n + 1
      invariant Complex(re, im) == PowSum(z, n, i)
    {
      var bPow := n - i;
      var coefficient := (Choose(n, i) as real) * RPow(z.im, bPow) * RPow(z.re, i);
      CoefficientIs(z, n, i, Choose(n, i));
      PowSumStep(z, n, i, coefficient);
      QuarterIsMod(bPow);
      re, im := AddTerm(re, im, coefficient, bPow % 4);
      i := i + 1;
    }
    BinomialTheorem(z, n);
    p := Complex(re, im);
  }

  /** No u32 coefficient choose(n, i) with i < k panics. */
  predicate ChooseU32DefinedBelow(n: nat, k: nat)
    requires k <= n + 1
  {
    forall i :: 0 <= i < k ==> ChooseU32(n, i).Some?
  }

  /** pow's coefficient b * im^(n-i) * re^i for a given binomial value b. */
  function TermCoefficient(z: Complex, n: nat, i: nat, b: nat): real
    requires i <= n
  {
    (b as real) * RPow(z.im, n - i) * RPow(z.re, i)
  }

  /** The i-th term of pow's expansion for a given binomial value b. */
  function TermWith(z: Complex, n: nat, i: nat, b: nat): Complex
    requires i <= n
  {
    Rotate(TermCoefficient(z, n, i, b), Quarter(n - i))
  }

  /** The sum of the first k terms with u32 coefficients. */
  function PowSumU32(z: Complex, n: nat, k: nat): Complex
    requires k <= n + 1 && ChooseU32DefinedBelow(n, k)
  {
    if k == 0 then Zero else Add(PowSumU32(z, n, k - 1), TermWith(z, n, k - 1, ChooseU32(n, k - 1).value))
  }

  /** One more defined coefficient extends the u32 sum by its term. */
  lemma PowSumU32Step(z: Complex, n: nat, i: nat, b: nat)
    requires i <= n && ChooseU32DefinedBelow(n, i) && ChooseU32(n, i) == Some(b)
    ensures ChooseU32DefinedBelow(n, i + 1)
    ensures PowSumU32(z, n, i + 1) == Add(PowSumU32(z, n, i), TermWith(z, n, i, b))
  {
  }

  /** With the exact coefficient the term is pow's corrected term. */
  lemma TermWithBinomial(z: Complex, n: nat, i: nat)
    requires i <= n
    ensures TermWith(z, n, i, Binomial(n, i)) == PowTerm(z, n, i)
  {
  }

  /** Up to n = 12 the u32 coefficients never panic and the sums agree term by term. */
  lemma {:induction false} PowSumU32Exact(z: Complex, n: nat, k: nat)
    requires n <= 12 && k <= n + 1
    ensures ChooseU32DefinedBelow(n, k) && PowSumU32(z, n, k) == PowSum(z, n, k)
  {
    if k > 0 {
      PowSumU32Exact(z, n, k - 1);
      ChooseU32Exact(n, k - 1);
      TermWithBinomial(z, n, k - 1);
      PowSumU32Step(z, n, k - 1, Binomial(n, k - 1));
    }
  }

  /** A coefficient that panics makes the whole sum undefined, and only happens from n = 13 on. */
  lemma PanicAbove12(n: nat, i: nat)
    requires i <= n && ChooseU32(n, i).None?
    ensures !ChooseU32DefinedBelow(n, n + 1) && n > 12
  {
    if n <= 12 {
      ChooseU32Exact(n, i);
    }
  }

  /**
   * pow as written (complex.rs:300-315), with choose on u32 as a release
   * build computes it: None is a division-by-zero panic inside choose.
   * The result is z^n up to n = 12; from n = 13 on the wrapped
   * coefficients are wrong (ChooseU32Overflow) or panic (ChooseU32DivByZero).
   */
  method PowAsWritten(z: Complex, n: nat) returns (p: Option<Complex>)
    ensures p.Some? <==> ChooseU32DefinedBelow(n, n + 1)
    ensures p.Some? ==> p.value == PowSumU32(z, n, n + 1)
    ensures n <= 12 ==> p == Some(CPow(z, n))
  {
    var re, im := 0.0, 0.0;
    var i := 0;
    while i <= n
      invariant i <= n + 1
      invariant ChooseU32DefinedBelow(n, i)
      invariant Complex(re, im) == PowSumU32(z, n, i)
    {
      var c := ChooseU32(n, i);
      if c.None? {
        PanicAbove12(n, i);
        return None;
      }
      var bPow := n - i;
      var coefficient := TermCoefficient(z, n, i, c.value);
      PowSumU32Step(z, n, i, c.value);
      QuarterIsMod(bPow);
      re, im := AddTerm(re, im, coefficient, bPow % 4);
      i := i + 1;
    }
    if n <= 12 {
      PowSumU32Exact(z, n, n + 1);
      BinomialTheorem(z, n);
    }
    p := Some(Complex(re, im));
  }

  /** The match in pow's loop: the term c goes to the component that q = (n - i) % 4 selects. */
  method AddTerm(re: real, im: real, c: real, q: nat) returns (re': real, im': real)
    requires q < 4
    ensures Complex(re', im') == Add(Complex(re, im), Rotate(c, q))
  {
    re', im' := re, im;
    match q {
      case 0 => re' := re + c;
      case 1 => im' := im + c;
      case 2 => re' := re - c;
      case 3 => im' := im - c;
    }
  }

  lemma PowSumStep(z: Complex, n: nat, i: nat, c: real)
    requires i <= n
    requires c == Coefficient(z, n, i)
    ensures PowSum(z, n, i + 1) == Add(PowSum(z, n, i), Rotate(c, Quarter(n - i)))
  {
  }

  lemma ScaleTimesI(w: Complex, c: real)
    ensures Scale(TimesI(w), c) == TimesI(Scale(w, c))
  {
  }

  /** Placing c by k quarter turns is scaling i^k by c. */
  lemma {:induction false} RotateIsScaledPower(c: real, k: nat)
    ensures Rotate(c, Quarter(k)) == Scale(IPow(k), c)
  {
    if k > 0 {
      RotateIsScaledPower(c, k - 1);
      ScaleTimesI(IPow(k - 1), c);
    } else {
      assert Scale(One, c) == Complex(c, 0.0);
    }
  }

  // --- the binomial theorem over complex numbers ---

  lemma MulAssoc(x: Complex, y: Complex, w: Complex)
    ensures Mul(x, Mul(y, w)) == Mul(Mul(x, y), w)
  {
  }

  lemma MulComm(x: Complex, y: Complex)
    ensures Mul(x, y) == Mul(y, x)
  {
  }

  lemma MulAddLeft(x: Complex, y: Complex, w: Complex)
    ensures Mul(x, Add(y, w)) == Add(Mul(x, y), Mul(x, w))
  {
  }

  lemma MulAddRight(x: Complex, y: Complex, w: Complex)
    ensures Mul(Add(x, y), w) == Add(Mul(x, w), Mul(y, w))
  {
  }

  lemma MulScale(x: Complex, y: Complex, c: real)
    ensures Mul(x, Scale(y, c)) == Scale(Mul(x, y), c)
  {
  }

  lemma ScaleAdd(y: Complex, c: real, d: real)
    ensures Scale(y, c + d) == Add(Scale(y, c), Scale(y, d))
  {
  }

  /** C(n,i) a^i b^(n-i). */
  function BTerm(a: Complex, b: Complex, n: nat, i: nat): Complex
    requires i <= n
  {
    Scale(Mul(CPow(a, i), CPow(b, n - i)), Binomial(n, i) as real)
  }

  function BSum(a: Complex, b: Complex, n: nat, k: nat): Complex
    requires k <= n + 1
  {
    if k == 0 then Zero else Add(BSum(a, b, n, k - 1), BTerm(a, b, n, k - 1))
  }

  /** Pascal's rule splits a term of degree n+1 into a*term + b*term of degree n. */
  lemma {:induction false} TermSplit(a: Complex, b: Complex, n: nat, k: nat)
    requires 1 <= k <= n
    ensures BTerm(a, b, n + 1, k) == Add(Mul(a, BTerm(a, b, n, k - 1)), Mul(b, BTerm(a, b, n, k)))
  {
    var m := Mul(CPow(a, k), CPow(b, n + 1 - k));
    var c1, c2 := Binomial(n, k - 1) as real, Binomial(n, k) as real;
    assert Binomial(n + 1, k) as real == c1 + c2;
    ScaleAdd(m, c1, c2);
    calc {
      Mul(a, BTerm(a, b, n, k - 1));
      { MulScale(a, Mul(CPow(a, k - 1), CPow(b, n + 1 - k)), c1); }
      Scale(Mul(a, Mul(CPow(a, k - 1), CPow(b, n + 1 - k))), c1);
      { MulAssoc(a, CPow(a, k - 1), CPow(b, n + 1 - k)); }
      Scale(m, c1);
    }
    calc {
      Mul(b, BTerm(a, b, n, k));
      { MulScale(b, Mul(CPow(a, k), CPow(b, n - k)), c2); }
      Scale(Mul(b, Mul(CPow(a, k), CPow(b, n - k))), c2);
      { MulAssoc(b, CPow(a, k), CPow(b, n - k));
        MulComm(b, CPow(a, k));
        MulAssoc(CPow(a, k), b, CPow(b, n - k)); }
      Scale(m, c2);
    }
  }

  lemma {:induction false} SumSplit(a: Complex, b: Complex, n: nat, k: nat)
    requires 1 <= k <= n + 1
    ensures BSum(a, b, n + 1, k) == Add(Mul(a, BSum(a, b, n, k - 1)), Mul(b, BSum(a, b, n, k)))
  {
    if k == 1 {
      assert CPow(b, n + 1) == Mul(b, CPow(b, n));
      MulComm(One, CPow(b, n + 1));
      MulComm(One, CPow(b, n));
      MulScale(b, Mul(One, CPow(b, n)), 1.0);
    } else {
      SumSplit(a, b, n, k - 1);
      TermSplit(a, b, n, k - 1);
      MulAddLeft(a, BSum(a, b, n, k - 2), BTerm(a, b, n, k - 2));
      MulAddLeft(b, BSum(a, b, n, k - 1), BTerm(a, b, n, k - 1));
    }
  }

  lemma {:induction false} BinomialSum(a: Complex, b: Complex, n: nat)
    ensures BSum(a, b, n, n + 1) == CPow(Add(a, b), n)
  {
    if n > 0 {
      var m := n - 1;
      BinomialSum(a, b, m);
      var s := BSum(a, b, m, m + 1);
      SumSplit(a, b, m, m + 1);
      BinomialDiagonal(n);
      BinomialDiagonal(m);
      // the top term: a^n
      assert BTerm(a, b, n, n) == CPow(a, n) by {
        MulComm(CPow(a, n), One);
        MulComm(One, CPow(a, n));
      }
      assert Mul(a, s) == Add(Mul(a, BSum(a, b, m, m)), CPow(a, n)) by {
        MulAddLeft(a, BSum(a, b, m, m), BTerm(a, b, m, m));
        assert BTerm(a, b, m, m) == CPow(a, m) by {
          MulComm(CPow(a, m), One);
          MulComm(One, CPow(a, m));
        }
      }
      MulAddRight(a, b, s);
    }
  }

  /** Powers of the real part a = re of z stay on the real axis. */
  lemma {:induction false} RealAxisPower(x: real, k: nat)
    ensures CPow(Complex(x, 0.0), k) == Complex(RPow(x, k), 0.0)
  {
    if k > 0 {
      RealAxisPower(x, k - 1);
      var p := RPow(x, k - 1);
      calc {
        CPow(Complex(x, 0.0), k);
        Mul(Complex(x, 0.0), CPow(Complex(x, 0.0), k - 1));
        Mul(Complex(x, 0.0), Complex(p, 0.0));
        { RealTimesReal(x, p); }
        Complex(x * p, 0.0);
      }
    }
  }

  lemma RealTimesReal(x: real, p: real)
    ensures Mul(Complex(x, 0.0), Complex(p, 0.0)) == Complex(x * p, 0.0)
  {
  }

  /** Powers of the imaginary part b = i*im of z are im^k times i^k. */
  lemma {:induction false} ImaginaryAxisPower(y: real, k: nat)
    ensures CPow(Complex(0.0, y), k) == Scale(IPow(k), RPow(y, k))
  {
    if k > 0 {
      ImaginaryAxisPower(y, k - 1);
      var w, p := IPow(k - 1), RPow(y, k - 1);
      calc {
        CPow(Complex(0.0, y), k);
        Mul(Complex(0.0, y), CPow(Complex(0.0, y), k - 1));
        Mul(Complex(0.0, y), Scale(w, p));
        { ImaginaryTimes(y, w, p); }
        Scale(TimesI(w), y * p);
        { assert IPow(k) == TimesI(w) && RPow(y, k) == y * p; }
        Scale(IPow(k), RPow(y, k));
      }
    }
  }

  lemma ImaginaryTimes(y: real, w: Complex, p: real)
    ensures Mul(Complex(0.0, y), Scale(w, p)) == Scale(TimesI(w), y * p)
  {
  }

  lemma RealTimes(x: real, w: Complex, p: real, c: real)
    ensures Scale(Mul(Complex(x, 0.0), Scale(w, p)), c) == Scale(w, c * p * x)
  {
  }

  lemma {:induction false} PowTermIsBTerm(z: Complex, n: nat, i: nat)
    requires i <= n
    ensures PowTerm(z, n, i) == BTerm(Complex(z.re, 0.0), Complex(0.0, z.im), n, i)
  {
    var a, b := Complex(z.re, 0.0), Complex(0.0, z.im);
    var x, p, c := RPow(z.re, i), RPow(z.im, n - i), Binomial(n, i) as real;
    calc {
      BTerm(a, b, n, i);
      Scale(Mul(CPow(a, i), CPow(b, n - i)), c);
      { RealAxisPower(z.re, i); ImaginaryAxisPower(z.im, n - i); }
      Scale(Mul(Complex(x, 0.0), Scale(IPow(n - i), p)), c);
      { RealTimes(x, IPow(n - i), p, c); }
      Scale(IPow(n - i), c * p * x);
      { RotateIsScaledPower(c * p * x, n - i); }
      Rotate(c * p * x, Quarter(n - i));
      { CoefficientIs(z, n, i, Binomial(n, i)); }
      PowTerm(z, n, i);
    }
  }

  lemma {:induction false} PowSumIsBSum(z: Complex, n: nat, k: nat)
    requires k <= n + 1
    ensures PowSum(z, n, k) == BSum(Complex(z.re, 0.0), Complex(0.0, z.im), n, k)
  {
    if k > 0 {
      PowSumIsBSum(z, n, k - 1);
      PowTermIsBTerm(z, n, k - 1);
    }
  }

  /** The sum pow computes is the binomial expansion of z^n. */
  lemma BinomialTheorem(z: Complex, n: nat)
    ensures PowSum(z, n, n + 1) == CPow(z, n)
  {
    PowSumIsBSum(z, n, n + 1);
    BinomialSum(Complex(z.re, 0.0), Complex(0.0, z.im), n);
  }

  /** The test case of complex.rs:739-742: (1+2i)^2 = -3+4i. */
  lemma SquareExample()
    ensures Square(Complex(1.0, 2.0)) == Complex(-3.0, 4.0)
  {
  }

  /** The test case of complex.rs:760-765: (2-5i)^3 = -142+65i. */
  lemma PowExample()
    ensures CPow(Complex(2.0, -5.0), 3) == Complex(-142.0, 65.0)
  {
  }

  /** The test case of complex.rs:768-775: (3+5i)(2+7i) = -29+31i. */
  lemma TimesExample()
    ensures Mul(Complex(3.0, 5.0), Complex(2.0, 7.0)) == Complex(-29.0, 31.0)
  {
  }

  // ---------------------------------------------------------------
  // double and arbitrary precision
  // ---------------------------------------------------------------

  /** ComplexType (complex.rs:40-43); both precisions hold exact values here. */
  datatype ComplexType = Double(c: Complex) | Big(c: Complex)

  /** same_type (complex.rs:46-51): the given value in the precision of other. */
  function SameType(re: real, im: real, other: ComplexType): (r: ComplexType)
    ensures r.c == Complex(re, im)
    ensures r.Big? <==> other.Big?
  {
    match other
    case Double(_) => Double(Complex(re, im))
    case Big(_) => Big(Complex(re, im))
  }

  /** make_big (complex.rs:125-130). */
  function MakeBig(z: ComplexType): (r: ComplexType)
    ensures r.Big? && r.c == z.c
  {
    match z
    case Double(c) => Big(c)
    case Big(_) => z
  }

  /** make_double (complex.rs:133-138). */
  function MakeDouble(z: ComplexType): (r: ComplexType)
    ensures r.Double? && r.c == z.c
  {
    match z
    case Big(c) => Double(c)
    case Double(_) => z
  }

  /** Converting to the other precision and back returns the same number. */
  lemma PrecisionRoundTrip(z: ComplexType)
    ensures z.Double? ==> MakeDouble(MakeBig(z)) == z
    ensures z.Big? ==> MakeBig(MakeDouble(z)) == z
  {
  }
}
