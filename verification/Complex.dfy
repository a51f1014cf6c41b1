// Exact complex arithmetic, powers, and the discrete Fourier sum.
module Complex {
  datatype Complex = C(re: real, im: real)

  const ZERO := C(0.0, 0.0)
  const ONE := C(1.0, 0.0)
  const MINUS_ONE := C(-1.0, 0.0)

  function Add(a: Complex, b: Complex): Complex { C(a.re + b.re, a.im + b.im) }
  function Sub(a: Complex, b: Complex): Complex { C(a.re - b.re, a.im - b.im) }
  function Mul(a: Complex, b: Complex): Complex { C(a.re * b.re - a.im * b.im, a.re * b.im + a.im * b.re) }
  function Scale(r: real, a: Complex): Complex { C(r * a.re, r * a.im) }

  lemma MulComm(a: Complex, b: Complex)
    ensures Mul(a, b) == Mul(b, a)
  { }

  lemma TimesReal(a: real, b: real, c: real)
    ensures (a * b) * c == a * (b * c)
  { }

  lemma SplitReal(a: real, b: real, c: real)
    ensures a * (b + c) == a * b + a * c && (b + c) * a == b * a + c * a
    ensures a * (b - c) == a * b - a * c && (b - c) * a == b * a - c * a
  { }

  lemma MulAssoc(a: Complex, b: Complex, c: Complex)
    ensures Mul(Mul(a, b), c) == Mul(a, Mul(b, c))
  {
    SplitReal(c.re, a.re * b.re, a.im * b.im);
    SplitReal(c.im, a.re * b.im, a.im * b.re);
    SplitReal(c.im, a.re * b.re, a.im * b.im);
    SplitReal(c.re, a.re * b.im, a.im * b.re);
    SplitReal(a.re, b.re * c.re, b.im * c.im);
    SplitReal(a.im, b.re * c.im, b.im * c.re);
    SplitReal(a.re, b.re * c.im, b.im * c.re);
    SplitReal(a.im, b.re * c.re, b.im * c.im);
    TimesReal(a.re, b.re, c.re); TimesReal(a.im, b.im, c.re); TimesReal(a.re, b.im, c.im); TimesReal(a.im, b.re, c.im);
    TimesReal(a.re, b.re, c.im); TimesReal(a.im, b.im, c.im); TimesReal(a.re, b.im, c.re); TimesReal(a.im, b.re, c.re);
  }

  lemma MulAdd(a: Complex, b: Complex, c: Complex)
    ensures Mul(a, Add(b, c)) == Add(Mul(a, b), Mul(a, c))
  {
    SplitReal(a.re, b.re, c.re); SplitReal(a.im, b.im, c.im);
    SplitReal(a.re, b.im, c.im); SplitReal(a.im, b.re, c.re);
  }

  lemma MulUnits(a: Complex)
    ensures Mul(ONE, a) == a == Mul(a, ONE) && Mul(MINUS_ONE, a) == Sub(ZERO, a) && Mul(ZERO, a) == ZERO == Mul(a, ZERO)
  { }

  function Conj(a: Complex): Complex { C(a.re, -a.im) }
  function Norm(a: Complex): real { a.re * a.re + a.im * a.im }

  // A number times its mirror image is the square of its length ...
  lemma MulConj(a: Complex)
    ensures Mul(a, Conj(a)) == C(Norm(a), 0.0) == Mul(Conj(a), a)
  { }

  // ... and mirroring respects products: what makes these the complex numbers.
  lemma ConjMul(a: Complex, b: Complex)
    ensures Conj(Mul(a, b)) == Mul(Conj(a), Conj(b))
  { }

  lemma ScaleIsMul(r: real, a: Complex)
    ensures Scale(r, a) == Mul(C(r, 0.0), a)
  { }

  function Pow(w: Complex, e: nat): Complex {
    if e == 0 then ONE else Mul(Pow(w, e - 1), w)
  }

  lemma {:induction false} PowAdd(w: Complex, a: nat, b: nat)
    ensures Pow(w, a + b) == Mul(Pow(w, a), Pow(w, b))
  {
    hide Mul;
    if b == 0 {
      MulUnits(Pow(w, a));
    } else {
      PowAdd(w, a, b - 1);
      MulAssoc(Pow(w, a), Pow(w, b - 1), w);
      assert Pow(w, a + b) == Mul(Pow(w, a + (b - 1)), w);
    }
  }

  lemma {:induction false} PowSquare(w: Complex, m: nat)
    ensures Pow(Mul(w, w), m) == Pow(w, 2 * m)
  {
    hide Mul;
    if m > 0 {
      PowSquare(w, m - 1);
      assert Pow(w, 2 * m) == Mul(Pow(w, 2 * m - 1), w) && Pow(w, 2 * m - 1) == Mul(Pow(w, 2 * (m - 1)), w);
      MulAssoc(Pow(w, 2 * (m - 1)), w, w);
    }
  }

  lemma {:induction false} PowOne(w: Complex, h: nat, t: nat)
    requires Pow(w, h) == ONE
    ensures Pow(w, h * t) == ONE
  {
    hide Mul;
    if t > 0 {
      PowOne(w, h, t - 1);
      PowAdd(w, h * (t - 1), h);
      assert h * (t - 1) + h == h * t;
      MulUnits(ONE);
    } else {
      assert h * t == 0;
    }
  }

  // sum over t < n of x(t) w^(t k)
  function Dft(x: nat -> Complex, w: Complex, n: nat, k: nat): Complex {
    if n == 0 then ZERO else Add(Dft(x, w, n - 1, k), Mul(x(n - 1), Pow(w, (n - 1) * k)))
  }

  function Evens(x: nat -> Complex): nat -> Complex { (t: nat) => x(2 * t) }
  function Odds(x: nat -> Complex): nat -> Complex { (t: nat) => x(2 * t + 1) }

  // A sum of even length is the sum of its even terms plus a twisted sum of its odd ones.
  lemma {:induction false} DftSplit(x: nat -> Complex, w: Complex, m: nat, k: nat)
    ensures Dft(x, w, 2 * m, k) ==
            Add(Dft(Evens(x), Mul(w, w), m, k), Mul(Pow(w, k), Dft(Odds(x), Mul(w, w), m, k)))
  {
    hide Mul; hide Pow;
    if m == 0 {
      MulUnits(Pow(w, k));
    } else {
      DftSplit(x, w, m - 1, k);
      var e, o := Dft(Evens(x), Mul(w, w), m - 1, k), Dft(Odds(x), Mul(w, w), m - 1, k);
      var p, a := Pow(w, k), Pow(Mul(w, w), (m - 1) * k);
      var x0, x1 := x(2 * m - 2), x(2 * m - 1);
      EvenPower(w, m - 1, k);
      OddPower(w, m - 1, k);
      assert Dft(x, w, 2 * m - 1, k) == Add(Dft(x, w, 2 * m - 2, k), Mul(x0, a));
      assert Dft(x, w, 2 * m, k) == Add(Dft(x, w, 2 * m - 1, k), Mul(x1, Mul(p, a)));
      Swap(x1, p, a);
      MulAdd(p, o, Mul(x1, a));
    }
  }

  lemma EvenPower(w: Complex, t: nat, k: nat)
    ensures Pow(w, (2 * t) * k) == Pow(Mul(w, w), t * k)
  {
    hide Pow; hide Mul;
    PowSquare(w, t * k);
    assert (2 * t) * k == 2 * (t * k);
  }

  lemma OddPower(w: Complex, t: nat, k: nat)
    ensures Pow(w, (2 * t + 1) * k) == Mul(Pow(w, k), Pow(Mul(w, w), t * k))
  {
    hide Pow; hide Mul;
    EvenPower(w, t, k);
    PowAdd(w, k, (2 * t) * k);
    assert k + (2 * t) * k == (2 * t + 1) * k;
  }

  lemma Swap(a: Complex, b: Complex, c: Complex)
    ensures Mul(a, Mul(b, c)) == Mul(b, Mul(a, c))
  {
    hide Mul;
    MulAssoc(a, b, c);
    MulComm(a, b);
    MulAssoc(b, a, c);
  }

  // The sum repeats after a full turn.
  lemma {:induction false} DftPeriodic(x: nat -> Complex, w: Complex, n: nat, k: nat, h: nat)
    requires Pow(w, h) == ONE
    ensures Dft(x, w, n, k + h) == Dft(x, w, n, k)
  {
    hide Mul; hide Pow;
    if n > 0 {
      DftPeriodic(x, w, n - 1, k, h);
      PowOne(w, h, n - 1);
      PowAdd(w, (n - 1) * k, h * (n - 1));
      assert (n - 1) * k + h * (n - 1) == (n - 1) * (k + h);
      MulUnits(Pow(w, (n - 1) * k));
    }
  }

  lemma {:induction false} DftSame(x: nat -> Complex, y: nat -> Complex, w: Complex, n: nat, k: nat)
    requires forall t: nat :: t < n ==> x(t) == y(t)
    ensures Dft(x, w, n, k) == Dft(y, w, n, k)
  {
    hide Mul; hide Pow;
    if n > 0 { DftSame(x, y, w, n - 1, k); }
  }
}
