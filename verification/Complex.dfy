/** Complex numbers over exact reals, and their powers. */
module Complex {

  datatype Complex = C(re: real, im: real)

  const Zero := C(0.0, 0.0)
  const One := C(1.0, 0.0)

  function Add(a: Complex, b: Complex): Complex {
    C(a.re + b.re, a.im + b.im)
  }

  function Sub(a: Complex, b: Complex): Complex {
    C(a.re - b.re, a.im - b.im)
  }

  function Neg(a: Complex): Complex {
    C(-a.re, -a.im)
  }

  function Mul(a: Complex, b: Complex): Complex {
    C(a.re * b.re - a.im * b.im, a.re * b.im + a.im * b.re)
  }

  function Conj(a: Complex): Complex {
    C(a.re, -a.im)
  }

  function Scale(r: real, a: Complex): Complex {
    C(r * a.re, r * a.im)
  }

  function Pow(w: Complex, n: nat): Complex {
    if n == 0 then One else Mul(w, Pow(w, n - 1))
  }

  // ----- ring laws

  lemma MulAssoc(a: Complex, b: Complex, c: Complex)
    ensures Mul(Mul(a, b), c) == Mul(a, Mul(b, c))
  {
    var l, r := Mul(Mul(a, b), c), Mul(a, Mul(b, c));
    assert l.re == a.re * b.re * c.re - a.im * b.im * c.re - a.re * b.im * c.im - a.im * b.re * c.im == r.re;
    assert l.im == a.re * b.re * c.im - a.im * b.im * c.im + a.re * b.im * c.re + a.im * b.re * c.re == r.im;
  }

  lemma MulComm(a: Complex, b: Complex)
    ensures Mul(a, b) == Mul(b, a)
  {
  }

  lemma MulAdd(a: Complex, b: Complex, c: Complex)
    ensures Mul(a, Add(b, c)) == Add(Mul(a, b), Mul(a, c))
  {
  }

  lemma AddAssoc(a: Complex, b: Complex, c: Complex)
    ensures Add(Add(a, b), c) == Add(a, Add(b, c))
  {
  }

  lemma MulOne(a: Complex)
    ensures Mul(One, a) == a == Mul(a, One)
    ensures Mul(Neg(One), a) == Neg(a) == Mul(a, Neg(One))
    ensures Mul(Zero, a) == Zero == Mul(a, Zero)
    ensures Neg(Neg(a)) == a
    ensures Add(Zero, a) == a == Add(a, Zero)
  {
  }

  // (a b)(c d) == (a c)(b d)
  lemma MulSwap(a: Complex, b: Complex, c: Complex, d: Complex)
    ensures Mul(Mul(a, b), Mul(c, d)) == Mul(Mul(a, c), Mul(b, d))
  {
    hide *;
    MulAssoc(a, b, Mul(c, d));
    MulAssoc(b, c, d);
    MulComm(b, c);
    MulAssoc(c, b, d);
    MulAssoc(a, c, Mul(b, d));
  }

  // ----- powers

  lemma {:induction false} PowAdd(w: Complex, m: nat, n: nat)
    ensures Pow(w, m + n) == Mul(Pow(w, m), Pow(w, n))
  {
    if m == 0 {
      MulOne(Pow(w, n));
    } else {
      PowAdd(w, m - 1, n);
      assert Pow(w, m + n) == Mul(w, Pow(w, m - 1 + n));
      MulAssoc(w, Pow(w, m - 1), Pow(w, n));
    }
  }

  lemma {:induction false} PowMulBase(v: Complex, w: Complex, n: nat)
    ensures Pow(Mul(v, w), n) == Mul(Pow(v, n), Pow(w, n))
  {
    if n > 0 {
      PowMulBase(v, w, n - 1);
      MulSwap(v, w, Pow(v, n - 1), Pow(w, n - 1));
    }
  }

  lemma {:induction false} PowPow(w: Complex, m: nat, n: nat)
    ensures 0 <= m * n
    ensures Pow(Pow(w, m), n) == Pow(w, m * n)
  {
    if n > 0 {
      PowPow(w, m, n - 1);
      assert m * n == m + m * (n - 1);
      PowAdd(w, m, m * (n - 1));
    }
  }

  lemma PowTwo(w: Complex)
    ensures Pow(w, 1) == w
    ensures Pow(w, 2) == Mul(w, w)
  {
    MulOne(w);
    assert Pow(w, 1) == Mul(w, Pow(w, 0));
    assert Pow(w, 2) == Mul(w, Pow(w, 1));
  }

  // Powers of the square are the even powers.
  lemma PowSquare(w: Complex, n: nat)
    ensures Pow(Mul(w, w), n) == Pow(w, 2 * n) == Mul(Pow(w, n), Pow(w, n))
  {
    PowTwo(w);
    PowPow(w, 2, n);
    PowAdd(w, n, n);
  }
}
