// Natural numbers seen as strings of bits. Machine words of every width are
// naturals below a power of two; shifts are multiplication and division by
// powers of two, truncation is a remainder, and the bitwise operations are
// defined bit by bit. Two numbers with the same bits are equal (BitsDecide),
// which is how the branch-free bit tricks are compared with their bit loops.
module Bits {

  function Pow2(k: nat): (p: nat)
    ensures p >= 1
  {
    if k == 0 then 1 else 2 * Pow2(k - 1)
  }

  lemma Pow2Add(a: nat, b: nat)
    ensures Pow2(a + b) == Pow2(a) * Pow2(b)
  {
    if a != 0 {
      Pow2Add(a - 1, b);
      assert Pow2(a + b) == 2 * Pow2(a - 1 + b);
    }
  }

  function Min(a: nat, b: nat): nat { if a < b then a else b }

  lemma NatTimes(a: nat, b: nat)
    ensures a * b >= 0
  { }

  // Division of naturals, by name: it keeps the solver from looking inside.
  function Div(a: nat, b: nat): nat
    requires b > 0
  {
    DivNonneg(a, b);
    a / b
  }

  // The two shifts on naturals.
  function RShift(x: nat, k: nat): (r: nat)
    ensures r <= x
  {
    DivNonneg(x, Pow2(k));
    x / Pow2(k)
  }

  lemma DivNonneg(x: nat, p: nat)
    requires p > 0
    ensures 0 <= x / p <= x
  {
    var q := x / p;
    assert x == q * p + x % p;
    if q < 0 { MulAtLeast(-q, p); }
    if q > x { MulAtLeast(p, q); }
  }

  function LShift(x: nat, k: nat): nat {
    x * Pow2(k)
  }

  lemma Times256(k: nat)
    ensures Pow2(k + 8) == 256 * Pow2(k)
  {
    assert Pow2(k + 2) == 4 * Pow2(k);
    assert Pow2(k + 4) == 16 * Pow2(k);
    assert Pow2(k + 6) == 64 * Pow2(k);
  }

  lemma ScaleBound(a: int, b: int, p: nat)
    requires a <= b
    ensures a * p <= b * p
  {
    assert (b - a) * p >= 0;
  }

  lemma Pow2Mono(a: nat, b: nat)
    requires a <= b
    ensures Pow2(a) <= Pow2(b)
    decreases b - a
  {
    if a < b { Pow2Mono(a + 1, b); }
  }

  lemma Pow2Strict(a: nat, b: nat)
    requires a < b
    ensures Pow2(a) < Pow2(b)
  {
    Pow2Mono(a + 1, b);
  }

  // Bit i of x, counted from the low end.
  predicate Bit(x: nat, i: nat) {
    if i == 0 then x % 2 == 1 else Bit(x / 2, i - 1)
  }

  lemma {:induction false} BitsDecide(x: nat, y: nat)
    requires forall i: nat :: Bit(x, i) == Bit(y, i)
    ensures x == y
    decreases x + y
  {
    if x + y > 0 {
      assert Bit(x, 0) == Bit(y, 0);
      forall i: nat ensures Bit(x / 2, i) == Bit(y / 2, i) {
        assert Bit(x, i + 1) == Bit(y, i + 1);
      }
      BitsDecide(x / 2, y / 2);
    }
  }

  lemma {:induction false} BitOfZero(i: nat)
    ensures !Bit(0, i)
  {
    if i > 0 { BitOfZero(i - 1); }
  }

  lemma {:induction false} BitAbove(x: nat, w: nat, i: nat)
    requires x < Pow2(w) && w <= i
    ensures !Bit(x, i)
  {
    if w == 0 { BitOfZero(i); } else { BitAbove(x / 2, w - 1, i - 1); }
  }

  lemma {:induction false} BitShl(x: nat, k: nat, i: nat)
    ensures Bit(x * Pow2(k), i) == (k <= i && Bit(x, i - k))
  {
    if k > 0 {
      var y := x * Pow2(k - 1);
      assert x * Pow2(k) == 2 * y by {
        assert x * (2 * Pow2(k - 1)) == 2 * (x * Pow2(k - 1));
      }
      if i > 0 { BitShl(x, k - 1, i - 1); }
    }
  }

  lemma DivPow2(x: nat, k: nat)
    ensures x / Pow2(k + 1) == (x / 2) / Pow2(k)
  {
    var p := Pow2(k);
    var q, r := (x / 2) / p, (x / 2) % p;
    assert x / 2 == q * p + r;
    assert x == q * (2 * p) + (2 * r + x % 2);
    DivUnique(x, 2 * p, q, 2 * r + x % 2);
  }

  lemma MulAtLeast(a: int, d: int)
    requires a >= 1 && d >= 0
    ensures a * d >= d
  {
    assert (a - 1) * d >= 0;
  }

  // Quotient and remainder are determined by the division identity.
  lemma DivUnique(x: int, d: int, q: int, r: int)
    requires d > 0 && 0 <= r < d && x == q * d + r
    ensures x / d == q && x % d == r
  {
    var e := x / d - q;
    assert e * d == (x / d) * d - q * d;
    if e >= 1 { MulAtLeast(e, d); }
    if e <= -1 {
      MulAtLeast(-e, d);
    }
  }

  lemma {:induction false} BitShr(x: nat, k: nat, i: nat)
    ensures Bit(RShift(x, k), i) == Bit(x, i + k)
  {
    if k > 0 {
      DivPow2(x, k - 1);
      BitShr(x / 2, k - 1, i);
      assert Bit(x, i + k) == Bit(x / 2, i + k - 1);
    }
  }

  lemma {:induction false} BitMod(x: nat, w: nat, i: nat)
    ensures Bit(x % Pow2(w), i) == (i < w && Bit(x, i))
  {
    if w == 0 {
      BitOfZero(i);
    } else {
      var p := Pow2(w - 1);
      var q, r := (x / 2) / p, (x / 2) % p;
      assert x / 2 == q * p + r;
      assert x == q * (2 * p) + (2 * r + x % 2);
      DivUnique(x, 2 * p, q, 2 * r + x % 2);
      assert x % Pow2(w) == 2 * r + x % 2;
      if i > 0 { BitMod(x / 2, w - 1, i - 1); }
    }
  }

  // A block of k ones at the low end.
  lemma {:induction false} BitOnes(k: nat, i: nat)
    ensures Bit(Pow2(k) - 1, i) == (i < k)
  {
    if k == 0 {
      BitOfZero(i);
    } else if i > 0 {
      assert (Pow2(k) - 1) / 2 == Pow2(k - 1) - 1;
      BitOnes(k - 1, i - 1);
    }
  }

  // ---- bitwise operations --------------------------------------------------

  function And(x: nat, y: nat): (r: nat)
    ensures r <= x && r <= y
  {
    if x == 0 || y == 0 then 0
    else 2 * And(x / 2, y / 2) + (if x % 2 == 1 && y % 2 == 1 then 1 else 0)
  }

  function Or(x: nat, y: nat): nat
    decreases x + y
  {
    if x == 0 && y == 0 then 0
    else 2 * Or(x / 2, y / 2) + (if x % 2 == 1 || y % 2 == 1 then 1 else 0)
  }

  function Xor(x: nat, y: nat): nat
    decreases x + y
  {
    if x == 0 && y == 0 then 0
    else 2 * Xor(x / 2, y / 2) + (if x % 2 != y % 2 then 1 else 0)
  }

  lemma {:induction false} BitAnd(x: nat, y: nat, i: nat)
    ensures Bit(And(x, y), i) == (Bit(x, i) && Bit(y, i))
  {
    if x == 0 || y == 0 { BitOfZero(i); } else if i > 0 { BitAnd(x / 2, y / 2, i - 1); }
  }

  lemma {:induction false} BitOr(x: nat, y: nat, i: nat)
    ensures Bit(Or(x, y), i) == (Bit(x, i) || Bit(y, i))
  {
    if x == 0 && y == 0 { BitOfZero(i); } else if i > 0 { BitOr(x / 2, y / 2, i - 1); }
  }

  lemma {:induction false} BitXor(x: nat, y: nat, i: nat)
    ensures Bit(Xor(x, y), i) == (Bit(x, i) != Bit(y, i))
  {
    if x == 0 && y == 0 { BitOfZero(i); } else if i > 0 { BitXor(x / 2, y / 2, i - 1); }
  }

  lemma {:induction false} OrBound(x: nat, y: nat, w: nat)
    requires x < Pow2(w) && y < Pow2(w)
    ensures Or(x, y) < Pow2(w)
  {
    if w > 0 && x + y > 0 { OrBound(x / 2, y / 2, w - 1); }
  }

  lemma {:induction false} XorBound(x: nat, y: nat, w: nat)
    requires x < Pow2(w) && y < Pow2(w)
    ensures Xor(x, y) < Pow2(w)
  {
    if w > 0 && x + y > 0 { XorBound(x / 2, y / 2, w - 1); }
  }

  // Fields that do not overlap are joined by `or` exactly as by addition.
  lemma {:induction false} OrDisjoint(hi: nat, k: nat, lo: nat)
    requires lo < Pow2(k)
    ensures Or(hi * Pow2(k), lo) == hi * Pow2(k) + lo
  {
    if k == 0 {
      OrZero(hi);
    } else if hi * Pow2(k) + lo > 0 {
      var y := hi * Pow2(k - 1);
      assert hi * Pow2(k) == 2 * y by {
        assert hi * (2 * Pow2(k - 1)) == 2 * (hi * Pow2(k - 1));
      }
      OrDisjoint(hi, k - 1, lo / 2);
    }
  }

  lemma {:induction false} OrZero(x: nat)
    ensures Or(x, 0) == x
  {
    if x > 0 { OrZero(x / 2); }
  }

  lemma {:induction false} OrCommutes(x: nat, y: nat)
    ensures Or(x, y) == Or(y, x)
    decreases x + y
  {
    if x + y > 0 { OrCommutes(x / 2, y / 2); }
  }

  // Masking with a block of ones is a remainder.
  lemma AndOnes(x: nat, k: nat)
    ensures And(x, Pow2(k) - 1) == x % Pow2(k)
  {
    forall i: nat ensures Bit(And(x, Pow2(k) - 1), i) == Bit(x % Pow2(k), i) {
      BitAnd(x, Pow2(k) - 1, i);
      BitOnes(k, i);
      BitMod(x, k, i);
    }
    BitsDecide(And(x, Pow2(k) - 1), x % Pow2(k));
  }
}
