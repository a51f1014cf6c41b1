// Finite sums over the reals.
module Sums {
  import opened Bits

  function Sum(n: nat, f: nat -> real): real {
    if n == 0 then 0.0 else Sum(n - 1, f) + f(n - 1)
  }

  lemma {:induction false} SumSame(n: nat, f: nat -> real, g: nat -> real)
    requires forall i: nat :: i < n ==> f(i) == g(i)
    ensures Sum(n, f) == Sum(n, g)
  {
    if n > 0 { SumSame(n - 1, f, g); }
  }

  lemma {:induction false} SumPlus(n: nat, f: nat -> real, g: nat -> real)
    ensures Sum(n, (i: nat) => f(i) + g(i)) == Sum(n, f) + Sum(n, g)
  {
    if n > 0 { SumPlus(n - 1, f, g); }
  }

  lemma {:induction false} SumTimes(n: nat, c: real, f: nat -> real)
    ensures Sum(n, (i: nat) => c * f(i)) == c * Sum(n, f)
  {
    if n > 0 {
      SumTimes(n - 1, c, f);
      Distribute(c, Sum(n - 1, f), f(n - 1));
    }
  }

  lemma Distribute(c: real, a: real, b: real)
    ensures c * (a + b) == c * a + c * b
  { }

  lemma {:induction false} SumNothing(n: nat, f: nat -> real)
    requires forall i: nat :: i < n ==> f(i) == 0.0
    ensures Sum(n, f) == 0.0
  {
    if n > 0 { SumNothing(n - 1, f); }
  }

  // At most one term is not zero.
  lemma {:induction false} SumOne(n: nat, k: int, f: nat -> real)
    requires forall i: nat :: i < n && i != k ==> f(i) == 0.0
    ensures Sum(n, f) == if 0 <= k < n then f(k) else 0.0
  {
    if n > 0 { SumOne(n - 1, k, f); }
  }

  function Row(f: (nat, nat) -> real, i: nat): nat -> real { (j: nat) => f(i, j) }
  function Inner(m: nat, f: (nat, nat) -> real): nat -> real { (i: nat) => Sum(m, Row(f, i)) }
  function Flip(f: (nat, nat) -> real): (nat, nat) -> real { (i: nat, j: nat) => f(j, i) }

  // The order of two sums does not matter.
  lemma {:induction false} SumSwap(n: nat, m: nat, f: (nat, nat) -> real)
    ensures Sum(n, Inner(m, f)) == Sum(m, Inner(n, Flip(f)))
  {
    if n == 0 {
      SumNothing(m, Inner(0, Flip(f)));
    } else {
      SumSwap(n - 1, m, f);
      var last := Row(f, n - 1);
      SumPlus(m, Inner(n - 1, Flip(f)), last);
      SumSame(m, Inner(n, Flip(f)), (j: nat) => Inner(n - 1, Flip(f))(j) + last(j));
    }
  }

  // Two nested sums as one over the flattened index.
  function Flat(b: nat, f: (nat, nat) -> real): nat -> real
    requires b > 0
  {
    (k: nat) => f(k / b, k % b)
  }

  lemma {:induction false} SumRow(a: nat, b: nat, f: (nat, nat) -> real, j: nat)
    requires b > 0 && j <= b
    ensures Sum(a * b + j, Flat(b, f)) == Sum(a * b, Flat(b, f)) + Sum(j, Row(f, a))
  {
    if j > 0 {
      SumRow(a, b, f, j - 1);
      DivUnique(a * b + (j - 1), b, a, j - 1);
      assert Sum(a * b + j, Flat(b, f)) == Sum(a * b + (j - 1), Flat(b, f)) + f(a, j - 1);
    }
  }

  lemma {:induction false} SumFlat(a: nat, b: nat, f: (nat, nat) -> real)
    requires b > 0
    ensures Sum(a * b, Flat(b, f)) == Sum(a, Inner(b, f))
  {
    if a > 0 {
      SumFlat(a - 1, b, f);
      SumRow(a - 1, b, f, b);
      assert (a - 1) * b + b == a * b;
    }
  }
}
