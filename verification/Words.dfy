// Register-sized words. A value of width w is a natural below Modulus(w);
// Fit wraps any integer into that range (two's complement), which is what
// width_mask, an integer cast and an LLVM `trunc` all do.
module Words {
  import opened Bits

  const M32: nat := 0x1_0000_0000
  const M64: nat := 0x1_0000_0000_0000_0000

  type Word = x: nat | x < M64

  datatype Width = B1 | B32 | B64

  function BitsOf(w: Width): nat {
    match w case B1 => 1 case B32 => 32 case B64 => 64
  }

  function Modulus(w: Width): nat {
    match w case B1 => 2 case B32 => M32 case B64 => M64
  }

  lemma SmallPowers()
    ensures Pow2(4) == 16 && Pow2(8) == 256 && Pow2(16) == 65536
  {
    Pow2Add(4, 4);
    Pow2Add(8, 8);
  }

  lemma ModulusIsPow2(w: Width)
    ensures Modulus(w) == Pow2(BitsOf(w))
  {
    SmallPowers();
    Pow2Add(16, 16);
    Pow2Add(32, 32);
  }

  function Fit(w: Width, x: int): (r: Word)
    ensures r < Modulus(w)
  {
    x % Modulus(w)
  }

  lemma FitSame(w: Width, x: int)
    requires 0 <= x < Modulus(w)
    ensures Fit(w, x) == x
  { }

  // Two's complement reading of a w-bit pattern.
  function Signed(w: Width, x: Word): int {
    var y := Fit(w, x);
    if y >= Modulus(w) / 2 then y - Modulus(w) else y
  }

  // It is the number of the pattern's class that lies within half the modulus.
  lemma SignedIs(w: Width, x: Word)
    ensures 0 <= Modulus(w) + 2 * Signed(w, x) < 2 * Modulus(w) && Fit(w, Signed(w, x)) == Fit(w, x)
  {
    var y: int := Fit(w, x);
    match w
    case B1 => assert Signed(B1, x) == -y;
    case B32 => assert Signed(B32, x) % M32 == y;
    case B64 => assert Signed(B64, x) % M64 == y;
  }

  lemma OrFits(w: Width, x: nat, y: nat)
    requires x < Modulus(w) && y < Modulus(w)
    ensures Or(x, y) < Modulus(w)
  {
    ModulusIsPow2(w);
    OrBound(x, y, BitsOf(w));
  }

  lemma XorFits(w: Width, x: nat, y: nat)
    requires x < Modulus(w) && y < Modulus(w)
    ensures Xor(x, y) < Modulus(w)
  {
    ModulusIsPow2(w);
    XorBound(x, y, BitsOf(w));
  }

  lemma PowFits(w: Width, i: nat)
    requires i < BitsOf(w)
    ensures Pow2(i) < Modulus(w)
  {
    ModulusIsPow2(w);
    Pow2Strict(i, BitsOf(w));
  }

  function Not64(x: Word): Word {
    XorFits(B64, x, M64 - 1);
    Xor(x, M64 - 1)
  }

  lemma AddMulMod(a: int, b: int, c: int, m: int)
    requires m > 0
    ensures ((a % m) * (b % m) + c) % m == (a * b + c) % m
  {
    var p, q := a / m, b / m;
    var k := p * b + (a % m) * q;
    assert a == p * m + a % m && b == q * m + b % m;
    assert a * b == (p * m + a % m) * b == p * m * b + (a % m) * (q * m + b % m);
    assert a * b == k * m + (a % m) * (b % m) by {
      assert p * m * b == p * b * m && (a % m) * (q * m) == (a % m) * q * m;
    }
    ModShift((a % m) * (b % m) + c, k, m);
  }

  lemma ModShift(x: int, k: int, m: int)
    requires m > 0
    ensures (x + k * m) % m == x % m
  {
    assert x + k * m == (x / m + k) * m + x % m;
    DivUnique(x + k * m, m, x / m + k, x % m);
  }

  lemma FitOfFit(w: Width, x: int)
    ensures Fit(w, Fit(B64, x)) == Fit(w, x)
  {
    var k := x / M64;
    var m := Modulus(w);
    assert x == k * M64 + x % M64;
    var j := M64 / m;
    assert k * M64 == (k * j) * m;
    ModShift(x % M64, k * j, m);
  }
}
