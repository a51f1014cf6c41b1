// Narrow and half floats (ptx.cpp): encode with rounding and saturation, decode
// with normalisation. A finite binary32 magnitude and a narrow field are both
// counted in steps: Steps(M, p) is the size of pattern p in units of the
// smallest subnormal, so comparing values is comparing integers.
module NarrowFloat {
  import opened Bits

  const P23: nat := 0x80_0000
  const INF32: nat := 0x7f80_0000
  const QNAN32: nat := 0x7fc0_0000
  const SIGN32: nat := 0x8000_0000

  type Bits32 = x: nat | x < 0x1_0000_0000

  // Size of pattern p of a format with M mantissa bits.
  function Steps(M: nat, p: nat): nat {
    if p < Pow2(M) then p else LShift(Pow2(M) + p % Pow2(M), Below(p / Pow2(M)))
  }

  function Below(e: int): nat { if e >= 1 then e - 1 else 0 }

  // ---- the step function grows ---------------------------------------------------

  // In binade t, up to and including its end.
  lemma StepsNormal(M: nat, t: nat, q: nat)
    requires t >= 1 && q <= Pow2(M)
    ensures Steps(M, t * Pow2(M) + q) == (Pow2(M) + q) * Pow2(t - 1)
  {
    var P := Pow2(M);
    MulAtLeast(t, P);
    if q < P {
      DivUnique(t * P + q, P, t, q);
    } else {
      assert t * P + q == (t + 1) * P;
      DivUnique((t + 1) * P, P, t + 1, 0);
      assert Pow2(t) == 2 * Pow2(t - 1);
      assert P * (2 * Pow2(t - 1)) == (P + P) * Pow2(t - 1);
    }
  }

  lemma StepsNext(M: nat, p: nat)
    ensures Steps(M, p) < Steps(M, p + 1)
  {
    hide Steps;
    var P := Pow2(M);
    if p < P {
      StepsSmall(M, p);
      if p + 1 < P { StepsSmall(M, p + 1); } else { StepsAtP(M); }
    } else {
      var t, q := p / P, p % P;
      assert p == t * P + q && t >= 1 by { DivAtLeast(p, P); }
      StepsNormal(M, t, q);
      StepsNormal(M, t, q + 1);
      assert (P + q + 1) * Pow2(t - 1) == (P + q) * Pow2(t - 1) + Pow2(t - 1);
    }
  }

  lemma StepsSmall(M: nat, p: nat)
    requires p < Pow2(M)
    ensures Steps(M, p) == p
  { }

  lemma StepsAtP(M: nat)
    ensures Steps(M, Pow2(M)) == Pow2(M)
  {
    StepsNormal(M, 1, 0);
  }

  lemma DivAtLeast(p: nat, P: nat)
    requires P > 0 && p >= P
    ensures p / P >= 1 && p == (p / P) * P + p % P
  { }

  lemma {:induction false} StepsStrict(M: nat, p: nat, q: nat)
    requires p < q
    ensures Steps(M, p) < Steps(M, q)
    decreases q
  {
    hide Steps;
    StepsNext(M, q - 1);
    if p < q - 1 { StepsStrict(M, p, q - 1); }
  }

  // ---- formats -----------------------------------------------------------------------

  datatype Format = Format(E: nat, M: nat, bias: nat, maxBits: nat, nanBits: nat, fieldShift: nat, fieldWidth: nat)

  const E4M3 := Format(4, 3, 7, 0x7E, 0x7F, 0, 8)
  const E5M2 := Format(5, 2, 15, 0x7B, 0x7F, 0, 8)
  const E3M2 := Format(3, 2, 3, 0x1F, 0, 0, 6)
  const E2M3 := Format(2, 3, 1, 0x1F, 0, 0, 6)
  const E2M1 := Format(2, 1, 1, 0x07, 0, 2, 4)

  function MaxExp(F: Format): nat { Pow2(F.E) - 1 }
  function AllMant(F: Format): nat { Pow2(F.M) - 1 }

  // Normals in the all-ones binade (e4m3): only the last pattern is NaN.
  predicate TopNormal(F: Format) { (F.maxBits / Pow2(F.M)) % Pow2(F.E) == MaxExp(F) }

  // The greatest finite pattern: everything, all but NaN, or all below the
  // all-ones exponent.
  predicate FormatOk(F: Format) {
    && F.E >= 2 && 1 <= F.M <= 22 && F.bias >= 1 && F.bias + F.M <= 126 && MaxExp(F) + 127 <= 254 + F.bias
    && F.fieldWidth == 1 + F.E + F.M
    && (F.nanBits == 0 ==> F.maxBits == Pow2(F.E) * Pow2(F.M) - 1)
    && (F.nanBits != 0 ==> F.nanBits == Pow2(F.E) * Pow2(F.M) - 1)
    && (F.nanBits != 0 && TopNormal(F) ==> F.maxBits == Pow2(F.E) * Pow2(F.M) - 2)
    && (F.nanBits != 0 && !TopNormal(F) ==> F.maxBits == MaxExp(F) * Pow2(F.M) - 1)
  }

  lemma FormatsOk()
    ensures FormatOk(E4M3) && FormatOk(E5M2) && FormatOk(E3M2) && FormatOk(E2M3) && FormatOk(E2M1)
    ensures TopNormal(E4M3) && !TopNormal(E5M2)
  {
    assert Pow2(1) == 2 && Pow2(2) == 4 && Pow2(3) == 8 && Pow2(4) == 16 && Pow2(5) == 32;
  }

  // The bias of each is the one its exponent width gives.
  lemma BiasOf(F: Format)
    requires F in [E4M3, E5M2, E3M2, E2M3, E2M1]
    ensures F.bias == Pow2(F.E - 1) - 1
  {
    assert Pow2(1) == 2 && Pow2(2) == 4 && Pow2(3) == 8 && Pow2(4) == 16;
  }

  // One step of F in units of the smallest binary32 subnormal is 2^Scale(F).
  function Scale(F: Format): nat
    requires FormatOk(F)
  {
    150 - F.bias - F.M
  }

  // Pattern p of F, in those units.
  function Size(F: Format, p: nat): nat
    requires FormatOk(F)
  {
    LShift(Steps(F.M, p), Scale(F))
  }

  lemma SizeStrict(F: Format, p: nat, q: nat)
    requires FormatOk(F) && p < q
    ensures Size(F, p) < Size(F, q)
  {
    hide Steps; hide Pow2;
    StepsStrict(F.M, p, q);
    ScaleBound(Steps(F.M, p) + 1, Steps(F.M, q), Pow2(Scale(F)));
    assert (Steps(F.M, p) + 1) * Pow2(Scale(F)) == Steps(F.M, p) * Pow2(Scale(F)) + Pow2(Scale(F));
  }

  lemma SizeMono(F: Format, p: nat, q: nat)
    requires FormatOk(F) && p <= q
    ensures Size(F, p) <= Size(F, q)
  {
    if p < q { SizeStrict(F, p, q); }
  }

  // ---- what rounding should do ------------------------------------------------------------

  function Dist(a: int, b: int): nat { if a >= b then a - b else b - a }

  // r is the pattern up to `top` whose value is nearest to m; on a tie, an even one.
  ghost predicate NearestEven(F: Format, top: nat, m: nat, r: nat)
    requires FormatOk(F)
  {
    r <= top && forall p: nat :: p <= top ==>
      Dist(m, Size(F, r)) <= Dist(m, Size(F, p)) && (p != r && Dist(m, Size(F, r)) == Dist(m, Size(F, p)) ==> r % 2 == 0)
  }

  // r is the largest pattern up to `top` that does not exceed m.
  ghost predicate Truncated(F: Format, top: nat, m: nat, r: nat)
    requires FormatOk(F)
  {
    r <= top && Size(F, r) <= m && forall p: nat :: p <= top && Size(F, p) <= m ==> p <= r
  }

  // m lies in the step from r0 to r0 + 1: `rem` parts of `2 half`, u units each.
  predicate Bracket(F: Format, m: nat, r0: nat, rem: nat, half: nat, u: nat)
    requires FormatOk(F)
  {
    u > 0 && rem < 2 * half && m == Size(F, r0) + rem * u && Size(F, r0 + 1) == Size(F, r0) + (2 * half) * u
  }

  predicate RoundsUp(rtz: bool, r0: nat, rem: nat, half: nat) { !rtz && (rem > half || (rem == half && r0 % 2 == 1)) }

  lemma BracketOrder(F: Format, m: nat, r0: nat, rem: nat, half: nat, u: nat)
    requires FormatOk(F) && Bracket(F, m, r0, rem, half, u)
    ensures Size(F, r0) <= m < Size(F, r0 + 1)
    ensures rem > half ==> Dist(m, Size(F, r0 + 1)) < Dist(m, Size(F, r0))
    ensures rem == half ==> Dist(m, Size(F, r0 + 1)) == Dist(m, Size(F, r0))
    ensures rem < half ==> Dist(m, Size(F, r0 + 1)) > Dist(m, Size(F, r0))
  {
    hide Size;
    var up := 2 * half - rem;
    assert (2 * half) * u == rem * u + up * u;
    Less(0, up, u);
    if rem > half { Less(up, rem, u); } else if rem < half { Less(rem, up, u); }
  }

  lemma Less(a: nat, b: nat, u: nat)
    requires a < b && u > 0
    ensures a * u < b * u
  {
    ScaleBound(a + 1, b, u);
  }

  lemma NearestChosen(F: Format, top: nat, m: nat, r0: nat, rem: nat, half: nat, u: nat)
    requires FormatOk(F) && Bracket(F, m, r0, rem, half, u)
    ensures var r := if RoundsUp(false, r0, rem, half) then r0 + 1 else r0;
      NearestEven(F, top, m, if r > top then top else r)
  {
    hide Size; hide Bracket;
    BracketOrder(F, m, r0, rem, half, u);
    var r := if RoundsUp(false, r0, rem, half) then r0 + 1 else r0;
    var c := if r > top then top else r;
    forall p: nat | p <= top
      ensures Dist(m, Size(F, c)) <= Dist(m, Size(F, p)) && (p != c && Dist(m, Size(F, c)) == Dist(m, Size(F, p)) ==> c % 2 == 0)
    {
      if p < c { SizeStrict(F, p, c); }
      if p > c { SizeStrict(F, c, p); }
      if p <= r0 { SizeMono(F, p, r0); } else { SizeMono(F, r0 + 1, p); }
      if c <= r0 { SizeMono(F, c, r0); }
      if p < r0 { SizeStrict(F, p, r0); } else if p > r0 + 1 { SizeStrict(F, r0 + 1, p); }
    }
  }

  lemma TruncatedChosen(F: Format, top: nat, m: nat, r0: nat, rem: nat, half: nat, u: nat)
    requires FormatOk(F) && Bracket(F, m, r0, rem, half, u)
    ensures Truncated(F, top, m, if r0 > top then top else r0)
  {
    hide Size; hide Bracket;
    BracketOrder(F, m, r0, rem, half, u);
    if r0 > top { SizeMono(F, top, r0); }
    forall p: nat | p <= top && Size(F, p) <= m ensures p <= r0 {
      if p > r0 { SizeMono(F, r0 + 1, p); }
    }
  }

  // ---- f32_to_narrow --------------------------------------------------------------------------

  function Sign(x: Bits32): nat { x / SIGN32 }
  function Mag(x: Bits32): nat { x % SIGN32 }

  // (sign << (fieldWidth - 1)) | magnitude
  function Signed(F: Format, sign: nat, mag: nat): nat
    requires F.fieldWidth >= 1
  {
    sign * Pow2(F.fieldWidth - 1) + mag
  }

  // The field before saturation: the kept bits, plus one when rounding up.
  function Rounded(rtz: bool, kept: nat, rem: nat, half: nat): nat {
    if RoundsUp(rtz, kept, rem, half) then kept + 1 else kept
  }

  // Saturation of a normal result; the three rules of the source.
  function Saturated(F: Format, val: nat): nat {
    var gotExp := val / Pow2(F.M);
    if gotExp > MaxExp(F) then F.maxBits
    else if gotExp == MaxExp(F) && F.nanBits != 0 && !TopNormal(F) then F.maxBits
    else if gotExp == MaxExp(F) && F.nanBits != 0 && val % Pow2(F.M) == AllMant(F) then F.maxBits
    else val % (Pow2(F.E) * Pow2(F.M))
  }

  function SubnormalField(F: Format, val: nat): nat {
    var cap := Pow2(F.E) * Pow2(F.M) - 1;
    var v := Min(val, cap);
    if F.nanBits != 0 && v / Pow2(F.M) == MaxExp(F) then F.maxBits else v
  }

  // Target exponent of a binary32 magnitude.
  function TargetExp(F: Format, mag: nat): int { mag / P23 - 127 + F.bias }

  // The encoder; the sign is lost on the way only when the value underflows.
  function Encode(F: Format, x: Bits32, rtz: bool, nanToMax: bool): nat
    requires FormatOk(F)
  {
    var sign, e, man := Sign(x), Mag(x) / P23, Mag(x) % P23;
    if e == 255 && man != 0 then (if nanToMax then F.maxBits else Signed(F, sign, F.nanBits))
    else if e == 255 then Signed(F, sign, F.maxBits)
    else if e == 0 && man == 0 then Signed(F, sign, 0)
    else
      var t := TargetExp(F, Mag(x));
      if t > MaxExp(F) then Signed(F, sign, F.maxBits)
      else if t + F.M < 0 then 0
      else Signed(F, sign, FiniteField(F, Mag(x), rtz))
  }

  // What is kept and what is dropped of a magnitude in range.
  predicate InRange(F: Format, mag: nat) {
    mag / P23 >= 1 && 0 <= TargetExp(F, mag) + F.M && TargetExp(F, mag) <= MaxExp(F)
  }

  function Dropped(F: Format, mag: nat): (drop: nat)
    requires FormatOk(F) && InRange(F, mag)
    ensures drop > 0
  {
    var t := TargetExp(F, mag);
    if t <= 0 then 24 - t - F.M else 23 - F.M
  }

  function Kept(F: Format, mag: nat): nat
    requires FormatOk(F) && InRange(F, mag)
  {
    var man, t := mag % P23, TargetExp(F, mag);
    if t <= 0 then RShift(P23 + man, Dropped(F, mag)) else LShift(t, F.M) + RShift(man, Dropped(F, mag))
  }

  function Rest(F: Format, mag: nat): nat
    requires FormatOk(F) && InRange(F, mag)
  {
    var man := mag % P23;
    (if TargetExp(F, mag) <= 0 then P23 + man else man) % Pow2(Dropped(F, mag))
  }

  // The rounded and saturated field of a magnitude in range.
  function FiniteField(F: Format, mag: nat, rtz: bool): nat
    requires FormatOk(F) && InRange(F, mag)
  {
    var val := Rounded(rtz, Kept(F, mag), Rest(F, mag), Pow2(Dropped(F, mag) - 1));
    if TargetExp(F, mag) <= 0 then SubnormalField(F, val) else Saturated(F, val)
  }

  // ---- the kept bits bracket the value ------------------------------------------------------------

  lemma P23IsPow2()
    ensures Pow2(23) == P23
  {
    assert Pow2(8) == 256;
    Pow2Add(8, 8);
    Pow2Add(16, 7);
  }

  lemma StepsOfFloat(mag: nat, e: nat, man: nat)
    requires mag == e * P23 + man && man < P23
    ensures mag / P23 == e && mag % P23 == man
    ensures Steps(23, mag) == if e == 0 then man else (P23 + man) * Pow2(e - 1)
  {
    hide Pow2; hide Steps;
    P23IsPow2();
    DivUnique(mag, P23, e, man);
    if e == 0 { StepsSmall(23, mag); } else { StepsNormal(23, e, man); }
  }

  lemma NormalBracket(F: Format, mag: nat)
    requires FormatOk(F) && InRange(F, mag) && TargetExp(F, mag) >= 1
    ensures Bracket(F, Steps(23, mag), Kept(F, mag), Rest(F, mag), Pow2(Dropped(F, mag) - 1), Pow2(mag / P23 - 1))
  {
    hide Pow2; hide Steps;
    var e, man, t := mag / P23, mag % P23, TargetExp(F, mag);
    var P, D, u, S := Pow2(F.M), Pow2(23 - F.M), Pow2(e - 1), Pow2(Scale(F));
    P23IsPow2();
    Pow2Add(F.M, 23 - F.M);
    StepsOfFloat(mag, e, man);
    var q, rem := RShift(man, 23 - F.M), man % D;
    assert man == q * D + rem;
    QuotBelow(man, P, D);
    StepsNormal(F.M, t, q);
    StepsNormal(F.M, t, q + 1);
    Pow2Add(t - 1, Scale(F));
    Pow2Add(e - 1, 23 - F.M);
    HalfPower(23 - F.M);
    NormalParts(P, D, q, rem, Pow2(t - 1), S, u);
  }

  lemma QuotBelow(x: nat, P: nat, D: nat)
    requires D > 0 && x < P * D
    ensures 0 <= x / D < P
  {
    DivNonneg(x, D);
    if x / D >= P { ScaleBound(P, x / D, D); }
  }

  lemma HalfPower(k: nat)
    requires k > 0
    ensures Pow2(k) == 2 * Pow2(k - 1)
  { }

  lemma NormalParts(P: nat, D: nat, q: nat, rem: nat, T: nat, S: nat, u: nat)
    requires T * S == u * D
    ensures (P * D + (q * D + rem)) * u == ((P + q) * T) * S + rem * u
    ensures ((P + (q + 1)) * T) * S == ((P + q) * T) * S + D * u
  {
    Regroup(P + q, T, S);
    Regroup(P + (q + 1), T, S);
    Regroup(P + q, u, D);
    assert (P + (q + 1)) * (T * S) == (P + q) * (T * S) + T * S;
    assert (P + q) * D == P * D + q * D;
    Regroup(P + q, D, u);
    assert ((P + q) * D + rem) * u == ((P + q) * D) * u + rem * u;
  }

  lemma Regroup(a: nat, b: nat, c: nat)
    ensures (a * b) * c == a * (b * c)
  { }

  lemma SubnormalBracket(F: Format, mag: nat)
    requires FormatOk(F) && InRange(F, mag) && TargetExp(F, mag) <= 0
    ensures Kept(F, mag) < Pow2(F.M)
    ensures Bracket(F, Steps(23, mag), Kept(F, mag), Rest(F, mag), Pow2(Dropped(F, mag) - 1), Pow2(mag / P23 - 1))
  {
    hide Pow2; hide Steps;
    var e, man, shift := mag / P23, mag % P23, Dropped(F, mag);
    var full, W, u := P23 + man, Pow2(shift), Pow2(e - 1);
    StepsOfFloat(mag, e, man);
    Pow2Add(shift, e - 1);
    assert shift + (e - 1) == Scale(F);
    var r0, rem := RShift(full, shift), full % W;
    assert full == r0 * W + rem;
    P23IsPow2();
    HalfPower(24);
    Pow2Add(F.M, shift);
    Pow2Mono(24, F.M + shift);
    QuotBelow(full, Pow2(F.M), W);
    StepsSmall(F.M, r0);
    if r0 + 1 < Pow2(F.M) { StepsSmall(F.M, r0 + 1); } else { StepsAtP(F.M); }
    HalfPower(shift);
    SubnormalParts(r0, W, rem, u);
  }

  lemma SubnormalParts(r0: nat, W: nat, rem: nat, u: nat)
    ensures (r0 * W + rem) * u == r0 * (W * u) + rem * u && (r0 + 1) * (W * u) == r0 * (W * u) + W * u
  {
    Regroup(r0, W, u);
    assert (r0 * W + rem) * u == (r0 * W) * u + rem * u;
  }

  // Below half of the smallest step.
  lemma UnderflowSmall(F: Format, mag: nat)
    requires FormatOk(F) && TargetExp(F, mag) + F.M < 0
    ensures 2 * Steps(23, mag) < Size(F, 1)
    ensures Size(F, 0) == 0 && Size(F, 1) == Pow2(Scale(F))
  {
    hide Pow2; hide Steps;
    var e, man := mag / P23, mag % P23;
    P23IsPow2();
    StepsOfFloat(mag, e, man);
    PowPositive(F.M);
    StepsSmall(F.M, 0);
    StepsSmall(F.M, 1);
    HalfPower(24);
    if e == 0 {
      Pow2Mono(24, Scale(F));
    } else {
      Pow2Add(24, e - 1);
      Less(P23 + man, Pow2(24), Pow2(e - 1));
      HalfPower(24 + e);
      Pow2Mono(24 + e, Scale(F));
    }
  }

  lemma PowPositive(k: nat)
    requires k > 0
    ensures Pow2(k) > 1
  { }

  // ---- saturation keeps the field within the format -----------------------------------------------

  lemma ExponentParts(val: nat, P: nat, X: nat)
    requires P > 0 && X > 0
    ensures val / P >= X ==> val >= X * P
    ensures val / P == X - 1 ==> val == X * P - P + val % P
    ensures val / P < X - 1 ==> val < X * P - P
    ensures val < X * P ==> val % (X * P) == val
  {
    var g := val / P;
    assert val == g * P + val % P;
    assert (X - 1) * P == X * P - P;
    if g >= X { ScaleBound(X, g, P); }
    if g < X - 1 {
      ScaleBound(g + 1, X - 1, P);
      assert (g + 1) * P == g * P + P;
    }
    if val < X * P { ModSmall(val, X * P); }
  }

  // The format's limits with the products named: T = 2^E 2^M, P = 2^M.
  lemma Limits(F: Format, T: nat, P: nat)
    requires FormatOk(F) && T == Pow2(F.E) * Pow2(F.M) && P == Pow2(F.M)
    ensures MaxExp(F) * P == T - P && 2 <= P && 4 * P <= T
    ensures F.maxBits == if F.nanBits == 0 then T - 1 else if TopNormal(F) then T - 2 else T - P - 1
  {
    hide Pow2; hide TopNormal;
    PowPositive(F.M);
    FourTimes(F.E);
    ScaleBound(4, Pow2(F.E), P);
    assert (Pow2(F.E) - 1) * P == Pow2(F.E) * P - P;
  }

  lemma FourTimes(k: nat)
    requires k >= 2
    ensures Pow2(k) >= 4
  { }

  lemma SaturatedIsMin(F: Format, val: nat)
    requires FormatOk(F)
    ensures Saturated(F, val) == Min(val, F.maxBits)
  {
    var P, X := Pow2(F.M), Pow2(F.E);
    var T := X * P;
    Limits(F, T, P);
    ExponentParts(val, P, X);
    hide Pow2; hide TopNormal; hide FormatOk;
  }

  lemma ModSmall(x: nat, n: nat)
    requires x < n
    ensures x % n == x
  { }

  lemma SubnormalIsMin(F: Format, val: nat)
    requires FormatOk(F) && val <= Pow2(F.M)
    ensures SubnormalField(F, val) == Min(val, F.maxBits)
  {
    var P, X := Pow2(F.M), Pow2(F.E);
    Limits(F, X * P, P);
    FourTimes(F.E);
    if val < P { DivUnique(val, P, 0, val); } else { DivUnique(val, P, 1, 0); }
    hide Pow2; hide TopNormal; hide FormatOk;
  }

  // ---- the main results on encoding -----------------------------------------------------------------

  lemma FiniteFieldIsMin(F: Format, mag: nat, rtz: bool)
    requires FormatOk(F) && InRange(F, mag)
    ensures FiniteField(F, mag, rtz) == Min(Rounded(rtz, Kept(F, mag), Rest(F, mag), Pow2(Dropped(F, mag) - 1)), F.maxBits)
    ensures Bracket(F, Steps(23, mag), Kept(F, mag), Rest(F, mag), Pow2(Dropped(F, mag) - 1), Pow2(mag / P23 - 1))
  {
    hide Pow2; hide Steps; hide Saturated; hide SubnormalField; hide Bracket; hide FormatOk; hide Kept; hide Rest; hide Dropped;
    var val := Rounded(rtz, Kept(F, mag), Rest(F, mag), Pow2(Dropped(F, mag) - 1));
    if TargetExp(F, mag) <= 0 {
      SubnormalBracket(F, mag);
      SubnormalIsMin(F, val);
    } else {
      NormalBracket(F, mag);
      SaturatedIsMin(F, val);
    }
  }

  lemma FiniteFieldRight(F: Format, mag: nat, rtz: bool)
    requires FormatOk(F) && InRange(F, mag)
    ensures if rtz then Truncated(F, F.maxBits, Steps(23, mag), FiniteField(F, mag, rtz))
            else NearestEven(F, F.maxBits, Steps(23, mag), FiniteField(F, mag, rtz))
  {
    hide Pow2; hide Steps; hide NearestEven; hide Truncated; hide Bracket; hide FormatOk; hide Kept; hide Rest; hide Dropped;
    FiniteFieldIsMin(F, mag, rtz);
    var r0, rem, half, u := Kept(F, mag), Rest(F, mag), Pow2(Dropped(F, mag) - 1), Pow2(mag / P23 - 1);
    if rtz {
      TruncatedChosen(F, F.maxBits, Steps(23, mag), r0, rem, half, u);
    } else {
      NearestChosen(F, F.maxBits, Steps(23, mag), r0, rem, half, u);
    }
  }

  // Above the top binade the greatest pattern is nearest, and the largest below.
  lemma OverflowRight(F: Format, mag: nat)
    requires FormatOk(F) && TargetExp(F, mag) > MaxExp(F)
    ensures Size(F, F.maxBits) < Steps(23, mag)
    ensures NearestEven(F, F.maxBits, Steps(23, mag), F.maxBits) && Truncated(F, F.maxBits, Steps(23, mag), F.maxBits)
  {
    hide Pow2; hide Steps; hide Size;
    var e, man, X, P := mag / P23, mag % P23, Pow2(F.E), Pow2(F.M);
    P23IsPow2();
    StepsOfFloat(mag, e, man);
    assert X * P == MaxExp(F) * P + P;
    PowPositive(F.E);
    ScaleBound(1, MaxExp(F), P);
    SizeStrict(F, F.maxBits, X * P);
    SizeOfBinade(F, X);
    Pow2Add(23, e - 1);
    Pow2Mono(X + 149 - F.bias, 23 + (e - 1));
    ScaleBound(P23, P23 + man, Pow2(e - 1));
    forall p: nat | p <= F.maxBits ensures Size(F, p) <= Size(F, F.maxBits) && (p < F.maxBits ==> Size(F, p) < Size(F, F.maxBits)) {
      if p < F.maxBits { SizeStrict(F, p, F.maxBits); }
    }
  }

  // The first pattern of binade t.
  lemma SizeOfBinade(F: Format, t: nat)
    requires FormatOk(F) && t >= 1
    ensures Size(F, t * Pow2(F.M)) == Pow2(t + 149 - F.bias)
  {
    hide Pow2; hide Steps;
    StepsNormal(F.M, t, 0);
    Pow2Add(F.M, t - 1);
    Pow2Add(F.M + (t - 1), Scale(F));
  }

  // The encoder returned this sign and this rounding of the magnitude.
  ghost predicate EncodesTo(F: Format, x: Bits32, rtz: bool, nanToMax: bool, sign: nat, m: nat)
    requires FormatOk(F)
  {
    m <= F.maxBits && Encode(F, x, rtz, nanToMax) == Signed(F, sign, m) &&
    if rtz then Truncated(F, F.maxBits, Steps(23, Mag(x)), m) else NearestEven(F, F.maxBits, Steps(23, Mag(x)), m)
  }

  // Below half of the smallest step: the only place where a sign is dropped.
  predicate Underflows(F: Format, mag: nat) { mag > 0 && TargetExp(F, mag) + F.M < 0 }

  function KeptSign(F: Format, x: Bits32): nat { if Underflows(F, Mag(x)) then 0 else Sign(x) }

  // Encoding a finite number rounds its magnitude correctly: to the nearest
  // pattern, ties to even, saturating; or, toward zero, to the largest below.
  // The sign is kept unless the value underflows to zero.
  lemma EncodeRounds(F: Format, x: Bits32, rtz: bool, nanToMax: bool)
    requires FormatOk(F) && Mag(x) < INF32
    ensures exists m: nat :: EncodesTo(F, x, rtz, nanToMax, KeptSign(F, x), m)
  {
    hide Pow2; hide Steps; hide NearestEven; hide Truncated; hide Size; hide FiniteField;
    var mag := Mag(x);
    var m: nat;
    if mag / P23 == 0 && mag % P23 == 0 {
      m := 0;
      ZeroRight(F);
    } else if TargetExp(F, mag) > MaxExp(F) {
      m := F.maxBits;
      OverflowRight(F, mag);
    } else if TargetExp(F, mag) + F.M < 0 {
      m := 0;
      UnderflowRight(F, mag);
    } else {
      m := FiniteField(F, mag, rtz);
      FiniteFieldRight(F, mag, rtz);
      FieldWithin(F, mag, rtz);
    }
    assert EncodesTo(F, x, rtz, nanToMax, KeptSign(F, x), m);
  }

  lemma FieldWithin(F: Format, mag: nat, rtz: bool)
    requires FormatOk(F) && InRange(F, mag)
    ensures FiniteField(F, mag, rtz) <= F.maxBits
  {
    hide Pow2; hide Bracket;
    FiniteFieldIsMin(F, mag, rtz);
  }

  lemma ZeroSize(F: Format)
    requires FormatOk(F)
    ensures Size(F, 0) == 0
  {
    hide Pow2; hide Steps;
    StepsSmall(F.M, 0);
  }

  lemma ZeroRight(F: Format)
    requires FormatOk(F)
    ensures Steps(23, 0) == 0 && NearestEven(F, F.maxBits, 0, 0) && Truncated(F, F.maxBits, 0, 0)
  {
    hide Pow2; hide Steps; hide Size;
    StepsSmall(23, 0);
    ZeroSize(F);
    forall p: nat | p > 0 ensures Size(F, p) > 0 { SizeStrict(F, 0, p); }
  }

  lemma UnderflowRight(F: Format, mag: nat)
    requires FormatOk(F) && TargetExp(F, mag) + F.M < 0
    ensures NearestEven(F, F.maxBits, Steps(23, mag), 0) && Truncated(F, F.maxBits, Steps(23, mag), 0)
  {
    hide Pow2; hide Steps; hide Size;
    UnderflowSmall(F, mag);
    forall p: nat | p > 0 ensures Size(F, p) >= Size(F, 1) { SizeMono(F, 1, p); }
  }

  // ---- narrow_to_f32 ----------------------------------------------------------------------

  // How far a subnormal's mantissa has to move up.
  function NormalShift(M: nat, m: nat): nat
    requires m > 0
    decreases Pow2(M) - m
  {
    if m >= Pow2(M) then 0 else 1 + NormalShift(M, 2 * m)
  }

  lemma {:induction false} NormalShiftIs(M: nat, m: nat)
    requires 0 < m < 2 * Pow2(M)
    ensures Pow2(M) <= LShift(m, NormalShift(M, m)) < 2 * Pow2(M)
    decreases Pow2(M) - m
  {
    hide Pow2;
    NoShift(m);
    hide LShift;
    if m < Pow2(M) {
      NormalShiftIs(M, 2 * m);
      var k := NormalShift(M, 2 * m);
      assert NormalShift(M, m) == k + 1;
      OneMore(m, k);
    }
  }

  lemma NoShift(m: nat)
    ensures LShift(m, 0) == m
  { }

  lemma OneMore(m: nat, k: nat)
    ensures LShift(2 * m, k) == LShift(m, k + 1)
  {
    assert (2 * m) * Pow2(k) == m * (2 * Pow2(k));
  }

  lemma NormalShiftBound(M: nat, m: nat)
    requires 0 < m < Pow2(M)
    ensures 1 <= NormalShift(M, m) <= M
  {
    hide Pow2; hide LShift;
    NormalShiftIs(M, m);
    var k := NormalShift(M, m);
    assert LShift(m, k) == m * Pow2(k) by { LShiftIs(m, k); }
    MulAtLeast(m, Pow2(k));
    if k > M { Pow2Mono(M + 1, k); HalfPower(M + 1); }
    if k == 0 { PowZero(); }
  }

  lemma LShiftIs(m: nat, k: nat)
    ensures LShift(m, k) == m * Pow2(k)
  { }

  lemma PowZero()
    ensures Pow2(0) == 1
  { }

  // The normalising loop.
  method Normalize(M: nat, man: nat) returns (m: nat, shift: nat)
    requires 0 < man < Pow2(M)
    ensures shift == NormalShift(M, man) && m == LShift(man, shift)
  {
    m, shift := man, 0;
    PowZero();
    while m < Pow2(M)
      invariant 0 < m && m == LShift(man, shift) && NormalShift(M, man) == shift + NormalShift(M, m)
      decreases Pow2(M) - m
    {
      LShiftIs(man, shift + 1);
      assert man * (2 * Pow2(shift)) == 2 * (man * Pow2(shift));
      m := 2 * m;
      shift := shift + 1;
    }
  }

  // Magnitude bits of a finite nonzero-exponent or zero field, and of a subnormal.
  function DecodeFinite(F: Format, mag: nat): nat
    requires FormatOk(F)
  {
    var exp, man := RShift(mag, F.M), mag % Pow2(F.M);
    if exp != 0 then (exp - F.bias + 127) * P23 + LShift(man, 23 - F.M)
    else if man == 0 then 0
    else
      NormalShiftBound(F.M, man);
      var shift := NormalShift(F.M, man);
      (128 - F.bias - shift) * P23 + LShift(Raised(F.M, man), 23 - F.M)
  }

  // A subnormal's mantissa moved up, without its leading one.
  function Raised(M: nat, man: nat): (m: nat)
    requires 0 < man < Pow2(M)
    ensures m < Pow2(M)
  {
    NormalShiftIs(M, man);
    LShift(man, NormalShift(M, man)) - Pow2(M)
  }

  // The decoder, on a field with its sign bit.
  function Decode(F: Format, field: nat): nat
    requires FormatOk(F)
  {
    var half := Pow2(F.fieldWidth - 1);
    var fsign, mag := ((field / half) % 2) * SIGN32, field % half;
    var exp, man := mag / Pow2(F.M), mag % Pow2(F.M);
    if exp == MaxExp(F) && F.nanBits != 0 && (man == AllMant(F) || !TopNormal(F)) then
      if !TopNormal(F) && man == 0 then fsign + INF32 else fsign + QNAN32
    else fsign + DecodeFinite(F, mag)
  }

  lemma FieldCapacity(F: Format)
    requires FormatOk(F)
    ensures Pow2(F.fieldWidth - 1) == Pow2(F.E) * Pow2(F.M) && F.maxBits < Pow2(F.fieldWidth - 1)
  {
    hide Pow2;
    Pow2Add(F.E, F.M);
    ExponentParts(0, Pow2(F.M), Pow2(F.E));
    OneLess(Pow2(F.E), Pow2(F.M));
  }

  // Decoding is exact.
  lemma DecodeExact(F: Format, mag: nat)
    requires FormatOk(F) && mag <= F.maxBits
    ensures DecodeFinite(F, mag) < INF32 && Steps(23, DecodeFinite(F, mag)) == Size(F, mag)
  {
    hide Pow2; hide Steps; hide DecodeFinite; hide Size;
    var P := Pow2(F.M);
    FieldCapacity(F);
    QuotBelow(mag, Pow2(F.E), P);
    if mag / P != 0 {
      NormalExact(F, mag);
    } else if mag % P == 0 {
      ZeroExact(F, mag);
    } else {
      SubnormalExact(F, mag);
    }
  }

  lemma ZeroExact(F: Format, mag: nat)
    requires FormatOk(F) && mag / Pow2(F.M) == 0 && mag % Pow2(F.M) == 0
    ensures DecodeFinite(F, mag) == 0 && Steps(23, 0) == Size(F, mag)
  {
    hide Pow2; hide Steps;
    StepsSmall(23, 0);
    ZeroSize(F);
    assert mag == 0;
  }

  lemma NormalExact(F: Format, mag: nat)
    requires FormatOk(F) && 0 < mag / Pow2(F.M) <= MaxExp(F)
    ensures DecodeFinite(F, mag) < INF32 && Steps(23, DecodeFinite(F, mag)) == Size(F, mag)
  {
    hide Pow2; hide Steps; hide MaxExp; hide Size; hide LShift;
    var exp, man := mag / Pow2(F.M), mag % Pow2(F.M);
    MaxExpRoom(F, exp);
    NormalValue(F, exp, man, exp - F.bias + 127);
    assert mag == exp * Pow2(F.M) + man;
  }

  lemma NormalValue(F: Format, exp: nat, man: nat, e: nat)
    requires FormatOk(F) && exp >= 1 && man < Pow2(F.M) && e == exp - F.bias + 127 && 1 <= e <= 254
    ensures LShift(man, 23 - F.M) < P23
    ensures Steps(23, e * P23 + LShift(man, 23 - F.M)) == Size(F, exp * Pow2(F.M) + man)
  {
    P23IsPow2();
    Pow2Add(F.M, 23 - F.M);
    hide Pow2; hide Steps;
    var P, D := Pow2(F.M), Pow2(23 - F.M);
    MantissaFits(man, P, D);
    StepsOfFloat(e * P23 + LShift(man, 23 - F.M), e, LShift(man, 23 - F.M));
    StepsNormal(F.M, exp, man);
    Pow2Add(exp - 1, Scale(F));
    Pow2Add(e - 1, 23 - F.M);
    SizesMeet(P, man, D, Pow2(e - 1), Pow2(exp - 1), Pow2(Scale(F)));
  }

  lemma MaxExpRoom(F: Format, exp: nat)
    requires FormatOk(F) && exp <= MaxExp(F)
    ensures exp - F.bias + 127 <= 254
  { }

  lemma MantissaFits(man: nat, P: nat, D: nat)
    requires man < P && P * D == P23 && D > 0
    ensures man * D < P23
  {
    Less(man, P, D);
  }

  lemma SizesMeet(P: nat, man: nat, D: nat, u: nat, T: nat, S: nat)
    requires u * D == T * S
    ensures (P * D + man * D) * u == ((P + man) * T) * S
  {
    assert (P + man) * D == P * D + man * D;
    Regroup(P + man, D, u);
    Regroup(P + man, T, S);
  }

  lemma SubnormalExact(F: Format, man: nat)
    requires FormatOk(F) && man / Pow2(F.M) == 0 && man % Pow2(F.M) != 0
    ensures DecodeFinite(F, man) < INF32 && Steps(23, DecodeFinite(F, man)) == Size(F, man)
  {
    var P, D := Pow2(F.M), Pow2(23 - F.M);
    assert 0 < man < P && man % P == man;
    NormalShiftBound(F.M, man);
    NormalShiftIs(F.M, man);
    var shift := NormalShift(F.M, man);
    var up, e := LShift(man, shift), 128 - F.bias - shift;
    P23IsPow2();
    Pow2Add(F.M, 23 - F.M);
    hide Pow2; hide Steps;
    MantissaFits(up - P, P, D);
    LShiftIs(man, shift);
    LShiftIs(up - P, 23 - F.M);
    StepsOfFloat(e * P23 + LShift(up - P, 23 - F.M), e, LShift(up - P, 23 - F.M));
    StepsSmall(F.M, man);
    Pow2Add(shift, 23 - F.M);
    Pow2Add(shift + (23 - F.M), e - 1);
    RaisedParts(man, P, D, Pow2(shift), Pow2(e - 1), Pow2(Scale(F)), up);
  }

  lemma RaisedParts(man: nat, P: nat, D: nat, H: nat, u: nat, S: nat, up: nat)
    requires up == man * H && up >= P && (H * D) * u == S
    ensures (P * D + (up - P) * D) * u == man * S
  {
    assert P * D + (up - P) * D == up * D;
    Regroup(man, H, D);
    Regroup(man, H * D, u);
  }

  // ---- round trips and monotony ------------------------------------------------------------

  lemma NearestOfExact(F: Format, top: nat, p: nat, r: nat)
    requires FormatOk(F) && p <= top && NearestEven(F, top, Size(F, p), r)
    ensures r == p
  {
    hide Size;
    assert Dist(Size(F, p), Size(F, r)) <= Dist(Size(F, p), Size(F, p));
    if r < p { SizeStrict(F, r, p); } else if p < r { SizeStrict(F, p, r); }
  }

  lemma TruncatedOfExact(F: Format, top: nat, p: nat, r: nat)
    requires FormatOk(F) && p <= top && Truncated(F, top, Size(F, p), r)
    ensures r == p
  {
    hide Size;
    if p < r { SizeStrict(F, p, r); }
  }

  lemma SignParts(sign: nat, mag: nat)
    requires sign < 2 && mag < SIGN32
    ensures Sign(sign * SIGN32 + mag) == sign && Mag(sign * SIGN32 + mag) == mag
  { }

  lemma ExactDoesNotUnderflow(F: Format, d: nat, mag: nat)
    requires FormatOk(F) && Steps(23, d) == Size(F, mag)
    ensures !Underflows(F, d)
  {
    hide Pow2; hide Steps; hide Size;
    if Underflows(F, d) {
      UnderflowSmall(F, d);
      StepsStrict(23, 0, d);
      if mag > 0 { SizeMono(F, 1, mag); }
    }
  }

  // Encoding what was decoded gives the field back, in both rounding modes, for
  // every finite field of every format.
  lemma RoundTrip(F: Format, sign: nat, mag: nat, rtz: bool, nanToMax: bool)
    requires FormatOk(F) && sign < 2 && mag <= F.maxBits
    ensures var x := sign * SIGN32 + DecodeFinite(F, mag);
      x < 0x1_0000_0000 && Encode(F, x, rtz, nanToMax) == Signed(F, sign, mag)
  {
    hide Pow2; hide Steps; hide NearestEven; hide Truncated; hide Size; hide DecodeFinite; hide Encode; hide Signed;
    DecodeExact(F, mag);
    var d := DecodeFinite(F, mag);
    var x := sign * SIGN32 + d;
    SignParts(sign, d);
    EncodeRounds(F, x, rtz, nanToMax);
    ExactDoesNotUnderflow(F, d, mag);
    var m: nat :| EncodesTo(F, x, rtz, nanToMax, sign, m);
    if rtz { TruncatedOfExact(F, F.maxBits, mag, m); } else { NearestOfExact(F, F.maxBits, mag, m); }
  }

  lemma OneLess(a: int, b: int)
    ensures (a - 1) * b == a * b - b
  { }

  // The whole decoder on a finite field is the signed exact value.
  lemma DecodeSigned(F: Format, sign: nat, mag: nat)
    requires FormatOk(F) && sign < 2 && mag <= F.maxBits
    ensures Decode(F, Signed(F, sign, mag)) == sign * SIGN32 + DecodeFinite(F, mag)
  {
    hide Pow2; hide DecodeFinite;
    FieldCapacity(F);
    DivUnique(Signed(F, sign, mag), Pow2(F.fieldWidth - 1), sign, mag);
    ExponentParts(mag, Pow2(F.M), Pow2(F.E));
    OneLess(Pow2(F.E), Pow2(F.M));
  }

  // Larger numbers never encode smaller.
  lemma NearestMonotone(F: Format, top: nat, m: nat, r: nat, m': nat, r': nat)
    requires FormatOk(F) && NearestEven(F, top, m, r) && NearestEven(F, top, m', r') && m < m'
    ensures r <= r'
  {
    hide Size;
    if r' < r { SizeStrict(F, r', r); }
  }

  lemma TruncatedMonotone(F: Format, top: nat, m: nat, r: nat, m': nat, r': nat)
    requires FormatOk(F) && Truncated(F, top, m, r) && Truncated(F, top, m', r') && m < m'
    ensures r <= r'
  { }

  lemma EncodeMonotone(F: Format, x: Bits32, y: Bits32, rtz: bool, nanToMax: bool)
    requires FormatOk(F) && x <= y < INF32
    ensures Encode(F, x, rtz, nanToMax) <= Encode(F, y, rtz, nanToMax)
  {
    hide Pow2; hide Steps; hide NearestEven; hide Truncated; hide Size; hide Encode;
    if x < y {
      StepsStrict(23, x, y);
      PositiveEncode(F, x, rtz, nanToMax);
      PositiveEncode(F, y, rtz, nanToMax);
      var r, r' := Encode(F, x, rtz, nanToMax), Encode(F, y, rtz, nanToMax);
      if rtz { TruncatedMonotone(F, F.maxBits, Steps(23, x), r, Steps(23, y), r'); }
      else { NearestMonotone(F, F.maxBits, Steps(23, x), r, Steps(23, y), r'); }
    }
  }

  lemma PositiveEncode(F: Format, x: Bits32, rtz: bool, nanToMax: bool)
    requires FormatOk(F) && x < INF32
    ensures var r := Encode(F, x, rtz, nanToMax);
      if rtz then Truncated(F, F.maxBits, Steps(23, x), r) else NearestEven(F, F.maxBits, Steps(23, x), r)
  {
    hide Pow2; hide Steps; hide NearestEven; hide Truncated; hide Size; hide Encode;
    EncodeRounds(F, x, rtz, nanToMax);
    assert Sign(x) == 0 && Mag(x) == x;
  }

  // ---- order over the signed numbers ------------------------------------------------------

  function WithSign(negative: bool, size: nat): int {
    var v: int := size;
    if negative then -v else v
  }

  // What a binary32 pattern and a narrow field stand for, in units of the smallest
  // binary32 subnormal.
  function NumberValue(x: Bits32): int { WithSign(Sign(x) == 1, Steps(23, Mag(x))) }

  function FieldValue(F: Format, field: nat): int
    requires FormatOk(F)
  {
    var half := Pow2(F.fieldWidth - 1);
    WithSign(field >= half, Size(F, if field >= half then field - half else field))
  }

  // r is the rounding of m, in either mode.
  ghost predicate RoundsTo(F: Format, rtz: bool, m: nat, r: nat)
    requires FormatOk(F)
  {
    if rtz then Truncated(F, F.maxBits, m, r) else NearestEven(F, F.maxBits, m, r)
  }

  lemma TinyRounds(F: Format, mag: nat, rtz: bool, m: nat)
    requires FormatOk(F) && TargetExp(F, mag) + F.M < 0 && RoundsTo(F, rtz, Steps(23, mag), m)
    ensures m == 0
  {
    hide Pow2; hide Steps; hide Size; hide TargetExp;
    UnderflowSmall(F, mag);
    if m > 0 { SizeMono(F, 1, m); }
  }

  lemma ZeroRounds(F: Format, rtz: bool, m: nat)
    requires FormatOk(F) && RoundsTo(F, rtz, 0, m)
    ensures m == 0
  {
    hide Pow2; hide Size;
    ZeroSize(F);
    if m > 0 { SizeStrict(F, 0, m); }
  }

  lemma RoundsMonotone(F: Format, rtz: bool, m: nat, r: nat, m': nat, r': nat)
    requires FormatOk(F) && RoundsTo(F, rtz, m, r) && RoundsTo(F, rtz, m', r') && m < m'
    ensures r <= r'
  {
    hide NearestEven; hide Truncated;
    if rtz { TruncatedMonotone(F, F.maxBits, m, r, m', r'); } else { NearestMonotone(F, F.maxBits, m, r, m', r'); }
  }

  lemma FieldOf(F: Format, sign: nat, m: nat)
    requires FormatOk(F) && sign < 2 && m <= F.maxBits
    ensures FieldValue(F, Signed(F, sign, m)) == WithSign(sign == 1, Size(F, m))
  {
    hide Pow2; hide Size;
    FieldCapacity(F);
  }

  // The field has the rounded magnitude and the number's own sign; where the sign
  // is dropped, the magnitude is zero.
  lemma EncodedValue(F: Format, x: Bits32, rtz: bool, nanToMax: bool) returns (m: nat)
    requires FormatOk(F) && Mag(x) < INF32
    ensures RoundsTo(F, rtz, Steps(23, Mag(x)), m)
    ensures FieldValue(F, Encode(F, x, rtz, nanToMax)) == WithSign(Sign(x) == 1, Size(F, m))
  {
    hide Pow2; hide Steps; hide NearestEven; hide Truncated; hide Size; hide Encode; hide TargetExp; hide FieldValue; hide Signed;
    EncodeRounds(F, x, rtz, nanToMax);
    m :| EncodesTo(F, x, rtz, nanToMax, KeptSign(F, x), m);
    assert Sign(x) < 2;
    FieldOf(F, KeptSign(F, x), m);
    if Underflows(F, Mag(x)) { TinyRounds(F, Mag(x), rtz, m); }
    ZeroSize(F);
  }

  // Larger numbers never encode smaller, whatever their signs.
  lemma EncodeOrdered(F: Format, x: Bits32, y: Bits32, rtz: bool, nanToMax: bool)
    requires FormatOk(F) && Mag(x) < INF32 && Mag(y) < INF32 && NumberValue(x) <= NumberValue(y)
    ensures FieldValue(F, Encode(F, x, rtz, nanToMax)) <= FieldValue(F, Encode(F, y, rtz, nanToMax))
  {
    hide Pow2; hide Steps; hide RoundsTo; hide Size; hide Encode; hide FieldValue;
    var m := EncodedValue(F, x, rtz, nanToMax);
    var n := EncodedValue(F, y, rtz, nanToMax);
    assert Sign(x) < 2 && Sign(y) < 2;
    var a, b := Steps(23, Mag(x)), Steps(23, Mag(y));
    if a < b {
      RoundsMonotone(F, rtz, a, m, b, n);
      SizeMono(F, m, n);
    } else if b < a {
      RoundsMonotone(F, rtz, b, n, a, m);
      SizeMono(F, n, m);
    } else if Sign(x) == Sign(y) {
      SameNumber(x, y);
    } else if Sign(x) == 0 {
      ZeroRounds(F, rtz, m);
      ZeroRounds(F, rtz, n);
    }
    ZeroBoth(F, rtz, a, m, b, n);
  }

  lemma SameNumber(x: Bits32, y: Bits32)
    requires Sign(x) == Sign(y) && Steps(23, Mag(x)) == Steps(23, Mag(y))
    ensures x == y
  {
    hide Steps;
    if Mag(x) < Mag(y) { StepsStrict(23, Mag(x), Mag(y)); }
    if Mag(y) < Mag(x) { StepsStrict(23, Mag(y), Mag(x)); }
  }

  // A magnitude of zero rounds to zero.
  lemma ZeroBoth(F: Format, rtz: bool, a: nat, m: nat, b: nat, n: nat)
    requires FormatOk(F) && RoundsTo(F, rtz, a, m) && RoundsTo(F, rtz, b, n)
    ensures a == 0 ==> Size(F, m) == 0
    ensures b == 0 ==> Size(F, n) == 0
  {
    hide RoundsTo; hide Size;
    ZeroSize(F);
    if a == 0 { ZeroRounds(F, rtz, m); }
    if b == 0 { ZeroRounds(F, rtz, n); }
  }

  // ---- binary16 --------------------------------------------------------------------------

  const F16 := Format(5, 10, 15, 0x7BFF, 0x7FFF, 0, 16)
  const F16_INF: nat := 0x7C00

  lemma F16Ok()
    ensures FormatOk(F16) && MaxExp(F16) == 31 && Pow2(10) == 1024 && Pow2(15) == 0x8000 && Scale(F16) == 125
  {
    assert Pow2(5) == 32 && Pow2(2) == 4;
    Pow2Add(5, 5);
    Pow2Add(10, 5);
  }

  // f32_to_f16_rne: no saturation, overflow to infinity, the sign always kept.
  function F16Encode(x: Bits32): nat {
    var sign, e, man := Sign(x) * 0x8000, Mag(x) / P23, Mag(x) % P23;
    var exp := e - 127 + 15;
    if e == 255 then sign + (if man != 0 then 0x7E00 else F16_INF)
    else if exp >= 31 then sign + F16_INF
    else if exp < -10 then sign
    else if exp <= 0 then
      var m, shift := P23 + man, 14 - exp;
      sign + Rounded(false, RShift(m, shift), m % Pow2(shift), Pow2(shift - 1))
    else sign + Rounded(false, exp * 1024 + man / 0x2000, man % 0x2000, 0x1000)
  }

  // f16_to_f32
  function F16Decode(h: nat): nat {
    var sign, mag := ((h / 0x8000) % 2) * SIGN32, h % 0x8000;
    F16Ok();
    if mag / 1024 == 31 then sign + INF32 + (mag % 1024) * 0x2000 else sign + DecodeFinite(F16, mag)
  }

  lemma Pow13()
    ensures Pow2(13) == 0x2000 && Pow2(12) == 0x1000
  {
    Pow2Add(8, 4);
    assert Pow2(4) == 16 && Pow2(8) == 256;
  }

  // The magnitude field before the sign, as the bracket's rounding.
  lemma F16Field(mag: nat)
    requires 1 <= mag / P23 < 255 && -10 <= mag / P23 - 112 < 31
    ensures FormatOk(F16) && InRange(F16, mag)
    ensures F16Encode(mag) == Rounded(false, Kept(F16, mag), Rest(F16, mag), Pow2(Dropped(F16, mag) - 1))
  {
    F16Ok();
    Pow13();
    hide Pow2; hide RoundsUp;
    var exp, man := mag / P23 - 112, mag % P23;
    assert Mag(mag) == mag && Sign(mag) == 0;
    if exp > 0 {
      LShiftIs(exp, 10);
      assert Dropped(F16, mag) == 13;
    } else {
      assert Dropped(F16, mag) == 14 - exp;
    }
  }

  // Rounding to binary16 is to nearest, ties to even, infinity standing for 2^16.
  lemma F16Nearest(mag: nat)
    requires mag < INF32
    ensures FormatOk(F16) && NearestEven(F16, F16_INF, Steps(23, mag), F16Encode(mag))
  {
    F16Ok();
    hide Pow2; hide Steps; hide NearestEven; hide Size; hide Bracket; hide Kept; hide Rest; hide Dropped; hide Rounded;
    assert Mag(mag) == mag && Sign(mag) == 0;
    if mag / P23 - 112 >= 31 {
      F16Overflow(mag);
    } else if mag / P23 - 112 < -10 {
      F16Underflow(mag);
    } else {
      F16Field(mag);
      FiniteFieldIsMin(F16, mag, false);
      F16NoCap(mag);
      NearestChosen(F16, F16_INF, Steps(23, mag), Kept(F16, mag), Rest(F16, mag), Pow2(Dropped(F16, mag) - 1), Pow2(mag / P23 - 1));
      RoundedIs(Kept(F16, mag), Rest(F16, mag), Pow2(Dropped(F16, mag) - 1));
    }
  }

  lemma RoundedIs(kept: nat, rem: nat, half: nat)
    ensures Rounded(false, kept, rem, half) == if RoundsUp(false, kept, rem, half) then kept + 1 else kept
  { }

  // Rounding in the top binade carries at most to the infinity pattern.
  lemma F16NoCap(mag: nat)
    requires 1 <= mag / P23 && -10 <= mag / P23 - 112 < 31
    ensures FormatOk(F16) && InRange(F16, mag)
    ensures Rounded(false, Kept(F16, mag), Rest(F16, mag), Pow2(Dropped(F16, mag) - 1)) <= F16_INF
  {
    F16Ok();
    Pow13();
    if TargetExp(F16, mag) <= 0 {
      SubnormalBracket(F16, mag);
    } else {
      hide Pow2;
      LShiftIs(TargetExp(F16, mag), 10);
      assert Dropped(F16, mag) == 13;
      assert RShift(mag % P23, 13) <= 1023;
    }
  }

  lemma F16Underflow(mag: nat)
    requires mag / P23 - 112 < -10
    ensures FormatOk(F16) && NearestEven(F16, F16_INF, Steps(23, mag), 0)
  {
    F16Ok();
    hide Pow2; hide Steps; hide Size;
    UnderflowSmall(F16, mag);
    forall p: nat | p > 0 ensures Size(F16, p) >= Size(F16, 1) { SizeMono(F16, 1, p); }
  }

  lemma F16Overflow(mag: nat)
    requires 31 <= mag / P23 - 112
    ensures FormatOk(F16) && NearestEven(F16, F16_INF, Steps(23, mag), F16_INF)
  {
    F16Ok();
    P23IsPow2();
    hide Pow2; hide Steps; hide Size;
    var e, man := mag / P23, mag % P23;
    StepsOfFloat(mag, e, man);
    SizeOfBinade(F16, 31);
    Pow2Add(23, e - 1);
    Pow2Mono(31 + 149 - 15, 23 + (e - 1));
    ScaleBound(P23, P23 + man, Pow2(e - 1));
    forall p: nat | p <= F16_INF ensures Size(F16, p) <= Size(F16, F16_INF) && (p < F16_INF ==> Size(F16, p) < Size(F16, F16_INF)) {
      if p < F16_INF { SizeStrict(F16, p, F16_INF); }
    }
  }

  lemma F16Signs(s: nat, mag: nat, x: Bits32)
    requires s < 2 && mag < 0x8000 && Sign(x) == s && Mag(x) < INF32 && F16Encode(Mag(x)) == mag
    ensures F16Encode(x) == s * 0x8000 + mag
  {
    hide Rounded; hide Pow2;
    assert Sign(Mag(x)) == 0 && Mag(Mag(x)) == Mag(x);
  }

  lemma F16Finite(mag: nat)
    requires mag < F16_INF
    ensures FormatOk(F16) && DecodeFinite(F16, mag) < INF32 && F16Encode(DecodeFinite(F16, mag)) == mag
  {
    F16Ok();
    hide Pow2; hide Steps; hide NearestEven; hide Size; hide DecodeFinite; hide F16Encode; hide FormatOk;
    DecodeExact(F16, mag);
    F16Nearest(DecodeFinite(F16, mag));
    NearestOfExact(F16, F16_INF, mag, F16Encode(DecodeFinite(F16, mag)));
  }

  // Every binary16 pattern that is no NaN survives decoding and encoding.
  lemma F16RoundTrip(h: nat)
    requires h < 0x10000 && (h % 0x8000) <= F16_INF
    ensures F16Decode(h) < 0x1_0000_0000 && F16Encode(F16Decode(h)) == h
  {
    F16Ok();
    hide Pow2; hide DecodeFinite; hide Rounded; hide FormatOk;
    var s, mag := h / 0x8000, h % 0x8000;
    if mag < F16_INF {
      F16Finite(mag);
      SignParts(s, DecodeFinite(F16, mag));
      F16Signs(s, mag, F16Decode(h));
    } else {
      SignParts(s, INF32);
    }
  }

  // ---- the table's values (OCP OFP8 Tables 1 and 2, OCP MX v1.0 Table 7) ----------------------

  lemma SmallShifts()
    ensures Pow2(1) == 2 && Pow2(2) == 4 && Pow2(3) == 8 && Pow2(4) == 16 && Pow2(5) == 32 && Pow2(7) == 128
    ensures Pow2(20) == 0x10_0000 && Pow2(21) == 0x20_0000 && Pow2(22) == 0x40_0000
  {
    Pow20();
    assert Pow2(21) == 2 * Pow2(20) && Pow2(22) == 2 * Pow2(21);
  }

  // A field with exponent e and mantissa n, as binary32 writes it.
  lemma NormalDecode(F: Format, e: nat, n: nat)
    requires FormatOk(F) && e >= 1 && n < Pow2(F.M) && e * Pow2(F.M) + n <= F.maxBits
    ensures Decode(F, e * Pow2(F.M) + n) == (e - F.bias + 127) * P23 + n * Pow2(23 - F.M)
  {
    var P, mag := Pow2(F.M), e * Pow2(F.M) + n;
    DivUnique(mag, P, e, n);
    LShiftIs(n, 23 - F.M);
    hide Pow2; hide Decode; hide FormatOk;
    DecodeFiniteField(F, mag);
  }

  lemma DecodeFiniteField(F: Format, mag: nat)
    requires FormatOk(F) && mag <= F.maxBits
    ensures Decode(F, mag) == DecodeFinite(F, mag)
  {
    FieldCapacity(F);
    FiniteIsPlain(F, mag);
    var half := Pow2(F.fieldWidth - 1);
    hide Pow2; hide DecodeFinite; hide FormatOk; hide TopNormal; hide MaxExp; hide AllMant;
    DivUnique(mag, half, 0, mag);
  }

  // The greatest finite values: 448, 57344, 28, 7.5 and 6.
  lemma GreatestValues()
    ensures FormatOk(E4M3) && Decode(E4M3, 0x7E) == 0x43E0_0000 && FormatOk(E5M2) && Decode(E5M2, 0x7B) == 0x4760_0000
    ensures FormatOk(E3M2) && Decode(E3M2, 0x1F) == 0x41E0_0000 && FormatOk(E2M3) && Decode(E2M3, 0x1F) == 0x40F0_0000
    ensures FormatOk(E2M1) && Decode(E2M1, 0x07) == 0x40C0_0000
    ensures E4M3.maxBits == 0x7E && E5M2.maxBits == 0x7B && E3M2.maxBits == 0x1F && E2M3.maxBits == 0x1F && E2M1.maxBits == 0x07
  {
    FormatsOk();
    SmallShifts();
    hide Pow2; hide Decode; hide FormatOk;
    NormalDecode(E4M3, 15, 6);
    NormalDecode(E5M2, 30, 3);
    NormalDecode(E3M2, 7, 3);
    NormalDecode(E2M3, 3, 7);
    NormalDecode(E2M1, 3, 1);
  }

  // The pattern of 1.0 in each.
  lemma PatternsOfOne()
    ensures FormatOk(E4M3) && Decode(E4M3, 0x38) == 0x3F80_0000 && FormatOk(E5M2) && Decode(E5M2, 0x3C) == 0x3F80_0000
    ensures FormatOk(E3M2) && Decode(E3M2, 0x0C) == 0x3F80_0000 && FormatOk(E2M3) && Decode(E2M3, 0x08) == 0x3F80_0000
    ensures FormatOk(E2M1) && Decode(E2M1, 0x02) == 0x3F80_0000
  {
    FormatsOk();
    SmallShifts();
    hide Pow2; hide Decode; hide FormatOk;
    NormalDecode(E4M3, 7, 0);
    NormalDecode(E5M2, 15, 0);
    NormalDecode(E3M2, 3, 0);
    NormalDecode(E2M3, 1, 0);
    NormalDecode(E2M1, 1, 0);
  }

  // ---- infinities and NaN ---------------------------------------------------------------------

  // Of the five only e5m2 has infinities; e4m3 has one NaN of each sign.
  lemma SpecialFields(s: nat, mag: nat)
    requires s < 2 && mag < 128
    ensures FormatOk(E5M2) && (Decode(E5M2, s * 128 + mag) == s * 0x8000_0000 + 0x7F80_0000 <==> mag == 0x7C)
    ensures Decode(E5M2, s * 128 + mag) == s * 0x8000_0000 + 0x7FC0_0000 <==> mag >= 0x7D
    ensures FormatOk(E4M3) && (Decode(E4M3, s * 128 + mag) == s * 0x8000_0000 + 0x7FC0_0000 <==> mag == 0x7F)
    ensures Decode(E4M3, s * 128 + mag) != s * 0x8000_0000 + 0x7F80_0000
  {
    FormatsOk();
    SmallShifts();
    var field := s * 128 + mag;
    assert field / 128 == s && field % 128 == mag;
    SpecialField(E5M2, s, mag);
    SpecialField(E4M3, s, mag);
    hide Pow2; hide Decode;
  }

  lemma SpecialField(F: Format, s: nat, mag: nat)
    requires FormatOk(F) && F.fieldWidth == 8 && F.nanBits == 0x7F && s < 2 && mag < 128
    ensures mag > F.maxBits ==> Decode(F, s * 128 + mag) == s * SIGN32 + if !TopNormal(F) && mag % Pow2(F.M) == 0 then INF32 else QNAN32
    ensures mag <= F.maxBits ==> Decode(F, s * 128 + mag) < s * SIGN32 + INF32
  {
    SmallShifts();
    FieldCapacity(F);
    var P := Pow2(F.M);
    hide Pow2;
    assert (s * 128 + mag) / 128 == s && (s * 128 + mag) % 128 == mag && mag == (mag / P) * P + mag % P;
    if mag <= F.maxBits {
      DecodeExact(F, mag);
      FiniteIsPlain(F, mag);
    } else {
      BeyondMax(F, mag, P);
    }
  }

  lemma FiniteIsPlain(F: Format, mag: nat)
    requires FormatOk(F) && mag <= F.maxBits
    ensures !(mag / Pow2(F.M) == MaxExp(F) && F.nanBits != 0 && (mag % Pow2(F.M) == AllMant(F) || !TopNormal(F)))
  {
    var P, q := Pow2(F.M), Pow2(F.E);
    hide Pow2; hide TopNormal;
    if F.nanBits != 0 && mag / P == q - 1 {
      FormatTop(F);
      hide FormatOk;
      assert mag == (mag / P) * P + mag % P;
      TopOrBelow(P, q, TopNormal(F), F.maxBits, mag, mag % P);
    }
  }

  lemma FormatTop(F: Format)
    requires FormatOk(F) && F.nanBits != 0
    ensures var P, q := Pow2(F.M), Pow2(F.E); F.maxBits == if TopNormal(F) then q * P - 2 else (q - 1) * P - 1
  {
    hide Pow2; hide TopNormal;
  }

  lemma TopOrBelow(P: nat, q: nat, top: bool, maxBits: nat, mag: nat, n: nat)
    requires P > 0 && q > 0 && mag == (q - 1) * P + n && mag <= maxBits
    requires maxBits == if top then q * P - 2 else (q - 1) * P - 1
    ensures top && n != P - 1
  {
    assert (q - 1) * P + P == q * P;
  }

  lemma BeyondMax(F: Format, mag: nat, P: nat)
    requires FormatOk(F) && F.nanBits != 0 && P == Pow2(F.M) && F.maxBits < mag < Pow2(F.E) * P
    ensures mag / P == MaxExp(F) && (mag % P == AllMant(F) || !TopNormal(F))
  {
    hide Pow2;
    assert MaxExp(F) * P + P == Pow2(F.E) * P;
    DivUnique(mag, P, MaxExp(F), mag - MaxExp(F) * P);
  }

  // NaN goes to NaN with its sign where the format has one, else to the greatest
  // value; infinity saturates with its sign.
  lemma SpecialsEncoded(F: Format, x: Bits32, rtz: bool)
    requires F in [E4M3, E5M2, E3M2, E2M3, E2M1] && Mag(x) >= INF32
    ensures FormatOk(F)
    ensures Mag(x) > INF32 && F.nanBits != 0 ==> Encode(F, x, rtz, false) == Sign(x) * 128 + 0x7F
    ensures Mag(x) > INF32 ==> Encode(F, x, rtz, true) == F.maxBits
    ensures Mag(x) == INF32 ==> forall nanToMax :: Encode(F, x, rtz, nanToMax) == Sign(x) * Pow2(F.E + F.M) + F.maxBits
  {
    FormatsOk();
    SmallShifts();
    hide Pow2;
  }

  // In binary16 NaN stays NaN, both ways, and keeps its sign.
  lemma F16NaN(x: Bits32, h: nat)
    requires h < 0x10000
    ensures Mag(x) > INF32 ==> F16Encode(x) % 0x8000 > F16_INF && F16Encode(x) / 0x8000 == Sign(x)
    ensures Mag(x) == INF32 ==> F16Encode(x) == Sign(x) * 0x8000 + F16_INF
    ensures h % 0x8000 > F16_INF ==> F16Decode(h) % SIGN32 > INF32 && F16Decode(h) / SIGN32 == h / 0x8000
    ensures h % 0x8000 == F16_INF ==> F16Decode(h) == (h / 0x8000) * SIGN32 + INF32
  {
    hide Pow2; hide DecodeFinite; hide Rounded;
    F16Ok();
  }

  // ---- containers --------------------------------------------------------------------------------

  // narrow_pack and narrow_unpack: the field's place in its byte.
  function Pack(F: Format, field: nat): nat { (field % Pow2(F.fieldWidth)) * Pow2(F.fieldShift) }
  function Unpack(F: Format, container: nat): nat { RShift(container, F.fieldShift) % Pow2(F.fieldWidth) }

  // A packed field comes back, fits the byte, and leaves the bits beside it clear
  // (e2m1 lies in bits 2 to 5, the others at the low end).
  lemma PackBack(F: Format, field: nat)
    requires F in [E4M3, E5M2, E3M2, E2M3, E2M1] && field < Pow2(F.fieldWidth)
    ensures Unpack(F, Pack(F, field)) == field && Pack(F, field) < 256
    ensures forall i: nat :: Bit(Pack(F, field), i) ==> if F == E2M1 then 2 <= i < 6 else i < F.fieldWidth
  {
    ShiftsOf(F);
    PackedFits(field, F.fieldWidth, F.fieldShift);
    hide Pow2;
    forall i: nat | Bit(Pack(F, field), i) ensures F.fieldShift <= i < F.fieldShift + F.fieldWidth {
      BitShl(field, F.fieldShift, i);
      if i - F.fieldShift >= F.fieldWidth { BitAbove(field, F.fieldWidth, i - F.fieldShift); }
    }
  }

  lemma ShiftsOf(F: Format)
    requires F in [E4M3, E5M2, E3M2, E2M3, E2M1]
    ensures F.fieldShift + F.fieldWidth <= 8 && F.fieldShift == (if F == E2M1 then 2 else 0) && (F == E2M1 ==> F.fieldWidth == 4)
  { }

  lemma PackedFits(field: nat, width: nat, shift: nat)
    requires field < Pow2(width) && shift + width <= 8
    ensures field % Pow2(width) == field && field * Pow2(shift) < 256
    ensures RShift(field * Pow2(shift), shift) == field
  {
    var p, w := Pow2(shift), Pow2(width);
    DivUnique(field, w, 0, field);
    DivUnique(field * p, p, field, 0);
    Pow2Add(width, shift);
    Pow2Mono(width + shift, 8);
    assert Pow2(8) == 256;
    hide Pow2;
    ScaleBound(field + 1, w, p);
    assert (field + 1) * p == field * p + p;
  }

  // ---- the hand-written e4m3 pair (fp8.cpp) ---------------------------------------------------

  function E4m3Encode(x: Bits32): nat {
    var sign, e, man := Sign(x) * 128, Mag(x) / P23, Mag(x) % P23;
    var tExp := e - 127 + 7;
    if e == 255 && man != 0 then sign + 0x7F
    else if e == 255 then sign + 0x7E
    else if e == 0 && man == 0 then sign
    else if tExp > 15 then sign + 0x7E
    else if tExp < -3 then 0
    else sign + E4m3Finite(Mag(x))
  }

  function E4m3Finite(mag: nat): nat
    requires mag / P23 >= 1 && -3 <= mag / P23 - 120 <= 15
  {
    var man, tExp := mag % P23, mag / P23 - 120;
    if tExp <= 0 then
      var full, shift := P23 + man, 1 - tExp + 20;
      var val := Min(Rounded(false, RShift(full, shift), full % Pow2(shift), Pow2(shift - 1)), 0xFF);
      if val / 8 == 15 then 0x7E else val % 256
    else
      var val := Rounded(false, tExp * 8 + man / 0x10_0000, man % 0x10_0000, 0x8_0000);
      if val / 8 > 15 then 0x7E
      else if val / 8 == 15 && val % 8 == 7 then 0x7E
      else val % 256
  }

  function E4m3Decode(u: nat): nat {
    var fsign, exp, man := ((u / 128) % 2) * SIGN32, (u / 8) % 16, u % 8;
    if exp == 0 then
      if man == 0 then fsign
      else
        EightIsPow2();
        NormalShiftBound(3, man);
        fsign + (121 - NormalShift(3, man)) * P23 + Raised(3, man) * 0x10_0000
    else if exp == 15 && man == 7 then fsign + QNAN32
    else fsign + (exp + 120) * P23 + man * 0x10_0000
  }

  lemma EightIsPow2()
    ensures Pow2(3) == 8
  { }

  lemma Pow20()
    ensures Pow2(20) == 0x10_0000 && Pow2(19) == 0x8_0000 && Pow2(3) == 8 && Pow2(4) == 16 && Pow2(7) == 128
  {
    assert Pow2(3) == 8 && Pow2(4) == 16 && Pow2(7) == 128;
    Pow2Add(8, 8);
    Pow2Add(16, 4);
    Pow2Add(16, 3);
    assert Pow2(8) == 256;
  }

  lemma E4m3Sub(mag: nat)
    requires mag / P23 >= 1 && -3 <= mag / P23 - 120 <= 0
    ensures FormatOk(E4M3) && InRange(E4M3, mag) && TargetExp(E4M3, mag) == mag / P23 - 120
    ensures Dropped(E4M3, mag) == 21 - TargetExp(E4M3, mag)
    ensures FiniteField(E4M3, mag, false) == E4m3Finite(mag)
  {
    FormatsOk();
    Pow20();
    hide Pow2; hide Rounded; hide Bracket; hide SubnormalField; hide FormatOk; hide Kept; hide Rest;
    E4m3SubKept(mag);
    SubnormalBracket(E4M3, mag);
    var kept, rem, half := Kept(E4M3, mag), Rest(E4M3, mag), Pow2(Dropped(E4M3, mag) - 1);
    RoundedAtMost(kept, rem, half);
    SubnormalIsMin(E4M3, Rounded(false, kept, rem, half));
  }

  lemma E4m3Sat(val: nat)
    ensures (if val / 8 > 15 then 0x7E else if val / 8 == 15 && val % 8 == 7 then 0x7E else val % 256) == Min(val, 0x7E)
  { }

  lemma E4m3Normal(mag: nat)
    requires mag / P23 >= 1 && 1 <= mag / P23 - 120 <= 15
    ensures FormatOk(E4M3) && InRange(E4M3, mag) && TargetExp(E4M3, mag) == mag / P23 - 120
    ensures FiniteField(E4M3, mag, false) == E4m3Finite(mag)
  {
    FormatsOk();
    Pow20();
    hide Pow2; hide Rounded; hide Saturated; hide FormatOk;
    LShiftIs(TargetExp(E4M3, mag), 3);
    assert Dropped(E4M3, mag) == 20;
    E4m3Sat(Rounded(false, (mag / P23 - 120) * 8 + (mag % P23) / 0x10_0000, (mag % P23) % 0x10_0000, 0x8_0000));
    SaturatedIsMin(E4M3, Rounded(false, Kept(E4M3, mag), Rest(E4M3, mag), Pow2(Dropped(E4M3, mag) - 1)));
  }

  lemma E4m3FiniteIs(mag: nat)
    requires mag / P23 >= 1 && -3 <= mag / P23 - 120 <= 15
    ensures FormatOk(E4M3) && InRange(E4M3, mag) && E4m3Finite(mag) == FiniteField(E4M3, mag, false)
  {
    hide Pow2; hide Rounded; hide FiniteField; hide E4m3Finite; hide FormatOk; hide Kept; hide Rest; hide Dropped;
    if mag / P23 - 120 <= 0 {
      E4m3Sub(mag);
    } else {
      E4m3Normal(mag);
    }
  }

  // The specialised encoder is the generic one at e4m3.
  lemma E4m3EncodeIsGeneric(x: Bits32)
    ensures FormatOk(E4M3) && E4m3Encode(x) == Encode(E4M3, x, false, false)
  {
    FormatsOk();
    Pow20();
    hide Pow2; hide FiniteField; hide E4m3Finite; hide FormatOk;
    var mag := Mag(x);
    if mag / P23 >= 1 && -3 <= mag / P23 - 120 <= 15 { E4m3FiniteIs(mag); }
  }

  lemma E4m3SubKept(mag: nat)
    requires FormatOk(E4M3) && InRange(E4M3, mag) && TargetExp(E4M3, mag) <= 0
    ensures var full, shift := P23 + mag % P23, 21 - TargetExp(E4M3, mag);
      Dropped(E4M3, mag) == shift && Kept(E4M3, mag) == RShift(full, shift) && Rest(E4M3, mag) == full % Pow2(shift)
  {
    hide Pow2; hide FormatOk;
  }

  lemma RoundedAtMost(kept: nat, rem: nat, half: nat)
    ensures Rounded(false, kept, rem, half) <= kept + 1
  { }

  lemma E4m3DecodeIsGeneric(u: nat)
    requires u < 256
    ensures FormatOk(E4M3) && E4m3Decode(u) == Decode(E4M3, u)
  {
    FormatsOk();
    Pow20();
    hide Pow2; hide FormatOk; hide DecodeFinite; hide TopNormal; hide Raised; hide NormalShift; hide LShift;
    var mag := u % 128;
    assert mag / 8 == (u / 8) % 16 && mag % 8 == u % 8;
    E4m3DecodeFinite(mag);
  }

  lemma E4m3DecodeFinite(mag: nat)
    requires mag < 128
    ensures FormatOk(E4M3)
    ensures mag / 8 == 0 && mag % 8 > 0 ==>
      NormalShift(3, mag % 8) <= 3 && DecodeFinite(E4M3, mag) == (121 - NormalShift(3, mag % 8)) * P23 + Raised(3, mag % 8) * 0x10_0000
    ensures mag / 8 == 0 && mag % 8 == 0 ==> DecodeFinite(E4M3, mag) == 0
    ensures mag / 8 > 0 ==> DecodeFinite(E4M3, mag) == (mag / 8 + 120) * P23 + (mag % 8) * 0x10_0000
  {
    FormatsOk();
    Pow20();
    hide Pow2; hide FormatOk;
    if mag / 8 == 0 && mag % 8 > 0 {
      NormalShiftBound(3, mag % 8);
      LShiftIs(Raised(3, mag % 8), 20);
    }
    LShiftIs(mag % 8, 20);
  }
}
