// prmt, byte by byte: what the packed result of the selector loop means.
module BytePermute {
  import opened Bits
  import opened Words
  import opened Ptx

  // Byte j of x.
  function ByteNo(x: nat, j: nat): nat { (x / Pow2(8 * j)) % 256 }

  // The selectors name the eight bytes of b:a.
  function SelectedByte(a: Word, b: Word, sel: nat): nat {
    var i := sel % 8;
    if i < 4 then ByteNo(a, i) else ByteNo(b, i - 4)
  }

  // Byte j of the permutation: the byte its selector names, or, with the
  // selector's top bit set, eight copies of that byte's sign.
  function PermutedByte(a: Word, b: Word, c: Word, j: nat): nat {
    var sel := (c / Pow2(4 * j)) % 16;
    var byte := SelectedByte(a, b, sel);
    if sel < 8 then byte else if byte < 128 then 0 else 255
  }

  // ---- bits of bytes --------------------------------------------------------------

  lemma ByteBit(x: nat, j: nat, i: nat)
    ensures Bit(ByteNo(x, j), i) <==> i < 8 && Bit(x, i + 8 * j)
  {
    SmallPowers();
    var y := RShift(x, 8 * j);
    BitMod(y, 8, i);
    BitShr(x, 8 * j, i);
  }

  lemma ByteOfSmall(x: nat)
    requires x < 256
    ensures ByteNo(x, 0) == x
  { }

  // Whether the top bit of a short number is set.
  lemma TopBit(x: nat, k: nat)
    requires x < 2 * Pow2(k)
    ensures And(x, Pow2(k)) != 0 <==> x >= Pow2(k)
  {
    var p := Pow2(k);
    assert Bit(x, k) <==> x >= p by {
      BitShr(x, k, 0);
      if x >= p { DivUnique(x, p, 1, x - p); } else { DivUnique(x, p, 0, x); }
    }
    forall i: nat ensures Bit(And(x, p), i) <==> Bit(x, k) && i == k {
      BitAnd(x, p, i);
      BitShl(1, k, i);
      if i > k { BitAbove(1, 1, i - k); }
    }
    if Bit(x, k) {
      if And(x, p) == 0 { BitOfZero(k); }
    } else {
      forall i: nat ensures Bit(And(x, p), i) == Bit(0, i) { BitOfZero(i); }
      BitsDecide(And(x, p), 0);
    }
  }

  // ---- the loop's parts ----------------------------------------------------------------

  lemma PairByte(x: nat, y: nat, i: nat)
    requires x < M32 && y < M32 && i < 8
    ensures ByteNo(Pair64(x, y), i) == if i < 4 then ByteNo(x, i) else ByteNo(y, i - 4)
  {
    var want := if i < 4 then ByteNo(x, i) else ByteNo(y, i - 4);
    ModulusIsPow2(B32);
    hide ByteNo; hide Bit; hide Or; hide Pow2;
    forall n: nat ensures Bit(ByteNo(Pair64(x, y), i), n) == Bit(want, n) {
      ByteBit(Pair64(x, y), i, n);
      BitOr(x, y * Pow2(32), n + 8 * i);
      BitShl(y, 32, n + 8 * i);
      if i < 4 {
        ByteBit(x, i, n);
      } else {
        ByteBit(y, i - 4, n);
        BitAbove(x, 32, n + 8 * i);
      }
    }
    BitsDecide(ByteNo(Pair64(x, y), i), want);
  }

  lemma SourceIs(x: Word, y: Word, field: nat)
    requires x < M32 && y < M32
    ensures SourceByte(Pair64(x, y), field) == SelectedByte(x, y, field)
  {
    SmallPowers();
    assert Pow2(3) == 8;
    AndOnes(field, 3);
    AndOnes(RShift(Pair64(x, y), (field % 8) * 8), 8);
    PairByte(x, y, field % 8);
  }

  lemma TargetIs(x: Word, y: Word, c: Word, j: nat)
    requires x < M32 && y < M32
    ensures PrmtByte(Pair64(x, y), Selector(c, j)) == PermutedByte(x, y, c, j)
  {
    SmallPowers();
    var sel := Selector(c, j);
    AndOnes(RShift(c, 4 * j), 4);
    SourceIs(x, y, sel);
    assert Pow2(3) == 8 && Pow2(7) == 128;
    TopBit(sel, 3);
    TopBit(SourceByte(Pair64(x, y), sel), 7);
  }

  lemma {:induction false} PackedBound(src: Word, c: Word, n: nat)
    ensures PrmtBytes(src, c, n) < Pow2(8 * n)
  {
    if n > 0 {
      PackedBound(src, c, n - 1);
      var byte := PrmtByte(src, Selector(c, n - 1));
      Times256(8 * (n - 1));
      ScaleBound(byte, 255, Pow2(8 * (n - 1)));
      OrBound(PrmtBytes(src, c, n - 1), LShift(byte, 8 * (n - 1)), 8 * n);
    }
  }

  lemma {:induction false} PackedByte(src: Word, c: Word, n: nat, j: nat)
    requires j < n
    ensures ByteNo(PrmtBytes(src, c, n), j) == PrmtByte(src, Selector(c, j))
  {
    var low, byte := PrmtBytes(src, c, n - 1), PrmtByte(src, Selector(c, n - 1));
    var want := PrmtByte(src, Selector(c, j));
    PackedBound(src, c, n - 1);
    if j < n - 1 { PackedByte(src, c, n - 1, j); }
    ByteOfSmall(want);
    hide ByteNo; hide Bit; hide Or; hide Pow2; hide PrmtByte; hide Selector;
    forall i: nat ensures Bit(ByteNo(PrmtBytes(src, c, n), j), i) == Bit(want, i) {
      ByteBit(PrmtBytes(src, c, n), j, i);
      BitOr(low, LShift(byte, 8 * (n - 1)), i + 8 * j);
      BitShl(byte, 8 * (n - 1), i + 8 * j);
      if j < n - 1 {
        ByteBit(low, j, i);
      } else {
        BitAbove(low, 8 * (n - 1), i + 8 * j);
        ByteBit(byte, 0, i);
      }
    }
    BitsDecide(ByteNo(PrmtBytes(src, c, n), j), want);
  }

  // prmt selects four bytes; it refuses the modes beyond the default one.
  lemma PrmtMeaning(a: Word, b: Word, c: Word, j: nat)
    requires j < 4
    ensures PrmtVal(a, b, c).None? <==> (Fit(B32, c) / 65536) % 16 != 0
    ensures PrmtVal(a, b, c).Some? ==>
      ByteNo(PrmtVal(a, b, c).value, j) == PermutedByte(Fit(B32, a), Fit(B32, b), Fit(B32, c), j)
  {
    SmallPowers();
    var x, y, z := Fit(B32, a), Fit(B32, b), Fit(B32, c);
    AndOnes(z / 65536, 4);
    PackedBound(Pair64(x, y), z, 4);
    ModulusIsPow2(B32);
    FitSame(B32, PrmtBytes(Pair64(x, y), z, 4));
    hide PrmtBytes; hide Pair64; hide PermutedByte; hide ByteNo;
    PackedByte(Pair64(x, y), z, 4, j);
    TargetIs(x, y, z, j);
  }
}
